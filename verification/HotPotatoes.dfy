/** Sequences on which the list of hot potatoes goes wrong: signatures that make and take an object differ on whether
    it is one. */
module HotPotatoes {
  import opened Wrappers
  import opened Abi
  import opened Sequences
  import opened Objects
  import opened Ledger
  import opened LedgerLaws

  /** A struct put in for a type parameter counts as a hot potato, whatever its abilities, unless it is the
      transaction context or a balance: the embedding of a tag knows no abilities. */
  lemma {:induction false} EmbeddedCountsAsHot(i: nat, constraints: Abilities, m: Bindings)
    requires i in m && m[i].StructTag?
    ensures var tag := m[i];
            IsHotPotato(PartialSubst(Param(i, constraints), m)) <==>
              && !(tag.tys == [] && tag.address == 2 && tag.modul == "tx_context" && tag.name == "TxContext")
              && !(tag.tys != [] && tag.address == 2 && tag.modul == "balance" && tag.name == "Balance")
  {
    var t := Lossy(m[i]);
    assert PartialSubst(Param(i, constraints), m) == t;
    assert if m[i].tys == [] then t.Struct? else t.Instance?;
    assert t.handle.abilities == {};
  }

  // ----- functions that make and take a struct by name, or anything

  /** A plain struct, other than the transaction context. */
  predicate Plain(h: StructHandle) {
    h.typeParameters == [] && !HandleIs(h, 2, "tx_context", "TxContext")
  }

  function PlainTag(h: StructHandle): Tag {
    StructTag(h.moduleId.address, h.moduleId.name, h.name, [])
  }

  const MAKE := FunctionIdent(7, "m", "make")
  const MAKE_ANY := FunctionIdent(7, "m", "make_any")
  const TAKE := FunctionIdent(7, "m", "take")
  const TAKE_ANY := FunctionIdent(7, "m", "take_any")

  function Shop(h: StructHandle): Functions {
    map[MAKE := FunctionAbi("make", [], [Struct(h)], [], true),
        MAKE_ANY := FunctionAbi("make_any", [], [Param(0, {})], [{}], true),
        TAKE := FunctionAbi("take", [Struct(h)], [], [], true),
        TAKE_ANY := FunctionAbi("take_any", [Param(0, {})], [], [{}], true)]
  }

  function Make(): MoveCall {
    MoveCall(MAKE, [], [])
  }

  function MakeAny(h: StructHandle): MoveCall {
    MoveCall(MAKE_ANY, [PlainTag(h)], [])
  }

  function Take(arg: Argument): MoveCall {
    MoveCall(TAKE, [], [arg])
  }

  function TakeAny(h: StructHandle, arg: Argument): MoveCall {
    MoveCall(TAKE_ANY, [PlainTag(h)], [arg])
  }

  lemma {:induction false} AnyIsHot(h: StructHandle)
    requires Plain(h)
    ensures IsHotPotato(PartialSubst(Param(0, {}), map[0 := PlainTag(h)]))
    ensures Subst(Param(0, {}), map[0 := PlainTag(h)]) == Some(PlainTag(h))
  {
    EmbeddedCountsAsHot(0, {}, map[0 := PlainTag(h)]);
  }

  lemma {:induction false} OneTyArg(call: MoveCall, tag: Tag)
    requires call.typeArguments == [tag]
    ensures TyArgs(call) == map[0 := tag]
  {
  }

  /** Making adds the object, hot if made under a type parameter or if it is a hot potato by itself. */
  lemma {:induction false} Makes(env: Env, h: StructHandle, a: Accounts, i: nat, any: bool)
    requires env.fs == Shop(h) && Plain(h)
    ensures var call := if any then MakeAny(h) else Make();
            && Called(env, a, i, call)
            == a.(live := a.live + [Entry(Result(i), PlainTag(h), Owned, any || IsHotPotato(Struct(h)))])
            && CallProceeds(env, a, call) && CallFine(env, a.live, call)
  {
    var call := if any then MakeAny(h) else Make();
    var f := env.fs[call.function_];
    if any {
      OneTyArg(call, PlainTag(h));
      AnyIsHot(h);
    }
    assert Pairs(call, f) == 0 && |f.results| == 1;
    TakeAllNone(a, call, f);
    MakeAllNone(env, a, i, call, f);
    NextResult(env, a, i, call, f, 0);
  }

  /** The accounts after one object is taken. */
  ghost function TakenFrom(a: Accounts, arg: Argument, ty: Tag, takesHot: bool): Accounts {
    Accounts(Without(a.live, arg, ty), a.vectors,
             if HasHot(a.live, arg, ty) && !takesHot then a.stale + multiset{ty} else a.stale,
             if !HasHot(a.live, arg, ty) && takesHot then a.over + multiset{ty} else a.over)
  }

  ghost predicate OneTaken(env: Env, call: MoveCall, f: FunctionAbi, ty: Tag) {
    && call.function_ in env.fs && env.fs[call.function_] == f
    && |call.arguments| == 1 && |f.parameters| == 1 && f.results == []
    && TakesByValue(f.parameters[0]) && TakenType(call, f, 0) == Some(ty)
  }

  lemma {:induction false} TakesOne(env: Env, a: Accounts, i: nat, call: MoveCall, f: FunctionAbi, ty: Tag)
    requires OneTaken(env, call, f, ty)
    ensures Called(env, a, i, call) == TakenFrom(a, call.arguments[0], ty, TakesHot(call, f, 0))
  {
    TakeAllNone(a, call, f);
    TakeAllStep(a, call, f, 0);
    MakeAllNone(env, TakeAll(a, call, f, 1), i, call, f);
  }

  lemma {:induction false} TakesOneProceeds(env: Env, a: Accounts, call: MoveCall, f: FunctionAbi, ty: Tag)
    requires OneTaken(env, call, f, ty)
    ensures CallProceeds(env, a, call) <==> Lists(a.live, ty) && (TakesHot(call, f, 0) ==> ty in HotList(a))
  {
    TakeAllNone(a, call, f);
    assert AllProceed(a, call, f, 1) <==> ArgumentProceeds(a, call, f, 0);
    assert Instantiates(call, f, 0);
  }

  lemma {:induction false} TakesOneFine(env: Env, live: seq<Entry>, call: MoveCall, f: FunctionAbi, ty: Tag)
    requires OneTaken(env, call, f, ty)
    ensures CallFine(env, live, call) <==> Has(live, call.arguments[0], ty)
  {
    assert Consumed(live, call, f, 0) == live;
    assert ArgumentFine(live, call, f, 0) <==> Has(live, call.arguments[0], ty);
    assert Instantiates(call, f, 0);
  }

  /** Taking one object takes it out, under its type; taking under a type parameter takes it as a hot potato. */
  lemma {:induction false} Takes(env: Env, h: StructHandle, a: Accounts, i: nat, arg: Argument, any: bool)
    requires env.fs == Shop(h) && Plain(h) && !arg.Input?
    ensures var call := if any then TakeAny(h, arg) else Take(arg);
            var ty, takesHot := PlainTag(h), any || IsHotPotato(Struct(h));
            && Called(env, a, i, call) == TakenFrom(a, arg, ty, takesHot)
            && (CallProceeds(env, a, call) <==> Lists(a.live, ty) && (takesHot ==> ty in HotList(a)))
            && (CallFine(env, a.live, call) <==> Has(a.live, arg, ty))
  {
    var call := if any then TakeAny(h, arg) else Take(arg);
    if any {
      OneTyArg(call, PlainTag(h));
      AnyIsHot(h);
    }
    var f := env.fs[call.function_];
    TakesOne(env, a, i, call, f, PlainTag(h));
    TakesOneProceeds(env, a, call, f, PlainTag(h));
    TakesOneFine(env, a.live, call, f, PlainTag(h));
  }

  lemma {:induction false} Appended(env: Env, cmds: seq<Command>, call: MoveCall, all: seq<Command>)
    requires all == cmds + [Call(call)]
    ensures var a := After(env, [], cmds, |cmds|);
            && After(env, [], all, |all|) == Called(env, a, |cmds|, call)
            && (Linear(env, [], all) <==> Linear(env, [], cmds) && CallFine(env, a.live, call))
            && (Proceeds(env, [], all) <==> Proceeds(env, [], cmds) && CallProceeds(env, a, call))
  {
    AfterAppended(env, [], cmds, call);
    LinearAppended(env, [], cmds, call);
    ProceedsAppended(env, [], cmds, call);
  }

  lemma {:induction false} FirstMade(env: Env, h: StructHandle, any: bool)
    requires env.fs == Shop(h) && Plain(h)
    ensures var cmds := [Call(if any then MakeAny(h) else Make())];
            && Linear(env, [], cmds) && Proceeds(env, [], cmds)
            && After(env, [], cmds, 1) == Opening([Entry(Result(0), PlainTag(h), Owned, any || IsHotPotato(Struct(h)))])
  {
    var call := if any then MakeAny(h) else Make();
    Appended(env, [], call, [Call(call)]);
    Makes(env, h, Opening([]), 0, any);
  }

  lemma {:induction false} HasOnly(e: Entry)
    ensures Has([e], e.arg, e.ty) && Lists([e], e.ty) && (HasHot([e], e.arg, e.ty) <==> e.hot)
    ensures Without([e], e.arg, e.ty) == [] && HotTypes([e]) == if e.hot then multiset{e.ty} else multiset{}
  {
    assert [e][0] == e && [e][..0] == [];
  }

  /** The object is made under a type parameter and taken under its own name: it stays on the list for good, though
      it can be dropped and nothing is left. */
  lemma {:induction false} StaleForGood(env: Env, h: StructHandle)
    requires env.fs == Shop(h) && Plain(h) && Drop in h.abilities
    ensures var cmds := [Call(MakeAny(h)), Call(Take(Result(0)))];
            && Linear(env, [], cmds) && Proceeds(env, [], cmds)
            && After(env, [], cmds, 2) == Accounts([], multiset{}, multiset{PlainTag(h)}, multiset{})
  {
    var e := Entry(Result(0), PlainTag(h), Owned, true);
    FirstMade(env, h, true);
    Takes(env, h, Opening([e]), 1, Result(0), false);
    HasOnly(e);
    Appended(env, [Call(MakeAny(h))], Take(Result(0)), [Call(MakeAny(h)), Call(Take(Result(0)))]);
  }

  /** Made under its own name and taken under a type parameter: the source panics, though the sequence is linear. */
  lemma {:induction false} GenericTakerPanics(env: Env, h: StructHandle)
    requires env.fs == Shop(h) && Plain(h) && Drop in h.abilities
    ensures var cmds := [Call(Make()), Call(TakeAny(h, Result(0)))];
            Linear(env, [], cmds) && !Proceeds(env, [], cmds)
  {
    var e := Entry(Result(0), PlainTag(h), Owned, false);
    FirstMade(env, h, false);
    Takes(env, h, Opening([e]), 1, Result(0), true);
    HasOnly(e);
    Appended(env, [Call(Make())], TakeAny(h, Result(0)), [Call(Make()), Call(TakeAny(h, Result(0)))]);
  }

  lemma {:induction false} HasSecond(e: Entry, e': Entry)
    requires e.arg != e'.arg && e.ty == e'.ty && e.hot && !e'.hot
    ensures Has([e, e'], e'.arg, e'.ty) && Lists([e, e'], e'.ty) && !HasHot([e, e'], e'.arg, e'.ty)
    ensures Without([e, e'], e'.arg, e'.ty) == [e] && HotTypes([e, e']) == multiset{e.ty} == HotTypes([e])
  {
    HasOnly(e);
    HasSnoc([e], e', e'.arg, e'.ty);
    HotSnoc([e], e');
    assert [e, e'] == [e] + [e'] && [e, e'][..1] == [e] && [e][..0] == [];
    assert [e, e'][1] == e';
    assert Without([e], e'.arg, e'.ty) == [e];
  }

  lemma {:induction false} BothMade(env: Env, h: StructHandle, e: Entry, e': Entry)
    requires env.fs == Shop(h) && Plain(h) && Drop in h.abilities
    requires e == Entry(Result(0), PlainTag(h), Owned, true) && e' == Entry(Result(1), PlainTag(h), Owned, false)
    ensures var cmds := [Call(MakeAny(h)), Call(Make())];
            Linear(env, [], cmds) && Proceeds(env, [], cmds) && After(env, [], cmds, 2) == Opening([e, e'])
  {
    FirstMade(env, h, true);
    Makes(env, h, Opening([e]), 1, false);
    Appended(env, [Call(MakeAny(h))], Make(), [Call(MakeAny(h)), Call(Make())]);
    assert [e] + [e'] == [e, e'];
  }

  /** With another object of the type on the list, that one's entry goes instead: the list is empty, and a hot object
      is at hand. */
  lemma {:induction false} GenericTakerRobs(env: Env, h: StructHandle)
    requires env.fs == Shop(h) && Plain(h) && Drop in h.abilities
    ensures var cmds := [Call(MakeAny(h)), Call(Make()), Call(TakeAny(h, Result(1)))];
            && Linear(env, [], cmds) && Proceeds(env, [], cmds)
            && After(env, [], cmds, 3)
            == Accounts([Entry(Result(0), PlainTag(h), Owned, true)], multiset{}, multiset{}, multiset{PlainTag(h)})
            && HotList(After(env, [], cmds, 3)) == multiset{}
  {
    var e, e' := Entry(Result(0), PlainTag(h), Owned, true), Entry(Result(1), PlainTag(h), Owned, false);
    BothMade(env, h, e, e');
    HasSecond(e, e');
    Takes(env, h, Opening([e, e']), 2, Result(1), true);
    Appended(env, [Call(MakeAny(h)), Call(Make())], TakeAny(h, Result(1)),
             [Call(MakeAny(h)), Call(Make()), Call(TakeAny(h, Result(1)))]);
  }
}
