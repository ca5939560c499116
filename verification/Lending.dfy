/** Which objects a found call gives away, lends mutably or lends, told by its parameters, the lists and the owners on
    chain (crates/movy-fuzz/src/mutators/object_data.rs, `try_construct_args` and `from_ptb`). */
module Lending {
  import opened Wrappers
  import opened Abi
  import opened Sequences
  import opened Objects
  import opened Ledger
  import opened LedgerLaws
  import opened Candidates
  import opened Sampling
  import opened Construct
  import opened Filling
  import opened CallArguments
  import opened Appending

  // ----- abilities of type arguments

  /** A struct has the abilities it is declared with; a vector all but `key`; a primitive likewise, except that a signer
      can only be dropped. */
  ghost predicate HasAbility(structs: StructName -> Abilities, tag: Tag, x: Ability) {
    match tag
    case StructTag(a, modul, name, _) => x in structs(StructName(a, modul, name))
    case VectorTag(_) => x != Key
    case PrimTag(p) => if p == Signer then x == Drop else x != Key
  }

  lemma {:induction false} AbilityIff(structs: StructName -> Abilities, tag: Tag, x: Ability)
    ensures x in TagAbilities(structs, tag) <==> HasAbility(structs, tag, x)
  {
    match x
    case Copy =>
    case Drop =>
    case Store =>
    case Key =>
  }

  /** A chosen type argument has every ability that the function demands of it. */
  lemma {:induction false} BoundHasAbility(cx: Context, wants: seq<Want>, m: Bindings, i: nat, x: Ability)
    requires AllStructs(wants) && Choosable(cx, wants, m) && i in m
    ensures i < |cx.abilities|
    ensures x in cx.abilities[i] ==> HasAbility(cx.w.structs, m[i], x)
  {
    var k := ChosenHasAbilities(cx, wants, m, i);
    AbilityIff(cx.w.structs, m[i], x);
  }

  /** The tag matches the struct of the parameter by c, whose types have every ability that is demanded of them. */
  ghost predicate MatchedBy(req: Request, p: Token, tag: Tag, c: Bindings)
    requires Acceptable(p)
  {
    && Extract(PartialSubst(Bare(p), req.fixed), tag) == Some(c)
    && forall i :: i in c ==>
         i < |req.cx.abilities| && forall x :: x in req.cx.abilities[i] ==> HasAbility(req.cx.w.structs, c[i], x)
  }

  lemma {:induction false} FitsIff(req: Request, p: Token, tag: Tag, c: Bindings)
    requires Acceptable(p)
    ensures Fits(req.cx.w, req.cx.abilities, PartialSubst(Bare(p), req.fixed), tag, c) <==> MatchedBy(req, p, tag, c)
  {
    forall i, x | i in c ensures x in TagAbilities(req.cx.w.structs, c[i]) <==> HasAbility(req.cx.w.structs, c[i], x) {
      AbilityIff(req.cx.w.structs, c[i], x);
    }
  }

  // ----- what a parameter may use

  /** The struct a parameter is about. */
  function Bare(p: Token): Token {
    if p.Ref? || p.MutRef? then p.inner else p
  }

  /** An object of the chain with this owner may be brought in for the parameter: one of the fuzzer's own, a shared one,
      and for a plain borrow also an immutable one. */
  ghost predicate Usable(w: World, p: Token, o: Owner) {
    o == AddressOwner(w.attacker) || o.SharedOwner? || (p.Ref? && o.ImmutableOwner?)
  }

  ghost predicate OnChain(w: World, p: Token, ty: Tag, id: nat) {
    ty in w.pool && id in w.pool[ty] && id in w.infos && Usable(w, p, w.infos[id].owner)
  }

  lemma {:induction false} WantIs(p: Token, fixed: Bindings)
    requires Acceptable(p)
    ensures WantOf(p, fixed).ty == PartialSubst(Bare(p), fixed)
    ensures forall w: World, ty, id :: id in Available(w, ty, WantOf(p, fixed).gate) <==> OnChain(w, p, ty, id)
    ensures forall listed :: Suitable(WantOf(p, fixed).gate, listed) <==> p.Ref? || listed != Immutable
  {
  }

  /** The parameter can count on a listed object of the type: for a plain borrow the list is enough; to borrow mutably
      it takes one that is not immutable, to take by value one that is owned. */
  ghost predicate ListedFor(existing: Existing, p: Token, ty: Tag) {
    && ty in existing
    && (p.Ref? || exists a, g :: Listed(existing, ty, a, g) && (if p.MutRef? then g != Immutable else g == Owned))
  }

  /** There is an object of type tag for the parameter, at hand or, if its struct has `key`, on chain; c are the type
      arguments that make it one. */
  ghost predicate OnOffer(req: Request, p: Token, tag: Tag, c: Bindings)
    requires Acceptable(p)
  {
    && MatchedBy(req, p, tag, c)
    && (|| ListedFor(req.cx.existing, p, tag)
        || (Key in Bare(p).handle.abilities && exists id :: OnChain(req.cx.w, p, tag, id)))
  }

  lemma {:induction false} ListPromisesIff(existing: Existing, p: Token, fixed: Bindings, ty: Tag)
    requires Acceptable(p)
    ensures ty in existing && ListPromises(existing[ty], WantOf(p, fixed).gate) <==> ListedFor(existing, p, ty)
  {
    if ty in existing && !p.Ref? {
      var list, gate := existing[ty], WantOf(p, fixed).gate;
      if k :| 0 <= k < |list| && Promising(gate, list[k].1) {
        assert list[k] == (list[k].0, list[k].1);
        assert Listed(existing, ty, list[k].0, list[k].1);
      }
      if a, g :| Listed(existing, ty, a, g) && (if p.MutRef? then g != Immutable else g == Owned) {
        var k :| 0 <= k < |list| && list[k] == (a, g);
        assert Promising(gate, list[k].1);
      }
    }
  }

  lemma {:induction false} OffersIff(req: Request, p: Token, tag: Tag, c: Bindings)
    requires Acceptable(p)
    ensures Offers(req.cx.w, req.cx.existing, req.cx.abilities, WantOf(p, req.fixed), tag, c)
       <==> OnOffer(req, p, tag, c)
  {
    WantIs(p, req.fixed);
    FitsIff(req, p, tag, c);
    ListPromisesIff(req.cx.existing, p, req.fixed, tag);
    assert WantOf(p, req.fixed).ty.handle == Bare(p).handle;
    var w, gate := req.cx.w, WantOf(p, req.fixed).gate;
    assert Available(w, tag, gate) != {} <==> exists id :: OnChain(w, p, tag, id) by {
      if id :| id in Available(w, tag, gate) { assert OnChain(w, p, tag, id); }
    }
  }

  /** A parameter has candidates exactly if something is on offer to it. */
  lemma {:induction false} ServedIff(req: Request, p: Token)
    requires Acceptable(p)
    ensures Served(req.cx, WantOf(p, req.fixed)) <==> exists tag, c :: OnOffer(req, p, tag, c)
  {
    var want := WantOf(p, req.fixed);
    if Served(req.cx, want) {
      var c :| Offered(req.cx.w, req.cx.existing, req.cx.abilities, want, c);
      var tag :| Offers(req.cx.w, req.cx.existing, req.cx.abilities, want, tag, c);
      OffersIff(req, p, tag, c);
    }
    if tag, c :| OnOffer(req, p, tag, c) {
      OffersIff(req, p, tag, c);
      assert Offered(req.cx.w, req.cx.existing, req.cx.abilities, want, c);
    }
  }

  // ----- when there is no solution

  /** One binding per parameter: one on offer to it, or nothing where nothing is; no two of them at odds. */
  ghost predicate Harmonious(req: Request, choice: seq<Bindings>)
    requires AllAcceptable(req.params)
  {
    && |choice| == |req.params|
    && (forall k :: 0 <= k < |choice| ==>
          if exists tag, c :: OnOffer(req, req.params[k], tag, c)
          then exists tag :: OnOffer(req, req.params[k], tag, choice[k])
          else choice[k] == map[])
    && (forall j, k, i :: 0 <= j < k < |choice| && i in choice[j] && i in choice[k] ==> choice[j][i] == choice[k][i])
  }

  lemma {:induction false} ChoicesIff(req: Request, choice: seq<Bindings>)
    requires AllAcceptable(req.params)
    ensures Choices(req.cx, WantsOf(req.params, req.fixed), choice) && PairwiseCompatible(choice)
       <==> Harmonious(req, choice)
  {
    var wants := WantsOf(req.params, req.fixed);
    if |choice| == |req.params| {
      forall k | 0 <= k < |choice|
        ensures ChoiceFor(req.cx, wants[k], choice[k]) <==>
                if exists tag, c :: OnOffer(req, req.params[k], tag, c)
                then exists tag :: OnOffer(req, req.params[k], tag, choice[k])
                else choice[k] == map[]
      {
        ServedIff(req, req.params[k]);
        OfferedIff(req, req.params[k], choice[k]);
      }
    }
  }

  lemma {:induction false} OfferedIff(req: Request, p: Token, c: Bindings)
    requires Acceptable(p)
    ensures Offered(req.cx.w, req.cx.existing, req.cx.abilities, WantOf(p, req.fixed), c)
       <==> exists tag :: OnOffer(req, p, tag, c)
  {
    forall tag
      ensures Offers(req.cx.w, req.cx.existing, req.cx.abilities, WantOf(p, req.fixed), tag, c)
         <==> OnOffer(req, p, tag, c)
    {
      OffersIff(req, p, tag, c);
    }
  }

  /** There is a result exactly if every parameter is a struct or a reference to one, and there is such a choice. */
  lemma {:induction false} SolvableIff(req: Request)
    ensures AllAcceptable(req.params) <==>
            forall k :: 0 <= k < |req.params| ==> Bare(req.params[k]).Struct? || Bare(req.params[k]).Instance?
    ensures AllAcceptable(req.params) ==>
              ((exists m :: Choosable(req.cx, WantsOf(req.params, req.fixed), m)) <==>
               (exists choice :: Harmonious(req, choice)))
  {
    if AllAcceptable(req.params) {
      if m :| Choosable(req.cx, WantsOf(req.params, req.fixed), m) {
        var choice := ChosenInHarmony(req, m);
      }
      if choice :| Harmonious(req, choice) {
        var m := HarmonyChoosable(req, choice);
      }
    }
  }

  lemma {:induction false} ChosenInHarmony(req: Request, m: Bindings) returns (choice: seq<Bindings>)
    requires AllAcceptable(req.params) && Choosable(req.cx, WantsOf(req.params, req.fixed), m)
    ensures Harmonious(req, choice)
  {
    choice :| Chosen(req.cx, WantsOf(req.params, req.fixed), m, choice);
    IntersectionIsUnion(choice, m);
    IntersectionFails(choice);
    ChoicesIff(req, choice);
  }

  lemma {:induction false} HarmonyChoosable(req: Request, choice: seq<Bindings>) returns (m: Bindings)
    requires AllAcceptable(req.params) && Harmonious(req, choice)
    ensures Choosable(req.cx, WantsOf(req.params, req.fixed), m)
  {
    ChoicesIff(req, choice);
    IntersectionFails(choice);
    m := Intersection(choice).value;
    IntersectionIsUnion(choice, m);
    assert Chosen(req.cx, WantsOf(req.params, req.fixed), m, choice);
  }

  // ----- what is given

  /** The object may be given away or changed: on chain, or where it is listed, it is not immutable. */
  ghost predicate Changeable(req: Request, inputs: seq<NewInput>, a: Argument) {
    if New(req.inputLen, a) then
      && a.i - req.inputLen < |inputs| && inputs[a.i - req.inputLen].id in req.cx.w.infos
      && !req.cx.w.infos[inputs[a.i - req.inputLen].id].owner.ImmutableOwner?
    else
      && (exists ty, g :: Listed(req.cx.existing, ty, a, g))
      && (forall ty, g :: Listed(req.cx.existing, ty, a, g) ==> g != Immutable)
  }

  lemma {:induction false} ListedUnique(existing: Existing, a: Argument, ty: Tag, g: Gate, ty': Tag, g': Gate)
    requires NoDuplicates(existing) && Listed(existing, ty, a, g) && Listed(existing, ty', a, g')
    ensures ty == ty' && g == g'
  {
    var i :| 0 <= i < |existing[ty]| && existing[ty][i] == (a, g);
    var j :| 0 <= j < |existing[ty']| && existing[ty'][j] == (a, g');
    assert ListedAt(existing, ty, i, a) && ListedAt(existing, ty', j, a);
  }

  /** What a parameter that takes by value or borrows mutably is given is not immutable. */
  lemma {:induction false} GivenChangeable(req: Request, m: Bindings, bindings: Bindings, inputs: seq<NewInput>,
                                           args: Given, k: nat)
    requires AllAcceptable(req.params) && NoDuplicates(req.cx.existing) && Found(req, m, bindings, inputs, args)
    requires k < |args| && args[k].Some? && (IsStruct(req.params[k]) || req.params[k].MutRef?)
    ensures Changeable(req, inputs, args[k].value)
  {
    var a, ty := args[k].value, Subst(WantOf(req.params[k], req.fixed).ty, m);
    assert ServedWell(JobOf(req, m), inputs, args, k);
    WantIs(req.params[k], req.fixed);
    if New(req.inputLen, a) {
      var input := inputs[a.i - req.inputLen];
      assert OnChain(req.cx.w, req.params[k], ty.value, input.id);
    } else {
      var g :| Listed(req.cx.existing, ty.value, a, g) && Suitable(WantOf(req.params[k], req.fixed).gate, g);
      forall ty', g' | Listed(req.cx.existing, ty', a, g') ensures g' != Immutable {
        ListedUnique(req.cx.existing, a, ty.value, g, ty', g');
      }
    }
  }

  /** What is brought in: a usable object of the chain, of the parameter's type, when none of the type is listed; a
      shared one by its first version and mutably, another by its version and digest. */
  lemma {:induction false} ImportedAsOwned(req: Request, m: Bindings, bindings: Bindings, inputs: seq<NewInput>,
                                           args: Given, k: nat)
    requires AllAcceptable(req.params) && Found(req, m, bindings, inputs, args)
    requires k < |args| && args[k].Some? && New(req.inputLen, args[k].value)
    ensures var x, ty := args[k].value.i - req.inputLen, Subst(req.params[k], m + req.fixed);
            && x < |inputs| && ty.Some? && ty.value !in req.cx.existing
            && OnChain(req.cx.w, req.params[k], ty.value, inputs[x].id) && inputs[x].id !in req.used
            && var info := req.cx.w.infos[inputs[x].id];
               inputs[x] == if info.owner.SharedOwner?
                            then SharedObject(info.ty, inputs[x].id, info.owner.initialVersion, true)
                            else ImmOrOwned(info.ty, inputs[x].id, info.version, info.digest)
  {
    assert ServedWell(JobOf(req, m), inputs, args, k);
    WantIs(req.params[k], req.fixed);
    WantInstantiates(req.params[k], req.fixed, m);
  }

  // ----- who goes without

  /** Given by value to a parameter before the k-th. */
  ghost predicate GivenAway(req: Request, args: Given, k: nat, a: Argument)
    requires k <= |args| == |req.params|
  {
    exists j :: 0 <= j < k && IsStruct(req.params[j]) && args[j] == Some(a)
  }

  /** An object that the k-th parameter could use is left when its turn comes: one listed under the type and not given
      away, or, if none is listed at all, one of the chain that is not in use. */
  ghost predicate SomethingLeft(req: Request, inputs: seq<NewInput>, args: Given, k: nat, ty: Tag)
    requires k < |args| == |req.params|
  {
    var p := req.params[k];
    if ty in req.cx.existing then
      exists a, g :: Listed(req.cx.existing, ty, a, g) && (p.Ref? || g != Immutable) && !GivenAway(req, args, k, a)
    else exists id :: OnChain(req.cx.w, p, ty, id) && id !in req.used
                      && !BroughtEarlier(req.inputLen, inputs, args[..k], id)
  }

  lemma {:induction false} SpentIff(req: Request, m: Bindings, args: Given, k: nat, a: Argument)
    requires AllAcceptable(req.params) && k <= |args| == |req.params|
    ensures Spent(JobOf(req, m).wants, args[..k], a) <==> GivenAway(req, args, k, a)
  {
    var wants, front := JobOf(req, m).wants, args[..k];
    if Spent(wants, front, a) {
      var j :| 0 <= j < |front| && wants[j].gate == Owned && front[j] == Some(a);
      assert args[j] == Some(a) && IsStruct(req.params[j]);
    }
    if GivenAway(req, args, k, a) {
      var j :| 0 <= j < k && IsStruct(req.params[j]) && args[j] == Some(a);
      assert front[j] == Some(a) && wants[j].gate == Owned;
    }
  }

  lemma {:induction false} AllGoneIff(req: Request, m: Bindings, inputs: seq<NewInput>, args: Given, k: nat, ty: Tag)
    requires AllAcceptable(req.params) && k < |args| == |req.params|
    ensures AllGone(JobOf(req, m), inputs, args[..k], ty) <==> !SomethingLeft(req, inputs, args, k, ty)
  {
    var p := req.params[k];
    WantIs(p, req.fixed);
    if ty in req.cx.existing {
      forall a ensures Spent(JobOf(req, m).wants, args[..k], a) <==> GivenAway(req, args, k, a) {
        SpentIff(req, m, args, k, a);
      }
    }
  }

  /** A parameter goes without exactly if nothing was on offer to it, or nothing it could use of its type is left; so a
      plain borrow of a listed type goes without only if all objects of that type were given away before. */
  lemma {:induction false} GoesWithoutIff(req: Request, m: Bindings, bindings: Bindings, inputs: seq<NewInput>,
                                          args: Given, k: nat)
    requires AllAcceptable(req.params) && Found(req, m, bindings, inputs, args) && k < |args|
    ensures args[k].None? <==>
            (exists tag, c :: OnOffer(req, req.params[k], tag, c)) ==>
              var ty := Subst(req.params[k], m + req.fixed);
              ty.Some? && !SomethingLeft(req, inputs, args, k, ty.value)
    ensures var ty := Subst(req.params[k], m + req.fixed);
            req.params[k].Ref? && ty.Some? && ty.value in req.cx.existing && args[k].None?
            && (exists tag, c :: OnOffer(req, req.params[k], tag, c)) ==>
              forall a, g :: Listed(req.cx.existing, ty.value, a, g) ==> GivenAway(req, args, k, a)
  {
    assert ServedWell(JobOf(req, m), inputs, args, k);
    ServedIff(req, req.params[k]);
    WantInstantiates(req.params[k], req.fixed, m);
    var ty := Subst(req.params[k], m + req.fixed);
    if ty.Some? { AllGoneIff(req, m, inputs, args, k, ty.value); }
  }

  // ----- from the chain to the call

  /** How an input with this owner is listed. */
  ghost predicate ListedAs(o: Owner, g: Gate) {
    match g
    case Owned => o.AddressOwner?
    case Immutable => o.ImmutableOwner?
    case Shared => o.SharedOwner?
  }

  lemma {:induction false} InputGate(inputs: seq<Ledger.Input>, infos: map<nat, ObjectInfo>, e: Entry)
    requires Readable(inputs, infos) && e in InputEntries(inputs, infos)
    ensures e.arg.Input? && e.arg.i < |inputs| && inputs[e.arg.i].ObjectInput?
    ensures infos[inputs[e.arg.i].id].ty == e.ty && ListedAs(infos[inputs[e.arg.i].id].owner, e.gate)
  {
    var n := |inputs| - 1;
    if e in InputEntries(inputs[..n], infos) { InputGate(inputs[..n], infos, e); }
  }

  lemma {:induction false} ListedEntry(live: seq<Entry>, ty: Tag, arg: Argument, gate: Gate) returns (e: Entry)
    requires (arg, gate) in ListOf(live, ty)
    ensures e in live && e.arg == arg && e.ty == ty && e.gate == gate
  {
    var front, last := live[..|live| - 1], live[|live| - 1];
    if last.ty == ty && last.arg == arg && last.gate == gate {
      e := last;
    } else {
      e := ListedEntry(front, ty, arg, gate);
    }
  }

  /** What a sequence lists: inputs as their owners on chain have it, results as owned. */
  lemma {:induction false} ListedGate(env: Env, inputs: seq<Ledger.Input>, infos: map<nat, ObjectInfo>,
                                      cmds: seq<Command>, existing: Existing, ty: Tag, arg: Argument, g: Gate)
    requires Readable(inputs, infos)
    requires Grouped(existing, After(env, InputEntries(inputs, infos), cmds, |cmds|).live)
    requires Listed(existing, ty, arg, g)
    ensures if arg.Input? then
              && arg.i < |inputs| && inputs[arg.i].ObjectInput? && infos[inputs[arg.i].id].ty == ty
              && ListedAs(infos[inputs[arg.i].id].owner, g)
            else (arg.Result? || arg.NestedResult?) && arg.i < |cmds| && g == Owned
  {
    var start := InputEntries(inputs, infos);
    var e := ListedEntry(After(env, start, cmds, |cmds|).live, ty, arg, g);
    LiveOriginates(env, start, cmds, |cmds|, e);
    if e in start { InputGate(inputs, infos, e); }
  }

  /** In a call appended with arguments found for it, no object that is immutable on chain is taken by value or borrowed
      mutably. */
  lemma {:induction false} NothingImmutableChanged(env: Env, inputs: seq<Ledger.Input>, cmds: seq<Command>,
                                                   req: Request, m: Bindings, call: MoveCall, f: FunctionAbi,
                                                   more: seq<NewInput>, k: nat)
    requires Fitting(env, inputs, cmds, req, m, call, f, more) && k < |call.arguments|
    requires call.arguments[k].Input? && (IsStruct(f.parameters[k]) || f.parameters[k].MutRef?)
    ensures var all, a := WithNew(inputs, more), call.arguments[k];
            && a.i < |all| && all[a.i].ObjectInput? && all[a.i].id in req.cx.w.infos
            && !req.cx.w.infos[all[a.i].id].owner.ImmutableOwner?
  {
    var infos, a, args := req.cx.w.infos, call.arguments[k], Wrapped(call.arguments);
    AccountsAreProper(env, inputs, infos, cmds, req.cx.existing);
    assert args[k] == Some(a);
    GivenChangeable(req, m, Numbered(call.typeArguments), more, args, k);
    if !New(req.inputLen, a) {
      var ty, g :| Listed(req.cx.existing, ty, a, g);
      ListedGate(env, inputs, infos, cmds, req.cx.existing, ty, a, g);
    }
  }
}
