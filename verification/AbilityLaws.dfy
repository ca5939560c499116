/** Hot potatoes in plain terms: which results are put on the list, what takes them off, and what a removal takes
    along, told by abilities and names alone. */
module AbilityLaws {
  import opened Wrappers
  import opened Abi
  import opened Sequences
  import opened Objects
  import opened Ledger
  import opened LedgerLaws
  import Removal

  // ----- signatures

  const CONTEXT := (ModuleId(2, "tx_context"), "TxContext")
  const BALANCE := (ModuleId(2, "balance"), "Balance")

  /** A struct by its own name that has neither `drop` nor `store`, and is not the transaction context or a balance. */
  ghost predicate Burden(t: Token) {
    match t
    case Struct(h) => Drop !in h.abilities && Store !in h.abilities && (h.moduleId, h.name) != CONTEXT
    case Instance(h, _) => Drop !in h.abilities && Store !in h.abilities && (h.moduleId, h.name) != BALANCE
    case _ => false
  }

  /** The same of a struct put in for a type parameter, whose abilities are not looked up. */
  ghost predicate BurdenTag(tag: Tag) {
    && tag.StructTag?
    && !(tag.tys == [] && (ModuleId(tag.address, tag.modul), tag.name) == CONTEXT)
    && !(tag.tys != [] && (ModuleId(tag.address, tag.modul), tag.name) == BALANCE)
  }

  function Element(t: Token): Token {
    if t.Vector? then Element(t.inner) else t
  }

  lemma {:induction false} HotPotatoIff(t: Token)
    ensures IsHotPotato(t) <==> Burden(Element(t))
  {
    if t.Vector? { HotPotatoIff(t.inner); }
  }

  /** Outside of references a parameter is taken by value exactly if it is built of a struct or a type parameter; the
      transaction context by itself is passed implicitly. */
  lemma {:induction false} TakenByValueIff(t: Token)
    requires !Element(t).Ref? && !Element(t).MutRef?
    ensures TakesByValue(t) <==> !Element(t).Prim? && !(t.Struct? && (t.handle.moduleId, t.handle.name) == CONTEXT)
  {
    if t.Vector? {
      assert Element(t) == Element(t.inner);
      if t.inner.Vector? { TakenByValueIff(t.inner); }
      assert !IsTxContext(t) && (NeedsSample(t) <==> IsStruct(t.inner) || t.inner.Param? || NeedsSample(t.inner));
    }
  }

  /** A result of this type, under these type arguments, is put on the list of hot potatoes. */
  ghost predicate PutsOnList(structs: StructName -> Abilities, ret: Token, m: Bindings) {
    match ret
    case Struct(_) => Burden(ret)
    case Instance(_, _) => Burden(ret)
    case Param(i, _) => i in m && BurdenTag(m[i])
    case Vector(inner) =>
      (match inner
       case Struct(h) => Drop !in h.abilities
       case Instance(h, _) => Drop !in h.abilities
       case Param(i, _) => i in m && m[i].StructTag? && Drop !in structs(NameOf(m[i]))
       case _ => false)
    case _ => false
  }

  lemma {:induction false} EmbeddedBurden(tag: Tag)
    requires tag.StructTag?
    ensures IsHotPotato(Lossy(tag)) <==> BurdenTag(tag)
  {
    var t := Lossy(tag);
    assert if tag.tys == [] then t.Struct? else t.Instance?;
    HotPotatoIff(t);
  }

  lemma {:induction false} ObjectHotIff(structs: StructName -> Abilities, ret: Token, m: Bindings)
    requires MakesObject(ret, m)
    ensures IsHotPotato(PartialSubst(ret, m)) <==> PutsOnList(structs, ret, m)
  {
    if ret.Param? {
      EmbeddedBurden(m[ret.index]);
    } else {
      HotPotatoIff(PartialSubst(ret, m));
    }
  }

  lemma {:induction false} VectorHotIff(structs: StructName -> Abilities, ret: Token, m: Bindings)
    requires ret.Vector?
    ensures HotVector(structs, ret, m) <==> PutsOnList(structs, ret, m)
  {
  }

  // ----- results put on the list

  /** Result j of command c is of a type that is put on the list, and instantiates to ty. */
  ghost predicate Lists(env: Env, cmds: seq<Command>, c: nat, j: nat, ty: Tag) {
    && Calls(env, cmds, c) && j < |Callee(env, cmds, c).results|
    && PutsOnList(env.structs, Callee(env, cmds, c).results[j], TyArgs(cmds[c].call))
    && Subst(Callee(env, cmds, c).results[j], TyArgs(cmds[c].call)) == Some(ty)
  }

  ghost predicate NothingListed(env: Env, cmds: seq<Command>) {
    forall c: nat, j: nat, ty :: !Lists(env, cmds, c, j, ty)
  }

  ghost predicate NoneHot(live: seq<Entry>) {
    forall e :: e in live ==> !e.hot
  }

  lemma {:induction false} NoneHotTypes(live: seq<Entry>)
    ensures HotTypes(live) == multiset{} <==> NoneHot(live)
  {
    if live != [] {
      NoneHotTypes(live[..|live| - 1]);
      assert live == live[..|live| - 1] + [live[|live| - 1]];
    }
  }

  lemma {:induction false} NothingStale(live: seq<Entry>, call: MoveCall, f: FunctionAbi, n: nat)
    requires n <= Pairs(call, f) && NoneHot(live)
    ensures Stale(live, call, f, n) == multiset{} && NoneHot(Consumed(live, call, f, n))
  {
    if n > 0 {
      NothingStale(live, call, f, n - 1);
      var rest, ty := Consumed(live, call, f, n - 1), TakenType(call, f, n - 1);
      if ty.Some? {
        forall e | e in Without(rest, call.arguments[n - 1], ty.value) ensures !e.hot {
          WithoutElements(rest, call.arguments[n - 1], ty.value, e);
        }
      }
    }
  }

  lemma {:induction false} NothingHotMade(env: Env, cmds: seq<Command>, c: nat, live: seq<Entry>, n: nat)
    requires NothingListed(env, cmds) && Calls(env, cmds, c) && n <= |Callee(env, cmds, c).results| && NoneHot(live)
    ensures NoneHot(Produced(live, c, cmds[c].call, Callee(env, cmds, c), n))
    ensures HotVectors(env.structs, cmds[c].call, Callee(env, cmds, c), n) == multiset{}
  {
    if n > 0 {
      NothingHotMade(env, cmds, c, live, n - 1);
      var ret, m := Callee(env, cmds, c).results[n - 1], TyArgs(cmds[c].call);
      if Subst(ret, m).Some? {
        assert !Lists(env, cmds, c, n - 1, Subst(ret, m).value);
        if ret.Vector? { VectorHotIff(env.structs, ret, m); }
        if MakesObject(ret, m) { ObjectHotIff(env.structs, ret, m); }
      }
    }
  }

  lemma {:induction false} NothingHotAfter(env: Env, start: seq<Entry>, cmds: seq<Command>, n: nat)
    requires Starts(start) && NothingListed(env, cmds) && n <= |cmds|
    ensures var a := After(env, start, cmds, n);
            NoneHot(a.live) && a.vectors == multiset{} && a.stale == multiset{}
  {
    if n > 0 {
      NothingHotAfter(env, start, cmds, n - 1);
      var a := After(env, start, cmds, n - 1);
      if Calls(env, cmds, n - 1) {
        var call, f := cmds[n - 1].call, Callee(env, cmds, n - 1);
        NothingStale(a.live, call, f, Pairs(call, f));
        NothingHotMade(env, cmds, n - 1, Consumed(a.live, call, f, Pairs(call, f)), |f.results|);
      }
    }
  }

  /** In a sequence whose struct results can all be dropped or stored (or are the context or a balance), which makes
      nothing under a type parameter and no vectors of what cannot be dropped, the list of hot potatoes is empty. */
  lemma {:induction false} NothingOnList(env: Env, start: seq<Entry>, cmds: seq<Command>, hot: seq<Tag>)
    requires Starts(start) && NothingListed(env, cmds) && HotInOrder(hot, After(env, start, cmds, |cmds|))
    ensures hot == []
  {
    var a := After(env, start, cmds, |cmds|);
    NothingHotAfter(env, start, cmds, |cmds|);
    NoneHotTypes(a.live);
    assert |multiset(hot) + a.over| == |multiset(hot)| + |a.over|;
    assert HotTypes(a.live) + a.vectors + a.stale == multiset{};
  }

  // ----- on the list until taken

  lemma {:induction false} HotTypesIff(live: seq<Entry>, ty: Tag)
    ensures ty in HotTypes(live) <==> exists e :: e in live && e.hot && e.ty == ty
  {
    if live != [] {
      var front, last := live[..|live| - 1], live[|live| - 1];
      HotTypesIff(front, ty);
      assert live == front + [last];
    }
  }

  lemma {:induction false} HotVectorsIff(env: Env, cmds: seq<Command>, c: nat, n: nat, ty: Tag)
    requires Calls(env, cmds, c) && n <= |Callee(env, cmds, c).results|
    ensures ty in HotVectors(env.structs, cmds[c].call, Callee(env, cmds, c), n)
       <==> exists j: nat :: j < n && Callee(env, cmds, c).results[j].Vector? && Lists(env, cmds, c, j, ty)
  {
    if n > 0 {
      HotVectorsIff(env, cmds, c, n - 1, ty);
      var ret, m := Callee(env, cmds, c).results[n - 1], TyArgs(cmds[c].call);
      if ret.Vector? { VectorHotIff(env.structs, ret, m); }
      assert HotVector(env.structs, ret, m) && Subst(ret, m) == Some(ty)
        <==> ret.Vector? && Lists(env, cmds, c, n - 1, ty);
    }
  }

  /** A vector result that is put on the list. */
  ghost predicate ListsVector(env: Env, cmds: seq<Command>, c: nat, j: nat, ty: Tag) {
    Lists(env, cmds, c, j, ty) && Callee(env, cmds, c).results[j].Vector?
  }

  lemma {:induction false} VectorsIff(env: Env, start: seq<Entry>, cmds: seq<Command>, n: nat, ty: Tag)
    requires n <= |cmds|
    ensures ty in After(env, start, cmds, n).vectors
       <==> exists c: nat, j: nat :: c < n && ListsVector(env, cmds, c, j, ty)
  {
    if n > 0 {
      VectorsIff(env, start, cmds, n - 1, ty);
      if Calls(env, cmds, n - 1) {
        var call, f := cmds[n - 1].call, Callee(env, cmds, n - 1);
        HotVectorsIff(env, cmds, n - 1, |f.results|, ty);
        if ty in HotVectors(env.structs, call, f, |f.results|) {
          var j: nat :| j < |f.results| && f.results[j].Vector? && Lists(env, cmds, n - 1, j, ty);
          assert ListsVector(env, cmds, n - 1, j, ty);
        }
      }
    }
  }

  /** Result j of command c is put on the list, and no command takes it. */
  ghost predicate ListedAndLeft(env: Env, cmds: seq<Command>, c: nat, j: nat, e: Entry) {
    && MakesEntry(env, cmds, c, j, e) && Lists(env, cmds, c, j, e.ty)
    && !TakenIn(env, cmds, 0, |cmds|, e.arg, e.ty)
  }

  lemma {:induction false} MadeHotIff(env: Env, cmds: seq<Command>, c: nat, j: nat, e: Entry)
    requires MakesEntry(env, cmds, c, j, e)
    ensures e.hot <==> Lists(env, cmds, c, j, e.ty)
  {
    ObjectHotIff(env.structs, Callee(env, cmds, c).results[j], TyArgs(cmds[c].call));
  }

  lemma {:induction false} HotLiveIsListed(env: Env, start: seq<Entry>, cmds: seq<Command>, e: Entry)
      returns (c: nat, j: nat)
    requires Starts(start) && Linear(env, start, cmds) && e in After(env, start, cmds, |cmds|).live && e.hot
    ensures ListedAndLeft(env, cmds, c, j, e)
  {
    LiveOriginates(env, start, cmds, |cmds|, e);
    assert e !in start;
    c, j :| MakesEntry(env, cmds, c, j, e);
    MadeHotIff(env, cmds, c, j, e);
    LiveIffNeverTaken(env, start, cmds, |cmds|, e.arg, e.ty);
  }

  lemma {:induction false} ListedIsHotLive(env: Env, start: seq<Entry>, cmds: seq<Command>, c: nat, j: nat, e: Entry)
    requires Starts(start) && Linear(env, start, cmds) && ListedAndLeft(env, cmds, c, j, e)
    ensures e in After(env, start, cmds, |cmds|).live && e.hot
  {
    var live := After(env, start, cmds, |cmds|).live;
    MadeHotIff(env, cmds, c, j, e);
    assert MadeBy(env, cmds, c, e.arg, e.ty);
    LiveIffNeverTaken(env, start, cmds, |cmds|, e.arg, e.ty);
    var k :| 0 <= k < |live| && live[k].arg == e.arg && live[k].ty == e.ty;
    LiveOriginates(env, start, cmds, |cmds|, live[k]);
    assert !e.arg.Input?;
    var c', j' :| MakesEntry(env, cmds, c', j', live[k]);
    EntryUnique(env, cmds, c, j, e, c', j', live[k]);
  }

  /** On a linear sequence whose takers and makers agree, a type is on the list of hot potatoes exactly if some result
      of that type is of the kind that is put on the list, and no command takes it; vectors are never taken off. */
  lemma {:induction false} OnListIff(env: Env, start: seq<Entry>, cmds: seq<Command>, hot: seq<Tag>, ty: Tag)
    requires Starts(start) && Linear(env, start, cmds) && Agreeing(env, cmds)
    requires HotInOrder(hot, After(env, start, cmds, |cmds|))
    ensures ty in hot <==>
            || (exists c: nat, j: nat, e :: ListedAndLeft(env, cmds, c, j, e) && e.ty == ty)
            || (exists c: nat, j: nat :: c < |cmds| && ListsVector(env, cmds, c, j, ty))
  {
    var a := After(env, start, cmds, |cmds|);
    AgreeingProceeds(env, start, cmds);
    assert ty in hot <==> ty in multiset(hot);
    HotTypesIff(a.live, ty);
    VectorsIff(env, start, cmds, |cmds|, ty);
    if e :| e in a.live && e.hot && e.ty == ty {
      var c, j := HotLiveIsListed(env, start, cmds, e);
    }
    if c: nat, j: nat, e :| ListedAndLeft(env, cmds, c, j, e) && e.ty == ty {
      ListedIsHotLive(env, start, cmds, c, j, e);
    }
  }

  /** What an object is taken under takes its type off the list exactly if a result so typed would be put on it; an
      input is never taken off. */
  lemma {:induction false} TakesHotIff(structs: StructName -> Abilities, call: MoveCall, f: FunctionAbi, k: nat,
                                       ty: Tag)
    requires k < Pairs(call, f) && TakenType(call, f, k) == Some(ty) && ty.StructTag?
    ensures TakesHot(call, f, k) <==>
              !call.arguments[k].Input? && PutsOnList(structs, f.parameters[k], TyArgs(call))
  {
    ObjectHotIff(structs, f.parameters[k], TyArgs(call));
  }

  /** Results are structs by name or no objects at all, and no parameter is a type parameter. */
  ghost predicate ByName(f: FunctionAbi) {
    && (forall t :: t in f.results ==> !t.Param? && !t.Ref? && !t.MutRef?)
    && (forall t :: t in f.parameters ==> !t.Param?)
  }

  /** Where the name is the same, so is the declaration. */
  ghost predicate SameDeclaration(t: Token, u: Token) {
    IsStruct(t) && IsStruct(u) && t.handle.moduleId == u.handle.moduleId && t.handle.name == u.handle.name ==>
      t.handle == u.handle && t.Struct? == u.Struct?
  }

  ghost predicate Uniform(f: FunctionAbi, g: FunctionAbi) {
    forall t, u :: t in f.results && u in g.parameters ==> SameDeclaration(t, u)
  }

  /** Where all objects are made and taken by name, and a name stands for one declaration throughout, makers and takers
      agree on what is a hot potato. */
  lemma {:induction false} NamesAgree(env: Env, cmds: seq<Command>)
    requires forall c: nat :: Calls(env, cmds, c) ==> ByName(Callee(env, cmds, c))
    requires forall c: nat, d: nat :: Calls(env, cmds, c) && Calls(env, cmds, d) ==>
               Uniform(Callee(env, cmds, c), Callee(env, cmds, d))
    ensures Agreeing(env, cmds)
  {
    forall c: nat, k: nat, maker: nat, j: nat, e
      | MakesEntry(env, cmds, maker, j, e) && TakesAs(env, cmds, c, k, e.arg, e.ty)
      ensures !Disagrees(env, cmds, c, k, maker, j, e)
    {
      var ret, param := Callee(env, cmds, maker).results[j], Callee(env, cmds, c).parameters[k];
      assert ret in Callee(env, cmds, maker).results && param in Callee(env, cmds, c).parameters;
      assert Uniform(Callee(env, cmds, maker), Callee(env, cmds, c)) && SameDeclaration(ret, param);
      MadeHotIff(env, cmds, maker, j, e);
      TakesHotIff(env.structs, cmds[c].call, Callee(env, cmds, c), k, e.ty);
      assert !e.arg.Input?;
    }
  }

  // ----- what a removal takes along

  lemma {:induction false} SplitIff(c: Command)
    ensures IsSplit(c) <==>
              c.Call? && c.call.function_ in {FunctionIdent(2, "coin", "split"), FunctionIdent(2, "balance", "split")}
  {
  }

  /** Argument k of the command is a result, and goes to a struct parameter that is a burden. */
  ghost predicate TakesBurden(fs: Functions, c: Command, k: nat) {
    && c.Call? && c.call.function_ in fs && k < |c.call.arguments| && k < |fs[c.call.function_].parameters|
    && Burden(fs[c.call.function_].parameters[k])
    && (c.call.arguments[k].Result? || c.call.arguments[k].NestedResult?)
  }

  lemma {:induction false} FeedsIff(fs: Functions, c: Command, i: nat)
    ensures Removal.FeedsHotPotato(fs, c, i)
       <==> exists k: nat :: TakesBurden(fs, c, k) && c.call.arguments[k].i == i
  {
    if c.Call? && c.call.function_ in fs {
      var params := fs[c.call.function_].parameters;
      forall k: nat
        ensures TakesBurden(fs, c, k) && c.call.arguments[k].i == i
           <==> Removal.TakesHotPotato(fs, c, k) && RefersTo(c.call.arguments[k], i)
      {
        if k < |params| { HotPotatoIff(params[k]); }
      }
    }
  }

  /** With a command that takes a burden goes the command that made it, and with a call the coin or balance split right
      before it. */
  lemma {:induction false} MakerGoesAlong(fs: Functions, cmds: seq<Command>, idx: nat, removed: seq<nat>, r: nat,
                                          k: nat)
    requires Removal.RemovalOf(fs, cmds, idx, removed) && r in removed && r < |cmds|
    ensures TakesBurden(fs, cmds[r], k) && cmds[r].call.arguments[k].i < |cmds| ==>
              cmds[r].call.arguments[k].i in removed
    ensures cmds[r].Call? && r > 0 && cmds[r - 1].Call?
            && cmds[r - 1].call.function_ in {FunctionIdent(2, "coin", "split"), FunctionIdent(2, "balance", "split")}
            ==> r - 1 in removed
  {
    assert Removal.Settled(fs, cmds, r, removed);
    if TakesBurden(fs, cmds[r], k) { FeedsIff(fs, cmds[r], cmds[r].call.arguments[k].i); }
    if r > 0 { SplitIff(cmds[r - 1]); }
  }

  /** Command x uses the results of idx, or of commands that do, and so on. */
  ghost predicate DependsOn(cmds: seq<Command>, idx: nat, x: nat) {
    && x < |cmds|
    && (x == idx || exists y: nat :: idx <= y < x && Uses(cmds[x], y) && DependsOn(cmds, idx, y))
  }

  ghost predicate TakesNoBurden(fs: Functions, cmds: seq<Command>) {
    forall c: nat, k: nat :: c < |cmds| ==> !TakesBurden(fs, cmds[c], k)
  }

  ghost predicate NoSplits(cmds: seq<Command>) {
    forall c: nat :: c < |cmds| && cmds[c].Call? ==>
      cmds[c].call.function_ !in {FunctionIdent(2, "coin", "split"), FunctionIdent(2, "balance", "split")}
  }

  lemma {:induction false} DependantGoes(fs: Functions, cmds: seq<Command>, idx: nat, removed: seq<nat>, x: nat)
    requires Removal.RemovalOf(fs, cmds, idx, removed) && DependsOn(cmds, idx, x)
    ensures x in removed
    decreases x
  {
    if x != idx {
      var y: nat :| idx <= y < x && Uses(cmds[x], y) && DependsOn(cmds, idx, y);
      DependantGoes(fs, cmds, idx, removed, y);
      assert Removal.Settled(fs, cmds, y, removed);
    }
  }

  lemma {:induction false} DependantsClosed(fs: Functions, cmds: seq<Command>, idx: nat, t: set<nat>)
    requires TakesNoBurden(fs, cmds) && NoSplits(cmds)
    requires forall x :: x in t <==> x == idx || DependsOn(cmds, idx, x)
    ensures Removal.ClosedSet(fs, cmds, t)
  {
    forall r, j | r in t && r < j < |cmds| && Uses(cmds[j], r) ensures j in t {
      assert idx <= r && DependsOn(cmds, idx, r);
    }
    forall r, i | r in t && r < |cmds| && 0 <= i < |cmds| ensures !Removal.FeedsHotPotato(fs, cmds[r], i) {
      FeedsIff(fs, cmds[r], i);
    }
    forall i | 0 <= i < |cmds| ensures !IsSplit(cmds[i]) { SplitIff(cmds[i]); }
  }

  /** Where no result goes to a struct parameter without `drop` and `store`, and no coin or balance is split, the
      removal is that of the command with everything that depends on it: the makers of what they take stay. */
  lemma {:induction false} OnlyDependantsGo(fs: Functions, cmds: seq<Command>, idx: nat, removed: seq<nat>, x: nat)
    requires Removal.RemovalOf(fs, cmds, idx, removed) && TakesNoBurden(fs, cmds) && NoSplits(cmds)
    ensures x in removed <==> DependsOn(cmds, idx, x)
  {
    if x in removed {
      var t := {idx} + set y: nat | y < |cmds| && DependsOn(cmds, idx, y);
      DependantsClosed(fs, cmds, idx, t);
      assert idx in t && Removal.Within([], t);
      assert Removal.Within(removed, t);
    }
    if DependsOn(cmds, idx, x) { DependantGoes(fs, cmds, idx, removed, x); }
  }
}
