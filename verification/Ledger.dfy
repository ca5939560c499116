/** Accounting for the objects that a sequence of calls makes and consumes
    (crates/movy-fuzz/src/mutators/object_data.rs, `ObjectData::from_ptb`). */
module Ledger {
  import opened Wrappers
  import opened Abi
  import opened Sequences
  import opened Objects

  /** An input of the sequence: a plain value, or an object by identity. */
  datatype Input = PureValue | ObjectInput(id: nat)

  type Existing = map<Tag, seq<(Argument, Gate)>>

  /** What is known of code: functions by name, and the abilities of structs. */
  datatype Env = Env(fs: Functions, structs: StructName -> Abilities)

  // ----- what is live

  /** An object at hand: the argument that denotes it, its type, its gate, and whether its maker counts it as a
      hot potato. */
  datatype Entry = Entry(arg: Argument, ty: Tag, gate: Gate, hot: bool)

  ghost predicate DistinctArgs(live: seq<Entry>) {
    forall i, j :: 0 <= i < j < |live| ==> live[i].arg != live[j].arg
  }

  ghost predicate Has(live: seq<Entry>, arg: Argument, ty: Tag) {
    exists k :: 0 <= k < |live| && live[k].arg == arg && live[k].ty == ty
  }

  ghost predicate HasHot(live: seq<Entry>, arg: Argument, ty: Tag) {
    exists k :: 0 <= k < |live| && live[k].arg == arg && live[k].ty == ty && live[k].hot
  }

  /** The entries other than that of the argument under the type. */
  ghost function Without(live: seq<Entry>, arg: Argument, ty: Tag): seq<Entry> {
    if live == [] then []
    else
      var rest, e := Without(live[..|live| - 1], arg, ty), live[|live| - 1];
      if e.arg == arg && e.ty == ty then rest else rest + [e]
  }

  // ----- what a call takes

  function TyArgs(call: MoveCall): Bindings {
    map i: nat | i < |call.typeArguments| :: call.typeArguments[i]
  }

  /** The parameter takes a sampled object by value. */
  predicate TakesByValue(param: Token) {
    NeedsSample(param) && !param.Ref? && !param.MutRef?
  }

  function Pairs(call: MoveCall, f: FunctionAbi): nat {
    if |call.arguments| <= |f.parameters| then |call.arguments| else |f.parameters|
  }

  /** The type under which argument k is taken, if it is taken by value. */
  function TakenType(call: MoveCall, f: FunctionAbi, k: nat): Option<Tag>
    requires k < Pairs(call, f)
  {
    if TakesByValue(f.parameters[k]) then Subst(f.parameters[k], TyArgs(call)) else None
  }

  /** Whether taking argument k takes a type off the list of hot potatoes. */
  predicate TakesHot(call: MoveCall, f: FunctionAbi, k: nat)
    requires k < Pairs(call, f)
  {
    !call.arguments[k].Input? && IsHotPotato(PartialSubst(f.parameters[k], TyArgs(call)))
  }

  /** What is left after the first k arguments of a call. */
  ghost function Consumed(live: seq<Entry>, call: MoveCall, f: FunctionAbi, k: nat): seq<Entry>
    requires k <= Pairs(call, f)
  {
    if k == 0 then live
    else
      var rest := Consumed(live, call, f, k - 1);
      match TakenType(call, f, k - 1)
      case Some(ty) => Without(rest, call.arguments[k - 1], ty)
      case None => rest
  }

  /** Argument k was made as a hot potato, and is taken as none. */
  ghost predicate GoesStale(live: seq<Entry>, call: MoveCall, f: FunctionAbi, k: nat, ty: Tag)
    requires k < Pairs(call, f)
  {
    && TakenType(call, f, k) == Some(ty)
    && HasHot(Consumed(live, call, f, k), call.arguments[k], ty)
    && !TakesHot(call, f, k)
  }

  /** Argument k is taken as a hot potato, and was not made as one or is not there. */
  ghost predicate Overtakes(live: seq<Entry>, call: MoveCall, f: FunctionAbi, k: nat, ty: Tag)
    requires k < Pairs(call, f)
  {
    && TakenType(call, f, k) == Some(ty)
    && !HasHot(Consumed(live, call, f, k), call.arguments[k], ty)
    && TakesHot(call, f, k)
  }

  ghost function Stale(live: seq<Entry>, call: MoveCall, f: FunctionAbi, k: nat): multiset<Tag>
    requires k <= Pairs(call, f)
  {
    if k == 0 then multiset{}
    else
      var rest, ty := Stale(live, call, f, k - 1), TakenType(call, f, k - 1);
      if ty.Some? && GoesStale(live, call, f, k - 1, ty.value) then rest + multiset{ty.value} else rest
  }

  ghost function Overtaken(live: seq<Entry>, call: MoveCall, f: FunctionAbi, k: nat): multiset<Tag>
    requires k <= Pairs(call, f)
  {
    if k == 0 then multiset{}
    else
      var rest, ty := Overtaken(live, call, f, k - 1), TakenType(call, f, k - 1);
      if ty.Some? && Overtakes(live, call, f, k - 1, ty.value) then rest + multiset{ty.value} else rest
  }

  // ----- what a call makes

  function ResultArgument(i: nat, j: nat, count: nat): Argument {
    if count == 1 then Result(i) else NestedResult(i, j)
  }

  /** A result that is an object: not a vector, and a struct once instantiated. */
  ghost predicate MakesObject(ret: Token, m: Bindings) {
    !ret.Vector? && Subst(ret, m).Some? && Subst(ret, m).value.StructTag?
  }

  /** The object that is result j of command i. */
  ghost function ResultEntry(i: nat, call: MoveCall, f: FunctionAbi, j: nat): Entry
    requires j < |f.results| && MakesObject(f.results[j], TyArgs(call))
  {
    var ret, m := f.results[j], TyArgs(call);
    Entry(ResultArgument(i, j, |f.results|), Subst(ret, m).value, Owned, IsHotPotato(PartialSubst(ret, m)))
  }

  ghost function Produced(live: seq<Entry>, i: nat, call: MoveCall, f: FunctionAbi, j: nat): seq<Entry>
    requires j <= |f.results|
  {
    if j == 0 then live
    else
      var rest := Produced(live, i, call, f, j - 1);
      if MakesObject(f.results[j - 1], TyArgs(call)) then rest + [ResultEntry(i, call, f, j - 1)] else rest
  }

  /** The vector results that count as hot potatoes: their elements cannot be dropped. */
  ghost predicate HotVector(structs: StructName -> Abilities, ret: Token, m: Bindings) {
    && ret.Vector?
    && (IsStruct(ret.inner) || ret.inner.Param?)
    && (IsStruct(ret.inner) ==> Drop !in ret.inner.handle.abilities)
    && (ret.inner.Param? ==>
          && ret.inner.index in m && m[ret.inner.index].StructTag?
          && Drop !in structs(NameOf(m[ret.inner.index])))
  }

  ghost function HotVectors(structs: StructName -> Abilities, call: MoveCall, f: FunctionAbi, j: nat): multiset<Tag>
    requires j <= |f.results|
  {
    if j == 0 then multiset{}
    else
      var ret, m := f.results[j - 1], TyArgs(call);
      var rest := HotVectors(structs, call, f, j - 1);
      if HotVector(structs, ret, m) && Subst(ret, m).Some? then rest + multiset{Subst(ret, m).value} else rest
  }

  // ----- the accounts

  /** Live objects; hot vectors made; types that went stale; types overtaken. */
  datatype Accounts =
    Accounts(live: seq<Entry>, vectors: multiset<Tag>, stale: multiset<Tag>, over: multiset<Tag>)

  ghost function Opening(start: seq<Entry>): Accounts {
    Accounts(start, multiset{}, multiset{}, multiset{})
  }

  ghost function TakeAll(a: Accounts, call: MoveCall, f: FunctionAbi, k: nat): Accounts
    requires k <= Pairs(call, f)
  {
    Accounts(Consumed(a.live, call, f, k), a.vectors,
             a.stale + Stale(a.live, call, f, k), a.over + Overtaken(a.live, call, f, k))
  }

  ghost function MakeAll(env: Env, a: Accounts, i: nat, call: MoveCall, f: FunctionAbi, j: nat): Accounts
    requires j <= |f.results|
  {
    a.(live := Produced(a.live, i, call, f, j), vectors := a.vectors + HotVectors(env.structs, call, f, j))
  }

  ghost function Called(env: Env, a: Accounts, i: nat, call: MoveCall): Accounts {
    if call.function_ !in env.fs then a
    else
      var f := env.fs[call.function_];
      MakeAll(env, TakeAll(a, call, f, Pairs(call, f)), i, call, f, |f.results|)
  }

  /** The accounts after the first n commands. */
  ghost function After(env: Env, start: seq<Entry>, cmds: seq<Command>, n: nat): Accounts
    requires n <= |cmds|
  {
    if n == 0 then Opening(start)
    else
      var a := After(env, start, cmds, n - 1);
      match cmds[n - 1]
      case Other(_) => a
      case Call(call) => Called(env, a, n - 1, call)
  }

  /** Every input object can be looked up and has one of the supported owners. */
  ghost predicate Readable(inputs: seq<Input>, infos: map<nat, ObjectInfo>) {
    forall k :: 0 <= k < |inputs| && inputs[k].ObjectInput? ==>
      inputs[k].id in infos && HasGate(infos[inputs[k].id].owner)
  }

  ghost function InputEntries(inputs: seq<Input>, infos: map<nat, ObjectInfo>): seq<Entry>
    requires Readable(inputs, infos)
  {
    if inputs == [] then []
    else
      var n := |inputs| - 1;
      var rest := InputEntries(inputs[..n], infos);
      match inputs[n]
      case PureValue => rest
      case ObjectInput(id) => rest + [Entry(Argument.Input(n), infos[id].ty, GateOf(infos[id].owner), false)]
  }

  // ----- sequences that do not panic

  /** The types on the list of hot potatoes: of hot objects at hand, hot vectors and stale ones, less those taken off
      without a cause. */
  ghost function HotList(a: Accounts): multiset<Tag> {
    HotTypes(a.live) + a.vectors + a.stale - a.over
  }

  ghost predicate Lists(live: seq<Entry>, ty: Tag) {
    exists k :: 0 <= k < |live| && live[k].ty == ty
  }

  /** Taking argument k does not panic: its type is known, some object of the type is at hand, and a hot potato taken
      off the list is on it. */
  ghost predicate ArgumentProceeds(a: Accounts, call: MoveCall, f: FunctionAbi, k: nat)
    requires k < Pairs(call, f)
  {
    TakesByValue(f.parameters[k]) ==>
      var ty, now := TakenType(call, f, k), TakeAll(a, call, f, k);
      ty.Some? && Lists(now.live, ty.value) && (TakesHot(call, f, k) ==> ty.value in HotList(now))
  }

  ghost predicate AllProceed(a: Accounts, call: MoveCall, f: FunctionAbi, n: nat)
    requires n <= Pairs(call, f)
  {
    forall k :: 0 <= k < n ==> ArgumentProceeds(a, call, f, k)
  }

  ghost predicate Instantiates(call: MoveCall, f: FunctionAbi, n: nat)
    requires n <= |f.results|
  {
    forall j :: 0 <= j < n ==> Subst(f.results[j], TyArgs(call)).Some?
  }

  ghost predicate CallProceeds(env: Env, a: Accounts, call: MoveCall) {
    && call.function_ in env.fs
    && var f := env.fs[call.function_];
       AllProceed(a, call, f, Pairs(call, f)) && Instantiates(call, f, |f.results|)
  }

  /** The sequences on which `from_ptb` does not panic. */
  ghost predicate Proceeds(env: Env, start: seq<Entry>, cmds: seq<Command>) {
    forall n :: 0 <= n < |cmds| && cmds[n].Call? ==> CallProceeds(env, After(env, start, cmds, n), cmds[n].call)
  }

  // ----- what the code keeps

  /** The objects listed under a type. */
  ghost function ListOf(live: seq<Entry>, ty: Tag): seq<(Argument, Gate)> {
    if live == [] then []
    else
      var rest, e := ListOf(live[..|live| - 1], ty), live[|live| - 1];
      if e.ty == ty then rest + [(e.arg, e.gate)] else rest
  }

  /** The index lists every live object under its type, once, in order, and nothing else. */
  ghost predicate Grouped(existing: Existing, live: seq<Entry>) {
    forall ty :: (ty in existing <==> ListOf(live, ty) != []) && (ty in existing ==> existing[ty] == ListOf(live, ty))
  }

  ghost function HotTypes(live: seq<Entry>): multiset<Tag> {
    if live == [] then multiset{}
    else
      var rest, e := HotTypes(live[..|live| - 1]), live[|live| - 1];
      if e.hot then rest + multiset{e.ty} else rest
  }

  function Retained(list: seq<(Argument, Gate)>, arg: Argument): seq<(Argument, Gate)> {
    if list == [] then []
    else
      var rest, e := Retained(list[..|list| - 1], arg), list[|list| - 1];
      if e.0 == arg then rest else rest + [e]
  }

  lemma {:induction false} RetainedSnoc(list: seq<(Argument, Gate)>, e: (Argument, Gate), arg: Argument)
    ensures Retained(list + [e], arg) == if e.0 == arg then Retained(list, arg) else Retained(list, arg) + [e]
  {
    assert (list + [e])[..|list|] == list;
  }

  lemma {:induction false} ListSnoc(live: seq<Entry>, e: Entry, ty: Tag)
    ensures ListOf(live + [e], ty) == if e.ty == ty then ListOf(live, ty) + [(e.arg, e.gate)] else ListOf(live, ty)
  {
    assert (live + [e])[..|live|] == live;
  }

  lemma {:induction false} HotSnoc(live: seq<Entry>, e: Entry)
    ensures HotTypes(live + [e]) == if e.hot then HotTypes(live) + multiset{e.ty} else HotTypes(live)
  {
    assert (live + [e])[..|live|] == live;
  }

  lemma {:induction false} ListWithout(live: seq<Entry>, arg: Argument, ty: Tag, t: Tag)
    ensures ListOf(Without(live, arg, ty), t) == if t == ty then Retained(ListOf(live, t), arg) else ListOf(live, t)
  {
    if live != [] {
      var front, e := live[..|live| - 1], live[|live| - 1];
      ListWithout(front, arg, ty, t);
      if e.ty == t { RetainedSnoc(ListOf(front, t), (e.arg, e.gate), arg); }
      if !(e.arg == arg && e.ty == ty) { ListSnoc(Without(front, arg, ty), e, t); }
    }
  }

  lemma {:induction false} HasSnoc(live: seq<Entry>, e: Entry, arg: Argument, ty: Tag)
    ensures Has(live + [e], arg, ty) <==> Has(live, arg, ty) || (e.arg == arg && e.ty == ty)
    ensures HasHot(live + [e], arg, ty) <==> HasHot(live, arg, ty) || (e.arg == arg && e.ty == ty && e.hot)
  {
    var all := live + [e];
    if Has(live, arg, ty) {
      var k :| 0 <= k < |live| && live[k].arg == arg && live[k].ty == ty;
      assert all[k] == live[k];
    }
    if HasHot(live, arg, ty) {
      var k :| 0 <= k < |live| && live[k].arg == arg && live[k].ty == ty && live[k].hot;
      assert all[k] == live[k];
    }
    assert all[|live|] == e;
  }

  lemma {:induction false} WithoutElements(live: seq<Entry>, arg: Argument, ty: Tag, e: Entry)
    ensures e in Without(live, arg, ty) <==> e in live && !(e.arg == arg && e.ty == ty)
  {
    if live != [] {
      var front, last := live[..|live| - 1], live[|live| - 1];
      WithoutElements(front, arg, ty, e);
      assert live == front + [last];
    }
  }

  lemma {:induction false} WithoutDistinct(live: seq<Entry>, arg: Argument, ty: Tag)
    requires DistinctArgs(live)
    ensures DistinctArgs(Without(live, arg, ty))
  {
    if live != [] {
      var front, last := live[..|live| - 1], live[|live| - 1];
      WithoutDistinct(front, arg, ty);
      var rest := Without(front, arg, ty);
      forall k | 0 <= k < |rest| ensures rest[k].arg != last.arg {
        WithoutElements(front, arg, ty, rest[k]);
        var j :| 0 <= j < |front| && front[j] == rest[k];
        assert live[j] == front[j];
      }
    }
  }

  lemma {:induction false} HotAbsent(live: seq<Entry>, arg: Argument, ty: Tag)
    requires forall k :: 0 <= k < |live| ==> live[k].arg != arg
    ensures !HasHot(live, arg, ty) && HotTypes(Without(live, arg, ty)) == HotTypes(live)
  {
    if live != [] {
      var front, e := live[..|live| - 1], live[|live| - 1];
      HotAbsent(front, arg, ty);
      HotSnoc(Without(front, arg, ty), e);
    }
  }

  lemma {:induction false} HotWithoutLast(front: seq<Entry>, e: Entry, arg: Argument, ty: Tag)
    requires forall k :: 0 <= k < |front| ==> front[k].arg != e.arg
    requires e.arg == arg
    ensures HotTypes(front + [e]) == if e.ty == ty && e.hot then HotTypes(Without(front + [e], arg, ty)) + multiset{ty}
                                     else HotTypes(Without(front + [e], arg, ty))
  {
    var live := front + [e];
    assert live[..|live| - 1] == front;
    HotAbsent(front, arg, ty);
    if e.ty != ty { HotSnoc(Without(front, arg, ty), e); }
  }

  /** Taking an object out takes one hot potato out, if it is there as one. */
  lemma {:induction false} HotWithout(live: seq<Entry>, arg: Argument, ty: Tag)
    requires DistinctArgs(live)
    ensures HotTypes(live) == if HasHot(live, arg, ty) then HotTypes(Without(live, arg, ty)) + multiset{ty}
                              else HotTypes(Without(live, arg, ty))
  {
    if live != [] {
      var front, e := live[..|live| - 1], live[|live| - 1];
      assert live == front + [e];
      HasSnoc(front, e, arg, ty);
      if e.arg == arg {
        HotAbsent(front, arg, ty);
        HotWithoutLast(front, e, arg, ty);
      } else {
        HotWithout(front, arg, ty);
        HotWithoutFront(front, e, arg, ty);
      }
    }
  }

  lemma {:induction false} HotWithoutFront(front: seq<Entry>, e: Entry, arg: Argument, ty: Tag)
    requires e.arg != arg
    requires HotTypes(front) == if HasHot(front, arg, ty) then HotTypes(Without(front, arg, ty)) + multiset{ty}
                                else HotTypes(Without(front, arg, ty))
    ensures HotTypes(front + [e])
         == if HasHot(front, arg, ty) then HotTypes(Without(front + [e], arg, ty)) + multiset{ty}
            else HotTypes(Without(front + [e], arg, ty))
  {
    var live, rest := front + [e], Without(front, arg, ty);
    assert live[..|live| - 1] == front;
    HotSnoc(front, e);
    HotSnoc(rest, e);
    assert HotTypes(rest) + multiset{ty} + multiset{e.ty} == HotTypes(rest) + multiset{e.ty} + multiset{ty};
  }

  lemma {:induction false} ListedIffLists(live: seq<Entry>, ty: Tag)
    ensures ListOf(live, ty) != [] <==> Lists(live, ty)
  {
    if live != [] {
      var front, e := live[..|live| - 1], live[|live| - 1];
      ListedIffLists(front, ty);
      if k :| 0 <= k < |front| && front[k].ty == ty { assert live[k].ty == ty; }
      assert e.ty == ty ==> Lists(live, ty);
    }
  }

  // ----- the index, step by step

  function Listing(existing: Existing, ty: Tag): seq<(Argument, Gate)> {
    if ty in existing then existing[ty] else []
  }

  function AddTo(existing: Existing, ty: Tag, arg: Argument, gate: Gate): Existing {
    existing[ty := Listing(existing, ty) + [(arg, gate)]]
  }

  /** Takes an argument out of the list of a type; a list that becomes empty goes altogether. */
  function DropFrom(existing: Existing, ty: Tag, arg: Argument): Existing
    requires ty in existing
  {
    var rest := Retained(existing[ty], arg);
    if rest == [] then existing - {ty} else existing[ty := rest]
  }

  lemma {:induction false} GroupedAdd(existing: Existing, live: seq<Entry>, e: Entry)
    requires Grouped(existing, live)
    ensures Grouped(AddTo(existing, e.ty, e.arg, e.gate), live + [e])
  {
    forall ty
      ensures ListOf(live + [e], ty)
           == if e.ty == ty then ListOf(live, ty) + [(e.arg, e.gate)] else ListOf(live, ty)
    {
      ListSnoc(live, e, ty);
    }
  }

  lemma {:induction false} GroupedDrop(existing: Existing, live: seq<Entry>, arg: Argument, ty: Tag)
    requires Grouped(existing, live) && ty in existing
    ensures Grouped(DropFrom(existing, ty, arg), Without(live, arg, ty))
  {
    forall t
      ensures ListOf(Without(live, arg, ty), t)
           == if t == ty then Retained(ListOf(live, t), arg) else ListOf(live, t)
    {
      ListWithout(live, arg, ty, t);
    }
  }

  // ----- the hot potatoes, step by step

  /** The list of hot potatoes is accounted for: it is that of the hot objects at hand and the hot vectors, and of
      what went stale, less what was overtaken. */
  ghost predicate HotInOrder(hot: seq<Tag>, a: Accounts) {
    multiset(hot) + a.over == HotTypes(a.live) + a.vectors + a.stale
  }

  /** The books are in order: the index groups the live objects, and the hot potatoes are accounted for. */
  ghost predicate InOrder(existing: Existing, hot: seq<Tag>, a: Accounts) {
    Grouped(existing, a.live) && DistinctArgs(a.live) && HotInOrder(hot, a)
  }

  lemma {:induction false} HotListIs(hot: seq<Tag>, a: Accounts)
    requires HotInOrder(hot, a)
    ensures multiset(hot) == HotList(a)
  {
    assert multiset(hot) == multiset(hot) + a.over - a.over;
  }

  /** One taking: what leaves the live objects and what leaves the list, side by side. */
  lemma {:induction false} HotTaken(hot: seq<Tag>, hot': seq<Tag>, a: Accounts, arg: Argument, ty: Tag,
                                    takesHot: bool, b: Accounts)
    requires HotInOrder(hot, a) && DistinctArgs(a.live)
    requires if takesHot then multiset(hot) == multiset(hot') + multiset{ty} else hot' == hot
    requires b.live == Without(a.live, arg, ty) && b.vectors == a.vectors
    requires b.stale == if HasHot(a.live, arg, ty) && !takesHot then a.stale + multiset{ty} else a.stale
    requires b.over == if !HasHot(a.live, arg, ty) && takesHot then a.over + multiset{ty} else a.over
    ensures HotInOrder(hot', b)
  {
    HotWithout(a.live, arg, ty);
    forall t ensures (multiset(hot') + b.over)[t] == (HotTypes(b.live) + b.vectors + b.stale)[t] {
      assert (multiset(hot) + a.over)[t] == (HotTypes(a.live) + a.vectors + a.stale)[t];
    }
  }

  /** `retain` */
  method Retain(list: seq<(Argument, Gate)>, arg: Argument) returns (rest: seq<(Argument, Gate)>)
    ensures rest == Retained(list, arg)
  {
    rest := [];
    for k := 0 to |list|
      invariant rest == Retained(list[..k], arg)
    {
      assert list[..k + 1] == list[..k] + [list[k]];
      RetainedSnoc(list[..k], list[k], arg);
      if list[k].0 != arg {
        rest := rest + [list[k]];
      }
    }
    assert list[..|list|] == list;
  }

  /** Removes the first occurrence. */
  method RemoveFirst(hot: seq<Tag>, ty: Tag) returns (rest: seq<Tag>)
    requires ty in hot
    ensures multiset(hot) == multiset(rest) + multiset{ty}
  {
    var k := 0;
    while hot[k] != ty
      invariant k < |hot| && forall j :: 0 <= j < k ==> hot[j] != ty
      decreases |hot| - k
    {
      k := k + 1;
    }
    rest := hot[..k] + hot[k + 1..];
    OneLess(hot, k);
  }

  lemma {:induction false} OneLess(hot: seq<Tag>, k: nat)
    requires k < |hot|
    ensures multiset(hot) == multiset(hot[..k] + hot[k + 1..]) + multiset{hot[k]}
  {
    assert hot == hot[..k] + [hot[k]] + hot[k + 1..];
  }

  lemma {:induction false} TakeAllStep(a: Accounts, call: MoveCall, f: FunctionAbi, k: nat)
    requires k < Pairs(call, f) && TakenType(call, f, k).Some?
    ensures var now, next := TakeAll(a, call, f, k), TakeAll(a, call, f, k + 1);
            var arg, ty := call.arguments[k], TakenType(call, f, k).value;
            var takesHot := TakesHot(call, f, k);
            && next.live == Without(now.live, arg, ty) && next.vectors == now.vectors
            && next.stale == (if HasHot(now.live, arg, ty) && !takesHot then now.stale + multiset{ty} else now.stale)
            && next.over == (if !HasHot(now.live, arg, ty) && takesHot then now.over + multiset{ty} else now.over)
  {
  }

  lemma {:induction false} TakeAllSkip(a: Accounts, call: MoveCall, f: FunctionAbi, k: nat)
    requires k < Pairs(call, f) && TakenType(call, f, k).None?
    ensures TakeAll(a, call, f, k + 1) == TakeAll(a, call, f, k)
  {
  }

  lemma {:induction false} TakeAllNone(a: Accounts, call: MoveCall, f: FunctionAbi)
    ensures TakeAll(a, call, f, 0) == a
  {
  }

  /** Books argument k of a call out, unless the source panics on it. */
  method TakeOut(existing: Existing, hot: seq<Tag>, ghost a: Accounts, call: MoveCall, f: FunctionAbi, k: nat)
      returns (ok: bool, existing': Existing, hot': seq<Tag>)
    requires k < Pairs(call, f) && TakesByValue(f.parameters[k])
    requires InOrder(existing, hot, TakeAll(a, call, f, k))
    ensures ok <==> ArgumentProceeds(a, call, f, k)
    ensures ok ==> InOrder(existing', hot', TakeAll(a, call, f, k + 1))
  {
    ok, existing', hot' := false, existing, hot;
    ghost var now := TakeAll(a, call, f, k);
    var arg, taken := call.arguments[k], Subst(f.parameters[k], TyArgs(call));
    if taken.None? {
      return;
    }
    var ty := taken.value;
    ListedIffLists(now.live, ty);
    if ty !in existing {
      return;
    }
    var rest := Retain(existing[ty], arg);
    existing' := if rest == [] then existing - {ty} else existing[ty := rest];
    HotListIs(hot, now);
    if !arg.Input? && IsHotPotato(PartialSubst(f.parameters[k], TyArgs(call))) {
      assert ty in hot <==> ty in multiset(hot);
      if ty !in hot {
        return;
      }
      hot' := RemoveFirst(hot, ty);
    }
    ok := true;
    TakeAllStep(a, call, f, k);
    GroupedDrop(existing, now.live, arg, ty);
    WithoutDistinct(now.live, arg, ty);
    HotTaken(hot, hot', now, arg, ty, TakesHot(call, f, k), TakeAll(a, call, f, k + 1));
  }

  /** Deals with argument k of a call. */
  method TakeNext(existing: Existing, hot: seq<Tag>, ghost a: Accounts, call: MoveCall, f: FunctionAbi, k: nat)
      returns (ok: bool, existing': Existing, hot': seq<Tag>)
    requires k < Pairs(call, f) && InOrder(existing, hot, TakeAll(a, call, f, k))
    ensures ok <==> ArgumentProceeds(a, call, f, k)
    ensures ok ==> InOrder(existing', hot', TakeAll(a, call, f, k + 1))
  {
    ok, existing', hot' := true, existing, hot;
    if TakesByValue(f.parameters[k]) {
      ok, existing', hot' := TakeOut(existing, hot, a, call, f, k);
    } else {
      TakeAllSkip(a, call, f, k);
    }
  }

  /** Books all by-value arguments of a call out. */
  method ConsumeArguments(existing: Existing, hot: seq<Tag>, ghost a: Accounts, call: MoveCall, f: FunctionAbi)
      returns (ok: bool, existing': Existing, hot': seq<Tag>)
    requires InOrder(existing, hot, a)
    ensures ok <==> AllProceed(a, call, f, Pairs(call, f))
    ensures ok ==> InOrder(existing', hot', TakeAll(a, call, f, Pairs(call, f)))
  {
    ok, existing', hot' := true, existing, hot;
    TakeAllNone(a, call, f);
    for k := 0 to Pairs(call, f)
      invariant ok && AllProceed(a, call, f, k) && InOrder(existing', hot', TakeAll(a, call, f, k))
    {
      ok, existing', hot' := TakeNext(existing', hot', a, call, f, k);
      if !ok {
        return;
      }
    }
  }

  // ----- results are new

  /** Arguments of live objects are inputs or results made so far: by commands before i, or, of command i, among
      its first j results. */
  ghost predicate MadeBefore(live: seq<Entry>, i: nat, j: nat) {
    forall k :: 0 <= k < |live| ==>
      var a := live[k].arg;
      a.Input? || ((a.Result? || a.NestedResult?) && (a.i < i || (a.i == i && a.NestedResult? && a.j < j)))
  }

  ghost predicate WellKept(live: seq<Entry>, i: nat, j: nat) {
    DistinctArgs(live) && MadeBefore(live, i, j)
  }

  /** What a sequence may start with: objects that are inputs, none of them a hot potato. */
  ghost predicate Starts(start: seq<Entry>) {
    DistinctArgs(start) && forall k :: 0 <= k < |start| ==> start[k].arg.Input? && !start[k].hot
  }

  lemma {:induction false} WithoutWellKept(live: seq<Entry>, arg: Argument, ty: Tag, i: nat, j: nat)
    requires WellKept(live, i, j)
    ensures WellKept(Without(live, arg, ty), i, j)
  {
    WithoutDistinct(live, arg, ty);
    var rest := Without(live, arg, ty);
    forall k | 0 <= k < |rest| ensures rest[k] in live { WithoutElements(live, arg, ty, rest[k]); }
  }

  lemma {:induction false} ConsumedWellKept(live: seq<Entry>, call: MoveCall, f: FunctionAbi, k: nat, i: nat, j: nat)
    requires k <= Pairs(call, f) && WellKept(live, i, j)
    ensures WellKept(Consumed(live, call, f, k), i, j)
  {
    if k > 0 {
      ConsumedWellKept(live, call, f, k - 1, i, j);
      var ty := TakenType(call, f, k - 1);
      if ty.Some? { WithoutWellKept(Consumed(live, call, f, k - 1), call.arguments[k - 1], ty.value, i, j); }
    }
  }

  lemma {:induction false} ProducedWellKept(live: seq<Entry>, i: nat, call: MoveCall, f: FunctionAbi, j: nat)
    requires j <= |f.results| && WellKept(live, i, 0)
    ensures |f.results| != 1 ==> WellKept(Produced(live, i, call, f, j), i, j)
    ensures WellKept(Produced(live, i, call, f, j), i + 1, 0)
  {
    if j > 0 { ProducedWellKept(live, i, call, f, j - 1); }
  }

  lemma {:induction false} ProducedDistinct(live: seq<Entry>, i: nat, call: MoveCall, f: FunctionAbi, j: nat)
    requires j <= |f.results| && WellKept(live, i, 0)
    ensures DistinctArgs(Produced(live, i, call, f, j))
  {
    ProducedWellKept(live, i, call, f, j);
  }

  lemma {:induction false} CalledWellKept(env: Env, a: Accounts, i: nat, call: MoveCall)
    requires WellKept(a.live, i, 0)
    ensures WellKept(Called(env, a, i, call).live, i + 1, 0)
  {
    if call.function_ in env.fs {
      var f := env.fs[call.function_];
      ConsumedWellKept(a.live, call, f, Pairs(call, f), i, 0);
      ProducedWellKept(Consumed(a.live, call, f, Pairs(call, f)), i, call, f, |f.results|);
    }
  }

  lemma {:induction false} AfterWellKept(env: Env, start: seq<Entry>, cmds: seq<Command>, n: nat)
    requires n <= |cmds| && Starts(start)
    ensures WellKept(After(env, start, cmds, n).live, n, 0)
  {
    if n > 0 {
      AfterWellKept(env, start, cmds, n - 1);
      if cmds[n - 1].Call? { CalledWellKept(env, After(env, start, cmds, n - 1), n - 1, cmds[n - 1].call); }
    }
  }

  /** Books one object in. */
  method BookIn(existing: Existing, hot: seq<Tag>, ghost a: Accounts, arg: Argument, ty: Tag, isHot: bool)
      returns (existing': Existing, hot': seq<Tag>)
    requires InOrder(existing, hot, a) && DistinctArgs(a.live + [Entry(arg, ty, Owned, isHot)])
    ensures InOrder(existing', hot', a.(live := a.live + [Entry(arg, ty, Owned, isHot)]))
  {
    ghost var e := Entry(arg, ty, Owned, isHot);
    GroupedAdd(existing, a.live, e);
    HotSnoc(a.live, e);
    existing' := AddTo(existing, ty, arg, Owned);
    hot' := hot;
    if isHot {
      hot' := hot + [ty];
    }
    HotBooked(hot, hot', a, a.(live := a.live + [e]), if isHot then multiset{ty} else multiset{});
  }

  lemma {:induction false} HotBooked(hot: seq<Tag>, hot': seq<Tag>, a: Accounts, b: Accounts, more: multiset<Tag>)
    requires HotInOrder(hot, a) && multiset(hot') == multiset(hot) + more
    requires HotTypes(b.live) + b.vectors == HotTypes(a.live) + a.vectors + more
    requires b.stale == a.stale && b.over == a.over
    ensures HotInOrder(hot', b)
  {
    forall t ensures (multiset(hot') + b.over)[t] == (HotTypes(b.live) + b.vectors + b.stale)[t] {
      assert (multiset(hot) + a.over)[t] == (HotTypes(a.live) + a.vectors + a.stale)[t];
      assert (HotTypes(b.live) + b.vectors)[t] == (HotTypes(a.live) + a.vectors + more)[t];
    }
  }

  /** Books one vector in, if its elements cannot be dropped. */
  method BookVector(structs: StructName -> Abilities, hot: seq<Tag>, ret: Token, m: Bindings, ty: Tag)
      returns (hot': seq<Tag>)
    requires ret.Vector? && Subst(ret, m) == Some(ty)
    ensures hot' == if HotVector(structs, ret, m) then hot + [ty] else hot
  {
    hot' := hot;
    var inner := ret.inner;
    if IsStruct(inner) {
      if Drop !in inner.handle.abilities {
        hot' := hot + [ty];
      }
    } else if inner.Param? && m[inner.index].StructTag? && Drop !in structs(NameOf(m[inner.index])) {
      hot' := hot + [ty];
    }
  }

  lemma {:induction false} NextResult(env: Env, a: Accounts, i: nat, call: MoveCall, f: FunctionAbi, j: nat)
    requires j < |f.results| && Subst(f.results[j], TyArgs(call)).Some?
    ensures var ret, m := f.results[j], TyArgs(call);
            var ty := Subst(ret, m).value;
            var now, next := MakeAll(env, a, i, call, f, j), MakeAll(env, a, i, call, f, j + 1);
            if ret.Vector? then
              next == if HotVector(env.structs, ret, m) then now.(vectors := now.vectors + multiset{ty}) else now
            else if ty.StructTag? then next == now.(live := now.live + [ResultEntry(i, call, f, j)])
            else next == now
  {
  }

  lemma {:induction false} MakeAllNone(env: Env, a: Accounts, i: nat, call: MoveCall, f: FunctionAbi)
    ensures MakeAll(env, a, i, call, f, 0) == a
  {
  }

  /** Books result j of a call in. */
  method BookResult(env: Env, existing: Existing, hot: seq<Tag>, ghost a: Accounts, i: nat, call: MoveCall,
                    f: FunctionAbi, j: nat)
      returns (ok: bool, existing': Existing, hot': seq<Tag>)
    requires j < |f.results|
    requires InOrder(existing, hot, MakeAll(env, a, i, call, f, j))
    requires DistinctArgs(Produced(a.live, i, call, f, j + 1))
    ensures ok <==> Subst(f.results[j], TyArgs(call)).Some?
    ensures ok ==> InOrder(existing', hot', MakeAll(env, a, i, call, f, j + 1))
  {
    ok, existing', hot' := false, existing, hot;
    var ret, m := f.results[j], TyArgs(call);
    if Subst(ret, m).None? {
      return;
    }
    ok := true;
    var ty := Subst(ret, m).value;
    ghost var now, next := MakeAll(env, a, i, call, f, j), MakeAll(env, a, i, call, f, j + 1);
    NextResult(env, a, i, call, f, j);
    if ret.Vector? {
      hot' := BookVector(env.structs, hot, ret, m, ty);
      HotBooked(hot, hot', now, next, if HotVector(env.structs, ret, m) then multiset{ty} else multiset{});
    } else if ty.StructTag? {
      var arg := ResultArgument(i, j, |f.results|);
      existing', hot' := BookIn(existing, hot, now, arg, ty, IsHotPotato(PartialSubst(ret, m)));
    }
  }

  /** Books the results of a call in. */
  method ProduceResults(env: Env, existing: Existing, hot: seq<Tag>, ghost a: Accounts, i: nat, call: MoveCall,
                        f: FunctionAbi)
      returns (ok: bool, existing': Existing, hot': seq<Tag>)
    requires InOrder(existing, hot, a) && WellKept(a.live, i, 0)
    ensures ok <==> Instantiates(call, f, |f.results|)
    ensures ok ==> InOrder(existing', hot', MakeAll(env, a, i, call, f, |f.results|))
  {
    ok, existing', hot' := true, existing, hot;
    MakeAllNone(env, a, i, call, f);
    for j := 0 to |f.results|
      invariant ok && Instantiates(call, f, j) && InOrder(existing', hot', MakeAll(env, a, i, call, f, j))
    {
      ProducedDistinct(a.live, i, call, f, j + 1);
      ok, existing', hot' := BookResult(env, existing', hot', a, i, call, f, j);
      if !ok {
        return;
      }
    }
  }

  // ----- the whole sequence

  /** What a sequence leaves: the objects at hand by type, the types of the hot potatoes, and the objects used. */
  datatype ObjectData = ObjectData(existing: Existing, hotPotatoes: seq<Tag>, usedObjectIds: seq<nat>)

  ghost function InputIds(inputs: seq<Input>): seq<nat> {
    if inputs == [] then []
    else
      var rest, last := InputIds(inputs[..|inputs| - 1]), inputs[|inputs| - 1];
      if last.ObjectInput? then rest + [last.id] else rest
  }

  lemma {:induction false} StartsSnoc(start: seq<Entry>, n: nat, ty: Tag, gate: Gate)
    requires Starts(start) && forall k :: 0 <= k < |start| ==> start[k].arg.i < n
    ensures Starts(start + [Entry(Argument.Input(n), ty, gate, false)])
  {
  }

  lemma {:induction false} InputsStart(inputs: seq<Input>, infos: map<nat, ObjectInfo>)
    requires Readable(inputs, infos)
    ensures Starts(InputEntries(inputs, infos)) && HotTypes(InputEntries(inputs, infos)) == multiset{}
    ensures forall k :: 0 <= k < |InputEntries(inputs, infos)| ==> InputEntries(inputs, infos)[k].arg.i < |inputs|
  {
    if inputs != [] {
      var n := |inputs| - 1;
      InputsStart(inputs[..n], infos);
      if inputs[n].ObjectInput? {
        var info, rest := infos[inputs[n].id], InputEntries(inputs[..n], infos);
        StartsSnoc(rest, n, info.ty, GateOf(info.owner));
        HotSnoc(rest, Entry(Argument.Input(n), info.ty, GateOf(info.owner), false));
      }
    }
  }

  predicate Fit(input: Input, infos: map<nat, ObjectInfo>) {
    input.ObjectInput? ==> input.id in infos && HasGate(infos[input.id].owner)
  }

  lemma {:induction false} NextInput(inputs: seq<Input>, infos: map<nat, ObjectInfo>, k: nat)
    requires k < |inputs| && Readable(inputs[..k], infos)
    ensures Readable(inputs[..k + 1], infos) <==> Fit(inputs[k], infos)
    ensures InputIds(inputs[..k + 1])
         == if inputs[k].ObjectInput? then InputIds(inputs[..k]) + [inputs[k].id] else InputIds(inputs[..k])
    ensures Fit(inputs[k], infos) ==>
              var rest := InputEntries(inputs[..k], infos);
              InputEntries(inputs[..k + 1], infos) ==
                match inputs[k]
                case PureValue => rest
                case ObjectInput(id) => rest + [Entry(Argument.Input(k), infos[id].ty, GateOf(infos[id].owner), false)]
  {
    var now := inputs[..k + 1];
    assert now[..k] == inputs[..k] && now[k] == inputs[k];
    assert forall j :: 0 <= j < k ==> now[j] == inputs[..k][j];
  }

  ghost predicate Booked(existing: Existing, used: seq<nat>, inputs: seq<Input>, infos: map<nat, ObjectInfo>,
                         gasId: nat)
  {
    && Readable(inputs, infos)
    && Grouped(existing, InputEntries(inputs, infos)) && used == [gasId] + InputIds(inputs)
  }

  /** Books input k in, unless the source panics on it. */
  method BookInput(existing: Existing, used: seq<nat>, inputs: seq<Input>, infos: map<nat, ObjectInfo>, gasId: nat,
                   k: nat)
      returns (ok: bool, existing': Existing, used': seq<nat>)
    requires k < |inputs| && Booked(existing, used, inputs[..k], infos, gasId)
    ensures ok <==> Fit(inputs[k], infos)
    ensures ok ==> Booked(existing', used', inputs[..k + 1], infos, gasId)
  {
    ok, existing', used' := true, existing, used;
    NextInput(inputs, infos, k);
    if inputs[k].ObjectInput? {
      var id := inputs[k].id;
      used' := used + [id];
      if id !in infos || !HasGate(infos[id].owner) {
        ok := false;
        return;
      }
      var info := infos[id];
      ghost var e := Entry(Argument.Input(k), info.ty, GateOf(info.owner), false);
      GroupedAdd(existing, InputEntries(inputs[..k], infos), e);
      existing' := AddTo(existing, info.ty, Argument.Input(k), GateOf(info.owner));
    }
  }

  lemma {:induction false} UnfitInput(inputs: seq<Input>, infos: map<nat, ObjectInfo>, k: nat)
    requires k < |inputs| && !Fit(inputs[k], infos)
    ensures !Readable(inputs, infos)
  {
  }

  method BookInputs(inputs: seq<Input>, infos: map<nat, ObjectInfo>, gasId: nat)
      returns (ok: bool, existing: Existing, used: seq<nat>)
    ensures ok <==> Readable(inputs, infos)
    ensures ok ==> Booked(existing, used, inputs, infos, gasId)
  {
    ok, existing, used := true, map[], [gasId];
    for k := 0 to |inputs|
      invariant ok && Booked(existing, used, inputs[..k], infos, gasId)
    {
      ok, existing, used := BookInput(existing, used, inputs, infos, gasId, k);
      if !ok {
        UnfitInput(inputs, infos, k);
        return;
      }
    }
    assert inputs[..|inputs|] == inputs;
  }

  /** One call of the sequence. */
  method BookCall(env: Env, existing: Existing, hot: seq<Tag>, ghost a: Accounts, n: nat, call: MoveCall)
      returns (ok: bool, existing': Existing, hot': seq<Tag>)
    requires InOrder(existing, hot, a) && WellKept(a.live, n, 0)
    ensures ok <==> CallProceeds(env, a, call)
    ensures ok ==> InOrder(existing', hot', Called(env, a, n, call))
  {
    ok, existing', hot' := false, existing, hot;
    if call.function_ !in env.fs {
      return;
    }
    var f := env.fs[call.function_];
    ok, existing', hot' := ConsumeArguments(existing, hot, a, call, f);
    if !ok {
      return;
    }
    ghost var left := TakeAll(a, call, f, Pairs(call, f));
    ConsumedWellKept(a.live, call, f, Pairs(call, f), n, 0);
    ok, existing', hot' := ProduceResults(env, existing', hot', left, n, call, f);
  }

  /** `ObjectData::from_ptb`, as far as objects and hot potatoes go; nothing where the source panics */
  method FromPtb(env: Env, inputs: seq<Input>, infos: map<nat, ObjectInfo>, cmds: seq<Command>, gasId: nat)
      returns (data: Option<ObjectData>)
    ensures cmds == [] ==> data == Some(ObjectData(map[], [], [gasId]))
    ensures cmds != [] ==>
              (data.Some? <==> Readable(inputs, infos) && Proceeds(env, InputEntries(inputs, infos), cmds))
    ensures cmds != [] && data.Some? ==>
              var a := After(env, InputEntries(inputs, infos), cmds, |cmds|);
              && InOrder(data.value.existing, data.value.hotPotatoes, a)
              && data.value.usedObjectIds == [gasId] + InputIds(inputs)
  {
    if cmds == [] {
      return Some(ObjectData(map[], [], [gasId]));
    }
    var ok, existing, used := BookInputs(inputs, infos, gasId);
    if !ok {
      return None;
    }
    var hot: seq<Tag> := [];
    ghost var start := InputEntries(inputs, infos);
    InputsStart(inputs, infos);
    for n := 0 to |cmds|
      invariant InOrder(existing, hot, After(env, start, cmds, n))
      invariant forall k :: 0 <= k < n && cmds[k].Call? ==>
                  CallProceeds(env, After(env, start, cmds, k), cmds[k].call)
    {
      if cmds[n].Call? {
        AfterWellKept(env, start, cmds, n);
        ok, existing, hot := BookCall(env, existing, hot, After(env, start, cmds, n), n, cmds[n].call);
        if !ok {
          return None;
        }
      }
    }
    data := Some(ObjectData(existing, hot, used));
  }
}
