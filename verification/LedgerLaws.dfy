/** What the accounts of a sequence say about it: which objects are at hand, and when the list of hot potatoes is
    right. */
module LedgerLaws {
  import opened Wrappers
  import opened Abi
  import opened Sequences
  import opened Objects
  import opened Ledger

  // ----- making and taking

  /** Command c is a call of f. */
  ghost predicate Calls(env: Env, cmds: seq<Command>, c: nat) {
    c < |cmds| && cmds[c].Call? && cmds[c].call.function_ in env.fs
  }

  ghost function Callee(env: Env, cmds: seq<Command>, c: nat): FunctionAbi
    requires Calls(env, cmds, c)
  {
    env.fs[cmds[c].call.function_]
  }

  /** Command c makes, as its result j, the given object. */
  ghost predicate MakesEntry(env: Env, cmds: seq<Command>, c: nat, j: nat, e: Entry) {
    && Calls(env, cmds, c) && j < |Callee(env, cmds, c).results|
    && MakesObject(Callee(env, cmds, c).results[j], TyArgs(cmds[c].call))
    && e == ResultEntry(c, cmds[c].call, Callee(env, cmds, c), j)
  }

  ghost predicate MadeBy(env: Env, cmds: seq<Command>, c: nat, arg: Argument, ty: Tag) {
    exists j: nat, e :: MakesEntry(env, cmds, c, j, e) && e.arg == arg && e.ty == ty
  }

  /** Command c takes the argument by value, as its argument k and under the given type. */
  ghost predicate TakesAs(env: Env, cmds: seq<Command>, c: nat, k: nat, arg: Argument, ty: Tag) {
    && Calls(env, cmds, c) && k < Pairs(cmds[c].call, Callee(env, cmds, c))
    && TakenType(cmds[c].call, Callee(env, cmds, c), k) == Some(ty)
    && cmds[c].call.arguments[k] == arg
  }

  ghost predicate TakenBy(env: Env, cmds: seq<Command>, c: nat, arg: Argument, ty: Tag) {
    exists k: nat :: TakesAs(env, cmds, c, k, arg, ty)
  }

  ghost predicate TakenIn(env: Env, cmds: seq<Command>, lo: nat, hi: nat, arg: Argument, ty: Tag) {
    exists c: nat :: lo <= c < hi && TakenBy(env, cmds, c, arg, ty)
  }

  ghost predicate LeftSince(env: Env, cmds: seq<Command>, c: nat, n: nat, arg: Argument, ty: Tag) {
    c < n && MadeBy(env, cmds, c, arg, ty) && !TakenIn(env, cmds, c + 1, n, arg, ty)
  }

  /** The object was there from the start or made by one of the first n commands, and not taken since. */
  ghost predicate Alive(env: Env, start: seq<Entry>, cmds: seq<Command>, n: nat, arg: Argument, ty: Tag) {
    (Has(start, arg, ty) && !TakenIn(env, cmds, 0, n, arg, ty)) || MadeAndLeft(env, cmds, n, arg, ty)
  }

  ghost predicate MadeAndLeft(env: Env, cmds: seq<Command>, n: nat, arg: Argument, ty: Tag) {
    exists c: nat :: LeftSince(env, cmds, c, n, arg, ty)
  }

  // ----- what is at hand

  lemma {:induction false} HasWithout(live: seq<Entry>, gone: Argument, goneTy: Tag, arg: Argument, ty: Tag)
    ensures Has(Without(live, gone, goneTy), arg, ty) <==> Has(live, arg, ty) && !(arg == gone && ty == goneTy)
  {
    if live != [] {
      var front, e := live[..|live| - 1], live[|live| - 1];
      HasWithout(front, gone, goneTy, arg, ty);
      HasSnoc(front, e, arg, ty);
      assert front + [e] == live;
      HasSnoc(Without(front, gone, goneTy), e, arg, ty);
    }
  }

  ghost predicate TakenAmong(call: MoveCall, f: FunctionAbi, n: nat, arg: Argument, ty: Tag)
    requires n <= Pairs(call, f)
  {
    exists k :: 0 <= k < n && TakenType(call, f, k) == Some(ty) && call.arguments[k] == arg
  }

  lemma {:induction false} HasConsumed(live: seq<Entry>, call: MoveCall, f: FunctionAbi, n: nat, arg: Argument, ty: Tag)
    requires n <= Pairs(call, f)
    ensures Has(Consumed(live, call, f, n), arg, ty) <==> Has(live, arg, ty) && !TakenAmong(call, f, n, arg, ty)
  {
    if n > 0 {
      HasConsumed(live, call, f, n - 1, arg, ty);
      var gone := TakenType(call, f, n - 1);
      if gone.Some? {
        HasWithout(Consumed(live, call, f, n - 1), call.arguments[n - 1], gone.value, arg, ty);
      }
      TakenAmongStep(call, f, n - 1, arg, ty);
    }
  }

  lemma {:induction false} TakenAmongStep(call: MoveCall, f: FunctionAbi, n: nat, arg: Argument, ty: Tag)
    requires n < Pairs(call, f)
    ensures TakenAmong(call, f, n + 1, arg, ty) <==>
            TakenAmong(call, f, n, arg, ty) || (TakenType(call, f, n) == Some(ty) && call.arguments[n] == arg)
  {
  }

  ghost predicate MadeAmong(i: nat, call: MoveCall, f: FunctionAbi, n: nat, arg: Argument, ty: Tag)
    requires n <= |f.results|
  {
    exists j :: 0 <= j < n && MakesObject(f.results[j], TyArgs(call))
             && ResultEntry(i, call, f, j).arg == arg && ResultEntry(i, call, f, j).ty == ty
  }

  lemma {:induction false} HasProduced(live: seq<Entry>, i: nat, call: MoveCall, f: FunctionAbi, n: nat,
                                       arg: Argument, ty: Tag)
    requires n <= |f.results|
    ensures Has(Produced(live, i, call, f, n), arg, ty) <==> Has(live, arg, ty) || MadeAmong(i, call, f, n, arg, ty)
  {
    if n > 0 {
      HasProduced(live, i, call, f, n - 1, arg, ty);
      if MakesObject(f.results[n - 1], TyArgs(call)) {
        HasSnoc(Produced(live, i, call, f, n - 1), ResultEntry(i, call, f, n - 1), arg, ty);
      }
      assert MadeAmong(i, call, f, n, arg, ty) <==>
             || MadeAmong(i, call, f, n - 1, arg, ty)
             || (&& MakesObject(f.results[n - 1], TyArgs(call))
                 && ResultEntry(i, call, f, n - 1).arg == arg && ResultEntry(i, call, f, n - 1).ty == ty);
    }
  }

  lemma {:induction false} AmongMeans(env: Env, cmds: seq<Command>, c: nat, arg: Argument, ty: Tag)
    requires Calls(env, cmds, c)
    ensures var call, f := cmds[c].call, Callee(env, cmds, c);
            && (TakenAmong(call, f, Pairs(call, f), arg, ty) <==> TakenBy(env, cmds, c, arg, ty))
            && (MadeAmong(c, call, f, |f.results|, arg, ty) <==> MadeBy(env, cmds, c, arg, ty))
  {
    var call, f := cmds[c].call, Callee(env, cmds, c);
    if TakenAmong(call, f, Pairs(call, f), arg, ty) {
      var k :| 0 <= k < Pairs(call, f) && TakenType(call, f, k) == Some(ty) && call.arguments[k] == arg;
      assert TakesAs(env, cmds, c, k, arg, ty);
    }
    if MadeAmong(c, call, f, |f.results|, arg, ty) {
      var j :| 0 <= j < |f.results| && MakesObject(f.results[j], TyArgs(call))
            && ResultEntry(c, call, f, j).arg == arg && ResultEntry(c, call, f, j).ty == ty;
      assert MakesEntry(env, cmds, c, j, ResultEntry(c, call, f, j));
    }
  }

  /** After one more command exactly what it took is gone, and what it made is there. */
  lemma {:induction false} StepLive(env: Env, start: seq<Entry>, cmds: seq<Command>, n: nat, arg: Argument, ty: Tag)
    requires n < |cmds|
    ensures Has(After(env, start, cmds, n + 1).live, arg, ty) <==>
            || (Has(After(env, start, cmds, n).live, arg, ty) && !TakenBy(env, cmds, n, arg, ty))
            || MadeBy(env, cmds, n, arg, ty)
  {
    var live := After(env, start, cmds, n).live;
    if Calls(env, cmds, n) {
      var call, f := cmds[n].call, Callee(env, cmds, n);
      var left := Consumed(live, call, f, Pairs(call, f));
      AmongMeans(env, cmds, n, arg, ty);
      HasConsumed(live, call, f, Pairs(call, f), arg, ty);
      HasProduced(left, n, call, f, |f.results|, arg, ty);
      assert After(env, start, cmds, n + 1).live == Produced(left, n, call, f, |f.results|);
    } else {
      assert After(env, start, cmds, n + 1).live == live;
    }
  }

  lemma {:induction false} LongerTaken(env: Env, cmds: seq<Command>, lo: nat, n: nat, arg: Argument, ty: Tag)
    requires lo <= n
    ensures TakenIn(env, cmds, lo, n + 1, arg, ty)
       <==> TakenIn(env, cmds, lo, n, arg, ty) || TakenBy(env, cmds, n, arg, ty)
  {
  }

  lemma {:induction false} LongerLeft(env: Env, cmds: seq<Command>, c: nat, n: nat, arg: Argument, ty: Tag)
    ensures LeftSince(env, cmds, c, n + 1, arg, ty) <==>
            || (LeftSince(env, cmds, c, n, arg, ty) && !TakenBy(env, cmds, n, arg, ty))
            || (c == n && MadeBy(env, cmds, n, arg, ty))
  {
    if c < n { LongerTaken(env, cmds, c + 1, n, arg, ty); }
    assert !TakenIn(env, cmds, n + 1, n + 1, arg, ty);
  }

  lemma {:induction false} LongerMade(env: Env, cmds: seq<Command>, n: nat, arg: Argument, ty: Tag)
    ensures MadeAndLeft(env, cmds, n + 1, arg, ty) <==>
            || (MadeAndLeft(env, cmds, n, arg, ty) && !TakenBy(env, cmds, n, arg, ty))
            || MadeBy(env, cmds, n, arg, ty)
  {
    var next := n + 1;
    if c: nat :| LeftSince(env, cmds, c, next, arg, ty) { LongerLeft(env, cmds, c, n, arg, ty); }
    if c: nat :| LeftSince(env, cmds, c, n, arg, ty) { LongerLeft(env, cmds, c, n, arg, ty); }
    LongerLeft(env, cmds, n, n, arg, ty);
  }

  lemma {:induction false} LongerAlive(env: Env, start: seq<Entry>, cmds: seq<Command>, n: nat, arg: Argument, ty: Tag)
    ensures Alive(env, start, cmds, n + 1, arg, ty)
       <==> (Alive(env, start, cmds, n, arg, ty) && !TakenBy(env, cmds, n, arg, ty)) || MadeBy(env, cmds, n, arg, ty)
  {
    LongerTaken(env, cmds, 0, n, arg, ty);
    LongerMade(env, cmds, n, arg, ty);
  }

  lemma {:induction false} AliveAtStart(env: Env, start: seq<Entry>, cmds: seq<Command>, arg: Argument, ty: Tag)
    ensures Alive(env, start, cmds, 0, arg, ty) <==> Has(start, arg, ty)
  {
    assert !TakenIn(env, cmds, 0, 0, arg, ty);
  }

  /** An object is at hand, under its own type, exactly when it was introduced and not taken by value since. */
  lemma {:induction false} LiveIffAlive(env: Env, start: seq<Entry>, cmds: seq<Command>, n: nat, arg: Argument, ty: Tag)
    requires n <= |cmds|
    ensures Has(After(env, start, cmds, n).live, arg, ty) <==> Alive(env, start, cmds, n, arg, ty)
    decreases n
  {
    if n == 0 {
      AliveAtStart(env, start, cmds, arg, ty);
    } else {
      LiveIffAlive(env, start, cmds, n - 1, arg, ty);
      StepLive(env, start, cmds, n - 1, arg, ty);
      LongerAlive(env, start, cmds, n - 1, arg, ty);
    }
  }

  /** What `FromPtb` lists is what is at hand: under each type, each such argument, once. */
  lemma {:induction false} ListedOnce(existing: Existing, live: seq<Entry>, arg: Argument, ty: Tag)
    requires Grouped(existing, live) && DistinctArgs(live)
    ensures Has(live, arg, ty) <==> ty in existing && exists k :: 0 <= k < |existing[ty]| && existing[ty][k].0 == arg
    ensures ty in existing ==> forall i, j :: 0 <= i < j < |existing[ty]| ==> existing[ty][i].0 != existing[ty][j].0
  {
    ListElements(live, ty, arg);
    ListDistinct(live, ty);
    ListedIffLists(live, ty);
  }

  ghost predicate InList(list: seq<(Argument, Gate)>, arg: Argument) {
    exists k :: 0 <= k < |list| && list[k].0 == arg
  }

  lemma {:induction false} InListSnoc(list: seq<(Argument, Gate)>, e: (Argument, Gate), arg: Argument)
    ensures InList(list + [e], arg) <==> InList(list, arg) || e.0 == arg
  {
    var all := list + [e];
    if InList(list, arg) {
      var k :| 0 <= k < |list| && list[k].0 == arg;
      assert all[k].0 == arg;
    }
    assert all[|list|] == e;
  }

  lemma {:induction false} ListElements(live: seq<Entry>, ty: Tag, arg: Argument)
    ensures Has(live, arg, ty) <==> InList(ListOf(live, ty), arg)
  {
    if live != [] {
      var front, e := live[..|live| - 1], live[|live| - 1];
      ListElements(front, ty, arg);
      HasSnoc(front, e, arg, ty);
      assert front + [e] == live;
      if e.ty == ty { InListSnoc(ListOf(front, ty), (e.arg, e.gate), arg); }
    }
  }

  lemma {:induction false} ListDistinct(live: seq<Entry>, ty: Tag)
    requires DistinctArgs(live)
    ensures forall i, j :: 0 <= i < j < |ListOf(live, ty)| ==> ListOf(live, ty)[i].0 != ListOf(live, ty)[j].0
  {
    if live != [] {
      var front, e := live[..|live| - 1], live[|live| - 1];
      ListDistinct(front, ty);
      ListElements(front, ty, e.arg);
      assert !Has(front, e.arg, ty);
      assert !InList(ListOf(front, ty), e.arg);
    }
  }

  // ----- linear sequences

  /** Argument k of a call is fine: if taken by value, it denotes an object at hand of the parameter's type. */
  ghost predicate ArgumentFine(live: seq<Entry>, call: MoveCall, f: FunctionAbi, k: nat)
    requires k < Pairs(call, f)
  {
    TakesByValue(f.parameters[k]) ==>
      && TakenType(call, f, k).Some?
      && Has(Consumed(live, call, f, k), call.arguments[k], TakenType(call, f, k).value)
  }

  ghost predicate CallFine(env: Env, live: seq<Entry>, call: MoveCall) {
    && call.function_ in env.fs
    && var f := env.fs[call.function_];
       && Instantiates(call, f, |f.results|)
       && (forall k :: 0 <= k < Pairs(call, f) ==> ArgumentFine(live, call, f, k))
  }

  /** Every call is of a known function, instantiates all its types, and takes only objects at hand of the right
      type. */
  ghost predicate Linear(env: Env, start: seq<Entry>, cmds: seq<Command>) {
    forall n :: 0 <= n < |cmds| && cmds[n].Call? ==> CallFine(env, After(env, start, cmds, n).live, cmds[n].call)
  }

  /** In a linear sequence what a call takes is at hand, and not taken twice by the call. */
  lemma {:induction false} TakenIsAlive(env: Env, start: seq<Entry>, cmds: seq<Command>, c: nat, k: nat,
                                        arg: Argument, ty: Tag)
    requires Linear(env, start, cmds) && TakesAs(env, cmds, c, k, arg, ty)
    ensures Alive(env, start, cmds, c, arg, ty)
    ensures Has(Consumed(After(env, start, cmds, c).live, cmds[c].call, Callee(env, cmds, c), k), arg, ty)
    ensures !TakenAmong(cmds[c].call, Callee(env, cmds, c), k, arg, ty)
  {
    var live, call, f := After(env, start, cmds, c).live, cmds[c].call, Callee(env, cmds, c);
    assert CallFine(env, live, call);
    assert ArgumentFine(live, call, f, k);
    HasConsumed(live, call, f, k, arg, ty);
    LiveIffAlive(env, start, cmds, c, arg, ty);
  }

  /** The maker of a result is the command it names; a lone result is named by its command, one of several by its place
      among them. */
  lemma {:induction false} MakerIsNamed(env: Env, cmds: seq<Command>, c: nat, arg: Argument, ty: Tag)
    requires MadeBy(env, cmds, c, arg, ty)
    ensures (arg.Result? || arg.NestedResult?) && arg.i == c && Calls(env, cmds, c)
    ensures var rets, j := Callee(env, cmds, c).results, if arg.Result? then 0 else arg.j;
            && (arg.Result? <==> |rets| == 1) && j < |rets|
            && Subst(rets[j], TyArgs(cmds[c].call)) == Some(ty) && ty.StructTag?
  {
  }

  /** What a command takes is an input or an earlier result. */
  lemma {:induction false} TakesEarlier(env: Env, start: seq<Entry>, cmds: seq<Command>, c: nat, k: nat,
                                        arg: Argument, ty: Tag)
    requires Starts(start) && Linear(env, start, cmds) && TakesAs(env, cmds, c, k, arg, ty)
    ensures if arg.Input? then Has(start, arg, ty)
            else (arg.Result? || arg.NestedResult?) && arg.i < c && MadeBy(env, cmds, arg.i, arg, ty)
  {
    TakenIsAlive(env, start, cmds, c, k, arg, ty);
    if !(Has(start, arg, ty) && !TakenIn(env, cmds, 0, c, arg, ty)) {
      var maker: nat :| LeftSince(env, cmds, maker, c, arg, ty);
      MakerIsNamed(env, cmds, maker, arg, ty);
    }
  }

  /** What takes a result comes after its maker. */
  lemma {:induction false} TakersComeLater(env: Env, start: seq<Entry>, cmds: seq<Command>, maker: nat, n: nat,
                                           arg: Argument, ty: Tag)
    requires Starts(start) && Linear(env, start, cmds) && MadeBy(env, cmds, maker, arg, ty)
    ensures TakenIn(env, cmds, 0, n, arg, ty) <==> TakenIn(env, cmds, maker + 1, n, arg, ty)
  {
    MakerIsNamed(env, cmds, maker, arg, ty);
    if TakenIn(env, cmds, 0, n, arg, ty) {
      var d: nat :| 0 <= d < n && TakenBy(env, cmds, d, arg, ty);
      var k: nat :| TakesAs(env, cmds, d, k, arg, ty);
      TakesEarlier(env, start, cmds, d, k, arg, ty);
    }
  }

  /** In a linear sequence, an object is at hand exactly when it was introduced and never taken by value. */
  lemma {:induction false} LiveIffNeverTaken(env: Env, start: seq<Entry>, cmds: seq<Command>, n: nat,
                                             arg: Argument, ty: Tag)
    requires Starts(start) && Linear(env, start, cmds) && n <= |cmds|
    ensures Has(After(env, start, cmds, n).live, arg, ty) <==>
            && (Has(start, arg, ty) || exists c: nat :: c < n && MadeBy(env, cmds, c, arg, ty))
            && !TakenIn(env, cmds, 0, n, arg, ty)
  {
    LiveIffAlive(env, start, cmds, n, arg, ty);
    forall c: nat | MadeBy(env, cmds, c, arg, ty)
      ensures LeftSince(env, cmds, c, n, arg, ty) <==> c < n && !TakenIn(env, cmds, 0, n, arg, ty)
    {
      TakersComeLater(env, start, cmds, c, n, arg, ty);
    }
    if c: nat :| c < n && MadeBy(env, cmds, c, arg, ty) {
      assert !TakenIn(env, cmds, 0, n, arg, ty) ==> LeftSince(env, cmds, c, n, arg, ty);
    }
  }

  /** Nothing is taken by two commands. */
  lemma {:induction false} TakenOnce(env: Env, start: seq<Entry>, cmds: seq<Command>, c: nat, d: nat,
                                     arg: Argument, ty: Tag)
    requires Starts(start) && Linear(env, start, cmds) && c < d < |cmds| && TakenBy(env, cmds, c, arg, ty)
    ensures !TakenBy(env, cmds, d, arg, ty)
  {
    LiveIffNeverTaken(env, start, cmds, d, arg, ty);
    LiveIffAlive(env, start, cmds, d, arg, ty);
    assert TakenIn(env, cmds, 0, d, arg, ty);
    forall k: nat ensures !TakesAs(env, cmds, d, k, arg, ty) {
      if TakesAs(env, cmds, d, k, arg, ty) { TakenIsAlive(env, start, cmds, d, k, arg, ty); }
    }
  }

  /** The objects in use at the start are those of the inputs. */
  lemma {:induction false} InputIdsIff(inputs: seq<Ledger.Input>, id: nat)
    ensures id in InputIds(inputs) <==> ObjectInput(id) in inputs
  {
    if inputs != [] {
      var front, last := inputs[..|inputs| - 1], inputs[|inputs| - 1];
      InputIdsIff(front, id);
      assert inputs == front + [last];
    }
  }

  // ----- when the list of hot potatoes is right

  /** The list is that of the hot objects at hand and the hot vectors exactly when, of each type, as many went stale
      as were overtaken. */
  lemma {:induction false} ListRightIffBalanced(hot: seq<Tag>, a: Accounts)
    requires HotInOrder(hot, a)
    ensures multiset(hot) == HotTypes(a.live) + a.vectors <==> a.stale == a.over
  {
    var due := HotTypes(a.live) + a.vectors;
    if multiset(hot) == due {
      forall t ensures a.stale[t] == a.over[t] { assert (multiset(hot) + a.over)[t] == (due + a.stale)[t]; }
    }
    if a.stale == a.over {
      forall t ensures multiset(hot)[t] == due[t] { assert (multiset(hot) + a.over)[t] == (due + a.stale)[t]; }
    }
  }

  /** Taker and maker of a result disagree on whether it is a hot potato. */
  ghost predicate Disagrees(env: Env, cmds: seq<Command>, c: nat, k: nat, maker: nat, j: nat, e: Entry) {
    && MakesEntry(env, cmds, maker, j, e) && TakesAs(env, cmds, c, k, e.arg, e.ty)
    && TakesHot(cmds[c].call, Callee(env, cmds, c), k) != e.hot
  }

  /** Whoever takes a result by value counts it as a hot potato exactly if its maker does. */
  ghost predicate Agreeing(env: Env, cmds: seq<Command>) {
    forall c: nat, k: nat, maker: nat, j: nat, e :: !Disagrees(env, cmds, c, k, maker, j, e)
  }

  lemma {:induction false} ConsumedSubset(live: seq<Entry>, call: MoveCall, f: FunctionAbi, k: nat, e: Entry)
    requires k <= Pairs(call, f) && e in Consumed(live, call, f, k)
    ensures e in live
  {
    if k > 0 {
      var ty := TakenType(call, f, k - 1);
      if ty.Some? { WithoutElements(Consumed(live, call, f, k - 1), call.arguments[k - 1], ty.value, e); }
      ConsumedSubset(live, call, f, k - 1, e);
    }
  }

  lemma {:induction false} ProducedOrigin(live: seq<Entry>, i: nat, call: MoveCall, f: FunctionAbi, n: nat, e: Entry)
    requires n <= |f.results| && e in Produced(live, i, call, f, n)
    ensures e in live ||
            exists j :: 0 <= j < n && MakesObject(f.results[j], TyArgs(call)) && e == ResultEntry(i, call, f, j)
  {
    if n > 0 && e in Produced(live, i, call, f, n - 1) { ProducedOrigin(live, i, call, f, n - 1, e); }
  }

  ghost predicate Originates(env: Env, start: seq<Entry>, cmds: seq<Command>, e: Entry) {
    e in start || exists c: nat, j: nat :: MakesEntry(env, cmds, c, j, e)
  }

  /** An object at hand is as it was at the start or as it was made. */
  lemma {:induction false} LiveOriginates(env: Env, start: seq<Entry>, cmds: seq<Command>, n: nat, e: Entry)
    requires n <= |cmds| && e in After(env, start, cmds, n).live
    ensures Originates(env, start, cmds, e)
  {
    if n > 0 {
      var live := After(env, start, cmds, n - 1).live;
      if Calls(env, cmds, n - 1) {
        var call, f := cmds[n - 1].call, Callee(env, cmds, n - 1);
        var left := Consumed(live, call, f, Pairs(call, f));
        ProducedOrigin(left, n - 1, call, f, |f.results|, e);
        if j :| 0 <= j < |f.results| && MakesObject(f.results[j], TyArgs(call)) && e == ResultEntry(n - 1, call, f, j) {
          assert MakesEntry(env, cmds, n - 1, j, e);
        } else {
          ConsumedSubset(live, call, f, Pairs(call, f), e);
          LiveOriginates(env, start, cmds, n - 1, e);
        }
      } else {
        LiveOriginates(env, start, cmds, n - 1, e);
      }
    }
  }

  /** The argument tells which result it is. */
  lemma {:induction false} EntryUnique(env: Env, cmds: seq<Command>, c: nat, j: nat, e: Entry,
                                       c': nat, j': nat, e': Entry)
    requires MakesEntry(env, cmds, c, j, e) && MakesEntry(env, cmds, c', j', e') && e.arg == e'.arg
    ensures c == c' && j == j' && e == e'
  {
  }

  /** Argument k of a call is not on hand as it is taken: hot though taken as cool, or the other way round. */
  ghost predicate Unsettled(live: seq<Entry>, call: MoveCall, f: FunctionAbi, k: nat)
    requires k < Pairs(call, f)
  {
    && TakenType(call, f, k).Some?
    && TakesHot(call, f, k) != HasHot(Consumed(live, call, f, k), call.arguments[k], TakenType(call, f, k).value)
  }

  lemma {:induction false} HotAsMade(live: seq<Entry>, k: nat)
    requires DistinctArgs(live) && k < |live|
    ensures HasHot(live, live[k].arg, live[k].ty) <==> live[k].hot
  {
  }

  lemma {:induction false} TakenEntry(env: Env, start: seq<Entry>, cmds: seq<Command>, c: nat, k: nat)
      returns (e: Entry)
    requires Starts(start) && Linear(env, start, cmds)
    requires Calls(env, cmds, c) && k < Pairs(cmds[c].call, Callee(env, cmds, c))
    requires TakenType(cmds[c].call, Callee(env, cmds, c), k).Some?
    ensures e.arg == cmds[c].call.arguments[k] && TakenType(cmds[c].call, Callee(env, cmds, c), k) == Some(e.ty)
    ensures Originates(env, start, cmds, e)
    ensures HasHot(Consumed(After(env, start, cmds, c).live, cmds[c].call, Callee(env, cmds, c), k), e.arg, e.ty)
       <==> e.hot
  {
    var live, call, f := After(env, start, cmds, c).live, cmds[c].call, Callee(env, cmds, c);
    var arg, ty := call.arguments[k], TakenType(call, f, k).value;
    TakenIsAlive(env, start, cmds, c, k, arg, ty);
    var now := Consumed(live, call, f, k);
    var at :| 0 <= at < |now| && now[at].arg == arg && now[at].ty == ty;
    e := now[at];
    ConsumedSubset(live, call, f, k, e);
    LiveOriginates(env, start, cmds, c, e);
    AfterWellKept(env, start, cmds, c);
    ConsumedWellKept(live, call, f, k, c, 0);
    HotAsMade(now, at);
  }

  /** A taking is unsettled exactly when taker and maker disagree. */
  lemma {:induction false} UnsettledIffDisagrees(env: Env, start: seq<Entry>, cmds: seq<Command>, c: nat, k: nat)
    requires Starts(start) && Linear(env, start, cmds)
    requires Calls(env, cmds, c) && k < Pairs(cmds[c].call, Callee(env, cmds, c))
    ensures Unsettled(After(env, start, cmds, c).live, cmds[c].call, Callee(env, cmds, c), k)
       <==> exists maker: nat, j: nat, e :: Disagrees(env, cmds, c, k, maker, j, e)
  {
    var call, f := cmds[c].call, Callee(env, cmds, c);
    if TakenType(call, f, k).Some? {
      var e := TakenEntry(env, start, cmds, c, k);
      if e in start {
        forall maker: nat, j: nat, e' ensures !Disagrees(env, cmds, c, k, maker, j, e') {
          if MakesEntry(env, cmds, maker, j, e') { assert !e'.arg.Input?; }
        }
      } else {
        var maker: nat, j: nat :| MakesEntry(env, cmds, maker, j, e);
        assert TakesAs(env, cmds, c, k, e.arg, e.ty) && !e.arg.Input?;
        assert Disagrees(env, cmds, c, k, maker, j, e) <==> TakesHot(call, f, k) != e.hot;
        forall maker': nat, j': nat, e' | Disagrees(env, cmds, c, k, maker', j', e') ensures e' == e {
          EntryUnique(env, cmds, maker, j, e, maker', j', e');
        }
      }
    }
  }

  ghost predicate CallSettled(live: seq<Entry>, call: MoveCall, f: FunctionAbi, n: nat)
    requires n <= Pairs(call, f)
  {
    n == 0 || (CallSettled(live, call, f, n - 1) && !Unsettled(live, call, f, n - 1))
  }

  lemma {:induction false} CallSettledBefore(live: seq<Entry>, call: MoveCall, f: FunctionAbi, n: nat, k: nat)
    requires k < n <= Pairs(call, f) && CallSettled(live, call, f, n)
    ensures !Unsettled(live, call, f, k) && CallSettled(live, call, f, k)
  {
    if k < n - 1 { CallSettledBefore(live, call, f, n - 1, k); }
  }

  lemma {:induction false} ArgumentUnsettled(live: seq<Entry>, call: MoveCall, f: FunctionAbi, n: nat) returns (k: nat)
    requires n <= Pairs(call, f) && !CallSettled(live, call, f, n)
    ensures k < n && Unsettled(live, call, f, k)
  {
    if Unsettled(live, call, f, n - 1) {
      k := n - 1;
    } else {
      k := ArgumentUnsettled(live, call, f, n - 1);
    }
  }

  lemma {:induction false} OneMoreType(m: multiset<Tag>, ty: Tag)
    ensures m + multiset{ty} != multiset{}
  {
    assert (m + multiset{ty})[ty] > 0;
  }

  lemma {:induction false} StepClean(live: seq<Entry>, call: MoveCall, f: FunctionAbi, k: nat)
    requires k < Pairs(call, f)
    ensures CleanTo(live, call, f, k + 1) <==> CleanTo(live, call, f, k) && !Unsettled(live, call, f, k)
  {
    var ty := TakenType(call, f, k);
    if ty.Some? {
      OneMoreType(Stale(live, call, f, k), ty.value);
      OneMoreType(Overtaken(live, call, f, k), ty.value);
    }
  }

  ghost predicate CleanTo(live: seq<Entry>, call: MoveCall, f: FunctionAbi, n: nat)
    requires n <= Pairs(call, f)
  {
    Stale(live, call, f, n) == multiset{} && Overtaken(live, call, f, n) == multiset{}
  }

  lemma {:induction false} CallClean(live: seq<Entry>, call: MoveCall, f: FunctionAbi, n: nat)
    requires n <= Pairs(call, f)
    ensures CleanTo(live, call, f, n) <==> CallSettled(live, call, f, n)
  {
    if n > 0 {
      CallClean(live, call, f, n - 1);
      StepClean(live, call, f, n - 1);
    }
  }

  ghost predicate SettledAt(env: Env, start: seq<Entry>, cmds: seq<Command>, c: nat)
    requires c < |cmds|
  {
    Calls(env, cmds, c) ==>
      var call, f := cmds[c].call, Callee(env, cmds, c);
      CallSettled(After(env, start, cmds, c).live, call, f, Pairs(call, f))
  }

  ghost predicate Clean(a: Accounts) {
    a.stale == multiset{} && a.over == multiset{}
  }

  ghost predicate AllSettled(env: Env, start: seq<Entry>, cmds: seq<Command>, n: nat)
    requires n <= |cmds|
  {
    n == 0 || (AllSettled(env, start, cmds, n - 1) && SettledAt(env, start, cmds, n - 1))
  }

  lemma {:induction false} SettledBefore(env: Env, start: seq<Entry>, cmds: seq<Command>, n: nat, c: nat)
    requires c < n <= |cmds| && AllSettled(env, start, cmds, n)
    ensures SettledAt(env, start, cmds, c) && AllSettled(env, start, cmds, c)
  {
    if c < n - 1 { SettledBefore(env, start, cmds, n - 1, c); }
  }

  lemma {:induction false} UnsettledSomewhere(env: Env, start: seq<Entry>, cmds: seq<Command>, n: nat) returns (c: nat)
    requires n <= |cmds| && !AllSettled(env, start, cmds, n)
    ensures c < n && !SettledAt(env, start, cmds, c)
  {
    if SettledAt(env, start, cmds, n - 1) {
      c := UnsettledSomewhere(env, start, cmds, n - 1);
    } else {
      c := n - 1;
    }
  }

  lemma {:induction false} CleanIffSettled(env: Env, start: seq<Entry>, cmds: seq<Command>, n: nat)
    requires n <= |cmds|
    ensures Clean(After(env, start, cmds, n)) <==> AllSettled(env, start, cmds, n)
  {
    if n > 0 {
      CleanIffSettled(env, start, cmds, n - 1);
      CleanStep(env, start, cmds, n - 1);
    }
  }

  lemma {:induction false} CleanStep(env: Env, start: seq<Entry>, cmds: seq<Command>, n: nat)
    requires n < |cmds|
    ensures Clean(After(env, start, cmds, n + 1))
       <==> Clean(After(env, start, cmds, n)) && SettledAt(env, start, cmds, n)
  {
    var a := After(env, start, cmds, n);
    if Calls(env, cmds, n) {
      var call, f := cmds[n].call, Callee(env, cmds, n);
      CallClean(a.live, call, f, Pairs(call, f));
      CleanSum(a, call, f);
    } else {
      assert After(env, start, cmds, n + 1) == a;
    }
  }

  lemma {:induction false} CleanSum(a: Accounts, call: MoveCall, f: FunctionAbi)
    ensures Clean(TakeAll(a, call, f, Pairs(call, f))) <==>
            && Clean(a)
            && Stale(a.live, call, f, Pairs(call, f)) == multiset{}
            && Overtaken(a.live, call, f, Pairs(call, f)) == multiset{}
  {
  }

  lemma {:induction false} SettledIffAgreed(env: Env, start: seq<Entry>, cmds: seq<Command>, c: nat)
    requires Starts(start) && Linear(env, start, cmds) && c < |cmds|
    ensures SettledAt(env, start, cmds, c)
       <==> forall k: nat, maker: nat, j: nat, e :: !Disagrees(env, cmds, c, k, maker, j, e)
  {
    if Calls(env, cmds, c) {
      var live, call, f := After(env, start, cmds, c).live, cmds[c].call, Callee(env, cmds, c);
      if !SettledAt(env, start, cmds, c) {
        var k := ArgumentUnsettled(live, call, f, Pairs(call, f));
        UnsettledIffDisagrees(env, start, cmds, c, k);
      }
      forall k: nat, maker: nat, j: nat, e | Disagrees(env, cmds, c, k, maker, j, e)
        ensures !SettledAt(env, start, cmds, c)
      {
        UnsettledIffDisagrees(env, start, cmds, c, k);
        if SettledAt(env, start, cmds, c) { CallSettledBefore(live, call, f, Pairs(call, f), k); }
      }
    }
  }

  /** In a linear sequence nothing goes stale and nothing is overtaken exactly when takers and makers agree. */
  lemma {:induction false} CleanIffAgreeing(env: Env, start: seq<Entry>, cmds: seq<Command>)
    requires Starts(start) && Linear(env, start, cmds)
    ensures Clean(After(env, start, cmds, |cmds|)) <==> Agreeing(env, cmds)
  {
    CleanIffSettled(env, start, cmds, |cmds|);
    if !AllSettled(env, start, cmds, |cmds|) {
      var c := UnsettledSomewhere(env, start, cmds, |cmds|);
      SettledIffAgreed(env, start, cmds, c);
    }
    if !Agreeing(env, cmds) {
      var c: nat, k: nat, maker: nat, j: nat, e :| Disagrees(env, cmds, c, k, maker, j, e);
      SettledIffAgreed(env, start, cmds, c);
      if AllSettled(env, start, cmds, |cmds|) { SettledBefore(env, start, cmds, |cmds|, c); }
    }
  }

  lemma {:induction false} HotIsCounted(live: seq<Entry>, arg: Argument, ty: Tag)
    requires HasHot(live, arg, ty)
    ensures ty in HotTypes(live)
  {
    var front, e := live[..|live| - 1], live[|live| - 1];
    assert front + [e] == live;
    HasSnoc(front, e, arg, ty);
    if HasHot(front, arg, ty) { HotIsCounted(front, arg, ty); }
  }

  lemma {:induction false} FineProceeds(a: Accounts, call: MoveCall, f: FunctionAbi, k: nat)
    requires k < Pairs(call, f) && Clean(a) && CallSettled(a.live, call, f, Pairs(call, f))
    requires ArgumentFine(a.live, call, f, k)
    ensures ArgumentProceeds(a, call, f, k)
  {
    if TakesByValue(f.parameters[k]) {
      var now, ty := TakeAll(a, call, f, k), TakenType(call, f, k).value;
      CallClean(a.live, call, f, k);
      CallSettledBefore(a.live, call, f, Pairs(call, f), k);
      assert Clean(now);
      if TakesHot(call, f, k) { HotIsCounted(now.live, call.arguments[k], ty); }
    }
  }

  /** On a linear sequence whose takers and makers agree, `FromPtb` does not panic, and its list of hot potatoes is
      that of the hot objects at hand and the hot vectors. */
  lemma {:induction false} AgreeingProceeds(env: Env, start: seq<Entry>, cmds: seq<Command>)
    requires Starts(start) && Linear(env, start, cmds) && Agreeing(env, cmds)
    ensures Proceeds(env, start, cmds)
    ensures forall hot :: HotInOrder(hot, After(env, start, cmds, |cmds|)) ==>
              multiset(hot) == HotTypes(After(env, start, cmds, |cmds|).live) + After(env, start, cmds, |cmds|).vectors
  {
    CleanIffAgreeing(env, start, cmds);
    CleanIffSettled(env, start, cmds, |cmds|);
    forall hot | HotInOrder(hot, After(env, start, cmds, |cmds|))
      ensures multiset(hot) == HotTypes(After(env, start, cmds, |cmds|).live) + After(env, start, cmds, |cmds|).vectors
    {
      ListRightIffBalanced(hot, After(env, start, cmds, |cmds|));
    }
    forall n | 0 <= n < |cmds| && cmds[n].Call? ensures CallProceeds(env, After(env, start, cmds, n), cmds[n].call) {
      var a, call := After(env, start, cmds, n), cmds[n].call;
      CleanIffSettled(env, start, cmds, n);
      SettledBefore(env, start, cmds, |cmds|, n);
      assert CallFine(env, a.live, call);
      var f := env.fs[call.function_];
      forall k | 0 <= k < Pairs(call, f) ensures ArgumentProceeds(a, call, f, k) { FineProceeds(a, call, f, k); }
    }
  }

  // ----- one more call

  lemma {:induction false} AfterPrefix(env: Env, start: seq<Entry>, cmds: seq<Command>, more: seq<Command>, n: nat)
    requires n <= |cmds|
    ensures After(env, start, cmds + more, n) == After(env, start, cmds, n)
  {
    if n > 0 {
      AfterPrefix(env, start, cmds, more, n - 1);
      assert (cmds + more)[n - 1] == cmds[n - 1];
    }
  }

  lemma {:induction false} AfterAppended(env: Env, start: seq<Entry>, cmds: seq<Command>, call: MoveCall)
    ensures After(env, start, cmds + [Call(call)], |cmds| + 1)
         == Called(env, After(env, start, cmds, |cmds|), |cmds|, call)
  {
    AfterPrefix(env, start, cmds, [Call(call)], |cmds|);
    assert (cmds + [Call(call)])[|cmds|] == Call(call);
  }

  lemma {:induction false} LinearAppended(env: Env, start: seq<Entry>, cmds: seq<Command>, call: MoveCall)
    ensures Linear(env, start, cmds + [Call(call)])
       <==> Linear(env, start, cmds) && CallFine(env, After(env, start, cmds, |cmds|).live, call)
  {
    var all := cmds + [Call(call)];
    forall n | 0 <= n <= |cmds| ensures After(env, start, all, n) == After(env, start, cmds, n) {
      AfterPrefix(env, start, cmds, [Call(call)], n);
    }
    if Linear(env, start, all) {
      assert all[|cmds|] == Call(call);
      forall n | 0 <= n < |cmds| && cmds[n].Call? ensures CallFine(env, After(env, start, cmds, n).live, cmds[n].call) {
        assert all[n] == cmds[n];
      }
    }
  }

  lemma {:induction false} ProceedsAppended(env: Env, start: seq<Entry>, cmds: seq<Command>, call: MoveCall)
    ensures Proceeds(env, start, cmds + [Call(call)])
       <==> Proceeds(env, start, cmds) && CallProceeds(env, After(env, start, cmds, |cmds|), call)
  {
    var all := cmds + [Call(call)];
    forall n | 0 <= n <= |cmds| ensures After(env, start, all, n) == After(env, start, cmds, n) {
      AfterPrefix(env, start, cmds, [Call(call)], n);
    }
    if Proceeds(env, start, all) {
      assert all[|cmds|] == Call(call);
      forall n | 0 <= n < |cmds| && cmds[n].Call? ensures CallProceeds(env, After(env, start, cmds, n), cmds[n].call) {
        assert all[n] == cmds[n];
      }
    }
  }
}
