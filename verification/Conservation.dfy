/** Removal and accounts together: a linear sequence stays linear when a command is removed, and which hot potatoes are
    left over then (crates/movy-fuzz/src/mutators/sequence.rs, object_data.rs). */
module Conservation {
  import opened Wrappers
  import opened Abi
  import opened Sequences
  import opened Objects
  import opened Ledger
  import opened LedgerLaws
  import opened HotPotatoes
  import Removal

  /** A linear sequence and a complete removal from it. */
  ghost predicate Shortens(env: Env, start: seq<Entry>, cmds: seq<Command>, idx: nat, removed: seq<nat>) {
    && Starts(start) && Linear(env, start, cmds)
    && Removal.RemovalOf(env.fs, cmds, idx, removed) && Removal.Distinct(removed)
  }

  ghost function Positions(cmds: seq<Command>, removed: seq<nat>): seq<nat> {
    Removal.Kept(|cmds|, removed)
  }

  ghost function Now(cmds: seq<Command>, removed: seq<nat>): (now: seq<Command>)
    requires Removal.Distinct(removed)
    ensures |now| == |Positions(cmds, removed)|
    ensures forall p :: 0 <= p < |now| ==> now[p] == Removal.Renumber(cmds[Positions(cmds, removed)[p]], removed)
  {
    Removal.Rebuilt(cmds, removed)
  }

  ghost function Ren(arg: Argument, removed: seq<nat>): Argument
    requires Removal.Distinct(removed)
  {
    Removal.RenumberArgument(arg, removed)
  }

  // ----- positions

  lemma {:induction false} PositionOf(cmds: seq<Command>, removed: seq<nat>, p: nat)
    requires Removal.Distinct(removed) && p < |Positions(cmds, removed)|
    ensures var c := Positions(cmds, removed)[p];
            c < |cmds| && c !in removed && c - Removal.Shift(removed, c) == p
  {
    var kept := Positions(cmds, removed);
    Removal.KeptOrdered(|cmds|, removed);
    assert kept[p] in kept;
    Removal.KeptPosition(|cmds|, removed, kept[p]);
    var q := kept[p] - Removal.Shift(removed, kept[p]);
    PositionsOrdered(cmds, removed, p, q);
    PositionsOrdered(cmds, removed, q, p);
  }

  lemma {:induction false} PositionFor(cmds: seq<Command>, removed: seq<nat>, c: nat) returns (p: nat)
    requires Removal.Distinct(removed) && c < |cmds| && c !in removed
    ensures p < |Positions(cmds, removed)| && Positions(cmds, removed)[p] == c && p == c - Removal.Shift(removed, c)
  {
    Removal.KeptPosition(|cmds|, removed, c);
    p := c - Removal.Shift(removed, c);
  }

  lemma {:induction false} PositionsOrdered(cmds: seq<Command>, removed: seq<nat>, p: nat, q: nat)
    requires p < |Positions(cmds, removed)| && q < |Positions(cmds, removed)|
    ensures p < q <==> Positions(cmds, removed)[p] < Positions(cmds, removed)[q]
  {
    Removal.KeptOrdered(|cmds|, removed);
    var kept := Positions(cmds, removed);
    assert p < q ==> kept[p] < kept[q];
    assert q < p ==> kept[q] < kept[p];
  }

  // ----- arguments

  /** The argument is an input or a result of a command that stays. */
  ghost predicate Stays(arg: Argument, cmds: seq<Command>, removed: seq<nat>) {
    arg.Input? || ((arg.Result? || arg.NestedResult?) && arg.i < |cmds| && arg.i !in removed)
  }

  lemma {:induction false} RenInjective(a: Argument, b: Argument, cmds: seq<Command>, removed: seq<nat>)
    requires Removal.Distinct(removed) && Stays(a, cmds, removed) && Stays(b, cmds, removed)
    ensures Ren(a, removed) == Ren(b, removed) <==> a == b
  {
    if !a.Input? && !b.Input? {
      var p := PositionFor(cmds, removed, a.i);
      var q := PositionFor(cmds, removed, b.i);
    }
  }

  // ----- calls before and after

  lemma {:induction false} SameCall(env: Env, cmds: seq<Command>, removed: seq<nat>, p: nat)
    requires Removal.Distinct(removed) && p < |Positions(cmds, removed)|
    ensures var now, c := Now(cmds, removed), Positions(cmds, removed)[p];
            && (now[p].Call? <==> cmds[c].Call?)
            && (Calls(env, now, p) <==> Calls(env, cmds, c))
            && (cmds[c].Call? ==>
                  && now[p].call.function_ == cmds[c].call.function_
                  && TyArgs(now[p].call) == TyArgs(cmds[c].call)
                  && |now[p].call.arguments| == |cmds[c].call.arguments|
                  && forall k :: 0 <= k < |now[p].call.arguments| ==>
                       now[p].call.arguments[k] == Ren(cmds[c].call.arguments[k], removed))
  {
    var now, c := Now(cmds, removed), Positions(cmds, removed)[p];
    assert now[p] == Removal.Renumber(cmds[c], removed);
  }

  lemma {:induction false} TakesRenumbered(env: Env, cmds: seq<Command>, removed: seq<nat>, p: nat, k: nat, ty: Tag)
    requires Removal.Distinct(removed) && p < |Positions(cmds, removed)|
    requires Calls(env, cmds, Positions(cmds, removed)[p])
    requires k < |cmds[Positions(cmds, removed)[p]].call.arguments|
    ensures var c := Positions(cmds, removed)[p];
            var arg := cmds[c].call.arguments[k];
            TakesAs(env, Now(cmds, removed), p, k, Ren(arg, removed), ty) <==> TakesAs(env, cmds, c, k, arg, ty)
  {
    SameCall(env, cmds, removed, p);
  }

  lemma {:induction false} MakesRenumbered(env: Env, cmds: seq<Command>, removed: seq<nat>, p: nat, j: nat, e: Entry)
    requires Removal.Distinct(removed) && p < |Positions(cmds, removed)|
    requires MakesEntry(env, cmds, Positions(cmds, removed)[p], j, e)
    ensures MakesEntry(env, Now(cmds, removed), p, j, e.(arg := Ren(e.arg, removed)))
  {
    SameCall(env, cmds, removed, p);
    PositionOf(cmds, removed, p);
  }

  /** What a kept call takes stays. */
  lemma {:induction false} TakenStays(env: Env, start: seq<Entry>, cmds: seq<Command>, idx: nat, removed: seq<nat>,
                                      c: nat, k: nat, arg: Argument, ty: Tag)
    requires Shortens(env, start, cmds, idx, removed) && TakesAs(env, cmds, c, k, arg, ty) && c !in removed
    ensures Stays(arg, cmds, removed)
  {
    TakesEarlier(env, start, cmds, c, k, arg, ty);
    if !arg.Input? {
      assert RefersTo(arg, arg.i) && Uses(cmds[c], arg.i);
    }
  }

  /** A kept call takes after the removal what it took before. */
  lemma {:induction false} TakenNow(env: Env, start: seq<Entry>, cmds: seq<Command>, idx: nat, removed: seq<nat>,
                                    p: nat, arg: Argument, ty: Tag)
    requires Shortens(env, start, cmds, idx, removed) && p < |Positions(cmds, removed)| && Stays(arg, cmds, removed)
    ensures TakenBy(env, Now(cmds, removed), p, Ren(arg, removed), ty)
       <==> TakenBy(env, cmds, Positions(cmds, removed)[p], arg, ty)
  {
    var now, c := Now(cmds, removed), Positions(cmds, removed)[p];
    PositionOf(cmds, removed, p);
    SameCall(env, cmds, removed, p);
    if TakenBy(env, cmds, c, arg, ty) {
      var k: nat :| TakesAs(env, cmds, c, k, arg, ty);
      TakesRenumbered(env, cmds, removed, p, k, ty);
    }
    if TakenBy(env, now, p, Ren(arg, removed), ty) {
      var k: nat :| TakesAs(env, now, p, k, Ren(arg, removed), ty);
      var was := cmds[c].call.arguments[k];
      TakesRenumbered(env, cmds, removed, p, k, ty);
      TakenStays(env, start, cmds, idx, removed, c, k, was, ty);
      RenInjective(was, arg, cmds, removed);
    }
  }

  lemma {:induction false} NotTakenNow(env: Env, start: seq<Entry>, cmds: seq<Command>, idx: nat, removed: seq<nat>,
                                       lo: nat, p: nat, c: nat, arg: Argument, ty: Tag)
    requires Shortens(env, start, cmds, idx, removed) && Stays(arg, cmds, removed)
    requires lo <= p < |Positions(cmds, removed)|
    requires forall q :: lo <= q < p ==> c <= Positions(cmds, removed)[q]
    requires !TakenIn(env, cmds, c, Positions(cmds, removed)[p], arg, ty)
    ensures !TakenIn(env, Now(cmds, removed), lo, p, Ren(arg, removed), ty)
  {
    forall q: nat | lo <= q < p ensures !TakenBy(env, Now(cmds, removed), q, Ren(arg, removed), ty) {
      TakenNow(env, start, cmds, idx, removed, q, arg, ty);
      PositionsOrdered(cmds, removed, q, p);
    }
  }

  /** What a kept call takes is at hand when its turn comes. */
  lemma {:induction false} AliveNow(env: Env, start: seq<Entry>, cmds: seq<Command>, idx: nat, removed: seq<nat>,
                                    p: nat, k: nat, arg: Argument, ty: Tag)
    requires Shortens(env, start, cmds, idx, removed) && p < |Positions(cmds, removed)|
    requires TakesAs(env, cmds, Positions(cmds, removed)[p], k, arg, ty)
    ensures Stays(arg, cmds, removed) && Alive(env, start, Now(cmds, removed), p, Ren(arg, removed), ty)
  {
    var now, c := Now(cmds, removed), Positions(cmds, removed)[p];
    PositionOf(cmds, removed, p);
    TakenStays(env, start, cmds, idx, removed, c, k, arg, ty);
    TakenIsAlive(env, start, cmds, c, k, arg, ty);
    if Has(start, arg, ty) && !TakenIn(env, cmds, 0, c, arg, ty) {
      NotTakenNow(env, start, cmds, idx, removed, 0, p, 0, arg, ty);
    } else {
      var maker: nat :| LeftSince(env, cmds, maker, c, arg, ty);
      MakerIsNamed(env, cmds, maker, arg, ty);
      var q := PositionFor(cmds, removed, maker);
      PositionsOrdered(cmds, removed, q, p);
      forall r | q + 1 <= r < p ensures maker + 1 <= Positions(cmds, removed)[r] {
        PositionsOrdered(cmds, removed, q, r);
      }
      NotTakenNow(env, start, cmds, idx, removed, q + 1, p, maker + 1, arg, ty);
      var j: nat, e :| MakesEntry(env, cmds, maker, j, e) && e.arg == arg && e.ty == ty;
      MakesRenumbered(env, cmds, removed, q, j, e);
      assert LeftSince(env, now, q, p, Ren(arg, removed), ty);
    }
  }

  lemma {:induction false} NotAmongNow(env: Env, start: seq<Entry>, cmds: seq<Command>, idx: nat, removed: seq<nat>,
                                       p: nat, k: nat, arg: Argument, ty: Tag)
    requires Shortens(env, start, cmds, idx, removed) && p < |Positions(cmds, removed)|
    requires TakesAs(env, cmds, Positions(cmds, removed)[p], k, arg, ty)
    ensures Calls(env, Now(cmds, removed), p)
    ensures k < Pairs(Now(cmds, removed)[p].call, Callee(env, Now(cmds, removed), p))
    ensures !TakenAmong(Now(cmds, removed)[p].call, Callee(env, Now(cmds, removed), p), k, Ren(arg, removed), ty)
  {
    var now, c := Now(cmds, removed), Positions(cmds, removed)[p];
    PositionOf(cmds, removed, p);
    SameCall(env, cmds, removed, p);
    TakenStays(env, start, cmds, idx, removed, c, k, arg, ty);
    TakenIsAlive(env, start, cmds, c, k, arg, ty);
    var call, f := now[p].call, Callee(env, now, p);
    forall i | 0 <= i < k && TakenType(call, f, i) == Some(ty) ensures call.arguments[i] != Ren(arg, removed) {
      var was := cmds[c].call.arguments[i];
      assert TakesAs(env, cmds, c, i, was, ty);
      TakenStays(env, start, cmds, idx, removed, c, i, was, ty);
      RenInjective(was, arg, cmds, removed);
    }
  }

  lemma {:induction false} ArgumentFineNow(env: Env, start: seq<Entry>, cmds: seq<Command>, idx: nat,
                                           removed: seq<nat>, p: nat, k: nat)
    requires Shortens(env, start, cmds, idx, removed) && p < |Positions(cmds, removed)|
    requires Calls(env, Now(cmds, removed), p)
    requires k < Pairs(Now(cmds, removed)[p].call, Callee(env, Now(cmds, removed), p))
    ensures ArgumentFine(After(env, start, Now(cmds, removed), p).live, Now(cmds, removed)[p].call,
                         Callee(env, Now(cmds, removed), p), k)
  {
    var now, c := Now(cmds, removed), Positions(cmds, removed)[p];
    var call, f, live := now[p].call, Callee(env, now, p), After(env, start, now, p).live;
    SameCall(env, cmds, removed, p);
    if TakesByValue(f.parameters[k]) {
      assert CallFine(env, After(env, start, cmds, c).live, cmds[c].call);
      assert ArgumentFine(After(env, start, cmds, c).live, cmds[c].call, f, k);
      var arg, ty := cmds[c].call.arguments[k], TakenType(cmds[c].call, f, k).value;
      assert TakesAs(env, cmds, c, k, arg, ty);
      AliveNow(env, start, cmds, idx, removed, p, k, arg, ty);
      NotAmongNow(env, start, cmds, idx, removed, p, k, arg, ty);
      LiveIffAlive(env, start, now, p, Ren(arg, removed), ty);
      HasConsumed(live, call, f, k, Ren(arg, removed), ty);
    }
  }

  /** Removing a command from a linear sequence leaves a linear sequence. */
  lemma {:induction false} RemovalKeepsLinear(env: Env, start: seq<Entry>, cmds: seq<Command>, idx: nat,
                                              removed: seq<nat>)
    requires Shortens(env, start, cmds, idx, removed)
    ensures Linear(env, start, Removal.Rebuilt(cmds, removed))
  {
    var now := Now(cmds, removed);
    forall p | 0 <= p < |now| && now[p].Call? ensures CallFine(env, After(env, start, now, p).live, now[p].call) {
      var c := Positions(cmds, removed)[p];
      SameCall(env, cmds, removed, p);
      assert CallFine(env, After(env, start, cmds, c).live, cmds[c].call);
      var call, f := now[p].call, env.fs[now[p].call.function_];
      assert Calls(env, now, p) && Callee(env, now, p) == f;
      assert Instantiates(call, f, |f.results|) by { assert Instantiates(cmds[c].call, f, |f.results|); }
      forall k | 0 <= k < Pairs(call, f) ensures ArgumentFine(After(env, start, now, p).live, call, f, k) {
        ArgumentFineNow(env, start, cmds, idx, removed, p, k);
      }
    }
  }

  lemma {:induction false} MadeRenumbered(env: Env, cmds: seq<Command>, removed: seq<nat>, p: nat, j: nat, e': Entry)
      returns (e: Entry)
    requires Removal.Distinct(removed) && MakesEntry(env, Now(cmds, removed), p, j, e')
    ensures p < |Positions(cmds, removed)| && MakesEntry(env, cmds, Positions(cmds, removed)[p], j, e)
    ensures e.(arg := Ren(e.arg, removed)) == e' && Stays(e.arg, cmds, removed)
  {
    SameCall(env, cmds, removed, p);
    PositionOf(cmds, removed, p);
    var c := Positions(cmds, removed)[p];
    e := ResultEntry(c, cmds[c].call, Callee(env, cmds, c), j);
  }

  lemma {:induction false} DisagreedBefore(env: Env, start: seq<Entry>, cmds: seq<Command>, idx: nat,
                                           removed: seq<nat>, p: nat, k: nat, q: nat, j: nat, e': Entry)
    requires Shortens(env, start, cmds, idx, removed) && Disagrees(env, Now(cmds, removed), p, k, q, j, e')
    ensures !Agreeing(env, cmds)
  {
    var e := MadeRenumbered(env, cmds, removed, q, j, e');
    SameCall(env, cmds, removed, p);
    PositionOf(cmds, removed, p);
    var c := Positions(cmds, removed)[p];
    var was := cmds[c].call.arguments[k];
    TakesRenumbered(env, cmds, removed, p, k, e.ty);
    TakenStays(env, start, cmds, idx, removed, c, k, was, e.ty);
    RenInjective(was, e.arg, cmds, removed);
    assert Disagrees(env, cmds, c, k, Positions(cmds, removed)[q], j, e);
  }

  /** And if takers and makers agreed before, they still do: the accounts of what is left come out right. */
  lemma {:induction false} RemovalKeepsAgreeing(env: Env, start: seq<Entry>, cmds: seq<Command>, idx: nat,
                                                removed: seq<nat>)
    requires Shortens(env, start, cmds, idx, removed) && Agreeing(env, cmds)
    ensures Agreeing(env, Removal.Rebuilt(cmds, removed))
    ensures Proceeds(env, start, Removal.Rebuilt(cmds, removed))
  {
    var now := Now(cmds, removed);
    forall p: nat, k: nat, q: nat, j: nat, e' ensures !Disagrees(env, now, p, k, q, j, e') {
      if Disagrees(env, now, p, k, q, j, e') {
        DisagreedBefore(env, start, cmds, idx, removed, p, k, q, j, e');
      }
    }
    RemovalKeepsLinear(env, start, cmds, idx, removed);
    AgreeingProceeds(env, start, now);
  }

  // ----- hot potatoes left over

  /** Result j of command c is a hot potato that the sequence leaves over. */
  ghost predicate LeftOver(env: Env, start: seq<Entry>, cmds: seq<Command>, c: nat, j: nat, e: Entry) {
    MakesEntry(env, cmds, c, j, e) && e.hot && Has(After(env, start, cmds, |cmds|).live, e.arg, e.ty)
  }

  /** Every hot potato left over after the removal was left over before. */
  ghost predicate NothingNewLeft(env: Env, start: seq<Entry>, cmds: seq<Command>, removed: seq<nat>)
    requires Removal.Distinct(removed)
  {
    forall p: nat, j: nat, e, e' ::
      && p < |Positions(cmds, removed)| && LeftOver(env, start, Now(cmds, removed), p, j, e')
      && MakesEntry(env, cmds, Positions(cmds, removed)[p], j, e)
      ==> LeftOver(env, start, cmds, Positions(cmds, removed)[p], j, e)
  }

  /** The removal does not look for the maker of what the parameter takes. */
  predicate Unmarked(param: Token) {
    !(IsStruct(param) && IsHotPotato(param))
  }

  /** A removed call takes, through an unmarked parameter, a hot potato whose maker stays. */
  ghost predicate Strays(env: Env, cmds: seq<Command>, removed: seq<nat>, r: nat, k: nat, c: nat, j: nat, e: Entry) {
    && r in removed && c !in removed && MakesEntry(env, cmds, c, j, e) && e.hot
    && TakesAs(env, cmds, r, k, e.arg, e.ty) && Unmarked(Callee(env, cmds, r).parameters[k])
  }

  ghost predicate NoStrays(env: Env, cmds: seq<Command>, removed: seq<nat>) {
    forall r: nat, k: nat, c: nat, j: nat, e :: !Strays(env, cmds, removed, r, k, c, j, e)
  }

  lemma {:induction false} LeftOverIff(env: Env, start: seq<Entry>, cmds: seq<Command>, c: nat, j: nat, e: Entry)
    requires Starts(start) && Linear(env, start, cmds) && MakesEntry(env, cmds, c, j, e)
    ensures LeftOver(env, start, cmds, c, j, e) <==> e.hot && !TakenIn(env, cmds, 0, |cmds|, e.arg, e.ty)
  {
    assert MadeBy(env, cmds, c, e.arg, e.ty);
    LiveIffNeverTaken(env, start, cmds, |cmds|, e.arg, e.ty);
  }

  /** After the removal exactly those are left over that no kept call takes. */
  lemma {:induction false} LeftOverNow(env: Env, start: seq<Entry>, cmds: seq<Command>, idx: nat, removed: seq<nat>,
                                       p: nat, j: nat, e: Entry)
    requires Shortens(env, start, cmds, idx, removed) && p < |Positions(cmds, removed)|
    requires MakesEntry(env, cmds, Positions(cmds, removed)[p], j, e)
    ensures LeftOver(env, start, Now(cmds, removed), p, j, e.(arg := Ren(e.arg, removed)))
       <==> e.hot && forall c: nat :: TakenBy(env, cmds, c, e.arg, e.ty) ==> c in removed
  {
    var now, e' := Now(cmds, removed), e.(arg := Ren(e.arg, removed));
    PositionOf(cmds, removed, p);
    MakesRenumbered(env, cmds, removed, p, j, e);
    RemovalKeepsLinear(env, start, cmds, idx, removed);
    LeftOverIff(env, start, now, p, j, e');
    forall q: nat | q < |now|
      ensures TakenBy(env, now, q, e'.arg, e.ty) <==> TakenBy(env, cmds, Positions(cmds, removed)[q], e.arg, e.ty)
      ensures Positions(cmds, removed)[q] !in removed
    {
      TakenNow(env, start, cmds, idx, removed, q, e.arg, e.ty);
      PositionOf(cmds, removed, q);
    }
    forall c: nat | TakenBy(env, cmds, c, e.arg, e.ty) && c !in removed
      ensures TakenIn(env, now, 0, |now|, e'.arg, e.ty)
    {
      var q := PositionFor(cmds, removed, c);
      assert TakenBy(env, now, q, e'.arg, e.ty);
    }
  }

  /** A hot potato of a kept maker is taken by a removed call only through an unmarked parameter. */
  lemma {:induction false} StrayIsUnmarked(env: Env, cmds: seq<Command>, idx: nat, removed: seq<nat>,
                                           r: nat, k: nat, c: nat, j: nat, e: Entry)
    requires Removal.RemovalOf(env.fs, cmds, idx, removed) && r in removed && c !in removed
    requires MakesEntry(env, cmds, c, j, e) && TakesAs(env, cmds, r, k, e.arg, e.ty)
    ensures Unmarked(Callee(env, cmds, r).parameters[k])
  {
    assert Removal.Settled(env.fs, cmds, r, removed);
    assert RefersTo(e.arg, c);
    if !Unmarked(Callee(env, cmds, r).parameters[k]) {
      assert Removal.TakesHotPotato(env.fs, cmds[r], k);
    }
  }

  lemma {:induction false} StrayLeavesMore(env: Env, start: seq<Entry>, cmds: seq<Command>, idx: nat,
                                           removed: seq<nat>, r: nat, k: nat, c: nat, j: nat, e: Entry)
    requires Shortens(env, start, cmds, idx, removed) && Strays(env, cmds, removed, r, k, c, j, e)
    ensures !NothingNewLeft(env, start, cmds, removed)
  {
    var p := PositionFor(cmds, removed, c);
    assert TakenBy(env, cmds, r, e.arg, e.ty);
    assert TakenIn(env, cmds, 0, |cmds|, e.arg, e.ty);
    LeftOverIff(env, start, cmds, c, j, e);
    forall d: nat | TakenBy(env, cmds, d, e.arg, e.ty) ensures d == r {
      if r < d { TakenOnce(env, start, cmds, r, d, e.arg, e.ty); }
      if d < r { TakenOnce(env, start, cmds, d, r, e.arg, e.ty); }
    }
    LeftOverNow(env, start, cmds, idx, removed, p, j, e);
    assert LeftOver(env, start, Now(cmds, removed), p, j, e.(arg := Ren(e.arg, removed)));
  }

  /** A removal leaves no hot potato over that was not left over before, exactly when no removed call takes one of a
      kept maker through a parameter at which the removal does not look for makers. */
  lemma {:induction false} NothingNewLeftIff(env: Env, start: seq<Entry>, cmds: seq<Command>, idx: nat,
                                             removed: seq<nat>)
    requires Shortens(env, start, cmds, idx, removed)
    ensures NothingNewLeft(env, start, cmds, removed) <==> NoStrays(env, cmds, removed)
  {
    if !NoStrays(env, cmds, removed) {
      var r: nat, k: nat, c: nat, j: nat, e :| Strays(env, cmds, removed, r, k, c, j, e);
      StrayLeavesMore(env, start, cmds, idx, removed, r, k, c, j, e);
    } else {
      forall p: nat, j: nat, e, e' |
        && p < |Positions(cmds, removed)| && LeftOver(env, start, Now(cmds, removed), p, j, e')
        && MakesEntry(env, cmds, Positions(cmds, removed)[p], j, e)
        ensures LeftOver(env, start, cmds, Positions(cmds, removed)[p], j, e)
      {
        StaysLeft(env, start, cmds, idx, removed, p, j, e, e');
      }
    }
  }

  lemma {:induction false} StaysLeft(env: Env, start: seq<Entry>, cmds: seq<Command>, idx: nat, removed: seq<nat>,
                                     p: nat, j: nat, e: Entry, e': Entry)
    requires Shortens(env, start, cmds, idx, removed) && NoStrays(env, cmds, removed)
    requires p < |Positions(cmds, removed)| && LeftOver(env, start, Now(cmds, removed), p, j, e')
    requires MakesEntry(env, cmds, Positions(cmds, removed)[p], j, e)
    ensures LeftOver(env, start, cmds, Positions(cmds, removed)[p], j, e)
  {
    var c := Positions(cmds, removed)[p];
    PositionOf(cmds, removed, p);
    MakesRenumbered(env, cmds, removed, p, j, e);
    assert e' == e.(arg := Ren(e.arg, removed));
    LeftOverNow(env, start, cmds, idx, removed, p, j, e);
    LeftOverIff(env, start, cmds, c, j, e);
    forall r: nat, k: nat ensures !TakesAs(env, cmds, r, k, e.arg, e.ty) {
      if TakesAs(env, cmds, r, k, e.arg, e.ty) {
        assert TakenBy(env, cmds, r, e.arg, e.ty);
        StrayIsUnmarked(env, cmds, idx, removed, r, k, c, j, e);
        assert Strays(env, cmds, removed, r, k, c, j, e);
      }
    }
  }

  lemma {:induction false} StructHotness(param: Token, m: Bindings)
    requires IsStruct(param)
    ensures IsHotPotato(PartialSubst(param, m)) <==> IsHotPotato(param)
  {
  }

  /** Where takers and makers agree, a stray is taken under a type parameter. */
  lemma {:induction false} StrayUnderTypeParameter(env: Env, cmds: seq<Command>, removed: seq<nat>,
                                                   r: nat, k: nat, c: nat, j: nat, e: Entry)
    requires Agreeing(env, cmds) && Strays(env, cmds, removed, r, k, c, j, e)
    ensures Callee(env, cmds, r).parameters[k].Param?
  {
    var param, m := Callee(env, cmds, r).parameters[k], TyArgs(cmds[r].call);
    assert !Disagrees(env, cmds, r, k, c, j, e);
    assert IsHotPotato(PartialSubst(param, m));
    if IsStruct(param) { StructHotness(param, m); }
    assert Subst(param, m).value.StructTag?;
  }

  function MakeThenTakeAny(h: StructHandle): seq<Command> {
    [Call(Make()), Call(TakeAny(h, Result(0)))]
  }

  lemma {:induction false} TakenUp(env: Env, h: StructHandle)
    requires env.fs == Shop(h) && Plain(h) && IsHotPotato(Struct(h))
    ensures var cmds := MakeThenTakeAny(h);
            && Linear(env, [], cmds) && Agreeing(env, cmds)
            && After(env, [], cmds, 2) == Accounts([], multiset{}, multiset{}, multiset{})
  {
    var e := Entry(Result(0), PlainTag(h), Owned, true);
    FirstMade(env, h, false);
    Takes(env, h, Opening([e]), 1, Result(0), true);
    HasOnly(e);
    Appended(env, [Call(Make())], TakeAny(h, Result(0)), MakeThenTakeAny(h));
    CleanIffAgreeing(env, [], MakeThenTakeAny(h));
  }

  lemma {:induction false} OnlyTheTaker(h: StructHandle, removed: seq<nat>)
    requires Removal.RemovalOf(Shop(h), MakeThenTakeAny(h), 1, removed)
    ensures removed == [1]
  {
    var cmds := MakeThenTakeAny(h);
    assert Removal.ClosedSet(Shop(h), cmds, {1}) by {
      forall k: nat ensures !Removal.TakesHotPotato(Shop(h), cmds[1], k) {}
    }
    assert Removal.Within([], {1});
    assert Removal.Within(removed, {1});
    assert Removal.Elements(removed) == {1};
    Removal.IncreasingDistinct(removed);
    Removal.DistinctSize(removed);
    assert removed[0] in removed;
  }

  lemma {:induction false} MakerLeavesOver(env: Env, h: StructHandle, e: Entry)
    requires env.fs == Shop(h) && Plain(h) && IsHotPotato(Struct(h)) && e == Entry(Result(0), PlainTag(h), Owned, true)
    ensures LeftOver(env, [], [Call(Make())], 0, 0, e)
  {
    FirstMade(env, h, false);
    HasOnly(e);
    assert MakesEntry(env, [Call(Make())], 0, 0, e);
  }

  lemma {:induction false} OnlyTheMaker(h: StructHandle)
    ensures Removal.Distinct([1]) && Now(MakeThenTakeAny(h), [1]) == [Call(Make())]
  {
    var cmds := MakeThenTakeAny(h);
    assert Removal.Kept(1, [1]) == [0];
    assert Positions(cmds, [1]) == [0];
    assert Removal.Renumber(cmds[0], [1]) == Call(Make());
  }

  /** A hot potato made under its own name and taken under a type parameter: removing the taker keeps the maker, and
      what was used up before is left over. */
  lemma {:induction false} GenericTakerLeavesPotato(env: Env, h: StructHandle, removed: seq<nat>)
    requires env.fs == Shop(h) && Plain(h) && IsHotPotato(Struct(h))
    requires Removal.RemovalOf(env.fs, MakeThenTakeAny(h), 1, removed)
    ensures var cmds, e := MakeThenTakeAny(h), Entry(Result(0), PlainTag(h), Owned, true);
            && Linear(env, [], cmds) && Agreeing(env, cmds)
            && removed == [1] && Removal.Distinct(removed) && Now(cmds, removed) == [Call(Make())]
            && LeftOver(env, [], Now(cmds, removed), 0, 0, e) && !LeftOver(env, [], cmds, 0, 0, e)
  {
    var e := Entry(Result(0), PlainTag(h), Owned, true);
    OnlyTheTaker(h, removed);
    OnlyTheMaker(h);
    TakenUp(env, h);
    MakerLeavesOver(env, h, e);
  }
}
