/** Removing a command from a sequence together with everything that depends on it
    (crates/movy-fuzz/src/mutators/sequence.rs). */
module Removal {
  import opened Abi
  import opened Sequences

  // ----- index lists

  ghost predicate Increasing(s: seq<nat>) {
    forall i, j :: 0 <= i < j < |s| ==> s[i] < s[j]
  }

  ghost predicate Distinct(s: seq<nat>) {
    forall i, j :: 0 <= i < j < |s| ==> s[i] != s[j]
  }

  ghost predicate Below(s: seq<nat>, n: nat) {
    forall x :: x in s ==> x < n
  }

  function Insert(s: seq<nat>, x: nat): seq<nat> {
    if s == [] || x < s[0] then [x] + s
    else if x == s[0] then s
    else [s[0]] + Insert(s[1..], x)
  }

  /** `sort_unstable` followed by `dedup` */
  function SortDedup(s: seq<nat>): seq<nat> {
    if s == [] then [] else Insert(SortDedup(s[1..]), s[0])
  }

  lemma {:induction false} InsertSorted(s: seq<nat>, x: nat)
    requires Increasing(s)
    ensures Increasing(Insert(s, x))
    ensures forall y :: y in Insert(s, x) <==> y == x || y in s
  {
    if s != [] && x > s[0] {
      InsertSorted(s[1..], x);
      var t := Insert(s[1..], x);
      assert forall y :: y in s <==> y == s[0] || y in s[1..];
      forall j | 0 < j < |[s[0]] + t| ensures s[0] < ([s[0]] + t)[j] {
        assert ([s[0]] + t)[j] == t[j - 1] && t[j - 1] in t;
      }
    }
  }

  lemma {:induction false} SortDedupSorts(s: seq<nat>)
    ensures Increasing(SortDedup(s))
    ensures forall y :: y in SortDedup(s) <==> y in s
  {
    if s != [] {
      SortDedupSorts(s[1..]);
      InsertSorted(SortDedup(s[1..]), s[0]);
      assert forall y :: y in s <==> y == s[0] || y in s[1..];
    }
  }

  ghost function Elements(s: seq<nat>): set<nat> {
    set x | x in s
  }

  ghost function UpTo(n: nat): set<nat> {
    if n == 0 then {} else UpTo(n - 1) + {n - 1}
  }

  lemma {:induction false} UpToSize(n: nat)
    ensures |UpTo(n)| == n && forall x: nat :: x in UpTo(n) <==> x < n
  {
    if n > 0 { UpToSize(n - 1); }
  }

  lemma {:induction false} DistinctSize(s: seq<nat>)
    requires Distinct(s)
    ensures |Elements(s)| == |s|
  {
    if s != [] {
      var last, front := s[|s| - 1], s[..|s| - 1];
      DistinctSize(front);
      assert Elements(s) == Elements(front) + {last} by {
        assert s == front + [last];
      }
      assert last !in Elements(front);
    }
  }

  lemma {:induction false} DistinctBound(s: seq<nat>, n: nat)
    requires Distinct(s) && Below(s, n)
    ensures |s| <= n
  {
    UpToSize(n);
    DistinctSize(s);
    SubsetSize(Elements(s), UpTo(n));
  }

  lemma {:induction false} SubsetSize(a: set<nat>, b: set<nat>)
    requires a <= b
    ensures |a| <= |b|
  {
    if a != {} {
      var x :| x in a;
      SubsetSize(a - {x}, b - {x});
    }
  }

  lemma {:induction false} IncreasingDistinct(s: seq<nat>)
    requires Increasing(s)
    ensures Distinct(s)
  {
  }

  // ----- what has to go

  /** Argument k of a call goes to a struct parameter that is a hot potato as it stands. What is taken under a type
      parameter is not looked at. */
  ghost predicate TakesHotPotato(fs: Functions, c: Command, k: nat) {
    && c.Call? && c.call.function_ in fs
    && k < |c.call.arguments| && k < |fs[c.call.function_].parameters|
    && IsStruct(fs[c.call.function_].parameters[k]) && IsHotPotato(fs[c.call.function_].parameters[k])
  }

  /** Command i makes a hot potato that c consumes. */
  ghost predicate FeedsHotPotato(fs: Functions, c: Command, i: nat) {
    exists k: nat :: TakesHotPotato(fs, c, k) && RefersTo(c.call.arguments[k], i)
  }

  /** r's dependants are in the list: later calls that use it, the makers of the hot potatoes it consumes,
      and a coin or balance split right before it. */
  ghost predicate Settled(fs: Functions, cmds: seq<Command>, r: nat, out: seq<nat>)
    requires r < |cmds|
  {
    && (forall j :: r < j < |cmds| && Uses(cmds[j], r) ==> j in out)
    && (forall i :: 0 <= i < |cmds| && FeedsHotPotato(fs, cmds[r], i) ==> i in out)
    && (cmds[r].Call? && r > 0 && IsSplit(cmds[r - 1]) ==> r - 1 in out)
  }

  /** A set of commands that leaves nothing dangling behind, in the same sense; the run of splits may have
      removed commands in it. */
  ghost predicate ClosedSet(fs: Functions, cmds: seq<Command>, t: set<nat>) {
    && (forall r, j :: r in t && r < j < |cmds| && Uses(cmds[j], r) ==> j in t)
    && (forall r, i :: r in t && r < |cmds| && 0 <= i < |cmds| && FeedsHotPotato(fs, cmds[r], i) ==> i in t)
    && (forall r, i :: r in t && 0 <= i < r < |cmds| && cmds[r].Call? && IsSplit(cmds[i]) && Between(i, r, t) ==>
          i in t)
  }

  ghost predicate Between(i: nat, r: nat, t: set<nat>) {
    forall j :: i < j < r ==> j in t
  }

  ghost predicate Within(s: seq<nat>, t: set<nat>) {
    forall x :: x in s ==> x in t
  }

  /** Every function called is known; `get_function(..).unwrap()` relies on it. */
  ghost predicate Known(fs: Functions, cmds: seq<Command>) {
    forall k :: 0 <= k < |cmds| && cmds[k].Call? ==> cmds[k].call.function_ in fs
  }

  /** The state of a removal: a list of distinct commands that contains what was there before. */
  ghost predicate Grows(cmds: seq<Command>, before: seq<nat>, after: seq<nat>) {
    Distinct(after) && Below(after, |cmds|) && forall x :: x in before ==> x in after
  }

  /** Everything newly listed is settled, and nothing is listed that some closed set could do without. */
  ghost predicate Accounted(fs: Functions, cmds: seq<Command>, before: seq<nat>, after: seq<nat>) {
    forall r :: r in after && r !in before ==> r < |cmds| && Settled(fs, cmds, r, after)
  }

  ghost predicate Needed(fs: Functions, cmds: seq<Command>, idx: nat, before: seq<nat>, after: seq<nat>) {
    forall t: set<nat> :: ClosedSet(fs, cmds, t) && idx in t && Within(before, t) ==> Within(after, t)
  }

  /** `gen_remove_idxes` without a flash-loan provider */
  method GenRemoveIdxes(fs: Functions, cmds: seq<Command>, idx: nat, removed: seq<nat>) returns (out: seq<nat>)
    requires Known(fs, cmds) && Distinct(removed) && Below(removed, |cmds|) && idx !in removed
    ensures Grows(cmds, removed, out)
    ensures idx < |cmds| <==> idx in out
    ensures Accounted(fs, cmds, removed, out)
    ensures Needed(fs, cmds, idx, removed, out)
    ensures idx >= |cmds| ==> out == removed
    ensures idx < |cmds| && cmds[idx].Call? ==> Increasing(out)
    ensures removed == [] ==> Increasing(out)
    decreases |cmds| - |removed|, 0
  {
    if idx >= |cmds| {
      return removed;
    }
    out := removed + [idx];
    DistinctBound(out, |cmds|);

    var users: seq<nat> := [];
    for j := idx + 1 to |cmds|
      invariant forall x :: x in users <==> idx < x < j && Uses(cmds[x], idx)
    {
      if Uses(cmds[j], idx) {
        users := users + [j];
      }
    }
    assert forall x :: x in users ==> Forced(fs, cmds, idx, x);
    out := RemoveEach(fs, cmds, idx, removed, out, users);
    if cmds[idx].Other? {
      assert Settled(fs, cmds, idx, out);
      return;
    }
    out := RemoveSplitsBefore(fs, cmds, idx, removed, out);
    var makers := HotPotatoMakers(fs, cmds[idx]);
    assert forall x :: x in makers && x < |cmds| ==> Forced(fs, cmds, idx, x);
    out := RemoveEach(fs, cmds, idx, removed, out, makers);
    assert Settled(fs, cmds, idx, out);
    SortDedupSorts(out);
    IncreasingDistinct(SortDedup(out));
    SameElements(fs, cmds, removed, out, SortDedup(out));
    out := SortDedup(out);
  }

  lemma {:induction false} SameElements(fs: Functions, cmds: seq<Command>, before: seq<nat>, a: seq<nat>, b: seq<nat>)
    requires forall x :: x in a <==> x in b
    requires Accounted(fs, cmds, before, a)
    ensures Accounted(fs, cmds, before, b)
  {
    forall r | r in b && r !in before ensures r < |cmds| && Settled(fs, cmds, r, b) {
      assert Settled(fs, cmds, r, a);
    }
  }

  /** As `Accounted`, but for idx itself, whose turn is not over. */
  ghost predicate AccountedBut(fs: Functions, cmds: seq<Command>, idx: nat, before: seq<nat>, after: seq<nat>) {
    forall r :: r in after && r !in before && r != idx ==> r < |cmds| && Settled(fs, cmds, r, after)
  }

  ghost predicate Forced(fs: Functions, cmds: seq<Command>, idx: nat, x: nat) {
    forall t: set<nat> :: ClosedSet(fs, cmds, t) && idx in t ==> x in t
  }

  /** The removal that is under way at idx. */
  ghost predicate UnderWay(fs: Functions, cmds: seq<Command>, idx: nat, before: seq<nat>, now: seq<nat>) {
    && Grows(cmds, before, now) && idx in now && |before| < |now| <= |cmds|
    && AccountedBut(fs, cmds, idx, before, now)
    && Needed(fs, cmds, idx, before, now)
  }

  /** One more removal, from within the one at idx. */
  lemma {:induction false} StaysUnderWay(fs: Functions, cmds: seq<Command>, idx: nat, x: nat, before: seq<nat>,
                                         now: seq<nat>, later: seq<nat>)
    requires UnderWay(fs, cmds, idx, before, now)
    requires Grows(cmds, now, later) && Accounted(fs, cmds, now, later) && Needed(fs, cmds, x, now, later)
    requires forall t: set<nat> :: ClosedSet(fs, cmds, t) && idx in t && Within(now, t) ==> x in t
    ensures UnderWay(fs, cmds, idx, before, later) && |now| <= |later|
  {
    DistinctBound(later, |cmds|);
    LengthGrows(now, later);
    forall r | r in later && r !in before && r != idx ensures r < |cmds| && Settled(fs, cmds, r, later) {
      if r in now { assert Settled(fs, cmds, r, now); }
    }
  }

  lemma {:induction false} LengthGrows(now: seq<nat>, later: seq<nat>)
    requires Distinct(now) && Distinct(later) && forall x :: x in now ==> x in later
    ensures |now| <= |later|
  {
    DistinctSize(now);
    DistinctSize(later);
    SubsetSize(Elements(now), Elements(later));
  }

  /** Removes every command listed, last first, that is not already gone. */
  method RemoveEach(fs: Functions, cmds: seq<Command>, idx: nat, ghost before: seq<nat>, now: seq<nat>, list: seq<nat>)
      returns (out: seq<nat>)
    requires Known(fs, cmds) && UnderWay(fs, cmds, idx, before, now)
    requires forall x :: x in list && x < |cmds| ==> Forced(fs, cmds, idx, x)
    ensures UnderWay(fs, cmds, idx, before, out) && |now| <= |out|
    ensures forall x :: x in now ==> x in out
    ensures forall x :: x in list && x < |cmds| ==> x in out
    ensures Increasing(now) && (forall x :: x in list && x < |cmds| ==> cmds[x].Call?) ==> Increasing(out)
    decreases |cmds| - |now|, 1
  {
    out := now;
    var order := SortDedup(list);
    SortDedupSorts(list);
    var k := |order|;
    while k > 0
      invariant 0 <= k <= |order|
      invariant UnderWay(fs, cmds, idx, before, out) && |now| <= |out|
      invariant forall x :: x in now ==> x in out
      invariant forall j :: k <= j < |order| && order[j] < |cmds| ==> order[j] in out
      invariant Increasing(now) && (forall x :: x in list && x < |cmds| ==> cmds[x].Call?) ==> Increasing(out)
    {
      k := k - 1;
      var x := order[k];
      assert x in list;
      if x in out {
        continue;
      }
      var later := GenRemoveIdxes(fs, cmds, x, out);
      if x < |cmds| {
        assert Forced(fs, cmds, idx, x);
        StaysUnderWay(fs, cmds, idx, x, before, out, later);
      }
      out := later;
    }
  }

  /** Removes the run of splits before idx, stepping over commands already gone. */
  method RemoveSplitsBefore(fs: Functions, cmds: seq<Command>, idx: nat, ghost before: seq<nat>, now: seq<nat>)
      returns (out: seq<nat>)
    requires Known(fs, cmds) && UnderWay(fs, cmds, idx, before, now) && idx < |cmds| && cmds[idx].Call?
    ensures UnderWay(fs, cmds, idx, before, out) && |now| <= |out|
    ensures forall x :: x in now ==> x in out
    ensures idx > 0 && IsSplit(cmds[idx - 1]) ==> idx - 1 in out
    decreases |cmds| - |now|, 1
  {
    out := now;
    var i := idx;
    while i > 0
      invariant 0 <= i <= idx
      invariant UnderWay(fs, cmds, idx, before, out) && |now| <= |out|
      invariant forall x :: x in now ==> x in out
      invariant forall j :: i <= j < idx ==> j in out
    {
      i := i - 1;
      if i in out {
        continue;
      }
      if !IsSplit(cmds[i]) {
        break;
      }
      forall t: set<nat> | ClosedSet(fs, cmds, t) && idx in t && Within(out, t) ensures i in t {
        assert Between(i, idx, t);
      }
      var later := GenRemoveIdxes(fs, cmds, i, out);
      StaysUnderWay(fs, cmds, idx, i, before, out, later);
      out := later;
    }
  }

  /** The commands whose results a call takes through struct parameters that are hot potatoes. */
  method HotPotatoMakers(fs: Functions, c: Command) returns (makers: seq<nat>)
    requires c.Call? && c.call.function_ in fs
    ensures forall i :: i in makers <==> FeedsHotPotato(fs, c, i)
  {
    var args, params := c.call.arguments, fs[c.call.function_].parameters;
    var n := if |args| <= |params| then |args| else |params|;
    makers := [];
    for k := 0 to n
      invariant forall i :: i in makers <==> exists j: nat :: j < k && TakesHotPotato(fs, c, j) && RefersTo(args[j], i)
    {
      ghost var before := makers;
      if IsStruct(params[k]) && IsHotPotato(params[k]) && (args[k].Result? || args[k].NestedResult?) {
        makers := makers + [args[k].i];
        assert TakesHotPotato(fs, c, k) && RefersTo(args[k], args[k].i);
      }
      assert forall i :: i in makers <==> i in before || (TakesHotPotato(fs, c, k) && RefersTo(args[k], i));
    }
  }

  /** The outcome of a complete removal starting at idx. */
  ghost predicate RemovalOf(fs: Functions, cmds: seq<Command>, idx: nat, removed: seq<nat>) {
    && Increasing(removed) && Below(removed, |cmds|)
    && (idx in removed <==> idx < |cmds|)
    && Accounted(fs, cmds, [], removed)
    && Needed(fs, cmds, idx, [], removed)
  }

  /** In a sequence of calls the removal is the least closed set of commands around idx: it is closed, and
      every closed set that has idx contains it. */
  lemma {:induction false} RemovalIsLeastClosed(fs: Functions, cmds: seq<Command>, idx: nat, removed: seq<nat>)
    requires RemovalOf(fs, cmds, idx, removed)
    requires forall k :: 0 <= k < |cmds| ==> cmds[k].Call?
    ensures ClosedSet(fs, cmds, Elements(removed))
    ensures forall t: set<nat> :: ClosedSet(fs, cmds, t) && idx in t ==> Elements(removed) <= t
  {
    var out := Elements(removed);
    forall r, i | r in out && 0 <= i < r < |cmds| && cmds[r].Call? && IsSplit(cmds[i]) && Between(i, r, out)
      ensures i in out
    {
      var j := i + 1;
      assert j in out;
      assert Settled(fs, cmds, j, removed);
    }
    forall r, j | r in out && r < j < |cmds| && Uses(cmds[j], r) ensures j in out {
      assert Settled(fs, cmds, r, removed);
    }
    forall r, i | r in out && r < |cmds| && 0 <= i < |cmds| && FeedsHotPotato(fs, cmds[r], i) ensures i in out {
      assert Settled(fs, cmds, r, removed);
    }
    forall t: set<nat> | ClosedSet(fs, cmds, t) && idx in t ensures out <= t {
      assert Within([], t);
      assert Within(removed, t);
    }
  }

  // ----- renumbering

  /** How many removed commands stand before i. */
  function Shift(removed: seq<nat>, i: nat): nat {
    if removed == [] then 0
    else Shift(removed[..|removed| - 1], i) + if removed[|removed| - 1] < i then 1 else 0
  }

  /** The commands below n that stay, by their original positions. */
  ghost function Kept(n: nat, removed: seq<nat>): (kept: seq<nat>)
    ensures forall k :: 0 <= k < |kept| ==> kept[k] < n
  {
    if n == 0 then [] else Kept(n - 1, removed) + if n - 1 in removed then [] else [n - 1]
  }

  lemma {:induction false} ShiftStep(removed: seq<nat>, i: nat)
    requires Distinct(removed)
    ensures Shift(removed, i + 1) == Shift(removed, i) + if i in removed then 1 else 0
  {
    if removed != [] {
      var last, front := removed[|removed| - 1], removed[..|removed| - 1];
      ShiftStep(front, i);
      assert removed == front + [last];
      assert last !in front;
    }
  }

  lemma {:induction false} KeptLength(n: nat, removed: seq<nat>)
    requires Distinct(removed)
    ensures |Kept(n, removed)| + Shift(removed, n) == n
  {
    if n == 0 {
      ShiftZero(removed);
    } else {
      KeptLength(n - 1, removed);
      ShiftStep(removed, n - 1);
    }
  }

  lemma {:induction false} ShiftZero(removed: seq<nat>)
    ensures Shift(removed, 0) == 0
  {
    if removed != [] { ShiftZero(removed[..|removed| - 1]); }
  }

  /** A command that stays is found at its old position less the shift. */
  lemma {:induction false} KeptPosition(n: nat, removed: seq<nat>, i: nat)
    requires Distinct(removed) && i < n && i !in removed
    ensures 0 <= i - Shift(removed, i) < |Kept(n, removed)|
    ensures Kept(n, removed)[i - Shift(removed, i)] == i
  {
    KeptLength(i, removed);
    if i < n - 1 { KeptPosition(n - 1, removed, i); }
  }

  lemma {:induction false} KeptOrdered(n: nat, removed: seq<nat>)
    ensures Increasing(Kept(n, removed))
    ensures forall x :: x in Kept(n, removed) <==> 0 <= x < n && x !in removed
  {
    if n > 0 { KeptOrdered(n - 1, removed); }
  }

  function RenumberArgument(a: Argument, removed: seq<nat>): Argument
    requires Distinct(removed)
  {
    match a
    case Result(i) => KeptLength(i, removed); Result(i - Shift(removed, i))
    case NestedResult(i, j) => KeptLength(i, removed); NestedResult(i - Shift(removed, i), j)
    case _ => a
  }

  ghost function Renumber(c: Command, removed: seq<nat>): Command
    requires Distinct(removed)
  {
    match c
    case Call(call) =>
      Call(call.(arguments := seq(|call.arguments|, k requires 0 <= k < |call.arguments| =>
                                    RenumberArgument(call.arguments[k], removed))))
    case Other(_) => c
  }

  /** The sequence without the removed commands, its calls renumbered. */
  ghost function Rebuilt(cmds: seq<Command>, removed: seq<nat>): seq<Command>
    requires Distinct(removed)
  {
    var kept := Kept(|cmds|, removed);
    seq(|kept|, p requires 0 <= p < |kept| => Renumber(cmds[kept[p]], removed))
  }

  /** Results are used only after they are made. */
  ghost predicate PointsBack(cmds: seq<Command>) {
    forall j: nat, i: nat :: j < |cmds| && Uses(cmds[j], i) ==> i < j
  }

  /** `now` stands at position p and points back to the command that `was` pointed back to. */
  ghost predicate PointsAlike(was: Argument, now: Argument, p: nat, kept: seq<nat>)
    requires p < |kept|
  {
    match was
    case Result(i) => now.Result? && now.i < p && kept[now.i] == i
    case NestedResult(i, j) => now.NestedResult? && now.i < p && kept[now.i] == i && now.j == j
    case _ => now == was
  }

  /** What a kept call uses is kept. */
  lemma {:induction false} UsedIsKept(fs: Functions, cmds: seq<Command>, removed: seq<nat>, at: nat, i: nat)
    requires Accounted(fs, cmds, [], removed) && PointsBack(cmds)
    requires at < |cmds| && at !in removed && Uses(cmds[at], i)
    ensures i < at && i !in removed
  {
  }

  lemma {:induction false} EarlierPosition(kept: seq<nat>, p: nat, q: nat)
    requires Increasing(kept) && p < |kept| && q < |kept| && kept[q] < kept[p]
    ensures q < p
  {
  }

  lemma {:induction false} ArgumentPointsAlike(cmds: seq<Command>, removed: seq<nat>, p: nat, a: Argument)
    requires Distinct(removed) && p < |Kept(|cmds|, removed)|
    requires a.Result? || a.NestedResult? ==> a.i < Kept(|cmds|, removed)[p] && a.i !in removed
    ensures PointsAlike(a, RenumberArgument(a, removed), p, Kept(|cmds|, removed))
  {
    if a.Result? || a.NestedResult? {
      KeptOrdered(|cmds|, removed);
      KeptPosition(|cmds|, removed, a.i);
      EarlierPosition(Kept(|cmds|, removed), p, a.i - Shift(removed, a.i));
    }
  }

  /** A command other than for the arguments of a call. */
  ghost predicate SameBut(was: Command, now: Command) {
    if was.Other? then now == was
    else
      && now.Call? && now.call.function_ == was.call.function_ && now.call.typeArguments == was.call.typeArguments
      && |now.call.arguments| == |was.call.arguments|
  }

  /** The kept commands keep their order and stay as they are, except that each result reference of a call points back,
      from its new place, to the very command it pointed back to before. */
  lemma {:induction false} RebuiltPointsAlike(fs: Functions, cmds: seq<Command>, idx: nat, removed: seq<nat>)
    requires RemovalOf(fs, cmds, idx, removed) && Distinct(removed) && PointsBack(cmds)
    ensures var kept, now := Kept(|cmds|, removed), Rebuilt(cmds, removed);
            && |now| == |kept| && Increasing(kept)
            && (forall x :: x in kept <==> 0 <= x < |cmds| && x !in removed)
            && (forall p :: 0 <= p < |now| ==> SameBut(cmds[kept[p]], now[p]))
            && (forall p, k :: 0 <= p < |now| && now[p].Call? && 0 <= k < |now[p].call.arguments| ==>
                  PointsAlike(cmds[kept[p]].call.arguments[k], now[p].call.arguments[k], p, kept))
  {
    var kept, now := Kept(|cmds|, removed), Rebuilt(cmds, removed);
    KeptOrdered(|cmds|, removed);
    forall p, k | 0 <= p < |now| && now[p].Call? && 0 <= k < |now[p].call.arguments|
      ensures PointsAlike(cmds[kept[p]].call.arguments[k], now[p].call.arguments[k], p, kept)
    {
      assert now[p] == Renumber(cmds[kept[p]], removed);
      var a := cmds[kept[p]].call.arguments[k];
      if a.Result? || a.NestedResult? {
        assert kept[p] in kept && RefersTo(a, a.i);
        UsedIsKept(fs, cmds, removed, kept[p], a.i);
      }
      ArgumentPointsAlike(cmds, removed, p, a);
    }
  }

  // ----- removing in place

  /** The commands whose positions are not listed. */
  ghost function Without(cmds: seq<Command>, gone: seq<nat>): seq<Command> {
    var kept := Kept(|cmds|, gone);
    seq(|kept|, p requires 0 <= p < |kept| => cmds[kept[p]])
  }

  lemma {:induction false} KeptPrefix(n: nat, gone: seq<nat>, x: nat)
    requires x <= n && forall g :: g in gone ==> x <= g
    ensures |Kept(n, gone)| >= x && forall i :: 0 <= i < x ==> Kept(n, gone)[i] == i
  {
    if n > x {
      KeptPrefix(n - 1, gone, x);
    } else if n > 0 {
      KeptPrefix(n - 1, gone, x - 1);
      KeptPrefixLength(n, gone);
    }
  }

  lemma {:induction false} KeptPrefixLength(n: nat, gone: seq<nat>)
    requires forall g :: g in gone ==> n <= g
    ensures |Kept(n, gone)| == n
  {
    if n > 0 { KeptPrefixLength(n - 1, gone); }
  }

  /** Taking out a position below all others taken out so far. */
  lemma {:induction false} KeptOneMore(n: nat, gone: seq<nat>, x: nat)
    requires x < n && Above(gone, x)
    ensures |Kept(n, gone)| > x
    ensures Kept(n, [x] + gone) == Kept(n, gone)[..x] + Kept(n, gone)[x + 1..]
  {
    if n - 1 > x {
      KeptOneMore(n - 1, gone, x);
      assert n - 1 in [x] + gone <==> n - 1 in gone;
    } else {
      KeptPrefixLength(x, gone);
      KeptPrefix(n - 1, gone, x);
      assert x !in gone;
      assert x in [x] + gone;
      KeptSame(x, gone, [x] + gone);
    }
  }

  lemma {:induction false} KeptSame(n: nat, a: seq<nat>, b: seq<nat>)
    requires forall i :: 0 <= i < n ==> (i in a <==> i in b)
    ensures Kept(n, a) == Kept(n, b)
  {
    if n > 0 { KeptSame(n - 1, a, b); }
  }

  lemma {:induction false} WithoutOneMore(cmds: seq<Command>, gone: seq<nat>, x: nat)
    requires x < |cmds| && Above(gone, x)
    ensures |Without(cmds, gone)| > x
    ensures Without(cmds, [x] + gone) == Without(cmds, gone)[..x] + Without(cmds, gone)[x + 1..]
  {
    KeptOneMore(|cmds|, gone, x);
  }

  lemma {:induction false} WithoutNone(cmds: seq<Command>)
    ensures Without(cmds, []) == cmds
  {
    KeptPrefixLength(|cmds|, []);
    KeptPrefix(|cmds|, [], |cmds|);
  }

  ghost predicate Above(s: seq<nat>, x: nat) {
    forall g :: g in s ==> x < g
  }

  lemma {:induction false} RestLater(s: seq<nat>, k: nat)
    requires Increasing(s) && k < |s|
    ensures Above(s[k + 1..], s[k])
  {
  }

  /** Subtracts from a result reference the number of removed commands before it. */
  method ShiftArgument(a: Argument, removed: seq<nat>) returns (r: Argument)
    requires Distinct(removed)
    ensures r == RenumberArgument(a, removed)
  {
    if !a.Result? && !a.NestedResult? {
      return a;
    }
    var shift := 0;
    for k := 0 to |removed|
      invariant shift == Shift(removed[..k], a.i)
    {
      assert removed[..k + 1][..k] == removed[..k];
      if removed[k] < a.i {
        shift := shift + 1;
      }
    }
    assert removed[..|removed|] == removed;
    KeptLength(a.i, removed);
    r := if a.Result? then Result(a.i - shift) else NestedResult(a.i - shift, a.j);
  }

  method ShiftCommand(c: Command, removed: seq<nat>) returns (r: Command)
    requires Distinct(removed)
    ensures r == Renumber(c, removed)
  {
    if c.Other? {
      return c;
    }
    var args := c.call.arguments;
    for k := 0 to |args|
      invariant |args| == |c.call.arguments|
      invariant forall j :: 0 <= j < k ==> args[j] == RenumberArgument(c.call.arguments[j], removed)
      invariant forall j :: k <= j < |args| ==> args[j] == c.call.arguments[j]
    {
      var a := ShiftArgument(args[k], removed);
      args := args[k := a];
    }
    r := Call(c.call.(arguments := args));
    assert args == Renumber(c, removed).call.arguments;
  }

  /** `MoveSequence`, as far as its commands go */
  class MoveSequence {
    var commands: seq<Command>

    constructor (cmds: seq<Command>)
      ensures commands == cmds
    {
      commands := cmds;
    }
  }

  /** `remove_command`. It reports whether the sequence was mutated; it is skipped when nothing or everything
      would go. */
  method RemoveCommand(fs: Functions, ptb: MoveSequence, idx: nat) returns (mutated: bool, ghost gone: seq<nat>)
    requires Known(fs, ptb.commands)
    modifies ptb
    ensures RemovalOf(fs, old(ptb.commands), idx, gone) && Distinct(gone)
    ensures mutated <==> 0 < |gone| < |old(ptb.commands)|
    ensures !mutated ==> ptb.commands == old(ptb.commands)
    ensures mutated ==> ptb.commands == Rebuilt(old(ptb.commands), gone)
  {
    var removed := GenRemoveIdxes(fs, ptb.commands, idx, []);
    gone := removed;
    IncreasingDistinct(removed);
    if |removed| >= |ptb.commands| || removed == [] {
      return false, gone;
    }
    DropCommands(ptb, removed);
    ShiftCommands(ptb, removed);
    assert ptb.commands == Rebuilt(old(ptb.commands), removed);
    mutated := true;
  }

  /** Takes the listed commands out, last first. */
  method DropCommands(ptb: MoveSequence, removed: seq<nat>)
    requires Increasing(removed) && Below(removed, |ptb.commands|)
    modifies ptb
    ensures ptb.commands == Without(old(ptb.commands), removed)
  {
    ghost var cmds := ptb.commands;
    WithoutNone(cmds);
    var k := |removed|;
    assert removed[k..] == [];
    while k > 0
      invariant 0 <= k <= |removed|
      invariant ptb.commands == Without(cmds, removed[k..])
    {
      k := k - 1;
      var x := removed[k];
      assert x in removed;
      RestLater(removed, k);
      WithoutOneMore(cmds, removed[k + 1..], x);
      assert [x] + removed[k + 1..] == removed[k..];
      ptb.commands := ptb.commands[..x] + ptb.commands[x + 1..];
    }
    assert removed[0..] == removed;
  }

  method ShiftCommands(ptb: MoveSequence, removed: seq<nat>)
    requires Distinct(removed)
    modifies ptb
    ensures |ptb.commands| == |old(ptb.commands)|
    ensures forall q :: 0 <= q < |ptb.commands| ==> ptb.commands[q] == Renumber(old(ptb.commands)[q], removed)
  {
    ghost var cmds := ptb.commands;
    for p := 0 to |ptb.commands|
      invariant |ptb.commands| == |cmds|
      invariant forall q :: 0 <= q < p ==> ptb.commands[q] == Renumber(cmds[q], removed)
      invariant forall q :: p <= q < |cmds| ==> ptb.commands[q] == cmds[q]
    {
      var c := ShiftCommand(ptb.commands[p], removed);
      ptb.commands := ptb.commands[p := c];
    }
  }
}
