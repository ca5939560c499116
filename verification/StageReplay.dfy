/** Deciding whether to replay a cached sequence, and at which stage
    (crates/movy-fuzz/src/mutators/utils.rs). */
module StageReplay {
  import opened Wrappers
  import opened Sequences

  const MAX_STAGE_REPLAY_ATTEMPTS: nat := 30

  datatype MutatorKind = Sequence | Arg | Magic

  type Snapshot = seq<Command>

  datatype Action = Fresh | Replay(stage: nat, snapshot: Snapshot)

  datatype State = State(cached: Option<Snapshot>, fingerprint: Option<nat>, stage: Option<nat>, attempts: nat)

  const INITIAL := State(None, None, None, 0)

  /** What one decision is told: the mutator in charge, the outcome of the last execution, if any, with the
      stage it reports, if any, and the fingerprint of the current sequence. */
  datatype Report = Report(mutator: Option<MutatorKind>, outcome: Option<Option<nat>>, fingerprint: nat)

  /** `reset_progress` */
  function Reset(s: State): State {
    s.(stage := None, attempts := 0)
  }

  /** Stage and attempts after a report of stage r. */
  function Advance(stage: Option<nat>, attempts: nat, r: nat): (nat, nat) {
    var next := if stage.Some? && r > stage.value then stage.value + 1 else r;
    var tries := (if stage == Some(next) then attempts else 0) + 1;
    if tries >= MAX_STAGE_REPLAY_ATTEMPTS then (0, 0) else (next, tries)
  }

  /** `decide` */
  function Decide(s: State, kind: MutatorKind, r: Report): (State, Action) {
    if s.fingerprint.Some? && s.fingerprint.value != r.fingerprint then
      (State(None, Some(r.fingerprint), None, 0), Fresh)
    else
      var s1 := s.(fingerprint := Some(r.fingerprint));
      if r.mutator != Some(kind) || r.outcome.None? || r.outcome.value.None? then (Reset(s1), Fresh)
      else
        var (stage, attempts) := Advance(s.stage, s.attempts, r.outcome.value.value);
        (s1.(stage := Some(stage), attempts := attempts),
         if s.cached.Some? then Replay(stage, s.cached.value) else Fresh)
  }

  /** `StageReplay` */
  class Replayer {
    const kind: MutatorKind
    var cached: Option<Snapshot>
    var cachedFingerprint: Option<nat>
    var stageIdx: Option<nat>
    var attempts: nat

    ghost function Now(): State
      reads this
    {
      State(cached, cachedFingerprint, stageIdx, attempts)
    }

    constructor (kind: MutatorKind)
      ensures Now() == INITIAL && this.kind == kind
    {
      this.kind := kind;
      cached, cachedFingerprint, stageIdx, attempts := None, None, None, 0;
    }

    method DecideNext(r: Report) returns (action: Action)
      modifies this
      ensures (Now(), action) == Decide(old(Now()), kind, r)
    {
      if cachedFingerprint.Some? && cachedFingerprint.value != r.fingerprint {
        InvalidateCache();
        ResetProgress();
        cachedFingerprint := Some(r.fingerprint);
        return Fresh;
      }
      if cachedFingerprint.None? {
        cachedFingerprint := Some(r.fingerprint);
      }
      if r.mutator != Some(kind) || r.outcome.None? || r.outcome.value.None? {
        ResetProgress();
        return Fresh;
      }
      var reported := r.outcome.value.value;
      var previous := stageIdx;
      stageIdx := match stageIdx
        case Some(current) => if reported > current then Some(current + 1) else Some(reported)
        case None => Some(reported);
      if stageIdx != previous {
        attempts := 0;
      }
      attempts := attempts + 1;
      if attempts >= MAX_STAGE_REPLAY_ATTEMPTS {
        RestartProgress();
      }
      action := if cached.Some? then Replay(stageIdx.value, cached.value) else Fresh;
    }

    method RecordSuccess(ptb: Snapshot)
      modifies this
      ensures Now() == old(Now()).(cached := Some(ptb))
    {
      cached := Some(ptb);
    }

    method InvalidateCache()
      modifies this
      ensures Now() == old(Now()).(cached := None, fingerprint := None)
    {
      cached, cachedFingerprint := None, None;
    }

    method ResetProgress()
      modifies this
      ensures Now() == Reset(old(Now()))
    {
      stageIdx, attempts := None, 0;
    }

    method RestartProgress()
      modifies this
      ensures Now() == old(Now()).(stage := Some(0), attempts := 0)
    {
      stageIdx, attempts := Some(0), 0;
    }
  }

  // ----- every run

  /** Attempts stay below the limit, and are counted from one except right after a restart. */
  ghost predicate Sane(s: State) {
    && s.attempts < MAX_STAGE_REPLAY_ATTEMPTS
    && (s.stage.None? ==> s.attempts == 0)
    && (s.stage.Some? && s.stage.value > 0 ==> s.attempts > 0)
  }

  datatype Move = Decision(report: Report) | Success(ptb: Snapshot)

  function Perform(s: State, kind: MutatorKind, move: Move): (State, Action) {
    match move
    case Decision(r) => Decide(s, kind, r)
    case Success(ptb) => (s.(cached := Some(ptb)), Fresh)
  }

  function Moves(s: State, kind: MutatorKind, moves: seq<Move>): State
    decreases |moves|
  {
    if moves == [] then s else Moves(Perform(s, kind, moves[0]).0, kind, moves[1..])
  }

  lemma {:induction false} RunsAreSane(s: State, kind: MutatorKind, moves: seq<Move>)
    requires Sane(s)
    ensures Sane(Moves(s, kind, moves))
    decreases |moves|
  {
    if moves != [] { RunsAreSane(Perform(s, kind, moves[0]).0, kind, moves[1..]); }
  }

  /** A replay is of the cached snapshot, at a stage no later than the one reported, under the mutator's own
      kind and for an unchanged sequence. */
  lemma {:induction false} ReplayIsCovered(s: State, kind: MutatorKind, r: Report)
    requires Decide(s, kind, r).1.Replay?
    ensures r.outcome.Some? && r.outcome.value.Some? && Decide(s, kind, r).1.stage <= r.outcome.value.value
    ensures s.cached == Some(Decide(s, kind, r).1.snapshot)
    ensures r.mutator == Some(kind) && (s.fingerprint.None? || s.fingerprint == Some(r.fingerprint))
  {
  }

  // ----- whose snapshot is replayed

  lemma {:induction false} OneMoreMove(s: State, kind: MutatorKind, moves: seq<Move>, move: Move)
    ensures Moves(s, kind, moves + [move]) == Perform(Moves(s, kind, moves), kind, move).0
    decreases |moves|
  {
    if moves == [] {
      assert [move][1..] == [];
    } else {
      assert (moves + [move])[1..] == moves[1..] + [move];
      OneMoreMove(Perform(s, kind, moves[0]).0, kind, moves[1..], move);
    }
  }

  /** The fingerprint that the last decision of a run was told. */
  function LastSeen(moves: seq<Move>): Option<nat>
    decreases |moves|
  {
    if moves == [] then None
    else
      var last := moves[|moves| - 1];
      if last.Decision? then Some(last.report.fingerprint) else LastSeen(moves[..|moves| - 1])
  }

  /** The sequence is another one than at the decision before. */
  ghost predicate Changes(before: seq<Move>, move: Move) {
    move.Decision? && LastSeen(before).Some? && LastSeen(before).value != move.report.fingerprint
  }

  /** The run records p as its i-th move, no other success comes after it, and the sequence stays the same. */
  ghost predicate RecordedLast(moves: seq<Move>, i: int, p: Snapshot) {
    && 0 <= i < |moves| && moves[i] == Success(p)
    && forall j :: i < j < |moves| ==> moves[j].Decision? && !Changes(moves[..j], moves[j])
  }

  ghost predicate Counts(kind: MutatorKind, before: seq<Move>, r: Report) {
    r.mutator == Some(kind) && r.outcome.Some? && r.outcome.value.Some? && !Changes(before, Decision(r))
  }

  lemma {:induction false} RecordedMore(moves: seq<Move>, move: Move, i: int, p: Snapshot)
    ensures RecordedLast(moves + [move], i, p)
       <==> if i == |moves| then move == Success(p)
            else RecordedLast(moves, i, p) && move.Decision? && !Changes(moves, move)
  {
    var more := moves + [move];
    assert more[..|moves|] == moves;
    assert forall j :: 0 <= j < |moves| ==> more[j] == moves[j] && more[..j] == moves[..j];
  }

  /** What a run from the start has cached: exactly the argument of its last success, unless the sequence has changed
      since. */
  lemma {:induction false} CachedIff(kind: MutatorKind, moves: seq<Move>, p: Snapshot)
    ensures Moves(INITIAL, kind, moves).fingerprint == LastSeen(moves)
    ensures Moves(INITIAL, kind, moves).cached == Some(p) <==> exists i :: RecordedLast(moves, i, p)
    decreases |moves|
  {
    if moves != [] {
      var n := |moves| - 1;
      var before, move := moves[..n], moves[n];
      assert moves == before + [move];
      CachedIff(kind, before, p);
      OneMoreMove(INITIAL, kind, before, move);
      forall i ensures RecordedLast(moves, i, p)
                  <==> if i == n then move == Success(p)
                       else RecordedLast(before, i, p) && move.Decision? && !Changes(before, move)
      {
        RecordedMore(before, move, i, p);
      }
      if move == Success(p) { assert RecordedLast(moves, n, p); }
      if exists i :: RecordedLast(before, i, p) {
        var i :| RecordedLast(before, i, p);
        assert move.Decision? && !Changes(before, move) ==> RecordedLast(moves, i, p);
      }
    }
  }

  /** After any run from the start, a decision replays snapshot p exactly if it is told of a stage under the mutator's
      own kind and of no other sequence, and p is the argument of the last success, the sequence unchanged since. Any
      decision that is told otherwise is fresh and restarts the counting. */
  lemma {:induction false} ReplayedIff(kind: MutatorKind, moves: seq<Move>, r: Report, p: Snapshot)
    ensures var (s, action) := Decide(Moves(INITIAL, kind, moves), kind, r);
            && (action.Replay? && action.snapshot == p <==>
                Counts(kind, moves, r) && exists i :: RecordedLast(moves, i, p))
            && (if Counts(kind, moves, r) then s.stage.Some? && s.stage.value <= r.outcome.value.value
                else action.Fresh? && s.stage.None? && s.attempts == 0)
  {
    CachedIff(kind, moves, p);
  }

  // ----- steady state

  /** A decision under a steady report, possibly after a success was recorded. */
  ghost function Turn(s: State, kind: MutatorKind, fingerprint: nat, reported: nat, success: Option<Snapshot>)
      : (State, Action)
  {
    var s1 := if success.Some? then s.(cached := success) else s;
    Decide(s1, kind, Report(Some(kind), Some(Some(reported)), fingerprint))
  }

  /** The stages replayed in a series of such turns. */
  ghost function Replayed(s: State, kind: MutatorKind, fingerprint: nat, reported: nat, turns: seq<Option<Snapshot>>)
      : seq<Option<nat>>
    decreases |turns|
  {
    if turns == [] then []
    else
      var (s1, action) := Turn(s, kind, fingerprint, reported, turns[0]);
      [if action.Replay? then Some(action.stage) else None] + Replayed(s1, kind, fingerprint, reported, turns[1..])
  }

  lemma {:induction false} ReplayedLength(s: State, kind: MutatorKind, fingerprint: nat, reported: nat,
                                          turns: seq<Option<Snapshot>>)
    ensures |Replayed(s, kind, fingerprint, reported, turns)| == |turns|
    decreases |turns|
  {
    if turns != [] {
      ReplayedLength(Turn(s, kind, fingerprint, reported, turns[0]).0, kind, fingerprint, reported, turns[1..]);
    }
  }

  /** How many turns it takes until stage t is replayed, stage r being reported. */
  function Wait(stage: Option<nat>, attempts: nat, r: nat, t: nat): int
    requires t <= r
  {
    if stage.None? || stage.value > r then
      if t == r then 1 else MAX_STAGE_REPLAY_ATTEMPTS + t
    else if stage.value < r then
      if t > stage.value then t - stage.value
      else r - stage.value + MAX_STAGE_REPLAY_ATTEMPTS - 1 + t
    else if t == r then
      if attempts < MAX_STAGE_REPLAY_ATTEMPTS - 1 then 1 else 1 + r
    else MAX_STAGE_REPLAY_ATTEMPTS - attempts + t
  }

  /** Each turn brings every stage one turn closer, until it is the one replayed. */
  lemma {:induction false} WaitCounts(s: State, r: nat, t: nat)
    requires Sane(s) && t <= r
    ensures 1 <= Wait(s.stage, s.attempts, r, t) <= if r == 0 then 1 else r + 29
    ensures var (stage, attempts) := Advance(s.stage, s.attempts, r);
            && (Wait(s.stage, s.attempts, r, t) == 1 <==> stage == t)
            && (stage != t ==> Wait(Some(stage), attempts, r, t) == Wait(s.stage, s.attempts, r, t) - 1)
  {
  }

  /** Stage t is first replayed after exactly `Wait` turns. */
  lemma {:induction false} ReplayedAfterWait(s: State, kind: MutatorKind, fingerprint: nat, r: nat,
                                             turns: seq<Option<Snapshot>>, t: nat)
    requires Sane(s) && t <= r && s.cached.Some? && (s.fingerprint.None? || s.fingerprint == Some(fingerprint))
    requires Wait(s.stage, s.attempts, r, t) <= |turns|
    ensures |Replayed(s, kind, fingerprint, r, turns)| == |turns|
    ensures var n := Wait(s.stage, s.attempts, r, t);
            && 1 <= n
            && Replayed(s, kind, fingerprint, r, turns)[n - 1] == Some(t)
            && forall k :: 0 <= k < n - 1 ==> Replayed(s, kind, fingerprint, r, turns)[k] != Some(t)
    decreases |turns|
  {
    WaitCounts(s, r, t);
    ReplayedLength(s, kind, fingerprint, r, turns);
    var (s1, action) := Turn(s, kind, fingerprint, r, turns[0]);
    if action.stage != t { ReplayedAfterWait(s1, kind, fingerprint, r, turns[1..], t); }
  }

  /** With a cached snapshot, the mutator in charge and an unchanged sequence, any r + 29 decisions in a row (one,
      if r is 0) under a steady report of stage r replay every stage from 0 to r. */
  lemma {:induction false} EveryStageReplayed(s: State, kind: MutatorKind, fingerprint: nat, r: nat,
                                              turns: seq<Option<Snapshot>>, t: nat)
    requires Sane(s) && s.cached.Some? && (s.fingerprint.None? || s.fingerprint == Some(fingerprint))
    requires t <= r && |turns| == (if r == 0 then 1 else r + 29)
    ensures Some(t) in Replayed(s, kind, fingerprint, r, turns)
  {
    WaitCounts(s, r, t);
    ReplayedAfterWait(s, kind, fingerprint, r, turns, t);
  }

  /** The bound is tight: right after stage 0, it takes all of r + 29 decisions to come back to it. */
  lemma {:induction false} BoundIsTight(s: State, kind: MutatorKind, fingerprint: nat, r: nat,
                                        turns: seq<Option<Snapshot>>)
    requires Sane(s) && s.cached.Some? && (s.fingerprint.None? || s.fingerprint == Some(fingerprint))
    requires s.stage == Some(0) && r >= 1 && |turns| == r + 28
    ensures Some(0) !in Replayed(s, kind, fingerprint, r, turns)
  {
    var more := turns + [None];
    assert more[..|turns|] == turns;
    ReplayedAfterWait(s, kind, fingerprint, r, more, 0);
    ReplayedPrefix(s, kind, fingerprint, r, turns, None);
    ReplayedLength(s, kind, fingerprint, r, turns);
  }

  lemma {:induction false} ReplayedPrefix(s: State, kind: MutatorKind, fingerprint: nat, r: nat,
                                          turns: seq<Option<Snapshot>>, last: Option<Snapshot>)
    ensures Replayed(s, kind, fingerprint, r, turns) <= Replayed(s, kind, fingerprint, r, turns + [last])
    decreases |turns|
  {
    if turns != [] {
      assert (turns + [last])[1..] == turns[1..] + [last];
      ReplayedPrefix(Turn(s, kind, fingerprint, r, turns[0]).0, kind, fingerprint, r, turns[1..], last);
    }
  }
}
