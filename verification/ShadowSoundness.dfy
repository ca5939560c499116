/** The shadow machine agrees with the trace it follows: over every run, symbols mean the concrete values
    in their slots and reported constraints are true of the trace's own inputs. */
module ShadowSoundness {
  import opened Wrappers
  import opened Trace
  import opened Keys
  import opened Shadow
  import opened Machine
  import opened Agreement
  import opened InstructionSoundness
  import Smt

  // ----- frames

  lemma {:induction false} TopIsMax(frames: map<nat, map<nat, Val>>, ids: seq<nat>)
    requires Increasing(ids) && ids != [] && frames.Keys == (set k | k in ids)
    ensures ids[|ids| - 1] in frames.Keys
    ensures MaxKey(frames.Keys) == ids[|ids| - 1]
  {
    var top := ids[|ids| - 1];
    assert top in frames.Keys;
    var k := MaxKey(frames.Keys);
    assert k in ids;
    var j :| 0 <= j < |ids| && ids[j] == k;
  }

  lemma {:induction false} LeaveKeys(frames: map<nat, map<nat, Val>>, ids: seq<nat>)
    requires Increasing(ids) && ids != [] && frames.Keys == (set k | k in ids)
    ensures (frames - {ids[|ids| - 1]}).Keys == (set k | k in DropTop(ids, 1))
  {
    var rest, top := DropTop(ids, 1), ids[|ids| - 1];
    assert ids == rest + [top];
    forall k | k in rest ensures k != top {
      var j :| 0 <= j < |rest| && rest[j] == k;
      assert ids[j] == k;
    }
  }

  lemma {:induction false} LeaveAgrees(locals: seq<seq<Symbol>>, frames: map<nat, map<nat, Val>>, ids: seq<nat>,
                                       m: Smt.Model)
    requires FramesAgree(locals, frames, ids, m) && ids != []
    ensures frames.Keys != {}
    ensures FramesAgree(DropTop(locals, 1), frames - {MaxKey(frames.Keys)}, DropTop(ids, 1), m)
  {
    TopIsMax(frames, ids);
    LeaveKeys(frames, ids);
    var rest, top := DropTop(ids, 1), ids[|ids| - 1];
    forall d | 0 <= d < |rest| ensures FrameAgrees(DropTop(locals, 1)[d], (frames - {top})[rest[d]], m) {
      assert ids[d] < top && FrameAgrees(locals[d], frames[ids[d]], m);
    }
  }

  lemma {:induction false} EnterAgrees(locals: seq<seq<Symbol>>, frames: map<nat, map<nat, Val>>, ids: seq<nat>,
                                       m: Smt.Model,
                    id: nat, symbols: seq<Symbol>, frame: map<nat, Val>)
    requires FramesAgree(locals, frames, ids, m) && FrameAgrees(symbols, frame, m)
    requires forall k :: 0 <= k < |ids| ==> ids[k] < id
    ensures FramesAgree(locals + [symbols], frames[id := frame], ids + [id], m)
  {
    var frames' := frames[id := frame];
    assert frames'.Keys == (set k | k in ids + [id]);
    forall d | 0 <= d < |ids + [id]| ensures FrameAgrees((locals + [symbols])[d], frames'[(ids + [id])[d]], m) {
      if d < |ids| {
        assert ids[d] in frames && ids[d] != id;
        assert FrameAgrees(locals[d], frames[ids[d]], m);
      }
    }
  }

  // ----- runs

  /** `Begin` opens a new command; `Enter` opens a frame; `CallNative` is a native call with its results. */
  datatype Step =
    | Begin
    | Enter(frame: Frame)
    | CallNative(frame: Frame, results: seq<Val>)
    | Leave
    | Exec(instr: Instr)

  ghost predicate Consumes(st: Step) {
    st.Exec? && Drops(st.instr)
  }

  ghost predicate TypedParameters(f: Frame) {
    forall i :: 0 <= i < |f.parameters| && i < |f.localTypes| && f.localTypes[i].Scalar?
      ==> f.parameters[i].Prim? && f.parameters[i].bits == f.localTypes[i].bits
  }

  ghost predicate PassedOnStack(f: Frame, stack: seq<Val>) {
    |f.parameters| <= |stack| && f.parameters == stack[|stack| - |f.parameters|..]
  }

  /** The steps a non-aborting Move execution can take here, with every false comparison on a symbol
      consumed at once. */
  ghost predicate CanStep(c: Config, st: Step)
    requires |c.sh.stack| == |c.tr.stack|
  {
    && (c.pending ==> Consumes(st))
    && match st
       case Begin => true
       case Enter(f) =>
         && !f.native && AllValid(f.parameters)
         && (forall k :: 0 <= k < |c.ids| ==> c.ids[k] < f.id)
         && (if c.ids == [] then c.tr.stack == [] && TypedParameters(f) else PassedOnStack(f, c.tr.stack))
       case CallNative(f, results) =>
         && f.native && c.ids != [] && AllValid(results) && |results| == f.returnCount
         && (forall k :: 0 <= k < |c.ids| ==> c.ids[k] < f.id)
         && PassedOnStack(f, c.tr.stack)
       case Leave => c.ids != []
       case Exec(i) =>
         && c.ids != [] && c.ids[|c.ids| - 1] in c.tr.frames
         && Runs(i, c.tr, c.ids[|c.ids| - 1]) && Encodable(i, c.sh, c.tr)
  }

  /** The events of a step. */
  ghost function Events(c: Config, st: Step): seq<Event>
    requires |c.sh.stack| == |c.tr.stack| && CanStep(c, st)
  {
    match st
    case Begin => [MoveCallStart]
    case Enter(f) => [OpenFrame(f)]
    case CallNative(f, results) => [OpenFrame(f)] + (PushAll(results) + [CloseFrame])
    case Leave => [CloseFrame]
    case Exec(i) => [Instruction(i)] + Effects(i, c.tr, c.ids[|c.ids| - 1])
  }

  /** The tracer takes in a list of events: the shadow machine follows each one, then the concrete state
      applies it. `None` when either panics. The constraint is the one reported last. */
  ghost function TakeIn(sh: Shadow, tr: State, es: seq<Event>, last: Option<Constraint>)
      : Option<(Shadow, State, Option<Constraint>)>
    decreases |es|
  {
    if es == [] then Some((sh, tr, last))
    else
      var o := Follow(sh, tr, es[0]);
      var tr1 := Apply(tr, es[0]);
      if o.Panic? || tr1.None? then None
      else TakeIn(o.after, tr1.value, es[1..], if o.constraint.Some? then o.constraint else last)
  }

  lemma {:induction false} OneEvent(sh: Shadow, tr: State, e: Event)
    ensures var o, tr1 := Follow(sh, tr, e), Apply(tr, e);
            TakeIn(sh, tr, [e], None)
            == if o.Panic? || tr1.None? then None else Some((o.after, tr1.value, o.constraint))
  {
    assert [e][1..] == [];
  }

  ghost predicate Silent(e: Event) {
    e.PushEffect? || e.PopEffect? || e.ReadEffect? || e.WriteEffect?
  }

  /** Effects pass the shadow machine by. */
  lemma {:induction false} SilentEvents(sh: Shadow, tr: State, es: seq<Event>, last: Option<Constraint>)
    requires forall k :: 0 <= k < |es| ==> Silent(es[k])
    ensures TakeIn(sh, tr, es, last)
         == if ApplyAll(tr, es).None? then None else Some((sh, ApplyAll(tr, es).value, last))
    decreases |es|
  {
    if es != [] {
      var tr1 := Apply(tr, es[0]);
      assert Silent(es[0]);
      assert Follow(sh, tr, es[0]) == Done(sh, None);
      if tr1.Some? { SilentEvents(sh, tr1.value, es[1..], last); }
    }
  }

  ghost function IdsAfter(ids: seq<nat>, st: Step): seq<nat> {
    match st
    case Begin => []
    case Enter(f) => ids + [f.id]
    case Leave => DropTop(ids, 1)
    case _ => ids
  }

  /** The configuration after a step, or nothing when the tracer panics. */
  ghost function Next(c: Config, st: Step): Option<Config>
    requires |c.sh.stack| == |c.tr.stack| && CanStep(c, st)
  {
    var r := TakeIn(c.sh, c.tr, Events(c, st), None);
    if r.None? then None
    else
      Some(Config(r.value.0, r.value.1, IdsAfter(c.ids, st),
                  st.Exec? && LeavesPending(st.instr, c.sh, c.tr),
                  c.log + (if st.Exec? then LogEntry(st.instr, c.tr.stack, r.value.2) else [])))
  }

  /** At an outermost frame the model gives the parameters the values they have in the trace. */
  ghost predicate Inputs(c: Config, st: Step, m: Smt.Model) {
    st.Enter? && c.ids == [] ==>
      forall i :: 0 <= i < |st.frame.parameters| && st.frame.parameters[i].Prim?
        ==> m.vars(|c.sh.args|, i) == st.frame.parameters[i].n
  }

  lemma {:induction false} LogAppend(log: seq<Logged>, more: seq<Logged>, m: Smt.Model)
    requires LogAgrees(log, m) && LogAgrees(more, m)
    ensures LogAgrees(log + more, m)
  {
  }

  lemma {:induction false} ExecTakesIn(sh: Shadow, tr: State, i: Instr, id: nat, o: Outcome)
    requires |sh.stack| == |tr.stack| && !sh.disabled && id in tr.frames && Runs(i, tr, id)
    requires o == Execute(sh, tr.stack, i) && o.Done?
    ensures TakeIn(sh, tr, [Instruction(i)] + Effects(i, tr, id), None)
         == Some((o.after, Executed(i, tr, id), o.constraint))
  {
    var es := [Instruction(i)] + Effects(i, tr, id);
    assert es[0] == Instruction(i) && es[1..] == Effects(i, tr, id);
    assert Follow(sh, tr, es[0]) == o;
    EffectsExecute(i, tr, id);
    SilentEffects(i, tr, id);
    SilentEvents(o.after, tr, Effects(i, tr, id), o.constraint);
  }

  lemma {:induction false} SilentEffects(i: Instr, tr: State, id: nat)
    requires id in tr.frames && Runs(i, tr, id)
    ensures forall k :: 0 <= k < |Effects(i, tr, id)| ==> Silent(Effects(i, tr, id)[k])
  {
  }

  lemma {:induction false} ExecNext(c: Config, i: Instr, id: nat, o: Outcome)
    requires |c.sh.stack| == |c.tr.stack| && !c.sh.disabled && CanStep(c, Exec(i))
    requires id == c.ids[|c.ids| - 1] && o == Execute(c.sh, c.tr.stack, i) && o.Done?
    ensures Next(c, Exec(i)) == Some(Config(o.after, Executed(i, c.tr, id), c.ids, LeavesPending(i, c.sh, c.tr),
                                            c.log + LogEntry(i, c.tr.stack, o.constraint)))
  {
    ExecTakesIn(c.sh, c.tr, i, id, o);
  }

  lemma {:induction false} ValidAfter(i: Instr, tr: State, id: nat)
    requires id in tr.frames && Runs(i, tr, id) && AllValid(tr.stack)
    requires forall k :: k in tr.frames[id] ==> ValidValue(tr.frames[id][k])
    ensures AllValid(Executed(i, tr, id).stack)
  {
    PushedValid(i, tr, id);
    ConcatValid(DropTop(tr.stack, Popped(i)), Pushes(i, tr, id));
  }

  lemma {:induction false} ConcatValid(a: seq<Val>, b: seq<Val>)
    requires AllValid(a) && AllValid(b)
    ensures AllValid(a + b)
  {
  }

  lemma {:induction false} GoodAgrees(o: Outcome, tr: State, ids: seq<nat>, pending: bool, log: seq<Logged>,
                                      entry: seq<Logged>, m: Smt.Model)
    requires Good(o, tr.stack, pending, entry, m) && AllValid(tr.stack)
    requires FramesAgree(o.after.locals, tr.frames, ids, m) && LogAgrees(log, m)
    ensures Agrees(Config(o.after, tr, ids, pending, log + entry), m)
  {
    LogAppend(log, entry, m);
  }

  ghost predicate Ready(c: Config, i: Instr, id: nat, m: Smt.Model) {
    && Agrees(c, m) && !c.pending
    && c.ids != [] && c.ids[|c.ids| - 1] == id && id in c.tr.frames
    && Runs(i, c.tr, id) && Encodable(i, c.sh, c.tr)
  }

  lemma {:induction false} ReadyGood(c: Config, i: Instr, id: nat, m: Smt.Model)
    requires Ready(c, i, id, m)
    ensures GoodInstr(i, c.sh, c.tr, id, m)
  {
    InstrGood(i, c.sh, c.tr, c.ids, m);
  }

  lemma {:induction false} ReadyLocals(c: Config, i: Instr, id: nat, m: Smt.Model)
    requires Ready(c, i, id, m) && Execute(c.sh, c.tr.stack, i).Done?
    ensures FramesAgree(Execute(c.sh, c.tr.stack, i).after.locals, Executed(i, c.tr, id).frames, c.ids, m)
  {
    LocalsGood(i, c.sh, c.tr, c.ids, m);
  }

  lemma {:induction false} ReadyValid(c: Config, i: Instr, id: nat, m: Smt.Model)
    requires Ready(c, i, id, m)
    ensures AllValid(Executed(i, c.tr, id).stack)
  {
    assert FrameAgrees(c.sh.locals[|c.ids| - 1], c.tr.frames[id], m);
    ValidAfter(i, c.tr, id);
  }

  lemma {:induction false} ReadyLog(c: Config, i: Instr, id: nat, m: Smt.Model)
    requires Ready(c, i, id, m)
    ensures LogAgrees(c.log, m)
  {
  }

  lemma {:induction false} InstrAgrees(c: Config, i: Instr, id: nat, m: Smt.Model, o: Outcome, tr1: State,
                                       pending: bool)
    requires Ready(c, i, id, m) && o == Execute(c.sh, c.tr.stack, i) && tr1 == Executed(i, c.tr, id)
    requires pending == LeavesPending(i, c.sh, c.tr)
    ensures o.Done?
    ensures Agrees(Config(o.after, tr1, c.ids, pending, c.log + LogEntry(i, c.tr.stack, o.constraint)), m)
  {
    ReadyGood(c, i, id, m);
    ReadyLocals(c, i, id, m);
    ReadyValid(c, i, id, m);
    ReadyLog(c, i, id, m);
    GoodAgrees(o, tr1, c.ids, pending, c.log, LogEntry(i, c.tr.stack, o.constraint), m);
  }

  lemma {:induction false} ExecKeeps(c: Config, i: Instr, m: Smt.Model)
    requires Agrees(c, m) && CanStep(c, Exec(i)) && !c.pending
    ensures Next(c, Exec(i)).Some? && Agrees(Next(c, Exec(i)).value, m)
  {
    var id, o := c.ids[|c.ids| - 1], Execute(c.sh, c.tr.stack, i);
    InstrAgrees(c, i, id, m, o, Executed(i, c.tr, id), LeavesPending(i, c.sh, c.tr));
    ExecNext(c, i, id, o);
  }

  lemma {:induction false} DropShape(i: Instr, sh: Shadow, tr: State, id: nat)
    requires |sh.stack| == |tr.stack| && id in tr.frames && Runs(i, tr, id) && Drops(i)
    ensures Execute(sh, tr.stack, i) == Done(sh.(stack := DropTop(sh.stack, 1)), None)
    ensures Executed(i, tr, id) == tr.(stack := DropTop(tr.stack, 1))
    ensures !LeavesPending(i, sh, tr)
  {
    assert DropTop(tr.stack, 1) + [] == DropTop(tr.stack, 1);
    assert tr.frames[id := tr.frames[id]] == tr.frames;
  }

  /** A pending comparison symbol goes away with the branch or pop that takes it. */
  lemma {:induction false} ConsumeKeeps(c: Config, i: Instr, m: Smt.Model)
    requires Agrees(c, m) && CanStep(c, Exec(i)) && c.pending
    ensures Next(c, Exec(i)).Some? && Agrees(Next(c, Exec(i)).value, m)
  {
    var id := c.ids[|c.ids| - 1];
    DropShape(i, c.sh, c.tr, id);
    ExecNext(c, i, id, Execute(c.sh, c.tr.stack, i));
    assert c.log + [] == c.log;
  }

  lemma {:induction false} EnterTopKeeps(c: Config, f: Frame, m: Smt.Model)
    requires Agrees(c, m) && CanStep(c, Enter(f)) && Inputs(c, Enter(f), m) && c.ids == []
    ensures Next(c, Enter(f)).Some? && Agrees(Next(c, Enter(f)).value, m)
  {
    OneEvent(c.sh, c.tr, OpenFrame(f));
    var symbols, frame := EntryLocals(|c.sh.args|, f), IndexMap(f.parameters);
    assert FrameAgrees(symbols, frame, m);
    EnterAgrees([], map[], [], m, f.id, symbols, frame);
    assert c.sh.locals == [] && c.tr.frames.Keys == {};
    assert c.tr.frames == map[];
    assert [] + [symbols] == [symbols] && [] + [f.id] == [f.id];
    assert c.log + [] == c.log;
  }

  lemma {:induction false} PassedAgree(ss: seq<Symbol>, vs: seq<Val>, count: nat, m: Smt.Model)
    requires StackAgrees(ss, vs, m) && AllValid(vs) && count <= |vs|
    ensures StackAgrees(ss[|ss| - count..], vs[|vs| - count..], m) && AllValid(vs[|vs| - count..])
    ensures StackAgrees(ss[..|ss| - count], vs[..|vs| - count], m)
  {
  }

  lemma {:induction false} ParametersAgree(symbols: seq<Symbol>, vs: seq<Val>, m: Smt.Model)
    requires |vs| <= |symbols| && AllValid(vs) && StackAgrees(symbols[..|vs|], vs, m)
    ensures FrameAgrees(symbols, IndexMap(vs), m)
  {
    forall i | 0 <= i < |vs| ensures Slot(symbols[i], vs[i], m) { assert symbols[..|vs|][i] == symbols[i]; }
  }

  lemma {:induction false} PassedSymbols(c: Config, f: Frame, m: Smt.Model)
    requires StackAgrees(c.sh.stack, c.tr.stack, m) && AllValid(c.tr.stack) && PassedOnStack(f, c.tr.stack)
    requires c.sh.locals != []
    ensures FrameAgrees(Open(c.sh, f).locals[|c.sh.locals|], IndexMap(f.parameters), m)
    ensures StackAgrees(c.sh.stack[..|c.sh.stack| - |f.parameters|], DropTop(c.tr.stack, |f.parameters|), m)
  {
    var count := |f.parameters|;
    PassedAgree(c.sh.stack, c.tr.stack, count, m);
    var passed, symbols := c.sh.stack[|c.sh.stack| - count..], Open(c.sh, f).locals[|c.sh.locals|];
    assert symbols[..count] == passed;
    ParametersAgree(symbols, f.parameters, m);
  }

  lemma {:induction false} EnterNestedKeeps(c: Config, f: Frame, m: Smt.Model)
    requires Agrees(c, m) && CanStep(c, Enter(f)) && c.ids != []
    ensures Next(c, Enter(f)).Some? && Agrees(Next(c, Enter(f)).value, m)
  {
    OneEvent(c.sh, c.tr, OpenFrame(f));
    PassedSymbols(c, f, m);
    EnterAgrees(c.sh.locals, c.tr.frames, c.ids, m, f.id, Open(c.sh, f).locals[|c.sh.locals|], IndexMap(f.parameters));
    assert c.log + [] == c.log;
    var c1 := Next(c, Enter(f)).value;
    assert c1.sh.stack == c.sh.stack[..|c.sh.stack| - |f.parameters|];
  }

  lemma {:induction false} NativeTakesIn(c: Config, f: Frame, results: seq<Val>, m: Smt.Model)
    requires Agrees(c, m) && CanStep(c, CallNative(f, results))
    ensures var live := c.tr.frames[f.id := IndexMap(f.parameters)];
            && live.Keys != {}
            && TakeIn(c.sh, c.tr, Events(c, CallNative(f, results)), None)
               == Some((Open(c.sh, f).(locals := DropTop(Open(c.sh, f).locals, 1)),
                        c.tr.(stack := DropTop(c.tr.stack, |f.parameters|) + results,
                              frames := live - {MaxKey(live.Keys)}), None))
  {
    var es := Events(c, CallNative(f, results));
    assert es[1..] == PushAll(results) + [CloseFrame];
    var tr1 := Apply(c.tr, OpenFrame(f)).value;
    var sh1 := Open(c.sh, f);
    assert f.id in tr1.frames.Keys;
    NativeRest(sh1, tr1, results);
  }

  lemma {:induction false} NativeRest(sh: Shadow, tr: State, results: seq<Val>)
    requires !sh.disabled && tr.frames.Keys != {}
    ensures TakeIn(sh, tr, PushAll(results) + [CloseFrame], None)
         == Some((sh.(locals := DropTop(sh.locals, 1)),
                  tr.(stack := tr.stack + results, frames := tr.frames - {MaxKey(tr.frames.Keys)}), None))
    decreases |results|
  {
    var es := PushAll(results) + [CloseFrame];
    if results == [] {
      assert es == [CloseFrame] && es[1..] == [];
      assert tr.stack + [] == tr.stack;
    } else {
      assert es[0] == PushEffect(results[0]);
      assert es[1..] == PushAll(results[1..]) + [CloseFrame];
      NativeRest(sh, tr.(stack := tr.stack + [results[0]]), results[1..]);
      assert tr.stack + [results[0]] + results[1..] == tr.stack + results;
    }
  }

  lemma {:induction false} NativeStack(c: Config, f: Frame, results: seq<Val>, m: Smt.Model)
    requires StackAgrees(c.sh.stack, c.tr.stack, m) && AllValid(c.tr.stack) && PassedOnStack(f, c.tr.stack)
    requires c.sh.locals != [] && f.native && |results| == f.returnCount && AllValid(results)
    ensures StackAgrees(Open(c.sh, f).stack, DropTop(c.tr.stack, |f.parameters|) + results, m)
    ensures AllValid(DropTop(c.tr.stack, |f.parameters|) + results)
  {
    var count := |f.parameters|;
    var ss, vs := c.sh.stack[..|c.sh.stack| - count], c.tr.stack[..|c.tr.stack| - count];
    PassedAgree(c.sh.stack, c.tr.stack, count, m);
    UnknownsAgree(ss, vs, results, m);
    assert Open(c.sh, f).stack == ss + Unknowns(|results|);
    PrefixValid(c.tr.stack, |c.tr.stack| - count);
    ConcatValid(vs, results);
  }

  lemma {:induction false} PrefixValid(vs: seq<Val>, n: nat)
    requires AllValid(vs) && n <= |vs|
    ensures AllValid(vs[..n])
  {
  }

  lemma {:induction false} NativeFrames(c: Config, f: Frame, m: Smt.Model)
    requires StackAgrees(c.sh.stack, c.tr.stack, m) && AllValid(c.tr.stack) && PassedOnStack(f, c.tr.stack)
    requires FramesAgree(c.sh.locals, c.tr.frames, c.ids, m) && c.ids != []
    requires forall k :: 0 <= k < |c.ids| ==> c.ids[k] < f.id
    ensures var live := c.tr.frames[f.id := IndexMap(f.parameters)];
            && live.Keys != {}
            && FramesAgree(DropTop(Open(c.sh, f).locals, 1), live - {MaxKey(live.Keys)}, c.ids, m)
  {
    PassedSymbols(c, f, m);
    var sh1, frames1, ids1 := Open(c.sh, f), c.tr.frames[f.id := IndexMap(f.parameters)], c.ids + [f.id];
    EnterAgrees(c.sh.locals, c.tr.frames, c.ids, m, f.id, sh1.locals[|c.sh.locals|], IndexMap(f.parameters));
    assert sh1.locals == c.sh.locals + [sh1.locals[|c.sh.locals|]];
    LeaveAgrees(sh1.locals, frames1, ids1, m);
    assert DropTop(ids1, 1) == c.ids;
  }

  lemma {:induction false} NativeKeeps(c: Config, f: Frame, results: seq<Val>, m: Smt.Model)
    requires Agrees(c, m) && CanStep(c, CallNative(f, results))
    ensures Next(c, CallNative(f, results)).Some? && Agrees(Next(c, CallNative(f, results)).value, m)
  {
    NativeTakesIn(c, f, results, m);
    NativeStack(c, f, results, m);
    NativeFrames(c, f, m);
    assert c.log + [] == c.log;
  }

  /** Every step of every run keeps the agreement, and the tracer does not panic on it. */
  lemma {:induction false} StepKeeps(c: Config, st: Step, m: Smt.Model)
    requires Agrees(c, m) && CanStep(c, st) && Inputs(c, st, m)
    ensures Next(c, st).Some? && Agrees(Next(c, st).value, m)
  {
    if c.pending {
      ConsumeKeeps(c, st.instr, m);
    } else {
      match st
      case Begin =>
        OneEvent(c.sh, c.tr, MoveCallStart);
        assert c.log + [] == c.log;
      case Enter(f) =>
        if c.ids == [] { EnterTopKeeps(c, f, m); } else { EnterNestedKeeps(c, f, m); }
      case CallNative(f, results) => NativeKeeps(c, f, results, m);
      case Leave =>
        OneEvent(c.sh, c.tr, CloseFrame);
        LeaveAgrees(c.sh.locals, c.tr.frames, c.ids, m);
        assert c.log + [] == c.log;
      case Exec(i) => ExecKeeps(c, i, m);
    }
  }

  // ----- whole runs

  ghost predicate CanRun(c: Config, steps: seq<Step>)
    decreases |steps|
  {
    steps == [] ||
    (&& |c.sh.stack| == |c.tr.stack|
     && CanStep(c, steps[0])
     && (Next(c, steps[0]).Some? ==> CanRun(Next(c, steps[0]).value, steps[1..])))
  }

  /** Where a run ends, or nothing if the tracer panics on the way. */
  ghost function Run(c: Config, steps: seq<Step>): Option<Config>
    requires CanRun(c, steps)
    decreases |steps|
  {
    if steps == [] then Some(c)
    else if Next(c, steps[0]).None? then None
    else Run(Next(c, steps[0]).value, steps[1..])
  }

  /** The outermost frames of a run, in order: the calls whose parameters are the trace's inputs. */
  ghost function OuterFrames(steps: seq<Step>, depth: nat): seq<Frame>
    decreases |steps|
  {
    if steps == [] then []
    else
      match steps[0]
      case Begin => OuterFrames(steps[1..], 0)
      case Enter(f) => (if depth == 0 then [f] else []) + OuterFrames(steps[1..], depth + 1)
      case Leave => OuterFrames(steps[1..], if depth > 0 then depth - 1 else 0)
      case _ => OuterFrames(steps[1..], depth)
  }

  ghost predicate GivesInputs(m: Smt.Model, outer: seq<Frame>) {
    forall c, i :: 0 <= c < |outer| && 0 <= i < |outer[c].parameters| && outer[c].parameters[i].Prim?
      ==> m.vars(c, i) == outer[c].parameters[i].n
  }

  /** The trace's own inputs, as a model. */
  ghost function OwnInputs(steps: seq<Step>): Smt.Model {
    var outer := OuterFrames(steps, 0);
    Smt.Model((c: nat, i: nat) =>
                if c < |outer| && i < |outer[c].parameters| && outer[c].parameters[i].Prim?
                then outer[c].parameters[i].n else 0,
              x => 0, x => 0, x => 0)
  }

  lemma {:induction false} ExecuteArgs(sh: Shadow, stack: seq<Val>, i: Instr)
    requires |sh.stack| == |stack| && Execute(sh, stack, i).Done?
    ensures Execute(sh, stack, i).after.args == sh.args
  {
  }

  lemma {:induction false} StepArgs(c: Config, st: Step, m: Smt.Model)
    requires Agrees(c, m) && CanStep(c, st) && Next(c, st).Some?
    requires st.Exec? ==> Execute(c.sh, c.tr.stack, st.instr).Done?
    ensures |Next(c, st).value.sh.args| == |c.sh.args| + if st.Enter? && c.ids == [] then 1 else 0
    ensures |Next(c, st).value.ids| == |IdsAfter(c.ids, st)|
  {
    match st
    case Begin => OneEvent(c.sh, c.tr, MoveCallStart);
    case Enter(f) => OneEvent(c.sh, c.tr, OpenFrame(f));
    case CallNative(f, results) => NativeTakesIn(c, f, results, m);
    case Leave => OneEvent(c.sh, c.tr, CloseFrame);
    case Exec(i) =>
      ExecNext(c, i, c.ids[|c.ids| - 1], Execute(c.sh, c.tr.stack, i));
      ExecuteArgs(c.sh, c.tr.stack, i);
  }

  lemma {:induction false} ExecDone(c: Config, st: Step, m: Smt.Model)
    requires Agrees(c, m) && CanStep(c, st) && st.Exec?
    ensures Execute(c.sh, c.tr.stack, st.instr).Done?
  {
    if !c.pending { ReadyGood(c, st.instr, c.ids[|c.ids| - 1], m); }
  }

  /** The outermost frames still to come shrink by one exactly when one is entered. */
  lemma {:induction false} OuterStep(steps: seq<Step>, depth: nat, done: nat, outer: seq<Frame>)
    requires steps != [] && done <= |outer| && outer[done..] == OuterFrames(steps, depth)
    ensures var enters := steps[0].Enter? && depth == 0;
            var done1 := done + if enters then 1 else 0;
            var depth1 := match steps[0]
              case Begin => 0
              case Enter(_) => depth + 1
              case Leave => if depth > 0 then depth - 1 else 0
              case _ => depth;
            && done1 <= |outer| && outer[done1..] == OuterFrames(steps[1..], depth1)
            && (enters ==> outer[done] == steps[0].frame)
  {
    var rest := outer[done..];
    if steps[0].Enter? {
      if depth == 0 {
        assert rest[0] == steps[0].frame == outer[done];
        assert outer[done + 1..] == rest[1..];
      } else {
        assert [] + OuterFrames(steps[1..], depth + 1) == OuterFrames(steps[1..], depth + 1);
      }
    }
  }

  lemma {:induction false} FirstStep(c: Config, steps: seq<Step>, m: Smt.Model, outer: seq<Frame>) returns (c1: Config)
    requires Agrees(c, m) && steps != [] && CanStep(c, steps[0]) && GivesInputs(m, outer)
    requires |c.sh.args| <= |outer| && outer[|c.sh.args|..] == OuterFrames(steps, |c.ids|)
    ensures Next(c, steps[0]) == Some(c1) && Agrees(c1, m)
    ensures |c1.sh.args| <= |outer| && outer[|c1.sh.args|..] == OuterFrames(steps[1..], |c1.ids|)
  {
    var st := steps[0];
    OuterStep(steps, |c.ids|, |c.sh.args|, outer);
    assert Inputs(c, st, m);
    StepKeeps(c, st, m);
    if st.Exec? { ExecDone(c, st, m); }
    StepArgs(c, st, m);
    c1 := Next(c, st).value;
  }

  lemma {:induction false} RunUnfolds(c: Config, steps: seq<Step>)
    requires CanRun(c, steps) && steps != []
    ensures |c.sh.stack| == |c.tr.stack| && CanStep(c, steps[0])
    ensures Next(c, steps[0]).Some? ==>
              && CanRun(Next(c, steps[0]).value, steps[1..])
              && Run(c, steps) == Run(Next(c, steps[0]).value, steps[1..])
  {
  }

  lemma {:induction false} RunKeeps(c: Config, steps: seq<Step>, m: Smt.Model, outer: seq<Frame>)
    requires Agrees(c, m) && CanRun(c, steps) && GivesInputs(m, outer)
    requires |c.sh.args| <= |outer| && outer[|c.sh.args|..] == OuterFrames(steps, |c.ids|)
    ensures Run(c, steps).Some? && Agrees(Run(c, steps).value, m)
    decreases |steps|
  {
    if steps != [] {
      RunUnfolds(c, steps);
      var c1 := FirstStep(c, steps, m, outer);
      RunKeeps(c1, steps[1..], m, outer);
    }
  }

  /** Over every run and under every model of the trace's inputs: the tracer neither panics nor switches
      itself off, both stacks have the same height, every symbol on the stack (but for the result of a
      comparison about to be consumed) and in an initialised local evaluates to the concrete value in that
      slot, and each reported constraint is true exactly when `Expected` says so. */
  lemma {:induction false} RunsAgree(steps: seq<Step>, m: Smt.Model)
    requires CanRun(START, steps) && GivesInputs(m, OuterFrames(steps, 0))
    ensures Run(START, steps).Some? && Agrees(Run(START, steps).value, m)
  {
    var outer := OuterFrames(steps, 0);
    assert outer[0..] == outer;
    RunKeeps(START, steps, m, outer);
  }

  ghost predicate FromShlOrFalseNeq(e: Logged) {
    e.instr.Shl? || (e.instr.Compare? && e.instr.cop == NotEqual && e.l == e.r)
  }

  /** The trace satisfies the conjunction of all constraints it gave rise to, other than those of a left
      shift or of `Neq` on equal operands; the latter it never satisfies. */
  lemma {:induction false} TraceIsWitness(steps: seq<Step>)
    requires CanRun(START, steps)
    ensures Run(START, steps).Some?
    ensures forall k :: 0 <= k < |Run(START, steps).value.log| ==>
              var e := Run(START, steps).value.log[k];
              && (!FromShlOrFalseNeq(e) ==> Smt.Holds(e.c, OwnInputs(steps)))
              && (FromShlOrFalseNeq(e) && !e.instr.Shl? ==> !Smt.Holds(e.c, OwnInputs(steps)))
  {
    RunsAgree(steps, OwnInputs(steps));
  }

  // ----- aborting and switching off

  /** An instruction met with unequal heights switches the shadow machine off, and it stays off: whatever events come
      after, nothing changes in it and nothing is reported. */
  lemma {:induction false} OffForGood(sh: Shadow, tr: State, i: Instr, es: seq<Event>, last: Option<Constraint>)
    requires sh.disabled || |sh.stack| != |tr.stack|
    ensures Follow(sh, tr, Instruction(i)) == Done(sh.(disabled := true), None)
    ensures sh.disabled ==>
              TakeIn(sh, tr, es, last)
              == if ApplyAll(tr, es).None? then None else Some((sh, ApplyAll(tr, es).value, last))
    decreases |es|
  {
    if sh.disabled && es != [] {
      assert Follow(sh, tr, es[0]) == Done(sh, None);
      var tr1 := Apply(tr, es[0]);
      if tr1.Some? { OffForGood(sh, tr1.value, i, es[1..], last); }
    }
  }

  lemma {:induction false} PopsThenError(sh: Shadow, tr: State, n: nat, last: Option<Constraint>)
    requires !sh.disabled && n <= |tr.stack|
    ensures TakeIn(sh, tr, Pops(n) + [ErrorEffect], last)
         == Some((sh.(stack := DropTop(sh.stack, 1)), tr.(stack := DropTop(tr.stack, n)), last))
    decreases n
  {
    var es := Pops(n) + [ErrorEffect];
    if n == 0 {
      assert es == [ErrorEffect] && es[1..] == [];
      assert DropTop(tr.stack, 0) == tr.stack;
    } else {
      assert es[0] == PopEffect && es[1..] == Pops(n - 1) + [ErrorEffect];
      var tr1 := tr.(stack := DropTop(tr.stack, 1));
      PopsThenError(sh, tr1, n - 1, last);
      assert DropTop(tr1.stack, n - 1) == DropTop(tr.stack, n);
    }
  }

  /** A computing instruction that aborts has taken its operands and left no result; the error takes from the shadow
      stack the symbol pushed in advance, so that the heights match again. */
  lemma {:induction false} AbortLevels(sh: Shadow, tr: State, i: Instr)
    requires !sh.disabled && |sh.stack| == |tr.stack| && (IsBinary(i) || i.Cast?) && Popped(i) <= |tr.stack|
    requires Execute(sh, tr.stack, i).Done?
    ensures var r := TakeIn(sh, tr, [Instruction(i)] + (Pops(Popped(i)) + [ErrorEffect]), None);
            && r.Some? && !r.value.0.disabled
            && r.value.0.stack == sh.stack[..|sh.stack| - Popped(i)]
            && r.value.1 == tr.(stack := tr.stack[..|tr.stack| - Popped(i)])
            && r.value.2 == Execute(sh, tr.stack, i).constraint
  {
    var n, o := Popped(i), Execute(sh, tr.stack, i);
    var es := [Instruction(i)] + (Pops(n) + [ErrorEffect]);
    assert es[0] == Instruction(i) && es[1..] == Pops(n) + [ErrorEffect];
    assert Follow(sh, tr, es[0]) == o;
    PopsThenError(o.after, tr, n, o.constraint);
  }
}
