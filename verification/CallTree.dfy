/** The call tree built from a stream of trace events (crates/movy-replay/src/tracer/tree.rs). */
module CallTree {
  import opened Wrappers

  /** What a frame is opened with: where it is, and everything else that is printed of it. */
  datatype Opening = Opening(address: nat, modul: string, function_: string, details: string)

  type Values = seq<nat>

  datatype FrameTraced = FrameTraced(open_: Opening, subcalls: seq<FrameTraced>, close: Option<Values>)

  datatype Event = Open(frame: Opening) | Close(returned: Values) | ExecutionError(message: string) | Quiet(id: nat)

  // ----- walking the tree

  /** The path leads through existing frames. */
  ghost predicate ValidPath(calls: seq<FrameTraced>, path: seq<nat>)
    decreases |path|
  {
    path == [] || (path[0] < |calls| && ValidPath(calls[path[0]].subcalls, path[1..]))
  }

  /** `current_calls`: the frames below the end of a path. */
  function CallsAt(calls: seq<FrameTraced>, path: seq<nat>): seq<FrameTraced>
    requires ValidPath(calls, path)
    decreases |path|
  {
    if path == [] then calls else CallsAt(calls[path[0]].subcalls, path[1..])
  }

  /** The tree with a frame added below the end of a path. */
  function PushAt(calls: seq<FrameTraced>, path: seq<nat>, f: FrameTraced): seq<FrameTraced>
    requires ValidPath(calls, path)
    decreases |path|
  {
    if path == [] then calls + [f]
    else
      var c := calls[path[0]];
      calls[path[0] := c.(subcalls := PushAt(c.subcalls, path[1..], f))]
  }

  /** The tree with the frame at the end of a path closed. */
  function CloseAt(calls: seq<FrameTraced>, path: seq<nat>, vs: Values): seq<FrameTraced>
    requires path != [] && ValidPath(calls, path)
    decreases |path|
  {
    var c := calls[path[0]];
    if |path| == 1 then calls[path[0] := c.(close := Some(vs))]
    else calls[path[0] := c.(subcalls := CloseAt(c.subcalls, path[1..], vs))]
  }

  /** `frame_at_path` */
  function FrameAt(calls: seq<FrameTraced>, path: seq<nat>): Option<FrameTraced>
    decreases |path|
  {
    if path == [] || path[0] >= |calls| then None
    else if |path| == 1 then Some(calls[path[0]])
    else FrameAt(calls[path[0]].subcalls, path[1..])
  }

  // ----- the shape of the tree

  ghost predicate AllClosed(calls: seq<FrameTraced>) {
    forall k :: 0 <= k < |calls| ==> calls[k].close.Some? && AllClosed(calls[k].subcalls)
  }

  /** The frames on the path, and they alone, are open; each is the last of its siblings. */
  ghost predicate Spine(calls: seq<FrameTraced>, path: seq<nat>)
    decreases |path|
  {
    if path == [] then AllClosed(calls)
    else
      && calls != [] && path[0] == |calls| - 1
      && AllClosed(calls[..path[0]])
      && calls[path[0]].close.None?
      && Spine(calls[path[0]].subcalls, path[1..])
  }

  lemma {:induction false} SpineValid(calls: seq<FrameTraced>, path: seq<nat>)
    requires Spine(calls, path)
    ensures ValidPath(calls, path)
    decreases |path|
  {
    if path != [] { SpineValid(calls[path[0]].subcalls, path[1..]); }
  }

  lemma {:induction false} AllClosedAppend(calls: seq<FrameTraced>, f: FrameTraced)
    requires AllClosed(calls) && f.close.Some? && AllClosed(f.subcalls)
    ensures AllClosed(calls + [f])
  {
  }

  lemma {:induction false} PushKeepsSpine(calls: seq<FrameTraced>, path: seq<nat>, f: FrameTraced)
    requires Spine(calls, path) && ValidPath(calls, path) && f.close.None? && f.subcalls == []
    ensures Spine(PushAt(calls, path, f), path + [|CallsAt(calls, path)|])
    decreases |path|
  {
    var path' := path + [|CallsAt(calls, path)|];
    var calls' := PushAt(calls, path, f);
    if path == [] {
      assert calls'[..|calls|] == calls;
    } else {
      PushKeepsSpine(calls[path[0]].subcalls, path[1..], f);
      assert path'[1..] == path[1..] + [|CallsAt(calls, path)|];
      assert calls'[..path[0]] == calls[..path[0]];
    }
  }

  lemma {:induction false} CloseKeepsSpine(calls: seq<FrameTraced>, path: seq<nat>, vs: Values)
    requires path != [] && Spine(calls, path) && ValidPath(calls, path)
    ensures Spine(CloseAt(calls, path, vs), path[..|path| - 1])
    decreases |path|
  {
    var path' := path[..|path| - 1];
    var calls' := CloseAt(calls, path, vs);
    var c := calls[path[0]];
    if |path| == 1 {
      assert path[1..] == [];
      AllClosedAppend(calls[..path[0]], c.(close := Some(vs)));
      assert calls' == calls[..path[0]] + [c.(close := Some(vs))];
    } else {
      CloseKeepsSpine(c.subcalls, path[1..], vs);
      assert path'[1..] == path[1..][..|path[1..]| - 1];
      assert calls'[..path[0]] == calls[..path[0]];
    }
  }

  // ----- bracketing

  ghost function Frame(f: FrameTraced): seq<Event>
    decreases f, 1
  {
    [Open(f.open_)] + Brackets(f.subcalls) + if f.close.Some? then [Close(f.close.value)] else []
  }

  /** The opening and closing events that the tree stands for, in order. */
  ghost function Brackets(calls: seq<FrameTraced>): seq<Event>
    decreases calls, 0
  {
    if calls == [] then [] else Brackets(calls[..|calls| - 1]) + Frame(calls[|calls| - 1])
  }

  lemma {:induction false} BracketsAppend(calls: seq<FrameTraced>, f: FrameTraced)
    ensures Brackets(calls + [f]) == Brackets(calls) + Frame(f)
  {
    assert (calls + [f])[..|calls|] == calls;
  }

  lemma {:induction false} PushBrackets(calls: seq<FrameTraced>, path: seq<nat>, o: Opening)
    requires Spine(calls, path) && ValidPath(calls, path)
    ensures Brackets(PushAt(calls, path, FrameTraced(o, [], None))) == Brackets(calls) + [Open(o)]
    decreases |path|
  {
    var f := FrameTraced(o, [], None);
    if path == [] {
      BracketsAppend(calls, f);
      assert Frame(f) == [Open(o)];
    } else {
      var front, c := calls[..path[0]], calls[path[0]];
      var c' := c.(subcalls := PushAt(c.subcalls, path[1..], f));
      PushBrackets(c.subcalls, path[1..], o);
      assert calls == front + [c] && PushAt(calls, path, f) == front + [c'];
      BracketsAppend(front, c);
      BracketsAppend(front, c');
      assert Frame(c') == Frame(c) + [Open(o)];
    }
  }

  lemma {:induction false} CloseBrackets(calls: seq<FrameTraced>, path: seq<nat>, vs: Values)
    requires path != [] && Spine(calls, path) && ValidPath(calls, path)
    ensures Brackets(CloseAt(calls, path, vs)) == Brackets(calls) + [Close(vs)]
    decreases |path|
  {
    var front, c := calls[..path[0]], calls[path[0]];
    var c' := if |path| == 1 then c.(close := Some(vs)) else c.(subcalls := CloseAt(c.subcalls, path[1..], vs));
    if |path| > 1 { CloseBrackets(c.subcalls, path[1..], vs); }
    assert calls == front + [c] && CloseAt(calls, path, vs) == front + [c'];
    BracketsAppend(front, c);
    BracketsAppend(front, c');
    assert Frame(c') == Frame(c) + [Close(vs)];
  }

  // ----- streams

  /** How many frames are open after the events. */
  ghost function Depth(evs: seq<Event>): nat {
    if evs == [] then 0
    else
      var d := Depth(evs[..|evs| - 1]);
      match evs[|evs| - 1]
      case Open(_) => d + 1
      case Close(_) => if d > 0 then d - 1 else 0
      case _ => d
  }

  /** The opening and closing events, without closings of which no frame is open. */
  ghost function Effective(evs: seq<Event>): seq<Event> {
    if evs == [] then []
    else
      var front, e := evs[..|evs| - 1], evs[|evs| - 1];
      match e
      case Open(_) => Effective(front) + [e]
      case Close(_) => if Depth(front) > 0 then Effective(front) + [e] else Effective(front)
      case _ => Effective(front)
  }

  // ----- errors

  /** The frames along a path, outermost first. */
  ghost function Along(calls: seq<FrameTraced>, path: seq<nat>): seq<Opening>
    requires ValidPath(calls, path)
    decreases |path|
  {
    if path == [] then [] else [calls[path[0]].open_] + Along(calls[path[0]].subcalls, path[1..])
  }

  /** Every frame is still where it was, under the same opening. */
  ghost predicate Grows(calls: seq<FrameTraced>, calls': seq<FrameTraced>)
  {
    && |calls| <= |calls'|
    && forall k :: 0 <= k < |calls| ==>
         calls[k].open_ == calls'[k].open_ && Grows(calls[k].subcalls, calls'[k].subcalls)
  }

  lemma {:induction false} GrowsSelf(calls: seq<FrameTraced>)
    ensures Grows(calls, calls)
  {
    forall k | 0 <= k < |calls| ensures Grows(calls[k].subcalls, calls[k].subcalls) {
      GrowsSelf(calls[k].subcalls);
    }
  }

  lemma {:induction false} PushGrows(calls: seq<FrameTraced>, path: seq<nat>, f: FrameTraced)
    requires ValidPath(calls, path)
    ensures Grows(calls, PushAt(calls, path, f))
    decreases |path|
  {
    if path != [] { PushGrows(calls[path[0]].subcalls, path[1..], f); }
    forall k | 0 <= k < |calls| ensures Grows(calls[k].subcalls, calls[k].subcalls) {
      GrowsSelf(calls[k].subcalls);
    }
  }

  lemma {:induction false} CloseGrows(calls: seq<FrameTraced>, path: seq<nat>, vs: Values)
    requires path != [] && ValidPath(calls, path)
    ensures Grows(calls, CloseAt(calls, path, vs))
    decreases |path|
  {
    if |path| > 1 { CloseGrows(calls[path[0]].subcalls, path[1..], vs); }
    forall k | 0 <= k < |calls| ensures Grows(calls[k].subcalls, calls[k].subcalls) {
      GrowsSelf(calls[k].subcalls);
    }
  }

  /** A path keeps naming the same frames as the tree grows. */
  lemma {:induction false} AlongGrows(calls: seq<FrameTraced>, calls': seq<FrameTraced>, path: seq<nat>)
    requires Grows(calls, calls') && ValidPath(calls, path)
    ensures ValidPath(calls', path) && Along(calls', path) == Along(calls, path)
    decreases |path|
  {
    if path != [] { AlongGrows(calls[path[0]].subcalls, calls'[path[0]].subcalls, path[1..]); }
  }

  lemma {:induction false} AlongFrames(calls: seq<FrameTraced>, path: seq<nat>, depth: nat)
    requires ValidPath(calls, path) && depth < |path|
    ensures |Along(calls, path)| == |path|
    ensures FrameAt(calls, path[..depth + 1]).Some?
    ensures FrameAt(calls, path[..depth + 1]).value.open_ == Along(calls, path)[depth]
    decreases |path|
  {
    var prefix := path[..depth + 1];
    if |path| > 1 { AlongFrames(calls[path[0]].subcalls, path[1..], if depth > 0 then depth - 1 else 0); }
    if depth > 0 { assert prefix[1..] == path[1..][..depth]; }
  }

  // ----- the tracer

  datatype Tree = Tree(calls: seq<FrameTraced>, path: seq<nat>, errorPath: Option<seq<nat>>,
                       errorMessage: Option<string>, evs: seq<Event>)

  const EMPTY := Tree([], [], None, None, [])

  /** The state after an event: the raw callback first, then opening or closing a frame. */
  ghost function Step(t: Tree, e: Event): Tree
    requires ValidPath(t.calls, t.path)
  {
    var t1 := if e.ExecutionError? && t.errorPath.None?
              then t.(errorPath := Some(t.path), errorMessage := Some(e.message), evs := t.evs + [e])
              else t.(evs := t.evs + [e]);
    match e
    case Open(o) =>
      t1.(calls := PushAt(t.calls, t.path, FrameTraced(o, [], None)), path := t.path + [|CallsAt(t.calls, t.path)|])
    case Close(vs) =>
      if t.path == [] then t1
      else t1.(calls := CloseAt(t.calls, t.path, vs), path := t.path[..|t.path| - 1])
    case _ => t1
  }

  /** The tree and its path account for the events so far. */
  ghost predicate Faithful(t: Tree) {
    && Spine(t.calls, t.path)
    && Brackets(t.calls) == Effective(t.evs)
    && |t.path| == Depth(t.evs)
  }

  lemma {:induction false} OpenFaithful(t: Tree, o: Opening)
    requires Faithful(t) && ValidPath(t.calls, t.path)
    ensures Faithful(Step(t, Open(o)))
  {
    assert Step(t, Open(o)).evs[..|t.evs|] == t.evs;
    PushKeepsSpine(t.calls, t.path, FrameTraced(o, [], None));
    PushBrackets(t.calls, t.path, o);
  }

  lemma {:induction false} CloseFaithful(t: Tree, vs: Values)
    requires Faithful(t) && ValidPath(t.calls, t.path)
    ensures Faithful(Step(t, Close(vs)))
  {
    assert Step(t, Close(vs)).evs[..|t.evs|] == t.evs;
    if t.path != [] {
      CloseKeepsSpine(t.calls, t.path, vs);
      CloseBrackets(t.calls, t.path, vs);
    }
  }

  lemma {:induction false} StepFaithful(t: Tree, e: Event)
    requires Faithful(t) && ValidPath(t.calls, t.path)
    ensures Faithful(Step(t, e)) && ValidPath(Step(t, e).calls, Step(t, e).path)
  {
    match e {
      case Open(o) => OpenFaithful(t, o);
      case Close(vs) => CloseFaithful(t, vs);
      case _ => assert Step(t, e).evs[..|t.evs|] == t.evs;
    }
    SpineValid(Step(t, e).calls, Step(t, e).path);
  }

  lemma {:induction false} StepGrows(t: Tree, e: Event)
    requires ValidPath(t.calls, t.path)
    ensures Grows(t.calls, Step(t, e).calls)
  {
    match e
    case Open(o) => PushGrows(t.calls, t.path, FrameTraced(o, [], None));
    case Close(vs) => if t.path != [] { CloseGrows(t.calls, t.path, vs); } else { GrowsSelf(t.calls); }
    case _ => GrowsSelf(t.calls);
  }

  ghost predicate Placed(t: Tree) {
    ValidPath(t.calls, t.path)
  }

  lemma {:induction false} PushValid(calls: seq<FrameTraced>, path: seq<nat>, f: FrameTraced)
    requires ValidPath(calls, path)
    ensures ValidPath(PushAt(calls, path, f), path + [|CallsAt(calls, path)|])
    decreases |path|
  {
    var below := path + [|CallsAt(calls, path)|];
    if path != [] {
      PushValid(calls[path[0]].subcalls, path[1..], f);
      assert below[1..] == path[1..] + [|CallsAt(calls, path)|];
    }
  }

  lemma {:induction false} CloseValid(calls: seq<FrameTraced>, path: seq<nat>, vs: Values)
    requires path != [] && ValidPath(calls, path)
    ensures ValidPath(CloseAt(calls, path, vs), path[..|path| - 1])
    decreases |path|
  {
    if |path| > 1 {
      CloseValid(calls[path[0]].subcalls, path[1..], vs);
      assert path[..|path| - 1][1..] == path[1..][..|path| - 2];
    }
  }

  lemma {:induction false} StepPlaced(t: Tree, e: Event)
    requires Placed(t)
    ensures Placed(Step(t, e))
  {
    match e
    case Open(o) => PushValid(t.calls, t.path, FrameTraced(o, [], None));
    case Close(vs) => if t.path != [] { CloseValid(t.calls, t.path, vs); }
    case _ =>
  }

  /** The state after a stream of events. */
  ghost function Run(t: Tree, es: seq<Event>): (t': Tree)
    requires Placed(t)
    ensures Placed(t')
    decreases |es|
  {
    if es == [] then t
    else
      StepPlaced(t, es[0]);
      Run(Step(t, es[0]), es[1..])
  }

  /** For every stream: the path always leads through open frames to the current one, and reading the tree off
      as brackets gives the stream back, less the closings that close nothing. */
  lemma {:induction false} RunFaithful(t: Tree, es: seq<Event>)
    requires Placed(t) && Faithful(t)
    ensures Faithful(Run(t, es)) && ValidPath(Run(t, es).calls, Run(t, es).path)
    ensures Run(t, es).evs == t.evs + es
    decreases |es|
  {
    RunRecords(t, es);
    if es != [] {
      StepFaithful(t, es[0]);
      RunFaithful(Step(t, es[0]), es[1..]);
    }
  }

  lemma {:induction false} RunRecords(t: Tree, es: seq<Event>)
    requires Placed(t)
    ensures Run(t, es).evs == t.evs + es
    decreases |es|
  {
    if es == [] {
      assert t.evs + [] == t.evs;
    } else {
      StepPlaced(t, es[0]);
      RunRecords(Step(t, es[0]), es[1..]);
      assert t.evs + [es[0]] + es[1..] == t.evs + es;
    }
  }

  lemma {:induction false} RunConcat(t: Tree, a: seq<Event>, b: seq<Event>)
    requires Placed(t)
    ensures Run(t, a + b) == Run(Run(t, a), b)
    decreases |a|
  {
    if a == [] {
      assert [] + b == b;
    } else {
      assert (a + b)[1..] == a[1..] + b;
      StepPlaced(t, a[0]);
      RunConcat(Step(t, a[0]), a[1..], b);
    }
  }

  /** Once recorded, an error stays, and its path goes on naming the same frames. */
  lemma {:induction false} ErrorStays(t: Tree, es: seq<Event>)
    requires Placed(t) && t.errorPath.Some? && ValidPath(t.calls, t.errorPath.value)
    ensures Run(t, es).errorPath == t.errorPath && Run(t, es).errorMessage == t.errorMessage
    ensures ValidPath(Run(t, es).calls, t.errorPath.value)
    ensures Along(Run(t, es).calls, t.errorPath.value) == Along(t.calls, t.errorPath.value)
    decreases |es|
  {
    if es != [] {
      StepPlaced(t, es[0]);
      StepGrows(t, es[0]);
      AlongGrows(t.calls, Step(t, es[0]).calls, t.errorPath.value);
      ErrorStays(Step(t, es[0]), es[1..]);
    }
  }

  ghost predicate NoError(es: seq<Event>) {
    forall k :: 0 <= k < |es| ==> !es[k].ExecutionError?
  }

  lemma {:induction false} NoErrorYet(t: Tree, es: seq<Event>)
    requires Placed(t) && t.errorPath.None? && t.errorMessage.None? && NoError(es)
    ensures Run(t, es).errorPath.None? && Run(t, es).errorMessage.None?
    decreases |es|
  {
    if es != [] {
      StepPlaced(t, es[0]);
      NoErrorYet(Step(t, es[0]), es[1..]);
    }
  }

  /** The error trace of a stream is that of its first error: the frames open at that moment, whatever follows. */
  lemma {:induction false} FirstErrorIsTraced(before: seq<Event>, message: string, after: seq<Event>)
    requires NoError(before)
    ensures var t, at := Run(EMPTY, before + [ExecutionError(message)] + after), Run(EMPTY, before);
            && t.errorPath == Some(at.path) && t.errorMessage == Some(message)
            && ValidPath(at.calls, at.path) && ValidPath(t.calls, at.path)
            && Along(t.calls, at.path) == Along(at.calls, at.path)
  {
    var at := Run(EMPTY, before);
    NoErrorYet(EMPTY, before);
    RunConcat(EMPTY, before + [ExecutionError(message)], after);
    RunConcat(EMPTY, before, [ExecutionError(message)]);
    StepPlaced(at, ExecutionError(message));
    var now := Step(at, ExecutionError(message));
    assert Run(at, [ExecutionError(message)]) == now by {
      assert [ExecutionError(message)][1..] == [];
    }
    ErrorStays(now, after);
  }

  lemma {:induction false} NoErrorNoTrace(es: seq<Event>)
    requires NoError(es)
    ensures Run(EMPTY, es).errorPath.None?
  {
    NoErrorYet(EMPTY, es);
  }

  // ----- reading the brackets back

  ghost function AppendAt(calls: seq<FrameTraced>, path: seq<nat>, more: seq<FrameTraced>): seq<FrameTraced>
    requires ValidPath(calls, path)
    decreases |path|
  {
    if path == [] then calls + more
    else
      var c := calls[path[0]];
      calls[path[0] := c.(subcalls := AppendAt(c.subcalls, path[1..], more))]
  }

  lemma {:induction false} AppendNothing(calls: seq<FrameTraced>, path: seq<nat>)
    requires ValidPath(calls, path)
    ensures AppendAt(calls, path, []) == calls
    decreases |path|
  {
    if path != [] { AppendNothing(calls[path[0]].subcalls, path[1..]); }
  }

  lemma {:induction false} AppendThenPush(calls: seq<FrameTraced>, path: seq<nat>, more: seq<FrameTraced>,
                                          f: FrameTraced)
    requires ValidPath(calls, path)
    ensures ValidPath(AppendAt(calls, path, more), path)
    ensures PushAt(AppendAt(calls, path, more), path, f) == AppendAt(calls, path, more + [f])
    ensures |CallsAt(AppendAt(calls, path, more), path)| == |CallsAt(calls, path)| + |more|
    decreases |path|
  {
    if path == [] {
      assert calls + more + [f] == calls + (more + [f]);
    } else {
      AppendThenPush(calls[path[0]].subcalls, path[1..], more, f);
    }
  }

  /** Opening a frame, filling it and closing it adds the finished frame. */
  lemma {:induction false} FillFrame(calls: seq<FrameTraced>, path: seq<nat>, o: Opening, sub: seq<FrameTraced>)
    requires ValidPath(calls, path)
    ensures var below := path + [|CallsAt(calls, path)|];
            var open_ := PushAt(calls, path, FrameTraced(o, [], None));
            && ValidPath(open_, below) && CallsAt(open_, below) == []
            && AppendAt(open_, below, sub) == PushAt(calls, path, FrameTraced(o, sub, None))
    decreases |path|
  {
    var below := path + [|CallsAt(calls, path)|];
    if path == [] {
      assert below[1..] == [];
      assert [] + sub == sub;
      assert AppendAt([], [], sub) == sub;
    } else {
      FillFrame(calls[path[0]].subcalls, path[1..], o, sub);
      assert below[1..] == path[1..] + [|CallsAt(calls, path)|];
    }
  }

  lemma {:induction false} CloseFilled(calls: seq<FrameTraced>, path: seq<nat>, o: Opening, sub: seq<FrameTraced>,
                                       vs: Values)
    requires ValidPath(calls, path)
    ensures var below := path + [|CallsAt(calls, path)|];
            var open_ := PushAt(calls, path, FrameTraced(o, sub, None));
            && ValidPath(open_, below)
            && CloseAt(open_, below, vs) == PushAt(calls, path, FrameTraced(o, sub, Some(vs)))
    decreases |path|
  {
    var below := path + [|CallsAt(calls, path)|];
    if path == [] {
      assert below[1..] == [];
    } else {
      CloseFilled(calls[path[0]].subcalls, path[1..], o, sub, vs);
      assert below[1..] == path[1..] + [|CallsAt(calls, path)|];
    }
  }

  lemma {:induction false} JoinReplays(t: Tree, front: seq<FrameTraced>, f: FrameTraced, t1: Tree, t2: Tree)
    requires Placed(t) && t1 == Run(t, Brackets(front)) && t2 == Run(t1, Frame(f))
    requires t1.calls == AppendAt(t.calls, t.path, front) && t1.path == t.path
    requires t2.calls == PushAt(t1.calls, t1.path, f) && t2.path == t1.path
    ensures Run(t, Brackets(front + [f])) == t2 && t2.calls == AppendAt(t.calls, t.path, front + [f])
  {
    BracketsAppend(front, f);
    RunConcat(t, Brackets(front), Frame(f));
    AppendThenPush(t.calls, t.path, front, f);
  }

  /** Replaying the brackets of finished frames adds those frames at the current position. */
  lemma {:induction false} ReplayClosed(t: Tree, calls: seq<FrameTraced>)
    requires Placed(t) && AllClosed(calls)
    ensures Run(t, Brackets(calls)).calls == AppendAt(t.calls, t.path, calls)
    ensures Run(t, Brackets(calls)).path == t.path
    decreases calls, 0
  {
    if calls == [] {
      AppendNothing(t.calls, t.path);
    } else {
      var front, f := calls[..|calls| - 1], calls[|calls| - 1];
      ReplayClosed(t, front);
      var t1 := Run(t, Brackets(front));
      ReplayFrame(t1, f);
      JoinReplays(t, front, f, t1, Run(t1, Frame(f)));
      assert front + [f] == calls;
    }
  }

  lemma {:induction false} ReplayFrame(t: Tree, f: FrameTraced)
    requires Placed(t) && f.close.Some? && AllClosed(f.subcalls)
    ensures Run(t, Frame(f)).calls == PushAt(t.calls, t.path, f)
    ensures Run(t, Frame(f)).path == t.path
    decreases f, 1
  {
    var opened_ := OpenFirst(t, f);
    ReplayClosed(opened_, f.subcalls);
    CloseLast(t, f, opened_, Run(opened_, Brackets(f.subcalls)));
  }

  /** Replaying the brackets of a frame begins with its opening. */
  lemma {:induction false} OpenFirst(t: Tree, f: FrameTraced) returns (t1: Tree)
    requires Placed(t)
    ensures t1 == Step(t, Open(f.open_)) && Placed(t1)
    ensures Run(t, [Open(f.open_)] + Brackets(f.subcalls)) == Run(t1, Brackets(f.subcalls))
    ensures t1.path == t.path + [|CallsAt(t.calls, t.path)|] && CallsAt(t1.calls, t1.path) == []
    ensures AppendAt(t1.calls, t1.path, f.subcalls)
         == PushAt(t.calls, t.path, FrameTraced(f.open_, f.subcalls, None))
  {
    var es := [Open(f.open_)] + Brackets(f.subcalls);
    StepPlaced(t, Open(f.open_));
    assert es[0] == Open(f.open_) && es[1..] == Brackets(f.subcalls);
    t1 := Step(t, Open(f.open_));
    FillFrame(t.calls, t.path, f.open_, f.subcalls);
  }

  /** And ends with its closing. */
  lemma {:induction false} CloseLast(t: Tree, f: FrameTraced, t1: Tree, t2: Tree)
    requires Placed(t) && f.close.Some? && Placed(t1) && Placed(t2)
    requires Run(t, [Open(f.open_)] + Brackets(f.subcalls)) == t2
    requires t2.calls == PushAt(t.calls, t.path, FrameTraced(f.open_, f.subcalls, None))
    requires t2.path == t1.path == t.path + [|CallsAt(t.calls, t.path)|]
    ensures Run(t, Frame(f)).calls == PushAt(t.calls, t.path, f) && Run(t, Frame(f)).path == t.path
  {
    var vs := f.close.value;
    CloseFilled(t.calls, t.path, f.open_, f.subcalls, vs);
    assert Frame(f) == ([Open(f.open_)] + Brackets(f.subcalls)) + [Close(vs)];
    RunConcat(t, [Open(f.open_)] + Brackets(f.subcalls), [Close(vs)]);
    assert [Close(vs)][1..] == [];
    assert Run(t2, [Close(vs)]) == Step(t2, Close(vs));
    assert t2.path[..|t2.path| - 1] == t.path;
  }

  /** Replaying finished frames and then the opening of an unfinished one. */
  lemma {:induction false} SpineDown(t: Tree, front: seq<FrameTraced>, c: FrameTraced) returns (t2: Tree)
    requires Placed(t) && CallsAt(t.calls, t.path) == [] && AllClosed(front) && c.close.None?
    ensures Placed(t2) && CallsAt(t2.calls, t2.path) == [] && t2.path == t.path + [|front|]
    ensures Run(t, Brackets(front + [c])) == Run(t2, Brackets(c.subcalls))
    ensures AppendAt(t2.calls, t2.path, c.subcalls) == AppendAt(t.calls, t.path, front + [c])
  {
    BracketsAppend(front, c);
    ReplayClosed(t, front);
    RunConcat(t, Brackets(front), Frame(c));
    AppendThenPush(t.calls, t.path, front, c);
    t2 := OpenFirst(Run(t, Brackets(front)), c);
    assert Frame(c) == [Open(c.open_)] + Brackets(c.subcalls);
    assert c == FrameTraced(c.open_, c.subcalls, None);
  }

  /** Replaying the brackets of an unfinished tree resumes it: same frames, same position. */
  lemma {:induction false} ReplaySpine(t: Tree, calls: seq<FrameTraced>, path: seq<nat>)
    requires Placed(t) && Spine(calls, path) && CallsAt(t.calls, t.path) == []
    ensures Run(t, Brackets(calls)).calls == AppendAt(t.calls, t.path, calls)
    ensures Run(t, Brackets(calls)).path == t.path + path
    decreases |path|
  {
    if path == [] {
      ReplayClosed(t, calls);
      assert t.path + [] == t.path;
    } else {
      var front, c := calls[..path[0]], calls[path[0]];
      assert calls == front + [c];
      var t2 := SpineDown(t, front, c);
      ReplaySpine(t2, c.subcalls, path[1..]);
      assert t.path + [path[0]] + path[1..] == t.path + path;
    }
  }

  /** The brackets determine the tree: tracing them anew builds the same tree and ends in the same frame. */
  lemma {:induction false} ReadBack(es: seq<Event>)
    ensures Run(EMPTY, Effective(es)).calls == Run(EMPTY, es).calls
    ensures Run(EMPTY, Effective(es)).path == Run(EMPTY, es).path
  {
    var t := Run(EMPTY, es);
    RunFaithful(EMPTY, es);
    assert [] + es == es;
    ReplaySpine(EMPTY, t.calls, t.path);
    assert [] + t.calls == t.calls && [] + t.path == t.path;
  }

  // ----- printing without some frames

  datatype Node = Node(frame: Opening, children: seq<Node>)

  /** `pprint_child_filtered`: frames that are left out hand their children up. */
  function Filtered(calls: seq<FrameTraced>, keep: Opening -> bool): seq<Node>
    decreases calls
  {
    if calls == [] then []
    else
      var c := calls[0];
      var below := Filtered(c.subcalls, keep);
      (if keep(c.open_) then [Node(c.open_, below)] else below) + Filtered(calls[1..], keep)
  }

  /** The calls in order, each as the chain of frames from the outermost one down to it. */
  ghost function Chains(calls: seq<FrameTraced>, above: seq<Opening>): seq<seq<Opening>>
    decreases calls
  {
    if calls == [] then []
    else
      var chain := above + [calls[0].open_];
      [chain] + Chains(calls[0].subcalls, chain) + Chains(calls[1..], above)
  }

  /** The lines of the view in order, each as the chain of lines that it is nested under, with itself at the end. */
  ghost function Printed(nodes: seq<Node>, above: seq<Opening>): seq<seq<Opening>>
    decreases nodes
  {
    if nodes == [] then []
    else
      var chain := above + [nodes[0].frame];
      [chain] + Printed(nodes[0].children, chain) + Printed(nodes[1..], above)
  }

  ghost function Sift(os: seq<Opening>, keep: Opening -> bool): seq<Opening> {
    if os == [] then []
    else Sift(os[..|os| - 1], keep) + if keep(os[|os| - 1]) then [os[|os| - 1]] else []
  }

  /** The chains of the frames to be kept, each without the frames left out. */
  ghost function Keep(chains: seq<seq<Opening>>, keep: Opening -> bool): seq<seq<Opening>> {
    if chains == [] then [] else KeepFirst(chains[0], keep) + Keep(chains[1..], keep)
  }

  ghost function KeepFirst(chain: seq<Opening>, keep: Opening -> bool): seq<seq<Opening>> {
    if chain != [] && keep(chain[|chain| - 1]) then [Sift(chain, keep)] else []
  }

  lemma {:induction false} KeepConcat(a: seq<seq<Opening>>, b: seq<seq<Opening>>, keep: Opening -> bool)
    ensures Keep(a + b, keep) == Keep(a, keep) + Keep(b, keep)
    decreases |a|
  {
    if a == [] {
      assert [] + b == b;
    } else {
      KeepConcat(a[1..], b, keep);
      assert (a + b)[1..] == a[1..] + b;
      Regroup(KeepFirst(a[0], keep), Keep(a[1..], keep), Keep(b, keep));
    }
  }

  lemma {:induction false} PrintedConcat(a: seq<Node>, b: seq<Node>, above: seq<Opening>)
    ensures Printed(a + b, above) == Printed(a, above) + Printed(b, above)
    decreases |a|
  {
    if a == [] {
      assert [] + b == b;
    } else {
      var n, rest := a[0], a[1..];
      PrintedConcat(rest, b, above);
      assert a == [n] + rest && a + b == [n] + (rest + b);
      PrintedCons(n, rest, above);
      PrintedCons(n, rest + b, above);
      Regroup([above + [n.frame]] + Printed(n.children, above + [n.frame]), Printed(rest, above), Printed(b, above));
    }
  }

  lemma {:induction false} PrintedCons(n: Node, rest: seq<Node>, above: seq<Opening>)
    ensures Printed([n] + rest, above)
         == [above + [n.frame]] + Printed(n.children, above + [n.frame]) + Printed(rest, above)
  {
    assert ([n] + rest)[1..] == rest;
  }

  lemma {:induction false} Regroup(a: seq<seq<Opening>>, b: seq<seq<Opening>>, c: seq<seq<Opening>>)
    ensures a + (b + c) == (a + b) + c
  {
  }

  lemma {:induction false} SiftSnoc(os: seq<Opening>, o: Opening, keep: Opening -> bool)
    ensures Sift(os + [o], keep) == Sift(os, keep) + if keep(o) then [o] else []
  {
    assert (os + [o])[..|os|] == os;
  }

  lemma {:induction false} KeepOne(above: seq<Opening>, o: Opening, keep: Opening -> bool)
    ensures Keep([above + [o]], keep) == if keep(o) then [Sift(above, keep) + [o]] else []
  {
    SiftSnoc(above, o, keep);
    var chain: seq<Opening> := above + [o];
    var one: seq<seq<Opening>> := [chain];
    assert one[1..] == [] && chain[|chain| - 1] == o;
  }

  /** The first call in the view: a line of its own with its calls below, or only its calls in its stead. */
  lemma {:induction false} HeadPrints(c: FrameTraced, above: seq<Opening>, keep: Opening -> bool, below: seq<Node>)
    requires Printed(below, Sift(above + [c.open_], keep)) == Keep(Chains(c.subcalls, above + [c.open_]), keep)
    ensures Printed(if keep(c.open_) then [Node(c.open_, below)] else below, Sift(above, keep))
         == Keep([above + [c.open_]] + Chains(c.subcalls, above + [c.open_]), keep)
  {
    var o, none: seq<Node> := c.open_, [];
    SiftSnoc(above, o, keep);
    KeepConcat([above + [o]], Chains(c.subcalls, above + [o]), keep);
    KeepOne(above, o, keep);
    if keep(o) {
      var n := Node(o, below);
      assert [n] + none == [n];
      PrintedCons(n, none, Sift(above, keep));
    } else {
      assert Sift(above + [o], keep) == Sift(above, keep);
    }
  }

  /** The filtered view prints exactly the frames asked for, each as often and in the order they were called, and each
      nested under exactly those of its callers that are printed. */
  lemma {:induction false} FilteredPrints(calls: seq<FrameTraced>, above: seq<Opening>, keep: Opening -> bool)
    ensures Printed(Filtered(calls, keep), Sift(above, keep)) == Keep(Chains(calls, above), keep)
    decreases calls
  {
    if calls != [] {
      var c := calls[0];
      FilteredPrints(c.subcalls, above + [c.open_], keep);
      FilteredPrints(calls[1..], above, keep);
      var below, rest := Filtered(c.subcalls, keep), Filtered(calls[1..], keep);
      HeadPrints(c, above, keep, below);
      PrintedConcat(if keep(c.open_) then [Node(c.open_, below)] else below, rest, Sift(above, keep));
      KeepConcat([above + [c.open_]] + Chains(c.subcalls, above + [c.open_]), Chains(calls[1..], above), keep);
    }
  }

  /** The tree is true to its stream, and its paths are valid. */
  ghost predicate Fits(t: Tree) {
    && Faithful(t)
    && ValidPath(t.calls, t.path)
    && (t.errorPath.Some? ==> ValidPath(t.calls, t.errorPath.value))
  }

  lemma {:induction false} StepFits(t: Tree, e: Event)
    requires Fits(t)
    ensures Fits(Step(t, e))
  {
    StepFaithful(t, e);
    StepGrows(t, e);
    if t.errorPath.Some? { AlongGrows(t.calls, Step(t, e).calls, t.errorPath.value); }
  }

  /** `TreeTracer` with its `TreeTraceResult` */
  class TreeTracer {
    var calls: seq<FrameTraced>
    var callIdxs: seq<nat>
    var errorCallIdxs: Option<seq<nat>>
    var errorMessage: Option<string>
    var evs: seq<Event>

    ghost function Now(): Tree
      reads this
    {
      Tree(calls, callIdxs, errorCallIdxs, errorMessage, evs)
    }

    ghost predicate Valid()
      reads this
    {
      Fits(Now())
    }

    constructor ()
      ensures Valid() && Now() == EMPTY
    {
      calls, callIdxs, errorCallIdxs, errorMessage, evs := [], [], None, None, [];
    }

    method OnRawEvent(e: Event)
      modifies this
      ensures calls == old(calls) && callIdxs == old(callIdxs) && evs == old(evs) + [e]
      ensures e.ExecutionError? && old(errorCallIdxs).None?
              ==> errorCallIdxs == Some(callIdxs) && errorMessage == Some(e.message)
      ensures !(e.ExecutionError? && old(errorCallIdxs).None?)
              ==> errorCallIdxs == old(errorCallIdxs) && errorMessage == old(errorMessage)
    {
      if e.ExecutionError? && errorCallIdxs.None? {
        errorCallIdxs, errorMessage := Some(callIdxs), Some(e.message);
      }
      evs := evs + [e];
    }

    method OpenFrame(o: Opening)
      requires ValidPath(calls, callIdxs)
      modifies `calls, `callIdxs
      ensures calls == PushAt(old(calls), old(callIdxs), FrameTraced(o, [], None))
      ensures callIdxs == old(callIdxs) + [|CallsAt(old(calls), old(callIdxs))|]
    {
      var idx := |CallsAt(calls, callIdxs)|;
      calls := PushAt(calls, callIdxs, FrameTraced(o, [], None));
      callIdxs := callIdxs + [idx];
    }

    method CloseFrame(vs: Values)
      requires ValidPath(calls, callIdxs)
      modifies `calls, `callIdxs
      ensures old(callIdxs) == [] ==> calls == old(calls) && callIdxs == []
      ensures old(callIdxs) != [] ==>
                && calls == CloseAt(old(calls), old(callIdxs), vs)
                && callIdxs == old(callIdxs)[..|old(callIdxs)| - 1]
    {
      if callIdxs != [] {
        calls := CloseAt(calls, callIdxs, vs);
        callIdxs := callIdxs[..|callIdxs| - 1];
      }
    }

    /** One event of the stream. */
    method Notify(e: Event)
      requires Valid()
      modifies this
      ensures Valid() && Now() == Step(old(Now()), e)
    {
      StepFits(Now(), e);
      OnRawEvent(e);
      match e {
        case Open(o) => OpenFrame(o);
        case Close(vs) => CloseFrame(vs);
        case _ =>
      }
    }

    /** The frames that `pprint_error_trace` prints, one line each: always all of them. */
    method ErrorTrace() returns (lines: Option<seq<Opening>>)
      requires Valid()
      ensures lines.Some? <==> errorCallIdxs.Some?
      ensures lines.Some? ==> lines.value == Along(calls, errorCallIdxs.value)
    {
      if errorCallIdxs.None? {
        return None;
      }
      var path := errorCallIdxs.value;
      var out: seq<Opening> := [];
      for depth := 0 to |path|
        invariant |out| == depth
        invariant forall k :: 0 <= k < depth ==> k < |Along(calls, path)| && out[k] == Along(calls, path)[k]
      {
        AlongFrames(calls, path, depth);
        var frame := FrameAt(calls, path[..depth + 1]);
        if frame.None? {
          return None;
        }
        out := out + [frame.value.open_];
      }
      if path == [] {
        assert Along(calls, path) == [];
      } else {
        AlongFrames(calls, path, 0);
      }
      lines := Some(out);
    }
  }
}
