/** Every instruction keeps the operand stack and the locals in agreement. */
module InstructionSoundness {
  import opened Wrappers
  import opened Bits
  import opened Trace
  import opened Shadow
  import opened Machine
  import opened BitEncoding
  import opened Agreement
  import Smt

  ghost function LogEntry(i: Instr, stack: seq<Val>, c: Option<Constraint>): seq<Logged> {
    var n := |stack|;
    if c.None? || n == 0 then []
    else [Logged(i, stack[if n >= 2 then n - 2 else 0], stack[n - 1], c.value)]
  }

  /** What an instruction must leave behind for the run to go on agreeing. */
  ghost predicate Good(o: Outcome, vs: seq<Val>, pending: bool, entry: seq<Logged>, m: Smt.Model) {
    && o.Done?
    && !o.after.disabled
    && |o.after.stack| == |vs|
    && (if pending then vs != [] && StackAgrees(DropTop(o.after.stack, 1), DropTop(vs, 1), m)
        else StackAgrees(o.after.stack, vs, m))
    && LogAgrees(entry, m)
  }

  ghost predicate GoodInstr(i: Instr, sh: Shadow, tr: State, id: nat, m: Smt.Model)
    requires |sh.stack| == |tr.stack| && id in tr.frames && Runs(i, tr, id)
  {
    var o := Execute(sh, tr.stack, i);
    && o.Done?
    && Good(o, Executed(i, tr, id).stack, LeavesPending(i, sh, tr), LogEntry(i, tr.stack, o.constraint), m)
  }

  lemma {:induction false} PushAgrees(ss: seq<Symbol>, vs: seq<Val>, sym: Symbol, v: Val, m: Smt.Model)
    requires StackAgrees(ss, vs, m)
    ensures StackAgrees(DropTop(ss + [sym], 1), DropTop(vs + [v], 1), m)
    ensures Slot(sym, v, m) ==> StackAgrees(ss + [sym], vs + [v], m)
  {
    assert DropTop(ss + [sym], 1) == ss && DropTop(vs + [v], 1) == vs;
  }

  lemma {:induction false} GoodPush(o: Outcome, ss: seq<Symbol>, vs: seq<Val>, sym: Symbol, v: Val, pending: bool,
                                    entry: seq<Logged>, m: Smt.Model)
    requires o.Done? && !o.after.disabled && o.after.stack == ss + [sym]
    requires StackAgrees(ss, vs, m) && (pending || Slot(sym, v, m)) && LogAgrees(entry, m)
    ensures Good(o, vs + [v], pending, entry, m)
  {
    PushAgrees(ss, vs, sym, v, m);
  }

  lemma {:induction false} BinaryShape(i: Instr, sh: Shadow, tr: State, id: nat,
                                       top: Option<(Symbol, Option<Constraint>)>)
    requires |sh.stack| == |tr.stack| >= 2 && IsBinary(i) && id in tr.frames && Runs(i, tr, id)
    requires var n := |tr.stack|;
             top == Binary(i, sh.stack[n - 2], sh.stack[n - 1], tr.stack[n - 2], tr.stack[n - 1]) && top.Some?
    ensures var n := |tr.stack|;
            && Execute(sh, tr.stack, i) == Done(sh.(stack := sh.stack[..n - 2] + [top.value.0]), top.value.1)
            && Executed(i, tr, id).stack == tr.stack[..n - 2] + [BinaryResult(i, tr.stack[n - 2], tr.stack[n - 1])]
  {
  }

  lemma {:induction false} OneEntry(i: Instr, stack: seq<Val>, c: Option<Constraint>, m: Smt.Model)
    requires |stack| >= 2
    requires c.Some? ==>
               (Smt.Holds(c.value, m) <==> Expected(Logged(i, stack[|stack| - 2], stack[|stack| - 1], c.value)))
    ensures LogAgrees(LogEntry(i, stack, c), m)
  {
  }

  /** The two-operand instructions. */
  lemma {:induction false} BinaryInstrGood(i: Instr, sh: Shadow, tr: State, id: nat, m: Smt.Model)
    requires StackAgrees(sh.stack, tr.stack, m) && AllValid(tr.stack) && !sh.disabled
    requires IsBinary(i) && id in tr.frames && Runs(i, tr, id) && Encodable(i, sh, tr)
    ensures GoodInstr(i, sh, tr, id, m)
  {
    var n := |tr.stack|;
    var l, r, a, b := sh.stack[n - 2], sh.stack[n - 1], tr.stack[n - 2], tr.stack[n - 1];
    assert Slot(l, a, m) && Slot(r, b, m) && ValidValue(a) && ValidValue(b);
    BinaryGood(i, l, r, a, b, m);
    var top := Binary(i, l, r, a, b);
    BinaryShape(i, sh, tr, id, top);
    BinaryOutcome(i, sh, tr, m, l, r, a, b, top.value.0, top.value.1);
  }

  lemma {:induction false} BinaryOutcome(i: Instr, sh: Shadow, tr: State, m: Smt.Model, l: Symbol, r: Symbol, a: Val,
                                         b: Val, sym: Symbol, c: Option<Constraint>)
    requires StackAgrees(sh.stack, tr.stack, m) && !sh.disabled && |tr.stack| >= 2
    requires a == tr.stack[|tr.stack| - 2] && b == tr.stack[|tr.stack| - 1]
    requires l == sh.stack[|sh.stack| - 2] && r == sh.stack[|sh.stack| - 1]
    requires IsBinary(i) && BinaryRuns(i, a, b)
    requires Slot(sym, BinaryResult(i, a, b), m) <==> !FalseOnSymbol(i, l, r, a, b)
    requires c.Some? ==> (Smt.Holds(c.value, m) <==> Expected(Logged(i, a, b, c.value)))
    ensures var n := |tr.stack|;
            Good(Done(sh.(stack := sh.stack[..n - 2] + [sym]), c), tr.stack[..n - 2] + [BinaryResult(i, a, b)],
                 LeavesPending(i, sh, tr), LogEntry(i, tr.stack, c), m)
  {
    var n := |tr.stack|;
    OneEntry(i, tr.stack, c, m);
    GoodPush(Done(sh.(stack := sh.stack[..n - 2] + [sym]), c), sh.stack[..n - 2], tr.stack[..n - 2], sym,
             BinaryResult(i, a, b), LeavesPending(i, sh, tr), LogEntry(i, tr.stack, c), m);
  }

  lemma {:induction false} NotMeans(e: Int, a: Val, m: Smt.Model)
    requires a.Prim? && a.bits == 1 && ValidValue(a) && Smt.Eval(e, m) == a.n
    ensures Smt.Eval(BvNot(e, 1), m) == Flipped(a).n
  {
    BvNotMeans(e, 1, m);
    WordOfValid(a);
    assert Bits.Not(a.n, 1) == 1 - a.n % 2 + 2 * Bits.Not(a.n / 2, 0);
  }

  ghost function NotSymbol(s: Symbol): Symbol {
    if s.Value? then Value(BvNot(s.e, 1)) else s
  }

  lemma {:induction false} NotExecutes(sh: Shadow, stack: seq<Val>)
    requires |sh.stack| == |stack| > 0 && stack[|stack| - 1].Prim? && stack[|stack| - 1].bits == 1
    ensures var n := |stack|;
            Execute(sh, stack, Instr.Not)
            == Done(sh.(stack := sh.stack[..n - 1] + [NotSymbol(sh.stack[n - 1])]), None)
  {
    var n := |stack|;
    assert sh.stack[..n - 1] + [sh.stack[n - 1]] == sh.stack;
  }

  lemma {:induction false} NotExecuted(tr: State, id: nat)
    requires id in tr.frames && Runs(Instr.Not, tr, id)
    ensures Executed(Instr.Not, tr, id).stack == tr.stack[..|tr.stack| - 1] + [Flipped(tr.stack[|tr.stack| - 1])]
  {
  }

  lemma {:induction false} NotGood(sh: Shadow, tr: State, id: nat, m: Smt.Model)
    requires StackAgrees(sh.stack, tr.stack, m) && id in tr.frames && Runs(Instr.Not, tr, id) && !sh.disabled
    requires AllValid(tr.stack)
    ensures GoodInstr(Instr.Not, sh, tr, id, m)
  {
    var n := |tr.stack|;
    var a, s := tr.stack[n - 1], sh.stack[n - 1];
    assert Slot(s, a, m) && ValidValue(a);
    if s.Value? { NotMeans(s.e, a, m); }
    NotExecutes(sh, tr.stack);
    NotExecuted(tr, id);
    GoodPush(Execute(sh, tr.stack, Instr.Not), sh.stack[..n - 1], tr.stack[..n - 1], NotSymbol(s), Flipped(a), false,
             [], m);
  }

  lemma {:induction false} CastEntry(bits: nat, stack: seq<Val>, sym: Symbol, m: Smt.Model)
    requires |stack| > 0 && HasMax(bits) && sym.Value?
    requires Slot(sym, stack[|stack| - 1], m) && stack[|stack| - 1].n < Pow2(bits)
    ensures LogAgrees(LogEntry(Cast(bits), stack, Some(Smt.Le(sym.e, MaxOf(bits)))), m)
  {
    assert Smt.Eval(MaxOf(bits), m) == Pow2(bits) - 1;
  }

  ghost function CastConstraint(bits: nat, sym: Symbol): Option<Constraint>
    requires HasMax(bits)
  {
    if sym.Value? && bits != 256 then Some(Smt.Le(sym.e, MaxOf(bits))) else None
  }

  lemma {:induction false} CastShape(bits: nat, sh: Shadow, tr: State, id: nat)
    requires |sh.stack| == |tr.stack| && id in tr.frames && Runs(Cast(bits), tr, id) && HasMax(bits)
    ensures var n := |tr.stack|;
            && Execute(sh, tr.stack, Cast(bits)) == Done(sh, CastConstraint(bits, sh.stack[n - 1]))
            && Executed(Cast(bits), tr, id).stack == tr.stack[..n - 1] + [Prim(bits, tr.stack[n - 1].n)]
            && !LeavesPending(Cast(bits), sh, tr)
  {
  }

  lemma {:induction false} CastGood(bits: nat, sh: Shadow, tr: State, id: nat, m: Smt.Model)
    requires StackAgrees(sh.stack, tr.stack, m) && id in tr.frames && Runs(Cast(bits), tr, id) && !sh.disabled
    requires HasMax(bits)
    ensures GoodInstr(Cast(bits), sh, tr, id, m)
  {
    CastShape(bits, sh, tr, id);
    CastOutcome(bits, sh, tr.stack, m);
  }

  lemma {:induction false} CastOutcome(bits: nat, sh: Shadow, stack: seq<Val>, m: Smt.Model)
    requires StackAgrees(sh.stack, stack, m) && !sh.disabled && stack != [] && HasMax(bits)
    requires stack[|stack| - 1].Prim? && stack[|stack| - 1].n < Pow2(bits)
    ensures var n := |stack|;
            var c := CastConstraint(bits, sh.stack[n - 1]);
            Good(Done(sh, c), stack[..n - 1] + [Prim(bits, stack[n - 1].n)], false, LogEntry(Cast(bits), stack, c), m)
  {
    var n := |stack|;
    var a, sym := stack[n - 1], sh.stack[n - 1];
    var c := CastConstraint(bits, sym);
    assert Slot(sym, a, m);
    if c.Some? { CastEntry(bits, stack, sym, m); }
    assert sh.stack[..n - 1] + [sym] == sh.stack;
    GoodPush(Done(sh, c), sh.stack[..n - 1], stack[..n - 1], sym, Prim(bits, a.n), false,
             LogEntry(Cast(bits), stack, c), m);
  }

  lemma {:induction false} TopLocal(locals: seq<seq<Symbol>>, frames: map<nat, map<nat, Val>>, ids: seq<nat>,
                                    m: Smt.Model, idx: nat)
    requires FramesAgree(locals, frames, ids, m) && ids != []
    ensures ids[|ids| - 1] in frames
    ensures idx in frames[ids[|ids| - 1]] ==> Slot(LocalAt(locals, idx), frames[ids[|ids| - 1]][idx], m)
  {
    assert FrameAgrees(locals[|ids| - 1], frames[ids[|ids| - 1]], m);
  }

  lemma {:induction false} ReadGood(i: Instr, sh: Shadow, tr: State, id: nat, m: Smt.Model)
    requires StackAgrees(sh.stack, tr.stack, m) && !sh.disabled && id in tr.frames
    requires i.CopyLoc? || i.MoveLoc?
    requires Runs(i, tr, id) && Slot(LocalAt(sh.locals, i.idx), tr.frames[id][i.idx], m)
    ensures GoodInstr(i, sh, tr, id, m)
  {
    var v := tr.frames[id][i.idx];
    assert Executed(i, tr, id).stack == tr.stack + [v];
    GoodPush(Execute(sh, tr.stack, i), sh.stack, tr.stack, LocalAt(sh.locals, i.idx), v, false, [], m);
  }

  lemma {:induction false} GoodQuiet(o: Outcome, ss: seq<Symbol>, vs: seq<Val>, m: Smt.Model)
    requires o.Done? && !o.after.disabled && o.after.stack == ss && StackAgrees(ss, vs, m)
    ensures Good(o, vs, false, [], m)
  {
  }

  lemma {:induction false} LoadGood(i: Instr, sh: Shadow, tr: State, id: nat, m: Smt.Model)
    requires StackAgrees(sh.stack, tr.stack, m) && id in tr.frames && Runs(i, tr, id) && !sh.disabled
    requires i.LdInt? || i.LdFalse? || i.LdTrue?
    ensures GoodInstr(i, sh, tr, id, m)
  {
    var sym := if i.LdInt? then Unknown else Value(if i.LdTrue? then ONE else ZERO);
    var v := if i.LdInt? then i.v else BoolValue(i.LdTrue?);
    var o := Execute(sh, tr.stack, i);
    assert o == Done(sh.(stack := sh.stack + [sym]), None);
    assert Executed(i, tr, id).stack == tr.stack + [v];
    GoodPush(o, sh.stack, tr.stack, sym, v, false, [], m);
  }

  lemma {:induction false} JumpGood(sh: Shadow, tr: State, id: nat, m: Smt.Model)
    requires StackAgrees(sh.stack, tr.stack, m) && id in tr.frames && Runs(Jump, tr, id) && !sh.disabled
    ensures GoodInstr(Jump, sh, tr, id, m)
  {
    assert tr.stack + [] == tr.stack;
    GoodQuiet(Execute(sh, tr.stack, Jump), sh.stack, tr.stack, m);
  }

  ghost predicate Drops(i: Instr) {
    i.Pop? || i.BrTrue? || i.BrFalse?
  }

  lemma {:induction false} DropAgrees(ss: seq<Symbol>, vs: seq<Val>, count: nat, m: Smt.Model)
    requires StackAgrees(ss, vs, m)
    ensures StackAgrees(DropTop(ss, count), DropTop(vs, count), m)
  {
  }

  lemma {:induction false} DropGood(i: Instr, sh: Shadow, tr: State, id: nat, m: Smt.Model)
    requires StackAgrees(sh.stack, tr.stack, m) && id in tr.frames && Runs(i, tr, id) && !sh.disabled
    requires Drops(i) || i.StLoc?
    ensures GoodInstr(i, sh, tr, id, m)
  {
    var ss, vs := DropTop(sh.stack, 1), DropTop(tr.stack, 1);
    assert vs + [] == vs;
    DropAgrees(sh.stack, tr.stack, 1, m);
    GoodQuiet(Execute(sh, tr.stack, i), ss, vs, m);
  }

  lemma {:induction false} PackGood(i: Instr, sh: Shadow, tr: State, id: nat, m: Smt.Model)
    requires StackAgrees(sh.stack, tr.stack, m) && id in tr.frames && Runs(i, tr, id) && !sh.disabled && i.Pack?
    ensures GoodInstr(i, sh, tr, id, m)
  {
    var ss, vs := DropTop(sh.stack, i.count), DropTop(tr.stack, i.count);
    DropAgrees(sh.stack, tr.stack, i.count, m);
    GoodPush(Execute(sh, tr.stack, i), ss, vs, Unknown, i.packed, false, [], m);
  }

  lemma {:induction false} UnknownsAgree(ss: seq<Symbol>, vs: seq<Val>, more: seq<Val>, m: Smt.Model)
    requires StackAgrees(ss, vs, m)
    ensures StackAgrees(ss + Unknowns(|more|), vs + more, m)
  {
  }

  lemma {:induction false} UnpackGood(i: Instr, sh: Shadow, tr: State, id: nat, m: Smt.Model)
    requires StackAgrees(sh.stack, tr.stack, m) && id in tr.frames && Runs(i, tr, id) && !sh.disabled && i.Unpack?
    ensures GoodInstr(i, sh, tr, id, m)
  {
    var ss, vs := DropTop(sh.stack, 1), DropTop(tr.stack, 1);
    DropAgrees(sh.stack, tr.stack, 1, m);
    UnknownsAgree(ss, vs, i.fields, m);
    GoodQuiet(Execute(sh, tr.stack, i), ss + Unknowns(|i.fields|), vs + i.fields, m);
  }

  /** Every instruction, on a stack that agrees throughout. */
  lemma {:induction false} InstrGood(i: Instr, sh: Shadow, tr: State, ids: seq<nat>, m: Smt.Model)
    requires StackAgrees(sh.stack, tr.stack, m) && AllValid(tr.stack) && !sh.disabled
    requires FramesAgree(sh.locals, tr.frames, ids, m) && ids != []
    requires Runs(i, tr, ids[|ids| - 1]) && Encodable(i, sh, tr)
    ensures GoodInstr(i, sh, tr, ids[|ids| - 1], m)
  {
    var id := ids[|ids| - 1];
    if IsBinary(i) {
      BinaryInstrGood(i, sh, tr, id, m);
    } else if i.Not? {
      NotGood(sh, tr, id, m);
    } else if i.Cast? {
      CastGood(i.bits, sh, tr, id, m);
    } else if i.CopyLoc? || i.MoveLoc? {
      TopLocal(sh.locals, tr.frames, ids, m, i.idx);
      ReadGood(i, sh, tr, id, m);
    } else if i.LdInt? || i.LdFalse? || i.LdTrue? {
      LoadGood(i, sh, tr, id, m);
    } else if i.Jump? {
      JumpGood(sh, tr, id, m);
    } else if i.Pack? {
      PackGood(i, sh, tr, id, m);
    } else if i.Unpack? {
      UnpackGood(i, sh, tr, id, m);
    } else {
      DropGood(i, sh, tr, id, m);
    }
  }

  /** Changing the running frame leaves the others alone. */
  lemma {:induction false} TopAgrees(locals: seq<seq<Symbol>>, frames: map<nat, map<nat, Val>>, ids: seq<nat>,
                                     m: Smt.Model,
                  symbols: seq<Symbol>, frame: map<nat, Val>)
    requires FramesAgree(locals, frames, ids, m) && ids != [] && FrameAgrees(symbols, frame, m)
    ensures FramesAgree(SetTop(locals, symbols), frames[ids[|ids| - 1] := frame], ids, m)
  {
    var last := |ids| - 1;
    var frames' := frames[ids[last] := frame];
    assert ids[last] in frames;
    assert frames'.Keys == frames.Keys;
    forall d | 0 <= d < |ids| ensures FrameAgrees(SetTop(locals, symbols)[d], frames'[ids[d]], m) {
      assert d < last ==> ids[d] < ids[last];
      assert FrameAgrees(locals[d], frames[ids[d]], m);
    }
  }

  lemma {:induction false} WideAgrees(top: seq<Symbol>, frame: map<nat, Val>, more: nat, m: Smt.Model)
    requires FrameAgrees(top, frame, m)
    ensures FrameAgrees(top + Unknowns(more), frame, m)
  {
  }

  lemma {:induction false} SlotAgrees(top: seq<Symbol>, frame: map<nat, Val>, m: Smt.Model, idx: nat, sym: Symbol,
                                      v: Val,
                                      frame': map<nat, Val>)
    requires FrameAgrees(top, frame, m) && idx < |top| && Slot(sym, v, m) && ValidValue(v)
    requires frame' == frame[idx := v]
    ensures FrameAgrees(top[idx := sym], frame', m)
  {
  }

  /** Storing a symbol beside its value, in a frame long enough or not. */
  lemma {:induction false} StoreAgrees(locals: seq<seq<Symbol>>, frames: map<nat, map<nat, Val>>, ids: seq<nat>,
                                       m: Smt.Model, idx: nat, sym: Symbol, v: Val, frame: map<nat, Val>)
    requires FramesAgree(locals, frames, ids, m) && ids != [] && Slot(sym, v, m) && ValidValue(v)
    requires frame == frames[ids[|ids| - 1]][idx := v]
    ensures FramesAgree(Store(locals, idx, sym), frames[ids[|ids| - 1] := frame], ids, m)
  {
    var top, was := locals[|ids| - 1], frames[ids[|ids| - 1]];
    assert FrameAgrees(top, was, m);
    var wide := if idx < |top| then top else top + Unknowns(idx + 1 - |top|);
    if idx >= |top| { WideAgrees(top, was, idx + 1 - |top|, m); }
    SlotAgrees(wide, was, m, idx, sym, v, frame);
    TopAgrees(locals, frames, ids, m, wide[idx := sym], frame);
  }

  lemma {:induction false} MoveAgrees(locals: seq<seq<Symbol>>, frames: map<nat, map<nat, Val>>, ids: seq<nat>,
                                      m: Smt.Model, idx: nat)
    requires FramesAgree(locals, frames, ids, m) && ids != []
    ensures FramesAgree(MoveOut(locals, idx), frames[ids[|ids| - 1] := frames[ids[|ids| - 1]] - {idx}], ids, m)
  {
    var top := locals[|ids| - 1];
    assert FrameAgrees(top, frames[ids[|ids| - 1]], m);
    var symbols := if idx < |top| then top[idx := Unknown] else top;
    assert SetTop(locals, symbols) == MoveOut(locals, idx);
    TopAgrees(locals, frames, ids, m, symbols, frames[ids[|ids| - 1]] - {idx});
  }

  lemma {:induction false} OtherLocals(i: Instr, sh: Shadow, tr: State, id: nat)
    requires |sh.stack| == |tr.stack| && id in tr.frames && Runs(i, tr, id)
    requires !i.StLoc? && !i.MoveLoc? && Execute(sh, tr.stack, i).Done?
    ensures Execute(sh, tr.stack, i).after.locals == sh.locals
    ensures Executed(i, tr, id).frames == tr.frames
  {
    assert tr.frames[id := tr.frames[id]] == tr.frames;
  }

  /** What instructions do to the locals. */
  lemma {:induction false} LocalsGood(i: Instr, sh: Shadow, tr: State, ids: seq<nat>, m: Smt.Model)
    requires |sh.stack| == |tr.stack| && AllValid(tr.stack)
    requires i.StLoc? && |tr.stack| > 0 ==> Slot(sh.stack[|tr.stack| - 1], tr.stack[|tr.stack| - 1], m)
    requires FramesAgree(sh.locals, tr.frames, ids, m) && ids != []
    requires Runs(i, tr, ids[|ids| - 1])
    requires Execute(sh, tr.stack, i).Done?
    ensures FramesAgree(Execute(sh, tr.stack, i).after.locals, Executed(i, tr, ids[|ids| - 1]).frames, ids, m)
  {
    var id, n := ids[|ids| - 1], |tr.stack|;
    if i.StLoc? {
      StoreAgrees(sh.locals, tr.frames, ids, m, i.idx, sh.stack[n - 1], tr.stack[n - 1], FrameAfter(i, tr, id));
    } else if i.MoveLoc? {
      MoveAgrees(sh.locals, tr.frames, ids, m, i.idx);
    } else {
      OtherLocals(i, sh, tr, id);
    }
  }

  // ----- where the encodings end

  ghost predicate MoveWidth(bits: nat) {
    bits in {1, 8, 16, 32, 64, 128, 256}
  }

  /** Widths are Move's, and only scalars have symbols. */
  ghost predicate MoveTyped(sh: Shadow, tr: State, i: Instr)
    requires |sh.stack| == |tr.stack|
  {
    && (i.Cast? ==> MoveWidth(i.bits))
    && (forall v :: v in tr.stack && v.Prim? ==> MoveWidth(v.bits))
    && (forall k :: 0 <= k < |sh.stack| && sh.stack[k].Value? ==> tr.stack[k].Prim?)
  }

  /** Whether a two-operand instruction works on 256 bits in a way for which there is no encoding: bit by bit with one
      symbol, or shifting a symbol left by a constant. */
  ghost predicate TooWide(i: Instr, l: Symbol, r: Symbol, a: Val) {
    && a.Prim? && a.bits == 256
    && ((i.Bitwise? && l.Value? != r.Value?) || (i.Shl? && l.Value? && r.Unknown?))
  }

  lemma {:induction false} BinaryUndefinedIff(i: Instr, l: Symbol, r: Symbol, a: Val, b: Val)
    requires IsBinary(i) && BinaryRuns(i, a, b)
    requires (a.Prim? ==> MoveWidth(a.bits)) && (b.Prim? ==> MoveWidth(b.bits))
    requires (l.Value? ==> a.Prim?) && (r.Value? ==> b.Prim?)
    ensures Binary(i, l, r, a, b).None? <==> TooWide(i, l, r, a)
  {
    if a.Prim? { MoveWidths(a.bits); }
  }

  /** Every instruction that runs is followed, save for exactly those. */
  lemma {:induction false} UndefinedIff(sh: Shadow, tr: State, i: Instr, id: nat)
    requires |sh.stack| == |tr.stack| && id in tr.frames && Runs(i, tr, id) && MoveTyped(sh, tr, i)
    ensures var n := |tr.stack|;
            Execute(sh, tr.stack, i).Panic? <==>
              n >= 2 && TooWide(i, sh.stack[n - 2], sh.stack[n - 1], tr.stack[n - 2])
  {
    var n := |tr.stack|;
    if IsBinary(i) {
      assert tr.stack[n - 2] in tr.stack && tr.stack[n - 1] in tr.stack;
      BinaryUndefinedIff(i, sh.stack[n - 2], sh.stack[n - 1], tr.stack[n - 2], tr.stack[n - 1]);
    } else if i.Cast? {
      MoveWidths(i.bits);
    }
  }
}
