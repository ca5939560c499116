/** The symbolic operand stack and locals that run beside a concrete trace
    (crates/movy-replay/src/tracer/concolic.rs). */
module Shadow {
  import opened Wrappers
  import opened Bits
  import opened Trace
  import opened BitEncoding
  import Smt

  type Int = Smt.IntExpr
  type Constraint = Smt.BoolExpr

  datatype Symbol = Value(e: Int) | Unknown

  datatype Shadow = Shadow(stack: seq<Symbol>, locals: seq<seq<Symbol>>, args: seq<map<nat, Int>>, disabled: bool)

  const FRESH := Shadow([], [], [], false)

  /** What one callback leaves behind; `Panic` where the source unwraps nothing or meets a value it does
      not support. */
  datatype Outcome = Panic | Done(after: Shadow, constraint: Option<Constraint>)

  const ZERO: Int := Smt.Const(0)
  const ONE: Int := Smt.Const(1)

  // ----- operands

  /** `resolve_value` */
  function Resolve(v: Trace.Value): Option<Int> {
    if Snapshot(v).Prim? then Some(Smt.Const(Snapshot(v).n)) else None
  }

  datatype Operands = NoSymbol | Pair(l: Int, r: Int) | Unsupported

  /** The symbolic operands of a binary operation: with one symbol, the other side is the constant seen in
      the trace. */
  function Resolved(l: Symbol, r: Symbol, trueL: Trace.Value, trueR: Trace.Value): Operands {
    match (l, r)
    case (Value(a), Value(b)) => Pair(a, b)
    case (Value(a), Unknown) => if Resolve(trueR).Some? then Pair(a, Resolve(trueR).value) else Unsupported
    case (Unknown, Value(b)) => if Resolve(trueL).Some? then Pair(Resolve(trueL).value, b) else Unsupported
    case (Unknown, Unknown) => NoSymbol
  }

  function ArithExpr(op: ArithOp, l: Int, r: Int): Int {
    match op
    case Plus => Smt.Add(l, r)
    case Minus => Smt.Sub(l, r)
    case Times => Smt.Mul(l, r)
    case Quotient => Smt.Div(l, r)
    case Remainder => Smt.Rem(l, r)
  }

  ghost function BitExpr(op: BitOp, x: Int, mask: nat, bits: nat): Int
    requires bits < WORD_BITS
  {
    match op
    case Conj => BvAnd(x, mask, bits)
    case Disj => BvOr(x, mask, bits)
    case Exclusive => BvXor(x, mask, bits)
  }

  // ----- comparisons

  datatype Ordering = Lower | Same | Higher

  /** `compare_value` */
  function Order(l: nat, r: nat): Ordering {
    if l < r then Lower else if l == r then Same else Higher
  }

  /** Whether the comparison was true in the trace, by the order of its operands. */
  predicate Decided(op: CmpOp, o: Ordering) {
    match op
    case Equal => o == Same
    case NotEqual => o != Same
    case Less => o == Lower
    case LessEqual => o != Higher
    case Greater => o == Higher
    case GreaterEqual => o != Lower
  }

  function Atom(op: CmpOp, l: Int, r: Int): Constraint {
    match op
    case Equal => Smt.Eq(l, r)
    case NotEqual => Smt.Not(Smt.Eq(l, r))
    case Less => Smt.Lt(l, r)
    case LessEqual => Smt.Le(l, r)
    case Greater => Smt.Gt(l, r)
    case GreaterEqual => Smt.Ge(l, r)
  }

  /** "The comparison comes out as it did in the trace". */
  function SameOutcome(op: CmpOp, l: Int, r: Int, outcome: bool): Constraint {
    if outcome then Atom(op, l, r)
    else if op == NotEqual then Smt.Eq(l, r)
    else Smt.Not(Atom(op, l, r))
  }

  /** The constraint reported for a comparison. It is `SameOutcome`, except that `Neq` on equal operands
      reports the negation of it. */
  function Reported(op: CmpOp, l: Int, r: Int, outcome: bool): Constraint {
    if op == NotEqual && !outcome then Smt.Not(Smt.Eq(l, r)) else SameOutcome(op, l, r, outcome)
  }

  function Flag(c: Constraint): Symbol {
    Value(Smt.Ite(c, ONE, ZERO))
  }

  /** The widths `max_u_bits` covers: up to 64, then 128 and 256; it does not expect any other. */
  predicate HasMax(bits: nat) {
    bits <= 64 || (bits <= 256 && bits % 64 == 0 && bits != 192)
  }

  /** `max_u_bits` */
  function MaxOf(bits: nat): Int
    requires HasMax(bits)
  {
    Smt.Const(Pow2(bits) - 1)
  }

  // ----- locals

  function Unknowns(n: nat): (s: seq<Symbol>)
    ensures |s| == n && forall i :: 0 <= i < n ==> s[i] == Unknown
  {
    seq(n, _ => Unknown)
  }

  function LocalAt(locals: seq<seq<Symbol>>, idx: nat): Symbol {
    if locals != [] && idx < |locals[|locals| - 1]| then locals[|locals| - 1][idx] else Unknown
  }

  function SetTop(locals: seq<seq<Symbol>>, top: seq<Symbol>): seq<seq<Symbol>>
    requires locals != []
  {
    locals[|locals| - 1 := top]
  }

  function Store(locals: seq<seq<Symbol>>, idx: nat, v: Symbol): seq<seq<Symbol>> {
    if locals == [] then locals
    else
      var top := locals[|locals| - 1];
      var wide := if idx < |top| then top else top + Unknowns(idx + 1 - |top|);
      SetTop(locals, wide[idx := v])
  }

  function MoveOut(locals: seq<seq<Symbol>>, idx: nat): seq<seq<Symbol>> {
    if locals != [] && idx < |locals[|locals| - 1]|
    then SetTop(locals, locals[|locals| - 1][idx := Unknown])
    else locals
  }

  // ----- the callbacks

  /** The symbol that a two-operand instruction pushes and the constraint it reports, given the symbols
      and the concrete values of its operands; nothing when the source panics. */
  ghost function Binary(i: Instr, l: Symbol, r: Symbol, seenL: Trace.Value, seenR: Trace.Value)
      : Option<(Symbol, Option<Constraint>)>
    requires IsBinary(i)
  {
    var a, b := Snapshot(seenL), Snapshot(seenR);
    match i
    case Arith(op) =>
      (match Resolved(l, r, a, b)
       case Unsupported => None
       case NoSymbol => Some((Unknown, None))
       case Pair(x, y) => Some((Value(ArithExpr(op, x, y)), None)))
    case Bitwise(op) =>
      if !a.Prim? || !b.Prim? then None
      else if l.Value? == r.Value? then Some((Unknown, None))
      else if a.bits >= WORD_BITS then None
      else Some((Value(if l.Value? then BitExpr(op, l.e, b.n, a.bits) else BitExpr(op, r.e, a.n, a.bits)), None))
    case Shl =>
      if !a.Prim? || !b.Prim? || !HasMax(a.bits) then None
      else if l.Unknown? || r.Value? then Some((Unknown, None))
      else if a.bits >= WORD_BITS || b.n >= WORD_BITS then None
      else
        var shl := Smt.Mul(l.e, TwoPow(b.n));
        Some((Value(ModTwoPow(shl, a.bits)), Some(Smt.Gt(shl, MaxOf(a.bits)))))
    case Shr =>
      if !b.Prim? then None
      else if l.Unknown? || r.Value? then Some((Unknown, None))
      else if b.n >= WORD_BITS then None
      else Some((Value(Smt.Div(l.e, TwoPow(b.n))), None))
    case Compare(op) =>
      (match Resolved(l, r, a, b)
       case Unsupported => None
       case NoSymbol => Some((Unknown, None))
       case Pair(x, y) =>
         if !a.Prim? || !b.Prim? || a.bits != b.bits then None
         else
           var outcome := Decided(op, Order(a.n, b.n));
           Some((Flag(SameOutcome(op, x, y, outcome)), Some(Reported(op, x, y, outcome)))))
  }

  /** `on_before_instruction_inner` once the heights are known to match. */
  ghost function Execute(sh: Shadow, stack: seq<Trace.Value>, i: Instr): Outcome
    requires |sh.stack| == |stack|
  {
    var s := sh.stack;
    var n := |s|;
    if IsBinary(i) then
      if n < 2 then Panic
      else
        var top := Binary(i, s[n - 2], s[n - 1], stack[n - 2], stack[n - 1]);
        if top.None? then Panic else Done(sh.(stack := s[..n - 2] + [top.value.0]), top.value.1)
    else
      match i
      case Pop => Done(sh.(stack := DropTop(s, 1)), None)
      case BrTrue => Done(sh.(stack := DropTop(s, 1)), None)
      case BrFalse => Done(sh.(stack := DropTop(s, 1)), None)
      case Jump => Done(sh, None)
      case LdInt(_) => Done(sh.(stack := s + [Unknown]), None)
      case LdFalse => Done(sh.(stack := s + [Value(ZERO)]), None)
      case LdTrue => Done(sh.(stack := s + [Value(ONE)]), None)
      case Cast(bits) =>
        if n > 0 && s[n - 1].Value? && bits != 256 then
          if !HasMax(bits) then Panic
          else Done(sh, Some(Smt.Le(s[n - 1].e, MaxOf(bits))))
        else Done(sh, None)
      case Not =>
        if n > 0 && s[n - 1].Value? then
          var a := Snapshot(stack[n - 1]);
          if !a.Prim? || a.bits >= WORD_BITS then Panic
          else Done(sh.(stack := s[..n - 1] + [Value(BvNot(s[n - 1].e, a.bits))]), None)
        else Done(sh, None)
      case CopyLoc(idx) => Done(sh.(stack := s + [LocalAt(sh.locals, idx)]), None)
      case MoveLoc(idx) =>
        Done(sh.(stack := s + [LocalAt(sh.locals, idx)], locals := MoveOut(sh.locals, idx)), None)
      case StLoc(idx) =>
        if n == 0 then Done(sh, None)
        else Done(sh.(stack := s[..n - 1], locals := Store(sh.locals, idx, s[n - 1])), None)
      case Pack(count, _) => Done(sh.(stack := DropTop(s, count) + [Unknown]), None)
      case Unpack(fields) => Done(sh.(stack := DropTop(s, 1) + Unknowns(|fields|)), None)
      case UnpackBlind => Done(sh.(stack := DropTop(s, 1), disabled := true), None)
      case BorrowLoc(idx) => Done(sh.(stack := s + [LocalAt(sh.locals, idx)]), None)
      case Discard(count) => Done(sh.(stack := DropTop(s, count)), None)
  }

  /** `on_before_instruction_inner` */
  ghost function Before(sh: Shadow, stack: seq<Trace.Value>, i: Instr): Outcome {
    if |sh.stack| != |stack| || sh.disabled then Done(sh.(disabled := true), None)
    else Execute(sh, stack, i)
  }

  /** `resolve_arg` */
  function ParameterSymbol(command: nat, i: nat, ty: LocalType): Symbol {
    if ty.Scalar? then Value(Smt.Var(command, i)) else Unknown
  }

  function EntryLocals(command: nat, f: Frame): (r: seq<Symbol>)
    ensures |f.parameters| <= |r|
  {
    var declared := seq(|f.localTypes|, i requires 0 <= i < |f.localTypes| =>
                                          ParameterSymbol(command, i, f.localTypes[i]));
    if |declared| < |f.parameters| then declared + Unknowns(|f.parameters| - |declared|) else declared
  }

  function Arguments(locals: seq<Symbol>, count: nat): map<nat, Int>
    requires count <= |locals|
  {
    map i | 0 <= i < count && locals[i].Value? :: locals[i].e
  }

  /** `on_open_frame_inner` */
  function Open(sh: Shadow, f: Frame): Shadow {
    if sh.locals == [] then
      var locals := EntryLocals(|sh.args|, f);
      sh.(args := sh.args + [Arguments(locals, |f.parameters|)], locals := [locals])
    else
      var taken := if |f.parameters| <= |sh.stack| then |f.parameters| else |sh.stack|;
      var keep := |sh.stack| - taken;
      var passed := sh.stack[keep..];
      var locals := if |f.localTypes| > taken then passed + Unknowns(|f.localTypes| - taken) else passed;
      sh.(stack := sh.stack[..keep] + (if f.native then Unknowns(f.returnCount) else []),
          locals := sh.locals + [locals])
  }

  /** `on_raw_event_inner`: whether the event is to be followed, and the state after the check. */
  function Raw(sh: Shadow, tr: State, e: Event): (bool, Shadow) {
    if sh.disabled then (false, sh)
    else if e.Instruction? && |sh.stack| != |tr.stack| then (false, sh.(disabled := true))
    else if e.ErrorEffect? then (true, sh.(stack := DropTop(sh.stack, 1)))
    else (true, sh)
  }

  /** What the tracer does with one event before the concrete state takes it in. */
  ghost function Follow(sh: Shadow, tr: State, e: Event): Outcome {
    var (go, sh1) := Raw(sh, tr, e);
    if !go then Done(sh1, None)
    else
      match e
      case MoveCallStart => Done(sh1.(locals := [], stack := []), None)
      case OpenFrame(f) => Done(Open(sh1, f), None)
      case CloseFrame => Done(sh1.(locals := DropTop(sh1.locals, 1)), None)
      case Instruction(i) => Before(sh1, tr.stack, i)
      case _ => Done(sh1, None)
  }

  /** `ConcolicState` */
  class ConcolicState {
    var stack: seq<Symbol>
    var locals: seq<seq<Symbol>>
    var args: seq<map<nat, Int>>
    var disable: bool

    ghost function Now(): Shadow
      reads this
    {
      Shadow(stack, locals, args, disable)
    }

    constructor ()
      ensures Now() == FRESH
    {
      stack, locals, args, disable := [], [], [], false;
    }

    method OnMoveCall()
      modifies this
      ensures Now() == old(Now()).(locals := [], stack := [])
    {
      locals, stack := [], [];
    }

    method OnRawEvent(tr: State, e: Event) returns (go: bool)
      modifies this
      ensures (go, Now()) == Raw(old(Now()), tr, e)
    {
      if disable {
        return false;
      }
      match e
      case Instruction(_) =>
        if |stack| != |tr.stack| {
          disable := true;
          return false;
        }
        go := true;
      case ErrorEffect =>
        stack := DropTop(stack, 1);
        go := true;
      case _ =>
        go := true;
    }

    method OnOpenFrame(f: Frame)
      modifies this
      ensures Now() == Open(old(Now()), f)
    {
      if locals == [] {
        var entry := EntryLocals(|args|, f);
        args := args + [Arguments(entry, |f.parameters|)];
        locals := [entry];
      } else {
        var taken := if |f.parameters| <= |stack| then |f.parameters| else |stack|;
        var keep := |stack| - taken;
        var passed := stack[keep..];
        stack := stack[..keep];
        if |f.localTypes| > |passed| {
          passed := passed + Unknowns(|f.localTypes| - |passed|);
        }
        locals := locals + [passed];
        if f.native {
          ghost var base := stack;
          for k := 0 to f.returnCount
            invariant stack == base + Unknowns(k)
            invariant locals == old(locals) + [passed] && args == old(args) && disable == old(disable)
          {
            stack := stack + [Unknown];
          }
        } else {
          assert stack == stack + [];
        }
      }
    }

    method OnCloseFrame()
      modifies this
      ensures Now() == old(Now()).(locals := DropTop(old(locals), 1))
    {
      locals := DropTop(locals, 1);
    }

    method OnBeforeInstruction(operands: seq<Trace.Value>, i: Instr) returns (c: Option<Constraint>)
      requires Before(Now(), operands, i).Done?
      modifies this
      ensures Done(Now(), c) == Before(old(Now()), operands, i)
    {
      if |stack| != |operands| || disable {
        disable := true;
        return None;
      }
      var top := seq(|operands|, k requires 0 <= k < |operands| => Snapshot(operands[k]));
      c := None;
      var n := |stack|;
      match i
      case Pop => stack := DropTop(stack, 1);
      case BrTrue => stack := DropTop(stack, 1);
      case BrFalse => stack := DropTop(stack, 1);
      case Jump =>
      case LdInt(_) => stack := stack + [Unknown];
      case LdFalse => stack := stack + [Value(ZERO)];
      case LdTrue => stack := stack + [Value(ONE)];
      case Cast(bits) =>
        if n > 0 && stack[n - 1].Value? && bits != 256 {
          c := Some(Smt.Le(stack[n - 1].e, MaxOf(bits)));
        }
      case Arith(op) =>
        var l, r := stack[n - 2], stack[n - 1];
        stack := stack[..n - 2];
        var operands := Resolved(l, r, top[n - 2], top[n - 1]);
        stack := stack + [if operands.Pair? then Value(ArithExpr(op, operands.l, operands.r)) else Unknown];
      case Bitwise(op) =>
        var l, r := stack[n - 2], stack[n - 1];
        stack := stack[..n - 2];
        var bits := top[n - 2].bits;
        if l.Value? && r.Unknown? {
          var e := BuildBitExpr(op, l.e, top[n - 1].n, bits);
          stack := stack + [Value(e)];
        } else if l.Unknown? && r.Value? {
          var e := BuildBitExpr(op, r.e, top[n - 2].n, bits);
          stack := stack + [Value(e)];
        } else {
          stack := stack + [Unknown];
        }
      case Shl =>
        var l, r := stack[n - 2], stack[n - 1];
        stack := stack[..n - 2];
        if l.Value? && r.Unknown? {
          var shl := Smt.Mul(l.e, TwoPow(top[n - 1].n));
          stack := stack + [Value(ModTwoPow(shl, top[n - 2].bits))];
          c := Some(Smt.Gt(shl, MaxOf(top[n - 2].bits)));
        } else {
          stack := stack + [Unknown];
        }
      case Shr =>
        var l, r := stack[n - 2], stack[n - 1];
        stack := stack[..n - 2];
        if l.Value? && r.Unknown? {
          stack := stack + [Value(Smt.Div(l.e, TwoPow(top[n - 1].n)))];
        } else {
          stack := stack + [Unknown];
        }
      case Not =>
        if n > 0 {
          var v := stack[n - 1];
          stack := stack[..n - 1];
          stack := stack + [if v.Value? then Value(BvNot(v.e, top[n - 1].bits)) else Unknown];
          assert v.Unknown? ==> stack == old(stack);
        }
      case CopyLoc(idx) =>
        stack := stack + [LocalAt(locals, idx)];
      case MoveLoc(idx) =>
        stack := stack + [LocalAt(locals, idx)];
        locals := MoveOut(locals, idx);
      case StLoc(idx) =>
        if n > 0 {
          var v := stack[n - 1];
          stack := stack[..n - 1];
          locals := Store(locals, idx, v);
        }
      case Compare(op) =>
        var l, r := stack[n - 2], stack[n - 1];
        stack := stack[..n - 2];
        var operands := Resolved(l, r, top[n - 2], top[n - 1]);
        if operands.Pair? {
          var outcome := Decided(op, Order(top[n - 2].n, top[n - 1].n));
          stack := stack + [Flag(SameOutcome(op, operands.l, operands.r, outcome))];
          c := Some(Reported(op, operands.l, operands.r, outcome));
        } else {
          stack := stack + [Unknown];
        }
      case Pack(count, _) =>
        stack := DropTop(stack, count) + [Unknown];
      case Unpack(fields) =>
        stack := DropTop(stack, 1) + Unknowns(|fields|);
      case UnpackBlind =>
        stack := DropTop(stack, 1);
        disable := true;
      case BorrowLoc(idx) =>
        stack := stack + [LocalAt(locals, idx)];
      case Discard(count) =>
        stack := DropTop(stack, count);
    }
  }

  method BuildBitExpr(op: BitOp, x: Int, mask: nat, bits: nat) returns (e: Int)
    requires bits < WORD_BITS
    ensures e == BitExpr(op, x, mask, bits)
  {
    match op
    case Conj => e := IntBvAndConst(x, mask, bits);
    case Disj => e := IntBvOrConst(x, mask, bits);
    case Exclusive => e := IntBvXorConst(x, mask, bits);
  }

  /** One event, as the tracer is notified of it: the shadow machine is consulted first and the concrete
      state takes the event in afterwards (crates/movy-replay/src/tracer/mod.rs and fuzz.rs). */
  method Notify(concolic: ConcolicState, trace: TraceState, e: Event) returns (c: Option<Constraint>)
    requires Follow(concolic.Now(), trace.Now(), e).Done? && Apply(trace.Now(), e).Some?
    modifies concolic, trace
    ensures Done(concolic.Now(), c) == Follow(old(concolic.Now()), old(trace.Now()), e)
    ensures Some(trace.Now()) == Apply(old(trace.Now()), e)
  {
    c := None;
    var before := State(trace.operandStack, trace.callStack, trace.loadedState);
    var go := concolic.OnRawEvent(before, e);
    if go {
      match e
      case MoveCallStart => concolic.OnMoveCall();
      case OpenFrame(f) => concolic.OnOpenFrame(f);
      case CloseFrame => concolic.OnCloseFrame();
      case Instruction(i) => c := concolic.OnBeforeInstruction(trace.operandStack, i);
      case _ =>
    }
    trace.ApplyEvent(e);
  }
}
