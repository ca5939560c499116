/** Runs of the Move machine as the tracer sees them: what each instruction does to the operand stack and
    the locals when it does not abort, and the events it emits. */
module Machine {
  import opened Wrappers
  import opened Bits
  import opened Trace
  import opened Shadow

  type Val = Trace.Value

  function ArithResult(op: ArithOp, l: nat, r: nat): int
    requires op.Quotient? || op.Remainder? ==> r > 0
  {
    match op
    case Plus => l + r
    case Minus => l - r
    case Times => l * r
    case Quotient => l / r
    case Remainder => l % r
  }

  function BitResult(op: BitOp, l: nat, r: nat): nat {
    match op
    case Conj => And(l, r)
    case Disj => Or(l, r)
    case Exclusive => Xor(l, r)
  }

  ghost predicate SameWidth(a: Val, b: Val) {
    a.Prim? && b.Prim? && a.bits == b.bits
  }

  /** A two-operand instruction is well typed on these operands and does not abort. */
  ghost predicate BinaryRuns(i: Instr, a: Val, b: Val)
    requires IsBinary(i)
  {
    match i
    case Arith(op) =>
      && SameWidth(a, b)
      && (op.Quotient? || op.Remainder? ==> b.n > 0)
      && 0 <= ArithResult(op, a.n, b.n) < Pow2(a.bits)
    case Bitwise(_) => SameWidth(a, b)
    case Shl => a.Prim? && b.Prim? && b.n < a.bits
    case Shr => a.Prim? && b.Prim? && b.n < a.bits
    case Compare(op) => SameWidth(a, b) || ((op.Equal? || op.NotEqual?) && a.Compound? && b.Compound?)
  }

  function BoolValue(b: bool): Val {
    Prim(1, if b then 1 else 0)
  }

  ghost function BinaryResult(i: Instr, a: Val, b: Val): Val
    requires IsBinary(i) && BinaryRuns(i, a, b)
  {
    match i
    case Arith(op) => Prim(a.bits, ArithResult(op, a.n, b.n))
    case Bitwise(op) => Prim(a.bits, BitResult(op, a.n, b.n))
    case Shl => Prim(a.bits, Low(Up(a.n, b.n), a.bits))
    case Shr => Prim(a.bits, High(a.n, b.n))
    case Compare(op) => BoolValue(if a.Prim? then Truth(op, a.n, b.n) else if op.Equal? then a == b else a != b)
  }

  /** The instruction is well typed in this state, does not abort and does not work on references; `id` names the
      running frame. */
  ghost predicate Runs(i: Instr, s: State, id: nat)
    requires id in s.frames
  {
    var n := |s.stack|;
    if IsBinary(i) then n >= 2 && BinaryRuns(i, s.stack[n - 2], s.stack[n - 1])
    else
      match i
      case Pop => n >= 1
      case BrTrue => n >= 1
      case BrFalse => n >= 1
      case Jump => true
      case LdInt(v) => ValidValue(v)
      case LdFalse => true
      case LdTrue => true
      case Cast(bits) => n >= 1 && s.stack[n - 1].Prim? && 1 <= bits <= 256 && s.stack[n - 1].n < Pow2(bits)
      case Not => n >= 1 && s.stack[n - 1].Prim? && s.stack[n - 1].bits == 1
      case CopyLoc(idx) => idx in s.frames[id]
      case MoveLoc(idx) => idx in s.frames[id]
      case StLoc(_) => n >= 1
      case Pack(count, packed) => n >= count && packed.Compound?
      case Unpack(fields) => n >= 1 && forall k :: 0 <= k < |fields| ==> ValidValue(fields[k])
      case UnpackBlind => false
      case BorrowLoc(_) => false
      case Discard(_) => false
  }

  function Popped(i: Instr): nat {
    if IsBinary(i) then 2
    else
      match i
      case Pop => 1
      case BrTrue => 1
      case BrFalse => 1
      case Cast(_) => 1
      case Not => 1
      case StLoc(_) => 1
      case Pack(count, _) => count
      case Unpack(_) => 1
      case _ => 0
  }

  /** The negation of a boolean. */
  function Flipped(a: Val): Val
    requires a.Prim?
  {
    Prim(1, if a.n % 2 == 0 then 1 else 0)
  }

  ghost function Pushes(i: Instr, s: State, id: nat): seq<Val>
    requires id in s.frames && Runs(i, s, id)
  {
    var n := |s.stack|;
    if IsBinary(i) then [BinaryResult(i, s.stack[n - 2], s.stack[n - 1])]
    else
      match i
      case LdInt(v) => [v]
      case LdFalse => [BoolValue(false)]
      case LdTrue => [BoolValue(true)]
      case Cast(bits) => [Prim(bits, s.stack[n - 1].n)]
      case Not => [Flipped(s.stack[n - 1])]
      case CopyLoc(idx) => [s.frames[id][idx]]
      case MoveLoc(idx) => [s.frames[id][idx]]
      case Pack(_, packed) => [packed]
      case Unpack(fields) => fields
      case _ => []
  }

  function Pops(n: nat): (es: seq<Event>)
    ensures |es| == n
  {
    seq(n, _ => PopEffect)
  }

  function PushAll(vs: seq<Val>): (es: seq<Event>)
    ensures |es| == |vs|
  {
    seq(|vs|, k requires 0 <= k < |vs| => PushEffect(vs[k]))
  }

  /** What an instruction does to the locals of its frame. */
  ghost function LocalEffects(i: Instr, s: State, id: nat): seq<Event>
    requires id in s.frames && Runs(i, s, id)
  {
    match i
    case CopyLoc(idx) => [ReadEffect(id, idx, false)]
    case MoveLoc(idx) => [ReadEffect(id, idx, true)]
    case StLoc(idx) => [WriteEffect(id, idx, s.stack[|s.stack| - 1])]
    case _ => []
  }

  /** The effects an instruction emits, after its own event. */
  ghost function Effects(i: Instr, s: State, id: nat): seq<Event>
    requires id in s.frames && Runs(i, s, id)
  {
    Pops(Popped(i)) + LocalEffects(i, s, id) + PushAll(Pushes(i, s, id))
  }

  ghost function FrameAfter(i: Instr, s: State, id: nat): map<nat, Val>
    requires id in s.frames && Runs(i, s, id)
  {
    match i
    case MoveLoc(idx) => s.frames[id] - {idx}
    case StLoc(idx) => var l: map<nat, Val> := s.frames[id][idx := s.stack[|s.stack| - 1]]; l
    case _ => s.frames[id]
  }

  /** The state after the instruction. */
  ghost function Executed(i: Instr, s: State, id: nat): State
    requires id in s.frames && Runs(i, s, id)
  {
    s.(stack := DropTop(s.stack, Popped(i)) + Pushes(i, s, id), frames := s.frames[id := FrameAfter(i, s, id)])
  }

  // ----- taking in a list of effects

  ghost function ApplyAll(s: State, es: seq<Event>): Option<State>
    decreases |es|
  {
    if es == [] then Some(s)
    else
      var s1 := Apply(s, es[0]);
      if s1.None? then None else ApplyAll(s1.value, es[1..])
  }

  lemma {:induction false} ApplyAllConcat(s: State, a: seq<Event>, b: seq<Event>)
    ensures ApplyAll(s, a + b) == (if ApplyAll(s, a).None? then None else ApplyAll(ApplyAll(s, a).value, b))
    decreases |a|
  {
    if a == [] {
      assert [] + b == b;
    } else {
      assert (a + b)[1..] == a[1..] + b;
      var s1 := Apply(s, a[0]);
      if s1.Some? { ApplyAllConcat(s1.value, a[1..], b); }
    }
  }

  lemma {:induction false} ApplyPops(s: State, n: nat)
    requires n <= |s.stack|
    ensures ApplyAll(s, Pops(n)) == Some(s.(stack := DropTop(s.stack, n)))
    decreases n
  {
    if n > 0 {
      assert Pops(n)[1..] == Pops(n - 1);
      var s1 := s.(stack := DropTop(s.stack, 1));
      ApplyPops(s1, n - 1);
      assert DropTop(s1.stack, n - 1) == DropTop(s.stack, n);
    } else {
      assert DropTop(s.stack, 0) == s.stack;
    }
  }

  lemma {:induction false} ApplyPushes(s: State, vs: seq<Val>)
    ensures ApplyAll(s, PushAll(vs)) == Some(s.(stack := s.stack + vs))
    decreases |vs|
  {
    if vs != [] {
      assert PushAll(vs)[1..] == PushAll(vs[1..]);
      var s1 := s.(stack := s.stack + [vs[0]]);
      ApplyPushes(s1, vs[1..]);
      assert s.stack + [vs[0]] + vs[1..] == s.stack + vs;
    } else {
      assert s.stack + [] == s.stack;
    }
  }

  lemma {:induction false} ApplyLocals(i: Instr, s: State, id: nat, s1: State)
    requires id in s.frames && Runs(i, s, id) && s1.frames == s.frames
    ensures ApplyAll(s1, LocalEffects(i, s, id)) == Some(s1.(frames := s.frames[id := FrameAfter(i, s, id)]))
  {
    var q := LocalEffects(i, s, id);
    assert q != [] ==> q[1..] == [];
    assert s.frames[id := s.frames[id]] == s.frames;
  }

  /** The emitted effects, applied one by one, amount to executing the instruction. */
  lemma {:induction false} EffectsExecute(i: Instr, s: State, id: nat)
    requires id in s.frames && Runs(i, s, id)
    ensures ApplyAll(s, Effects(i, s, id)) == Some(Executed(i, s, id))
  {
    var p, q, r := Pops(Popped(i)), LocalEffects(i, s, id), PushAll(Pushes(i, s, id));
    ApplyAllConcat(s, p + q, r);
    ApplyAllConcat(s, p, q);
    PopsFit(i, s, id);
    ApplyPops(s, Popped(i));
    var s1 := s.(stack := DropTop(s.stack, Popped(i)));
    ApplyLocals(i, s, id, s1);
    ApplyPushes(s1.(frames := s.frames[id := FrameAfter(i, s, id)]), Pushes(i, s, id));
  }

  lemma {:induction false} PopsFit(i: Instr, s: State, id: nat)
    requires id in s.frames && Runs(i, s, id)
    ensures Popped(i) <= |s.stack|
  {
  }
}
