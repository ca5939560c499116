/** Agreement of the shadow machine with the trace it follows, and what two-operand instructions push. */
module Agreement {
  import opened Wrappers
  import opened Bits
  import opened Trace
  import opened Shadow
  import opened Machine
  import opened BitEncoding
  import Smt

  // ----- agreement

  ghost predicate Slot(sym: Symbol, v: Val, m: Smt.Model) {
    sym.Value? ==> v.Prim? && Smt.Eval(sym.e, m) == v.n
  }

  ghost predicate StackAgrees(ss: seq<Symbol>, vs: seq<Val>, m: Smt.Model) {
    |ss| == |vs| && forall k :: 0 <= k < |ss| ==> Slot(ss[k], vs[k], m)
  }

  ghost predicate AllValid(vs: seq<Val>) {
    forall k :: 0 <= k < |vs| ==> ValidValue(vs[k])
  }

  ghost predicate Increasing(ids: seq<nat>) {
    forall i, j :: 0 <= i < j < |ids| ==> ids[i] < ids[j]
  }

  /** One frame: every initialised local that the shadow machine has a symbol for. */
  ghost predicate FrameAgrees(symbols: seq<Symbol>, frame: map<nat, Val>, m: Smt.Model) {
    forall i :: i in frame ==> ValidValue(frame[i]) && (i < |symbols| ==> Slot(symbols[i], frame[i], m))
  }

  /** The shadow frames are the live frames, outermost first; `ids` are their trace indices. */
  ghost predicate FramesAgree(locals: seq<seq<Symbol>>, frames: map<nat, map<nat, Val>>, ids: seq<nat>, m: Smt.Model) {
    && |locals| == |ids|
    && Increasing(ids)
    && frames.Keys == (set k | k in ids)
    && forall d :: 0 <= d < |ids| ==> FrameAgrees(locals[d], frames[ids[d]], m)
  }

  /** A constraint together with the operands its instruction saw. */
  datatype Logged = Logged(instr: Instr, l: Val, r: Val, c: Constraint)

  /** The truth value a logged constraint ought to have on the trace's own inputs. */
  ghost predicate Expected(e: Logged) {
    match e.instr
    case Compare(op) => op == NotEqual ==> e.l != e.r
    case Shl => e.l.Prim? && e.r.Prim? && Up(e.l.n, e.r.n) >= Pow2(e.l.bits)
    case _ => true
  }

  ghost predicate LogAgrees(log: seq<Logged>, m: Smt.Model) {
    forall k :: 0 <= k < |log| ==> (Smt.Holds(log[k].c, m) <==> Expected(log[k]))
  }

  /** A run so far. `ids` names the live frames; `pending` says that the top symbol comes from a comparison
      that was false in the trace, and so stands for "as in the trace" and not for its result. */
  datatype Config = Config(sh: Shadow, tr: State, ids: seq<nat>, pending: bool, log: seq<Logged>)

  const START := Config(FRESH, EMPTY, [], false, [])

  ghost predicate Agrees(c: Config, m: Smt.Model) {
    && !c.sh.disabled
    && |c.sh.stack| == |c.tr.stack|
    && AllValid(c.tr.stack)
    && (if c.pending then
          c.sh.stack != [] && StackAgrees(DropTop(c.sh.stack, 1), DropTop(c.tr.stack, 1), m)
        else StackAgrees(c.sh.stack, c.tr.stack, m))
    && FramesAgree(c.sh.locals, c.tr.frames, c.ids, m)
    && LogAgrees(c.log, m)
  }

  // ----- single instructions

  lemma {:induction false} WordOfValid(v: Val)
    requires v.Prim? && ValidValue(v)
    ensures Word(v.n, v.bits) == v.n
  {
    LowOfSmall(v.n, v.bits);
    LowIsMod(v.n, v.bits);
  }

  lemma {:induction false} ResolvedMeans(l: Symbol, r: Symbol, a: Val, b: Val, m: Smt.Model)
    requires Slot(l, a, m) && Slot(r, b, m)
    requires l.Value? || r.Value? ==> a.Prim? && b.Prim?
    ensures !Resolved(l, r, a, b).Unsupported?
    ensures Resolved(l, r, a, b).NoSymbol? <==> l.Unknown? && r.Unknown?
    ensures Resolved(l, r, a, b).Pair? ==>
              && Smt.Eval(Resolved(l, r, a, b).l, m) == a.n
              && Smt.Eval(Resolved(l, r, a, b).r, m) == b.n
  {
  }

  lemma {:induction false} BitwiseMeans(op: BitOp, x: Int, a: nat, mask: nat, bits: nat, m: Smt.Model)
    requires bits < WORD_BITS && a < Pow2(bits) && mask < Pow2(bits) && Smt.Eval(x, m) == a
    ensures Smt.Eval(BitExpr(op, x, mask, bits), m) == BitResult(op, a, mask) == BitResult(op, mask, a)
  {
    LowOfSmall(a, bits); LowIsMod(a, bits);
    LowOfSmall(mask, bits); LowIsMod(mask, bits);
    match op
    case Conj => BvAndMeans(x, mask, bits, m); AndCommutes(a, mask);
    case Disj => BvOrMeans(x, mask, bits, m); OrCommutes(a, mask);
    case Exclusive => BvXorMeans(x, mask, bits, m); XorCommutes(a, mask);
  }

  lemma {:induction false} BitResultBound(op: BitOp, a: nat, b: nat, bits: nat)
    requires a < Pow2(bits) && b < Pow2(bits)
    ensures BitResult(op, a, b) < Pow2(bits)
  {
    match op
    case Conj => AndBound(a, b);
    case Disj => OrBound(a, b, bits);
    case Exclusive => XorAsTwoParts(a, b, bits);
  }

  /** Every value an instruction pushes is a valid one. */
  lemma {:induction false} BinaryValid(i: Instr, a: Val, b: Val)
    requires IsBinary(i) && BinaryRuns(i, a, b) && ValidValue(a) && ValidValue(b)
    ensures ValidValue(BinaryResult(i, a, b))
  {
    match i
    case Arith(_) =>
    case Bitwise(op) => BitResultBound(op, a.n, b.n, a.bits);
    case Shl => LowBound(Up(a.n, b.n), a.bits);
    case Shr => HighShrinks(a.n, b.n);
    case Compare(_) => assert Pow2(1) == 2;
  }

  lemma {:induction false} PushedValid(i: Instr, s: State, id: nat)
    requires id in s.frames && Runs(i, s, id) && AllValid(s.stack)
    requires forall k :: k in s.frames[id] ==> ValidValue(s.frames[id][k])
    ensures AllValid(Pushes(i, s, id))
  {
    var n := |s.stack|;
    if IsBinary(i) {
      BinaryValid(i, s.stack[n - 2], s.stack[n - 1]);
    } else {
      assert Pow2(1) == 2;
    }
  }

  /** The comparison symbol means "as in the trace"; the reported constraint is that, save for `Neq`. */
  lemma {:induction false} ComparisonMeans(op: CmpOp, l: Int, r: Int, a: nat, b: nat, m: Smt.Model)
    requires Smt.Eval(l, m) == a && Smt.Eval(r, m) == b
    ensures Smt.Holds(SameOutcome(op, l, r, Truth(op, a, b)), m)
    ensures Smt.Holds(Reported(op, l, r, Truth(op, a, b)), m) <==> (op == NotEqual ==> a != b)
    ensures Slot(Flag(SameOutcome(op, l, r, Truth(op, a, b))), BoolValue(Truth(op, a, b)), m) <==> Truth(op, a, b)
  {
    var c := SameOutcome(op, l, r, Truth(op, a, b));
    assert Smt.Holds(Atom(op, l, r), m) <==> Truth(op, a, b) by {
      assert Smt.Holds(Smt.Eq(l, r), m) <==> a == b;
    }
    assert Smt.Holds(c, m);
    assert Smt.Eval(Smt.Ite(c, ONE, ZERO), m) == 1;
  }

  /** The order of the operands decides as the comparison itself does. */
  lemma {:induction false} DecidedIsTruth(op: CmpOp, a: nat, b: nat)
    ensures Decided(op, Order(a, b)) <==> Truth(op, a, b)
  {
  }

  lemma {:induction false} ShlMeans(x: Int, a: nat, amount: nat, bits: nat, m: Smt.Model)
    requires Smt.Eval(x, m) == a && amount < WORD_BITS && bits < WORD_BITS && HasMax(bits)
    ensures var shl := Smt.Mul(x, TwoPow(amount));
            && Smt.Eval(ModTwoPow(shl, bits), m) == Low(Up(a, amount), bits)
            && (Smt.Holds(Smt.Gt(shl, MaxOf(bits)), m) <==> Up(a, amount) >= Pow2(bits))
  {
    var shl := Smt.Mul(x, TwoPow(amount));
    assert Smt.Eval(shl, m) == Up(a, amount) by {
      assert Smt.Eval(TwoPow(amount), m) == Pow2(amount);
      UpIsMul(a, amount);
    }
    ConstDivisor(shl, Pow2(bits), m);
    LowIsMod(Up(a, amount), bits);
  }

  /** The comparison leaves a symbol that is not its result: one operand is symbolic and it was false. */
  ghost predicate FalseOnSymbol(i: Instr, l: Symbol, r: Symbol, a: Val, b: Val) {
    i.Compare? && (l.Value? || r.Value?) && a.Prim? && b.Prim? && !Truth(i.cop, a.n, b.n)
  }

  /** The encodings have no 256-bit form: with a single symbolic operand they need a narrower width. And a
      shift needs a width that `max_u_bits` covers, as every width of Move's is (`MoveWidths`). */
  ghost predicate Narrow(i: Instr, l: Symbol, r: Symbol, a: Val) {
    a.Prim? ==>
      && (a.bits >= WORD_BITS && i.Bitwise? ==> l.Value? == r.Value?)
      && (a.bits >= WORD_BITS && i.Shl? ==> l.Unknown? || r.Value?)
      && (i.Shl? ==> HasMax(a.bits))
  }

  /** What a two-operand instruction must yield on agreeing operands. */
  ghost predicate GoodBinary(i: Instr, l: Symbol, r: Symbol, a: Val, b: Val, m: Smt.Model)
    requires IsBinary(i) && BinaryRuns(i, a, b)
  {
    var o := Binary(i, l, r, a, b);
    && o.Some?
    && (Slot(o.value.0, BinaryResult(i, a, b), m) <==> !FalseOnSymbol(i, l, r, a, b))
    && (o.value.1.Some? ==> (Smt.Holds(o.value.1.value, m) <==> Expected(Logged(i, a, b, o.value.1.value))))
  }

  lemma {:induction false} ArithGood(op: ArithOp, l: Symbol, r: Symbol, a: Val, b: Val, m: Smt.Model)
    requires BinaryRuns(Arith(op), a, b) && Slot(l, a, m) && Slot(r, b, m)
    ensures GoodBinary(Arith(op), l, r, a, b, m)
  {
    ResolvedMeans(l, r, a, b, m);
  }

  lemma {:induction false} BitwiseGood(op: BitOp, l: Symbol, r: Symbol, a: Val, b: Val, m: Smt.Model)
    requires BinaryRuns(Bitwise(op), a, b) && Slot(l, a, m) && Slot(r, b, m)
    requires ValidValue(a) && ValidValue(b) && Narrow(Bitwise(op), l, r, a)
    ensures GoodBinary(Bitwise(op), l, r, a, b, m)
  {
    if l.Value? && r.Unknown? {
      BitwiseMeans(op, l.e, a.n, b.n, a.bits, m);
    } else if l.Unknown? && r.Value? {
      BitwiseMeans(op, r.e, b.n, a.n, a.bits, m);
    }
  }

  lemma {:induction false} ShlGood(l: Symbol, r: Symbol, a: Val, b: Val, m: Smt.Model)
    requires BinaryRuns(Shl, a, b) && Slot(l, a, m) && Slot(r, b, m)
    requires ValidValue(a) && Narrow(Shl, l, r, a)
    ensures GoodBinary(Shl, l, r, a, b, m)
  {
    if l.Value? && r.Unknown? { ShlMeans(l.e, a.n, b.n, a.bits, m); }
  }

  lemma {:induction false} ShrGood(l: Symbol, r: Symbol, a: Val, b: Val, m: Smt.Model)
    requires BinaryRuns(Shr, a, b) && Slot(l, a, m) && Slot(r, b, m)
    requires ValidValue(a)
    ensures GoodBinary(Shr, l, r, a, b, m)
  {
    assert a.bits <= 256;
    if l.Value? && r.Unknown? {
      ConstDivisor(l.e, Pow2(b.n), m);
      HighIsDiv(a.n, b.n);
    }
  }

  lemma {:induction false} CompareGood(op: CmpOp, l: Symbol, r: Symbol, a: Val, b: Val, m: Smt.Model)
    requires BinaryRuns(Compare(op), a, b) && Slot(l, a, m) && Slot(r, b, m)
    ensures GoodBinary(Compare(op), l, r, a, b, m)
  {
    ResolvedMeans(l, r, a, b, m);
    var p := Resolved(l, r, a, b);
    if p.Pair? {
      DecidedIsTruth(op, a.n, b.n);
      ComparisonMeans(op, p.l, p.r, a.n, b.n, m);
    }
  }

  lemma {:induction false} BinaryGood(i: Instr, l: Symbol, r: Symbol, a: Val, b: Val, m: Smt.Model)
    requires IsBinary(i) && BinaryRuns(i, a, b) && Slot(l, a, m) && Slot(r, b, m)
    requires ValidValue(a) && ValidValue(b) && Narrow(i, l, r, a)
    ensures GoodBinary(i, l, r, a, b, m)
  {
    match i
    case Arith(op) => ArithGood(op, l, r, a, b, m);
    case Bitwise(op) => BitwiseGood(op, l, r, a, b, m);
    case Shl => ShlGood(l, r, a, b, m);
    case Shr => ShrGood(l, r, a, b, m);
    case Compare(op) => CompareGood(op, l, r, a, b, m);
  }

  ghost predicate LeavesPending(i: Instr, sh: Shadow, tr: State)
    requires |sh.stack| == |tr.stack|
  {
    var n := |tr.stack|;
    n >= 2 && FalseOnSymbol(i, sh.stack[n - 2], sh.stack[n - 1], tr.stack[n - 2], tr.stack[n - 1])
  }

  ghost predicate Encodable(i: Instr, sh: Shadow, tr: State)
    requires |sh.stack| == |tr.stack|
  {
    var n := |tr.stack|;
    && (n >= 2 ==> Narrow(i, sh.stack[n - 2], sh.stack[n - 1], tr.stack[n - 2]))
    && (i.Cast? ==> HasMax(i.bits))
  }

  lemma {:induction false} MoveWidths(bits: nat)
    requires bits in {1, 8, 16, 32, 64, 128, 256}
    ensures HasMax(bits)
  {
  }
}
