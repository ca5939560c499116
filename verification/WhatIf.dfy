/** What the symbols and the reported constraints mean under inputs other than the trace's own: along the path of the
    trace, the values that other inputs would have given
    (crates/movy-replay/src/tracer/concolic.rs). */
module WhatIf {
  import opened Wrappers
  import opened Bits
  import opened Trace
  import opened Shadow
  import opened Machine
  import opened BitEncoding
  import opened Agreement
  import opened InstructionSoundness
  import opened ShadowSoundness
  import Smt

  // ----- values along the path

  /** The value of a slot under other inputs, where it is followed; otherwise it is taken to be as in the trace. */
  datatype Guess = Followed(n: int) | AsInTrace

  /** Operand stack and locals under other inputs, the number of outermost calls so far, and for each condition that the
      trace imposes whether it is met. */
  datatype Path = Path(stack: seq<Guess>, locals: seq<seq<Guess>>, calls: nat, met: seq<bool>)

  const SETOFF := Path([], [], 0, [])

  function Worth(g: Guess, v: Val): int {
    if g.Followed? then g.n else if v.Prim? then v.n else 0
  }

  function Width(v: Val): nat {
    if v.Prim? then v.bits else 0
  }

  function IntResult(op: ArithOp, x: int, y: int, m: Smt.Model): int {
    match op
    case Plus => x + y
    case Minus => x - y
    case Times => x * y
    case Quotient => if y == 0 then m.divZero(x) else x / y
    case Remainder => if y == 0 then m.remZero(x) else if y > 0 then x % y else -(x % y)
  }

  ghost predicate Scalars(a: Val, b: Val) {
    a.Prim? && b.Prim?
  }

  /** The result of a two-operand instruction, and whether the condition it imposes is met, if it imposes one. The
      operands of the trace are a and b. */
  ghost function GuessBinary(i: Instr, g: Guess, h: Guess, a: Val, b: Val, m: Smt.Model): (Guess, Option<bool>)
    requires IsBinary(i)
  {
    if g.AsInTrace? && h.AsInTrace? then (AsInTrace, None)
    else
      match i
      case Arith(op) => (Followed(IntResult(op, Worth(g, a), Worth(h, b), m)), None)
      case Bitwise(op) =>
        if g.Followed? && h.Followed? then (AsInTrace, None)
        else (Followed(BitResult(op, Word(Worth(g, a), Width(a)), Word(Worth(h, b), Width(a)))), None)
      case Shl =>
        if h.Followed? || !b.Prim? then (AsInTrace, None)
        else (Followed(g.n * Pow2(b.n) % Pow2(Width(a))), Some(g.n * Pow2(b.n) >= Pow2(Width(a))))
      case Shr => if h.Followed? || !b.Prim? then (AsInTrace, None) else (Followed(g.n / Pow2(b.n)), None)
      case Compare(op) =>
        var outcome := Truth(op, Worth(AsInTrace, a), Worth(AsInTrace, b));
        var same := Truth(op, Worth(g, a), Worth(h, b)) == outcome;
        (Followed(if same then 1 else 0), Some(if op == NotEqual && !outcome then !same else same))
  }

  // ----- symbols mean guesses

  ghost predicate Means(sym: Symbol, g: Guess, m: Smt.Model) {
    if sym.Value? then g == Followed(Smt.Eval(sym.e, m)) else g == AsInTrace
  }

  ghost predicate AllMean(ss: seq<Symbol>, gs: seq<Guess>, m: Smt.Model) {
    |ss| == |gs| && forall k :: 0 <= k < |ss| ==> Means(ss[k], gs[k], m)
  }

  ghost predicate CondMeans(c: Option<Constraint>, met: Option<bool>, m: Smt.Model) {
    if c.Some? then met == Some(Smt.Holds(c.value, m)) else met.None?
  }

  lemma {:induction false} AtomUnder(op: CmpOp, l: Int, r: Int, m: Smt.Model)
    ensures Smt.Holds(Atom(op, l, r), m) <==> Truth(op, Smt.Eval(l, m), Smt.Eval(r, m))
  {
    match op
    case NotEqual => assert Smt.Holds(Smt.Eq(l, r), m) <==> Smt.Eval(l, m) == Smt.Eval(r, m);
    case _ =>
  }

  lemma {:induction false} SameOutcomeUnder(op: CmpOp, l: Int, r: Int, outcome: bool, m: Smt.Model)
    ensures Smt.Holds(SameOutcome(op, l, r, outcome), m)
       <==> (Truth(op, Smt.Eval(l, m), Smt.Eval(r, m)) <==> outcome)
  {
    AtomUnder(op, l, r, m);
    if !outcome {
      var c := if op == NotEqual then Smt.Eq(l, r) else Atom(op, l, r);
      assert Smt.Holds(Smt.Not(c), m) <==> !Smt.Holds(c, m);
    }
  }

  lemma {:induction false} FlagUnder(c: Constraint, m: Smt.Model)
    ensures Smt.Eval(Flag(c).e, m) == if Smt.Holds(c, m) then 1 else 0
  {
    assert Smt.Eval(ONE, m) == 1 && Smt.Eval(ZERO, m) == 0;
  }

  /** A comparison reports a constraint exactly if an operand is a symbol, and under every model that constraint holds
      exactly if the comparison comes out as in the trace; for `Neq` on equal operands, exactly if it does not. */
  lemma {:induction false} ComparisonUnder(op: CmpOp, l: Int, r: Int, outcome: bool, m: Smt.Model)
    ensures Smt.Holds(SameOutcome(op, l, r, outcome), m)
       <==> (Truth(op, Smt.Eval(l, m), Smt.Eval(r, m)) <==> outcome)
    ensures Smt.Holds(Reported(op, l, r, outcome), m)
       <==> if op == NotEqual && !outcome then Truth(op, Smt.Eval(l, m), Smt.Eval(r, m))
            else Truth(op, Smt.Eval(l, m), Smt.Eval(r, m)) == outcome
    ensures Smt.Eval(Flag(SameOutcome(op, l, r, outcome)).e, m)
         == if Truth(op, Smt.Eval(l, m), Smt.Eval(r, m)) == outcome then 1 else 0
  {
    SameOutcomeUnder(op, l, r, outcome, m);
    FlagUnder(SameOutcome(op, l, r, outcome), m);
    if op == NotEqual && !outcome { AtomUnder(op, l, r, m); }
  }

  lemma {:induction false} ResolvedUnder(l: Symbol, r: Symbol, g: Guess, h: Guess, a: Val, b: Val, m: Smt.Model)
    requires Means(l, g, m) && Means(r, h, m) && Scalars(a, b) && (l.Value? || r.Value?)
    ensures var p := Resolved(l, r, a, b);
            p.Pair? && Smt.Eval(p.l, m) == Worth(g, a) && Smt.Eval(p.r, m) == Worth(h, b)
  {
  }

  ghost predicate GoodGuess(i: Instr, l: Symbol, r: Symbol, g: Guess, h: Guess, a: Val, b: Val, m: Smt.Model)
    requires IsBinary(i)
  {
    var o, w := Binary(i, l, r, a, b), GuessBinary(i, g, h, a, b, m);
    o.Some? ==> Means(o.value.0, w.0, m) && CondMeans(o.value.1, w.1, m)
  }

  lemma {:induction false} ArithUnder(op: ArithOp, l: Symbol, r: Symbol, g: Guess, h: Guess, a: Val, b: Val,
                                      m: Smt.Model)
    requires Means(l, g, m) && Means(r, h, m) && Scalars(a, b)
    ensures GoodGuess(Arith(op), l, r, g, h, a, b, m)
  {
    if l.Value? || r.Value? { ResolvedUnder(l, r, g, h, a, b, m); }
  }

  lemma {:induction false} BitExprUnder(op: BitOp, x: Int, mask: nat, bits: nat, m: Smt.Model)
    requires bits < WORD_BITS
    ensures Smt.Eval(BitExpr(op, x, mask, bits), m) == BitResult(op, Word(Smt.Eval(x, m), bits), Word(mask, bits))
    ensures Smt.Eval(BitExpr(op, x, mask, bits), m) == BitResult(op, Word(mask, bits), Word(Smt.Eval(x, m), bits))
  {
    var xw, mw := Word(Smt.Eval(x, m), bits), Word(mask, bits);
    match op
    case Conj => BvAndMeans(x, mask, bits, m); AndCommutes(xw, mw);
    case Disj => BvOrMeans(x, mask, bits, m); OrCommutes(xw, mw);
    case Exclusive => BvXorMeans(x, mask, bits, m); XorCommutes(xw, mw);
  }

  lemma {:induction false} BitwiseUnder(op: BitOp, l: Symbol, r: Symbol, g: Guess, h: Guess, a: Val, b: Val,
                                        m: Smt.Model)
    requires Means(l, g, m) && Means(r, h, m) && Scalars(a, b)
    ensures GoodGuess(Bitwise(op), l, r, g, h, a, b, m)
  {
    if a.bits < WORD_BITS {
      if l.Value? && r.Unknown? {
        BitExprUnder(op, l.e, b.n, a.bits, m);
      } else if l.Unknown? && r.Value? {
        BitExprUnder(op, r.e, a.n, a.bits, m);
      }
    }
  }

  lemma {:induction false} ShlUnder(l: Symbol, r: Symbol, g: Guess, h: Guess, a: Val, b: Val, m: Smt.Model)
    requires Means(l, g, m) && Means(r, h, m) && Scalars(a, b)
    ensures GoodGuess(Shl, l, r, g, h, a, b, m)
  {
    if l.Value? && r.Unknown? && b.n < WORD_BITS && a.bits < WORD_BITS && HasMax(a.bits) {
      var shl := Smt.Mul(l.e, TwoPow(b.n));
      assert Smt.Eval(TwoPow(b.n), m) == Pow2(b.n) && Smt.Eval(MaxOf(a.bits), m) == Pow2(a.bits) - 1;
      assert Smt.Eval(shl, m) == g.n * Pow2(b.n);
      ConstDivisor(shl, Pow2(a.bits), m);
    }
  }

  lemma {:induction false} ShrUnder(l: Symbol, r: Symbol, g: Guess, h: Guess, a: Val, b: Val, m: Smt.Model)
    requires Means(l, g, m) && Means(r, h, m) && Scalars(a, b)
    ensures GoodGuess(Shr, l, r, g, h, a, b, m)
  {
    if l.Value? && r.Unknown? && b.n < WORD_BITS { ConstDivisor(l.e, Pow2(b.n), m); }
  }

  lemma {:induction false} CompareUnder(op: CmpOp, l: Symbol, r: Symbol, g: Guess, h: Guess, a: Val, b: Val,
                                        m: Smt.Model)
    requires Means(l, g, m) && Means(r, h, m) && (l.Value? || r.Value? ==> Scalars(a, b))
    ensures GoodGuess(Compare(op), l, r, g, h, a, b, m)
  {
    if l.Value? || r.Value? {
      ResolvedUnder(l, r, g, h, a, b, m);
      var p := Resolved(l, r, a, b);
      DecidedIsTruth(op, a.n, b.n);
      ComparisonUnder(op, p.l, p.r, Truth(op, a.n, b.n), m);
    }
  }

  /** The symbol a two-operand instruction pushes means the result under every model, and its constraint whether the
      condition is met. */
  lemma {:induction false} BinaryUnder(i: Instr, l: Symbol, r: Symbol, g: Guess, h: Guess, a: Val, b: Val, m: Smt.Model)
    requires IsBinary(i) && BinaryRuns(i, a, b) && Means(l, g, m) && Means(r, h, m)
    requires l.Value? || r.Value? ==> Scalars(a, b)
    ensures GoodGuess(i, l, r, g, h, a, b, m)
  {
    match i
    case Arith(op) => ArithUnder(op, l, r, g, h, a, b, m);
    case Bitwise(op) => BitwiseUnder(op, l, r, g, h, a, b, m);
    case Shl => ShlUnder(l, r, g, h, a, b, m);
    case Shr => ShrUnder(l, r, g, h, a, b, m);
    case Compare(op) => CompareUnder(op, l, r, g, h, a, b, m);
  }

  // ----- one instruction

  function Unfollowed(n: nat): (gs: seq<Guess>)
    ensures |gs| == n && forall i :: 0 <= i < n ==> gs[i] == AsInTrace
  {
    seq(n, _ => AsInTrace)
  }

  function GuessAt(locals: seq<seq<Guess>>, idx: nat): Guess {
    if locals != [] && idx < |locals[|locals| - 1]| then locals[|locals| - 1][idx] else AsInTrace
  }

  /** The innermost locals with one of them set, as many as it takes. */
  function GuessSet(locals: seq<seq<Guess>>, idx: nat, g: Guess): seq<seq<Guess>> {
    if locals == [] then locals
    else
      var top := locals[|locals| - 1];
      locals[..|locals| - 1] + [(top + Unfollowed(if idx < |top| then 0 else idx + 1 - |top|))[idx := g]]
  }

  ghost function GuessInstr(w: Path, vs: seq<Val>, i: Instr, m: Smt.Model): (Path, Option<bool>)
  {
    var s, n := w.stack, |vs|;
    if |s| != n then (w, None)
    else if IsBinary(i) then
      if n < 2 then (w, None)
      else
        var (g, met) := GuessBinary(i, s[n - 2], s[n - 1], vs[n - 2], vs[n - 1], m);
        (w.(stack := s[..n - 2] + [g]), met)
    else
      match i
      case Pop => (w.(stack := DropTop(s, 1)), None)
      case BrTrue => (w.(stack := DropTop(s, 1)), None)
      case BrFalse => (w.(stack := DropTop(s, 1)), None)
      case Jump => (w, None)
      case LdInt(_) => (w.(stack := s + [AsInTrace]), None)
      case LdFalse => (w.(stack := s + [Followed(0)]), None)
      case LdTrue => (w.(stack := s + [Followed(1)]), None)
      case Cast(bits) =>
        (w, if n > 0 && s[n - 1].Followed? && bits < 256 then Some(s[n - 1].n < Pow2(bits)) else None)
      case Not =>
        if n == 0 || s[n - 1].AsInTrace? then (w, None)
        else
          var width := Pow2(Width(vs[n - 1]));
          (w.(stack := s[..n - 1] + [Followed(width - 1 - s[n - 1].n % width)]), None)
      case CopyLoc(idx) => (w.(stack := s + [GuessAt(w.locals, idx)]), None)
      case BorrowLoc(idx) => (w.(stack := s + [GuessAt(w.locals, idx)]), None)
      case MoveLoc(idx) =>
        var locals := if GuessAt(w.locals, idx).Followed? then GuessSet(w.locals, idx, AsInTrace) else w.locals;
        (w.(stack := s + [GuessAt(w.locals, idx)], locals := locals), None)
      case StLoc(idx) =>
        if n == 0 then (w, None)
        else (w.(stack := s[..n - 1], locals := GuessSet(w.locals, idx, s[n - 1])), None)
      case Pack(count, _) => (w.(stack := DropTop(s, count) + [AsInTrace]), None)
      case Unpack(fields) => (w.(stack := DropTop(s, 1) + Unfollowed(|fields|)), None)
      case UnpackBlind => (w.(stack := DropTop(s, 1)), None)
      case Discard(count) => (w.(stack := DropTop(s, count)), None)
  }

  ghost predicate LocalsMean(ls: seq<seq<Symbol>>, gs: seq<seq<Guess>>, m: Smt.Model) {
    |ls| == |gs| && forall d :: 0 <= d < |ls| ==> AllMean(ls[d], gs[d], m)
  }

  lemma {:induction false} DropMeans(ss: seq<Symbol>, gs: seq<Guess>, n: nat, m: Smt.Model)
    requires AllMean(ss, gs, m)
    ensures AllMean(DropTop(ss, n), DropTop(gs, n), m)
  {
  }

  lemma {:induction false} PushMeans(ss: seq<Symbol>, gs: seq<Guess>, sym: Symbol, g: Guess, m: Smt.Model)
    requires AllMean(ss, gs, m) && Means(sym, g, m)
    ensures AllMean(ss + [sym], gs + [g], m)
  {
  }

  lemma {:induction false} UnknownsMean(ss: seq<Symbol>, gs: seq<Guess>, n: nat, m: Smt.Model)
    requires AllMean(ss, gs, m)
    ensures AllMean(ss + Unknowns(n), gs + Unfollowed(n), m)
  {
  }

  lemma {:induction false} LocalMeans(ls: seq<seq<Symbol>>, gs: seq<seq<Guess>>, idx: nat, m: Smt.Model)
    requires LocalsMean(ls, gs, m)
    ensures Means(LocalAt(ls, idx), GuessAt(gs, idx), m)
  {
    if ls != [] { assert AllMean(ls[|ls| - 1], gs[|gs| - 1], m); }
  }

  lemma {:induction false} SetMeans(ss: seq<Symbol>, gs: seq<Guess>, idx: nat, sym: Symbol, g: Guess, m: Smt.Model)
    requires AllMean(ss, gs, m) && Means(sym, g, m) && idx < |ss|
    ensures AllMean(ss[idx := sym], gs[idx := g], m)
  {
  }

  lemma {:induction false} TopMeans(ls: seq<seq<Symbol>>, gs: seq<seq<Guess>>, ss: seq<Symbol>, top: seq<Guess>,
                                    m: Smt.Model)
    requires LocalsMean(ls, gs, m) && ls != [] && AllMean(ss, top, m)
    ensures LocalsMean(SetTop(ls, ss), gs[..|gs| - 1] + [top], m)
  {
    var ls', gs' := SetTop(ls, ss), gs[..|gs| - 1] + [top];
    forall d | 0 <= d < |ls'| ensures AllMean(ls'[d], gs'[d], m) {
      if d < |ls| - 1 { assert AllMean(ls[d], gs[d], m); }
    }
  }

  lemma {:induction false} StoreMeans(ls: seq<seq<Symbol>>, gs: seq<seq<Guess>>, idx: nat, sym: Symbol, g: Guess,
                                      m: Smt.Model)
    requires LocalsMean(ls, gs, m) && Means(sym, g, m)
    ensures LocalsMean(Store(ls, idx, sym), GuessSet(gs, idx, g), m)
  {
    if ls != [] {
      var top, gtop := ls[|ls| - 1], gs[|gs| - 1];
      assert AllMean(top, gtop, m);
      var more := if idx < |top| then 0 else idx + 1 - |top|;
      UnknownsMean(top, gtop, more, m);
      SetMeans(top + Unknowns(more), gtop + Unfollowed(more), idx, sym, g, m);
      assert more == 0 ==> top + Unknowns(0) == top;
      TopMeans(ls, gs, (top + Unknowns(more))[idx := sym], (gtop + Unfollowed(more))[idx := g], m);
    }
  }

  lemma {:induction false} MoveOutMeans(ls: seq<seq<Symbol>>, gs: seq<seq<Guess>>, idx: nat, m: Smt.Model)
    requires LocalsMean(ls, gs, m)
    ensures LocalsMean(MoveOut(ls, idx), if GuessAt(gs, idx).Followed? then GuessSet(gs, idx, AsInTrace) else gs, m)
  {
    if ls != [] && idx < |ls[|ls| - 1]| {
      var top, gtop := ls[|ls| - 1], gs[|gs| - 1];
      assert AllMean(top, gtop, m);
      SetMeans(top, gtop, idx, Unknown, AsInTrace, m);
      TopMeans(ls, gs, top[idx := Unknown], gtop[idx := AsInTrace], m);
      assert gtop + Unfollowed(0) == gtop;
      if gtop[idx].AsInTrace? {
        assert gtop[idx := AsInTrace] == gtop;
        assert gs[..|gs| - 1] + [gtop] == gs;
      }
    }
  }

  ghost predicate Follows(sh: Shadow, w: Path, m: Smt.Model) {
    AllMean(sh.stack, w.stack, m) && LocalsMean(sh.locals, w.locals, m)
  }

  /** The operands that an instruction computes with are scalars where a symbol is involved. */
  ghost predicate Computable(sh: Shadow, vs: seq<Val>, i: Instr)
    requires |sh.stack| == |vs|
  {
    var n := |vs|;
    && (IsBinary(i) ==>
          && n >= 2 && BinaryRuns(i, vs[n - 2], vs[n - 1])
          && (sh.stack[n - 2].Value? || sh.stack[n - 1].Value? ==> Scalars(vs[n - 2], vs[n - 1])))
    && (i.Not? && n > 0 && sh.stack[n - 1].Value? ==> vs[n - 1].Prim?)
  }

  ghost predicate InstrFollows(sh: Shadow, vs: seq<Val>, i: Instr, w: Path, m: Smt.Model)
    requires |sh.stack| == |vs|
  {
    var o, g := Execute(sh, vs, i), GuessInstr(w, vs, i, m);
    o.Done? ==>
      && Follows(o.after, g.0, m) && CondMeans(o.constraint, g.1, m)
      && (o.after.disabled <==> sh.disabled || i.UnpackBlind?)
  }

  lemma {:induction false} BinaryFollows(sh: Shadow, vs: seq<Val>, i: Instr, w: Path, m: Smt.Model)
    requires |sh.stack| == |vs| && Follows(sh, w, m) && IsBinary(i) && Computable(sh, vs, i)
    ensures InstrFollows(sh, vs, i, w, m)
  {
    var n := |vs|;
    var l, r, g, h, a, b := sh.stack[n - 2], sh.stack[n - 1], w.stack[n - 2], w.stack[n - 1], vs[n - 2], vs[n - 1];
    assert Means(l, g, m) && Means(r, h, m);
    BinaryUnder(i, l, r, g, h, a, b, m);
    var top, res := Binary(i, l, r, a, b), GuessBinary(i, g, h, a, b, m);
    if top.Some? {
      assert AllMean(sh.stack[..n - 2], w.stack[..n - 2], m);
      PushMeans(sh.stack[..n - 2], w.stack[..n - 2], top.value.0, res.0, m);
    }
  }

  lemma {:induction false} NotFollows(sh: Shadow, vs: seq<Val>, w: Path, m: Smt.Model)
    requires |sh.stack| == |vs| && Follows(sh, w, m) && Computable(sh, vs, Instr.Not)
    ensures InstrFollows(sh, vs, Instr.Not, w, m)
  {
    var n := |vs|;
    if n > 0 {
      assert Means(sh.stack[n - 1], w.stack[n - 1], m);
      if sh.stack[n - 1].Value? && vs[n - 1].bits < WORD_BITS {
        var e, bits := sh.stack[n - 1].e, vs[n - 1].bits;
        BvNotMeans(e, bits, m);
        NotIsSubtraction(Word(Smt.Eval(e, m), bits), bits);
        assert AllMean(sh.stack[..n - 1], w.stack[..n - 1], m);
        PushMeans(sh.stack[..n - 1], w.stack[..n - 1], Value(BvNot(e, bits)),
                  Followed(Pow2(bits) - 1 - Smt.Eval(e, m) % Pow2(bits)), m);
      }
    }
  }

  lemma {:induction false} CastFollows(bits: nat, sh: Shadow, vs: seq<Val>, w: Path, m: Smt.Model)
    requires |sh.stack| == |vs| && Follows(sh, w, m)
    ensures InstrFollows(sh, vs, Cast(bits), w, m)
  {
    var n := |vs|;
    if n > 0 && sh.stack[n - 1].Value? && bits != 256 && HasMax(bits) {
      assert Means(sh.stack[n - 1], w.stack[n - 1], m);
      assert Smt.Eval(MaxOf(bits), m) == Pow2(bits) - 1;
    } else if n > 0 {
      assert Means(sh.stack[n - 1], w.stack[n - 1], m);
    }
  }

  lemma {:induction false} StoreFollows(idx: nat, sh: Shadow, vs: seq<Val>, w: Path, m: Smt.Model)
    requires |sh.stack| == |vs| && Follows(sh, w, m)
    ensures InstrFollows(sh, vs, StLoc(idx), w, m)
  {
    var n := |vs|;
    if n > 0 {
      assert Means(sh.stack[n - 1], w.stack[n - 1], m);
      assert AllMean(sh.stack[..n - 1], w.stack[..n - 1], m);
      StoreMeans(sh.locals, w.locals, idx, sh.stack[n - 1], w.stack[n - 1], m);
    }
  }

  lemma {:induction false} CopyFollows(i: Instr, sh: Shadow, vs: seq<Val>, w: Path, m: Smt.Model)
    requires |sh.stack| == |vs| && Follows(sh, w, m) && (i.CopyLoc? || i.BorrowLoc?)
    ensures InstrFollows(sh, vs, i, w, m)
  {
    LocalMeans(sh.locals, w.locals, i.idx, m);
    PushMeans(sh.stack, w.stack, LocalAt(sh.locals, i.idx), GuessAt(w.locals, i.idx), m);
  }

  lemma {:induction false} MoveFollows(idx: nat, sh: Shadow, vs: seq<Val>, w: Path, m: Smt.Model)
    requires |sh.stack| == |vs| && Follows(sh, w, m)
    ensures InstrFollows(sh, vs, MoveLoc(idx), w, m)
  {
    LocalMeans(sh.locals, w.locals, idx, m);
    PushMeans(sh.stack, w.stack, LocalAt(sh.locals, idx), GuessAt(w.locals, idx), m);
    MoveOutMeans(sh.locals, w.locals, idx, m);
  }

  lemma {:induction false} LoadFollows(i: Instr, sh: Shadow, vs: seq<Val>, w: Path, m: Smt.Model)
    requires |sh.stack| == |vs| && Follows(sh, w, m)
    requires i.LdInt? || i.LdFalse? || i.LdTrue? || i.Pack?
    ensures InstrFollows(sh, vs, i, w, m)
  {
    assert Smt.Eval(ONE, m) == 1 && Smt.Eval(ZERO, m) == 0;
    match i
    case LdInt(_) => PushMeans(sh.stack, w.stack, Unknown, AsInTrace, m);
    case LdFalse => PushMeans(sh.stack, w.stack, Value(ZERO), Followed(0), m);
    case LdTrue => PushMeans(sh.stack, w.stack, Value(ONE), Followed(1), m);
    case Pack(count, _) =>
      DropMeans(sh.stack, w.stack, count, m);
      PushMeans(DropTop(sh.stack, count), DropTop(w.stack, count), Unknown, AsInTrace, m);
  }

  lemma {:induction false} UnpackFollows(fields: seq<Val>, sh: Shadow, vs: seq<Val>, w: Path, m: Smt.Model)
    requires |sh.stack| == |vs| && Follows(sh, w, m)
    ensures InstrFollows(sh, vs, Unpack(fields), w, m)
  {
    DropMeans(sh.stack, w.stack, 1, m);
    UnknownsMean(DropTop(sh.stack, 1), DropTop(w.stack, 1), |fields|, m);
  }

  lemma {:induction false} PopFollows(i: Instr, sh: Shadow, vs: seq<Val>, w: Path, m: Smt.Model)
    requires |sh.stack| == |vs| && Follows(sh, w, m)
    requires Drops(i) || i.Jump? || i.UnpackBlind? || i.Discard?
    ensures InstrFollows(sh, vs, i, w, m)
  {
    DropMeans(sh.stack, w.stack, if i.Discard? then i.count else 1, m);
  }

  /** Every instruction, under every model: the symbols it leaves mean the values along the path, and it reports a
      constraint exactly if the path imposes a condition, which then holds exactly if the condition is met. Only taking
      apart a variant of unknown size switches the tracer off. */
  lemma {:induction false} InstrUnder(sh: Shadow, vs: seq<Val>, i: Instr, w: Path, m: Smt.Model)
    requires |sh.stack| == |vs| && Follows(sh, w, m) && Computable(sh, vs, i)
    ensures InstrFollows(sh, vs, i, w, m)
  {
    if IsBinary(i) {
      BinaryFollows(sh, vs, i, w, m);
    } else if i.Not? {
      NotFollows(sh, vs, w, m);
    } else if i.Cast? {
      CastFollows(i.bits, sh, vs, w, m);
    } else if i.CopyLoc? || i.BorrowLoc? {
      CopyFollows(i, sh, vs, w, m);
    } else if i.MoveLoc? {
      MoveFollows(i.idx, sh, vs, w, m);
    } else if i.StLoc? {
      StoreFollows(i.idx, sh, vs, w, m);
    } else if i.Unpack? {
      UnpackFollows(i.fields, sh, vs, w, m);
    } else if i.LdInt? || i.LdFalse? || i.LdTrue? || i.Pack? {
      LoadFollows(i, sh, vs, w, m);
    } else {
      PopFollows(i, sh, vs, w, m);
    }
  }

  // ----- runs

  /** The locals of an outermost call: every declared scalar stands for an input. */
  function EntryGuesses(f: Frame, call: nat, m: Smt.Model): seq<Guess> {
    var n := if |f.localTypes| < |f.parameters| then |f.parameters| else |f.localTypes|;
    seq(n, i requires 0 <= i < n =>
             if i < |f.localTypes| && f.localTypes[i].Scalar? then Followed(m.vars(call, i)) else AsInTrace)
  }

  /** Entering a frame: an outermost one begins with the inputs, another with what is passed on the stack. */
  function GuessEnter(w: Path, f: Frame, m: Smt.Model): Path {
    if w.locals == [] then w.(locals := [EntryGuesses(f, w.calls, m)], calls := w.calls + 1)
    else if |w.stack| < |f.parameters| then w
    else
      var keep := |w.stack| - |f.parameters|;
      var more := if |f.localTypes| > |f.parameters| then |f.localTypes| - |f.parameters| else 0;
      w.(stack := w.stack[..keep], locals := w.locals + [w.stack[keep..] + Unfollowed(more)])
  }

  ghost function GuessNext(w: Path, vs: seq<Val>, st: Step, m: Smt.Model): Path {
    match st
    case Begin => w.(stack := [], locals := [])
    case Enter(f) => GuessEnter(w, f, m)
    case CallNative(f, _) => w.(stack := DropTop(w.stack, |f.parameters|) + Unfollowed(f.returnCount))
    case Leave => w.(locals := DropTop(w.locals, 1))
    case Exec(i) =>
      var (w1, met) := GuessInstr(w, vs, i, m);
      w1.(met := if met.Some? then w.met + [met.value] else w.met)
  }

  ghost predicate LogMeans(log: seq<Logged>, met: seq<bool>, m: Smt.Model) {
    |log| == |met| && forall k :: 0 <= k < |log| ==> (Smt.Holds(log[k].c, m) <==> met[k])
  }

  ghost predicate Matches(c: Config, w: Path, m: Smt.Model) {
    Follows(c.sh, w, m) && |c.sh.args| == w.calls && LogMeans(c.log, w.met, m)
  }

  lemma {:induction false} OperandsComputable(c: Config, i: Instr, own: Smt.Model)
    requires Agrees(c, own) && CanStep(c, Exec(i))
    ensures Computable(c.sh, c.tr.stack, i)
  {
    if !c.pending && |c.tr.stack| > 0 {
      var n := |c.tr.stack|;
      assert Slot(c.sh.stack[n - 1], c.tr.stack[n - 1], own);
      if n > 1 { assert Slot(c.sh.stack[n - 2], c.tr.stack[n - 2], own); }
    }
  }

  lemma {:induction false} LogMeansMore(i: Instr, stack: seq<Val>, c: Option<Constraint>, met: Option<bool>,
                                        log: seq<Logged>,
                                        before: seq<bool>, m: Smt.Model)
    requires LogMeans(log, before, m) && CondMeans(c, met, m) && (c.Some? ==> stack != [])
    ensures LogMeans(log + LogEntry(i, stack, c), if met.Some? then before + [met.value] else before, m)
  {
  }

  lemma {:induction false} ConstraintNeedsOperand(sh: Shadow, vs: seq<Val>, i: Instr)
    requires |sh.stack| == |vs| && Execute(sh, vs, i).Done?
    ensures Execute(sh, vs, i).constraint.Some? ==> vs != []
    ensures Execute(sh, vs, i).after.args == sh.args
  {
    ExecuteArgs(sh, vs, i);
  }

  lemma {:induction false} ExecUnder(c: Config, w: Path, i: Instr, m: Smt.Model, own: Smt.Model)
    requires Agrees(c, own) && CanStep(c, Exec(i)) && Matches(c, w, m)
    ensures Next(c, Exec(i)).Some? && Matches(Next(c, Exec(i)).value, GuessNext(w, c.tr.stack, Exec(i), m), m)
  {
    ExecDone(c, Exec(i), own);
    var o := Execute(c.sh, c.tr.stack, i);
    ExecNext(c, i, c.ids[|c.ids| - 1], o);
    OperandsComputable(c, i, own);
    InstrUnder(c.sh, c.tr.stack, i, w, m);
    ConstraintNeedsOperand(c.sh, c.tr.stack, i);
    GuessKeepsRest(w, c.tr.stack, i, m);
    LogMeansMore(i, c.tr.stack, o.constraint, GuessInstr(w, c.tr.stack, i, m).1, c.log, w.met, m);
  }

  lemma {:induction false} GuessKeepsRest(w: Path, vs: seq<Val>, i: Instr, m: Smt.Model)
    ensures GuessInstr(w, vs, i, m).0.calls == w.calls && GuessInstr(w, vs, i, m).0.met == w.met
  {
  }

  lemma {:induction false} EntryMeans(f: Frame, call: nat, m: Smt.Model)
    ensures AllMean(EntryLocals(call, f), EntryGuesses(f, call, m), m)
  {
  }

  lemma {:induction false} PushFrameMeans(ls: seq<seq<Symbol>>, gs: seq<seq<Guess>>, ss: seq<Symbol>, top: seq<Guess>,
                                          m: Smt.Model)
    requires LocalsMean(ls, gs, m) && AllMean(ss, top, m)
    ensures LocalsMean(ls + [ss], gs + [top], m)
  {
  }

  lemma {:induction false} PassedMean(ss: seq<Symbol>, gs: seq<Guess>, keep: nat, m: Smt.Model)
    requires AllMean(ss, gs, m) && keep <= |ss|
    ensures AllMean(ss[..keep], gs[..keep], m) && AllMean(ss[keep..], gs[keep..], m)
  {
  }

  lemma {:induction false} OpenMeans(sh: Shadow, w: Path, f: Frame, m: Smt.Model)
    requires Follows(sh, w, m) && |sh.args| == w.calls && !f.native
    requires sh.locals != [] ==> |f.parameters| <= |sh.stack|
    ensures Follows(Open(sh, f), GuessEnter(w, f, m), m) && |Open(sh, f).args| == GuessEnter(w, f, m).calls
  {
    if sh.locals == [] {
      EntryMeans(f, |sh.args|, m);
    } else {
      var keep := |sh.stack| - |f.parameters|;
      var more := if |f.localTypes| > |f.parameters| then |f.localTypes| - |f.parameters| else 0;
      PassedMean(sh.stack, w.stack, keep, m);
      UnknownsMean(sh.stack[keep..], w.stack[keep..], more, m);
      assert sh.stack[keep..] + Unknowns(0) == sh.stack[keep..];
      PushFrameMeans(sh.locals, w.locals, sh.stack[keep..] + Unknowns(more), w.stack[keep..] + Unfollowed(more), m);
      assert sh.stack[..keep] + [] == sh.stack[..keep];
    }
  }

  lemma {:induction false} NativeUnder(c: Config, w: Path, f: Frame, results: seq<Val>, m: Smt.Model, own: Smt.Model)
    requires Agrees(c, own) && CanStep(c, CallNative(f, results)) && Matches(c, w, m)
    ensures var st := CallNative(f, results);
            Next(c, st).Some? && Matches(Next(c, st).value, GuessNext(w, c.tr.stack, st, m), m)
  {
    NativeTakesIn(c, f, results, own);
    var keep := |c.sh.stack| - |f.parameters|;
    PassedMean(c.sh.stack, w.stack, keep, m);
    UnknownsMean(c.sh.stack[..keep], w.stack[..keep], f.returnCount, m);
    assert DropTop(Open(c.sh, f).locals, 1) == c.sh.locals;
    assert c.log + [] == c.log;
  }

  lemma {:induction false} StepUnder(c: Config, w: Path, st: Step, m: Smt.Model, own: Smt.Model)
    requires Agrees(c, own) && CanStep(c, st) && Matches(c, w, m)
    ensures Next(c, st).Some? && Matches(Next(c, st).value, GuessNext(w, c.tr.stack, st, m), m)
  {
    assert c.log + [] == c.log;
    match st
    case Begin => OneEvent(c.sh, c.tr, MoveCallStart);
    case Enter(f) =>
      OneEvent(c.sh, c.tr, OpenFrame(f));
      OpenMeans(c.sh, w, f, m);
    case CallNative(f, results) => NativeUnder(c, w, f, results, m, own);
    case Leave =>
      OneEvent(c.sh, c.tr, CloseFrame);
      LeaveAgrees(c.sh.locals, c.tr.frames, c.ids, own);
    case Exec(i) => ExecUnder(c, w, i, m, own);
  }

  /** The path of a run under other inputs. */
  ghost function GuessRun(w: Path, c: Config, steps: seq<Step>, m: Smt.Model): Path
    requires CanRun(c, steps)
    decreases |steps|
  {
    if steps == [] then w
    else
      var w1 := GuessNext(w, c.tr.stack, steps[0], m);
      if Next(c, steps[0]).None? then w1 else GuessRun(w1, Next(c, steps[0]).value, steps[1..], m)
  }

  /** The inputs of an outermost call: one variable for each parameter declared a scalar. */
  ghost function InputsOf(f: Frame, call: nat): map<nat, Int> {
    map i: nat | i < |f.parameters| && i < |f.localTypes| && f.localTypes[i].Scalar? :: Smt.Var(call, i)
  }

  ghost predicate ArgsFrom(args: seq<map<nat, Int>>, outer: seq<Frame>) {
    |args| <= |outer| && forall k :: 0 <= k < |args| ==> args[k] == InputsOf(outer[k], k)
  }

  lemma {:induction false} EntryArguments(f: Frame, call: nat)
    ensures Arguments(EntryLocals(call, f), |f.parameters|) == InputsOf(f, call)
  {
  }

  lemma {:induction false} ExecArgs(c: Config, i: Instr, own: Smt.Model)
    requires Agrees(c, own) && CanStep(c, Exec(i)) && Next(c, Exec(i)).Some?
    ensures Next(c, Exec(i)).value.sh.args == c.sh.args
  {
    ExecDone(c, Exec(i), own);
    ExecNext(c, i, c.ids[|c.ids| - 1], Execute(c.sh, c.tr.stack, i));
    ExecuteArgs(c.sh, c.tr.stack, i);
  }

  lemma {:induction false} NextArgs(c: Config, st: Step, own: Smt.Model)
    requires Agrees(c, own) && CanStep(c, st) && Next(c, st).Some?
    ensures Next(c, st).value.sh.args
         == if st.Enter? && c.ids == [] then c.sh.args + [InputsOf(st.frame, |c.sh.args|)] else c.sh.args
  {
    match st
    case Begin => OneEvent(c.sh, c.tr, MoveCallStart);
    case Enter(f) =>
      OneEvent(c.sh, c.tr, OpenFrame(f));
      EntryArguments(f, |c.sh.args|);
    case CallNative(f, results) => NativeTakesIn(c, f, results, own);
    case Leave => OneEvent(c.sh, c.tr, CloseFrame);
    case Exec(i) => ExecArgs(c, i, own);
  }

  lemma {:induction false} StepArgsFrom(c: Config, steps: seq<Step>, outer: seq<Frame>, own: Smt.Model)
    requires Agrees(c, own) && steps != [] && CanStep(c, steps[0]) && Next(c, steps[0]).Some?
    requires ArgsFrom(c.sh.args, outer) && outer[|c.sh.args|..] == OuterFrames(steps, |c.ids|)
    ensures ArgsFrom(Next(c, steps[0]).value.sh.args, outer)
  {
    NextArgs(c, steps[0], own);
    OuterStep(steps, |c.ids|, |c.sh.args|, outer);
  }

  lemma {:induction false} RunUnder(c: Config, w: Path, steps: seq<Step>, m: Smt.Model, own: Smt.Model,
                                    outer: seq<Frame>)
    requires Agrees(c, own) && CanRun(c, steps) && GivesInputs(own, outer) && Matches(c, w, m)
    requires ArgsFrom(c.sh.args, outer) && outer[|c.sh.args|..] == OuterFrames(steps, |c.ids|)
    ensures Run(c, steps).Some? && Matches(Run(c, steps).value, GuessRun(w, c, steps, m), m)
    ensures ArgsFrom(Run(c, steps).value.sh.args, outer) && |Run(c, steps).value.sh.args| == |outer|
    decreases |steps|
  {
    if steps != [] {
      RunUnfolds(c, steps);
      StepUnder(c, w, steps[0], m, own);
      StepArgsFrom(c, steps, outer, own);
      var c1 := FirstStep(c, steps, own, outer);
      RunUnder(c1, GuessNext(w, c.tr.stack, steps[0], m), steps[1..], m, own, outer);
    }
  }

  /** Over every run and under every model whatever: the symbols on the stack and in the locals are exactly the followed
      values of the path, every scalar parameter of an outermost call is an input, and the model satisfies the reported
      constraints exactly if every condition that the path imposes is met under it. */
  lemma {:induction false} ConstraintsMeanPath(steps: seq<Step>, m: Smt.Model)
    requires CanRun(START, steps)
    ensures Run(START, steps).Some?
    ensures var c, w, outer := Run(START, steps).value, GuessRun(SETOFF, START, steps, m), OuterFrames(steps, 0);
            && Follows(c.sh, w, m)
            && c.sh.args == seq(|outer|, k requires 0 <= k < |outer| => InputsOf(outer[k], k))
            && |c.log| == |w.met|
            && ((forall k :: 0 <= k < |c.log| ==> Smt.Holds(c.log[k].c, m))
                <==> (forall k :: 0 <= k < |w.met| ==> w.met[k]))
  {
    var own, outer := OwnInputs(steps), OuterFrames(steps, 0);
    assert outer[0..] == outer;
    RunUnder(START, SETOFF, steps, m, own, outer);
    var c, w := Run(START, steps).value, GuessRun(SETOFF, START, steps, m);
    assert LogMeans(c.log, w.met, m);
    assert forall k :: 0 <= k < |c.log| ==> (Smt.Holds(c.log[k].c, m) <==> w.met[k]);
  }

  /** Under the trace's own inputs the path is the trace: every followed value on the stack, but for the result of a
      comparison about to be consumed, is the concrete value in its slot. */
  lemma {:induction false} OwnPathIsTrace(steps: seq<Step>, m: Smt.Model, k: nat)
    requires CanRun(START, steps) && GivesInputs(m, OuterFrames(steps, 0))
    ensures Run(START, steps).Some?
    ensures var c, w := Run(START, steps).value, GuessRun(SETOFF, START, steps, m);
            && |w.stack| == |c.tr.stack|
            && (k < |w.stack| && w.stack[k].Followed? && !(c.pending && k == |w.stack| - 1) ==>
                  c.tr.stack[k].Prim? && w.stack[k].n == c.tr.stack[k].n)
  {
    RunsAgree(steps, m);
    ConstraintsMeanPath(steps, m);
    var c, w := Run(START, steps).value, GuessRun(SETOFF, START, steps, m);
    if k < |w.stack| && !(c.pending && k == |w.stack| - 1) {
      assert Means(c.sh.stack[k], w.stack[k], m);
      assert Slot(c.sh.stack[k], c.tr.stack[k], m) by {
        if c.pending {
          var ss, vs := DropTop(c.sh.stack, 1), DropTop(c.tr.stack, 1);
          assert ss[k] == c.sh.stack[k] && vs[k] == c.tr.stack[k] && Slot(ss[k], vs[k], m);
        }
      }
    }
  }
}
