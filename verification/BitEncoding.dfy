/** Bitwise operations against a constant, encoded with integer arithmetic only
    (crates/movy-replay/src/tracer/concolic.rs). */
module BitEncoding {
  import opened Bits
  import opened Smt

  /** Width of the machine words that hold masks. Every encoding shifts 1 left by `bits` inside such a
      word, so it is defined below this width only. */
  const WORD_BITS: nat := 256

  function TwoPow(bits: nat): IntExpr
    requires bits < WORD_BITS
  {
    Const(Pow2(bits))
  }

  function ModTwoPow(x: IntExpr, bits: nat): IntExpr
    requires bits < WORD_BITS
  {
    Mod(x, TwoPow(bits))
  }

  /** The window of x0 between bits a and b, put back in its place. */
  function RunTerm(x0: IntExpr, a: nat, b: nat): IntExpr
    requires a <= b < WORD_BITS - 1
  {
    Mul(Rem(Div(Rem(x0, TwoPow(b + 1)), TwoPow(a)), TwoPow(b - a + 1)), TwoPow(a))
  }

  function Sum(acc: IntExpr, terms: seq<IntExpr>): IntExpr
    decreases |terms|
  {
    if terms == [] then acc else Sum(Add(acc, terms[0]), terms[1..])
  }

  ghost predicate Fits(m: nat, i: nat) {
    i < WORD_BITS && m < Pow2(WORD_BITS - 1 - i)
  }

  lemma {:induction false} FitsHalf(m: nat, i: nat)
    requires Fits(m, i) && m > 0
    ensures Fits(m / 2, i + 1)
  {
    assert Pow2(WORD_BITS - 1 - i) == 2 * Pow2(WORD_BITS - 1 - (i + 1));
  }

  lemma {:induction false} FitsRun(m: nat, i: nat)
    requires Fits(m, i)
    ensures Fits(High(m, Ones(m)), i + Ones(m))
    decreases m
  {
    if m % 2 == 1 {
      FitsHalf(m, i);
      FitsRun(m / 2, i + 1);
    }
  }

  /** One term per maximal run of ones of m, whose lowest bit has weight 2^i. */
  ghost function RunTerms(x0: IntExpr, m: nat, i: nat): seq<IntExpr>
    requires Fits(m, i)
    decreases m
  {
    if m == 0 then []
    else if m % 2 == 0 then
      FitsHalf(m, i);
      RunTerms(x0, m / 2, i + 1)
    else
      FitsRun(m, i);
      HighShrinks(m, Ones(m));
      [RunTerm(x0, i, i + Ones(m) - 1)] + RunTerms(x0, High(m, Ones(m)), i + Ones(m))
  }

  function MaskTo(mask: nat, bits: nat): (r: nat)
    requires bits < WORD_BITS
    ensures r < Pow2(bits)
  {
    AndBound(mask, Pow2(bits) - 1);
    And(mask, Pow2(bits) - 1)
  }

  lemma {:induction false} MaskFits(mask: nat, bits: nat)
    requires bits < WORD_BITS
    ensures Fits(MaskTo(mask, bits), 0)
  {
    Pow2Mono(bits, WORD_BITS - 1);
  }

  ghost function BvAnd(x: IntExpr, mask: nat, bits: nat): IntExpr
    requires bits < WORD_BITS
  {
    if mask == 0 then Const(0)
    else
      MaskFits(mask, bits);
      Sum(Const(0), RunTerms(ModTwoPow(x, bits), MaskTo(mask, bits), 0))
  }

  ghost function BvOr(x: IntExpr, mask: nat, bits: nat): IntExpr
    requires bits < WORD_BITS
  {
    var maskW := MaskTo(mask, bits);
    Add(BvAnd(x, Xor(Pow2(bits) - 1, maskW), bits), Const(maskW))
  }

  function BvNot(x: IntExpr, bits: nat): IntExpr
    requires bits < WORD_BITS
  {
    Sub(Sub(TwoPow(bits), Const(1)), ModTwoPow(x, bits))
  }

  ghost function BvXor(x: IntExpr, mask: nat, bits: nat): IntExpr
    requires bits < WORD_BITS
  {
    var maskW := MaskTo(mask, bits);
    ModTwoPow(Add(BvAnd(x, Xor(Pow2(bits) - 1, maskW), bits), BvAnd(BvNot(x, bits), maskW, bits)), bits)
  }

  // ----- the builders

  lemma {:induction false} SumSnoc(acc: IntExpr, terms: seq<IntExpr>, t: IntExpr)
    ensures Sum(acc, terms + [t]) == Add(Sum(acc, terms), t)
    decreases |terms|
  {
    if terms == [] {
      assert [] + [t] == [t];
    } else {
      assert (terms + [t])[1..] == terms[1..] + [t];
      SumSnoc(Add(acc, terms[0]), terms[1..], t);
    }
  }

  /** Consumes a run of ones at the low end of the mask. */
  method SkipOnes(mask: nat, start: nat) returns (m: nat, i: nat)
    requires mask % 2 == 1 && Fits(mask, start)
    ensures i == start + Ones(mask) && m == High(mask, Ones(mask)) && i > start
  {
    m, i := mask, start;
    while m % 2 == 1
      invariant start <= i && Fits(m, i)
      invariant i - start + Ones(m) == Ones(mask)
      invariant High(m, Ones(m)) == High(mask, Ones(mask))
      decreases m
    {
      FitsHalf(m, i);
      m, i := m / 2, i + 1;
    }
  }

  method AddUp(terms: seq<IntExpr>) returns (acc: IntExpr)
    ensures acc == Sum(Const(0), terms)
  {
    acc := Const(0);
    for k := 0 to |terms|
      invariant acc == Sum(Const(0), terms[..k])
    {
      SumSnoc(Const(0), terms[..k], terms[k]);
      assert terms[..k + 1] == terms[..k] + [terms[k]];
      acc := Add(acc, terms[k]);
    }
    assert terms[..|terms|] == terms;
  }

  /** Skips the zeros at the low end of the mask. */
  method SkipZeros(ghost x0: IntExpr, mask: nat, start: nat) returns (m: nat, i: nat)
    requires Fits(mask, start)
    ensures Fits(m, i) && RunTerms(x0, m, i) == RunTerms(x0, mask, start) && m <= mask && (m == 0 || m % 2 == 1)
  {
    m, i := mask, start;
    while m != 0 && m % 2 == 0
      invariant Fits(m, i) && RunTerms(x0, m, i) == RunTerms(x0, mask, start) && m <= mask
      decreases m
    {
      FitsHalf(m, i);
      m, i := m / 2, i + 1;
    }
  }

  lemma {:induction false} FirstRun(x0: IntExpr, mask: nat, i: nat)
    requires mask % 2 == 1 && Fits(mask, i)
    ensures var L := Ones(mask);
            && L > 0 && High(mask, L) < mask && Fits(High(mask, L), i + L)
            && RunTerms(x0, mask, i) == [RunTerm(x0, i, i + L - 1)] + RunTerms(x0, High(mask, L), i + L)
  {
    FitsRun(mask, i);
    HighShrinks(mask, Ones(mask));
  }

  lemma {:induction false} MoveOver(terms: seq<IntExpr>, t: IntExpr, rest: seq<IntExpr>)
    ensures terms + ([t] + rest) == (terms + [t]) + rest
  {
  }

  /** Walks the mask from its low end, skipping zeros and collecting one term per run. */
  method CollectRuns(x0: IntExpr, mask: nat) returns (terms: seq<IntExpr>)
    requires Fits(mask, 0)
    ensures terms == RunTerms(x0, mask, 0)
  {
    var m, i := mask, 0;
    terms := [];
    ghost var all, left := RunTerms(x0, mask, 0), RunTerms(x0, mask, 0);
    while m != 0
      invariant Fits(m, i) && left == RunTerms(x0, m, i) && terms + left == all
      decreases m
    {
      m, i := SkipZeros(x0, m, i);
      if m == 0 {
        break;
      }
      var a := i;
      FirstRun(x0, m, a);
      m, i := SkipOnes(m, a);
      left := left[1..];
      MoveOver(terms, RunTerm(x0, a, i - 1), left);
      terms := terms + [RunTerm(x0, a, i - 1)];
    }
    assert left == [];
  }

  /** `int_bvand_const` */
  method IntBvAndConst(x: IntExpr, mask: nat, bits: nat) returns (acc: IntExpr)
    requires bits < WORD_BITS
    ensures acc == BvAnd(x, mask, bits)
  {
    if mask == 0 {
      return Const(0);
    }
    MaskFits(mask, bits);
    var terms := CollectRuns(ModTwoPow(x, bits), MaskTo(mask, bits));
    acc := AddUp(terms);
  }

  /** `int_bvor_const` */
  method IntBvOrConst(x: IntExpr, mask: nat, bits: nat) returns (r: IntExpr)
    requires bits < WORD_BITS
    ensures r == BvOr(x, mask, bits)
  {
    var maskW := MaskTo(mask, bits);
    var kept := IntBvAndConst(x, Xor(Pow2(bits) - 1, maskW), bits);
    r := Add(kept, Const(maskW));
  }

  /** `int_bvxor_const` */
  method IntBvXorConst(x: IntExpr, mask: nat, bits: nat) returns (r: IntExpr)
    requires bits < WORD_BITS
    ensures r == BvXor(x, mask, bits)
  {
    var maskW := MaskTo(mask, bits);
    var keep := IntBvAndConst(x, Xor(Pow2(bits) - 1, maskW), bits);
    var flip := IntBvAndConst(BvNot(x, bits), maskW, bits);
    r := ModTwoPow(Add(keep, flip), bits);
  }

  // ----- what the encodings mean

  ghost function SumOf(terms: seq<IntExpr>, m: Model): int {
    if terms == [] then 0 else Eval(terms[0], m) + SumOf(terms[1..], m)
  }

  lemma {:induction false} SumMeans(acc: IntExpr, terms: seq<IntExpr>, m: Model)
    ensures Eval(Sum(acc, terms), m) == Eval(acc, m) + SumOf(terms, m)
    decreases |terms|
  {
    if terms != [] { SumMeans(Add(acc, terms[0]), terms[1..], m); }
  }

  lemma {:induction false} ConstDivisor(l: IntExpr, d: nat, m: Model)
    requires d > 0
    ensures Eval(Rem(l, Const(d)), m) == Eval(Mod(l, Const(d)), m) == Eval(l, m) % d
    ensures Eval(Div(l, Const(d)), m) == Eval(l, m) / d
  {
    assert Eval(Const(d), m) == d;
  }

  lemma {:induction false} TermMeans(x0: IntExpr, a: nat, L: nat, m: Model)
    requires 0 < L && a + L < WORD_BITS
    requires Eval(x0, m) >= 0
    ensures Eval(RunTerm(x0, a, a + L - 1), m) == Up(Low(High(Eval(x0, m), a), L), a)
  {
    var x: nat := Eval(x0, m);
    var e1 := Rem(x0, TwoPow(a + L));
    var e2 := Div(e1, TwoPow(a));
    var e3 := Rem(e2, TwoPow(L));
    assert RunTerm(x0, a, a + L - 1) == Mul(e3, TwoPow(a));
    var cut := Low(x, a + L);
    assert Eval(e1, m) == cut by {
      LowIsMod(x, a + L);
      ConstDivisor(x0, Pow2(a + L), m);
    }
    assert Eval(e2, m) == High(cut, a) by {
      HighIsDiv(cut, a);
      ConstDivisor(e1, Pow2(a), m);
    }
    assert Eval(e3, m) == Low(High(cut, a), L) by {
      LowIsMod(High(cut, a), L);
      ConstDivisor(e2, Pow2(L), m);
    }
    UpIsMul(Low(High(cut, a), L), a);
    Window(x, a, L);
  }

  lemma {:induction false} EvenMask(x: nat, mask: nat, i: nat)
    requires mask % 2 == 0
    ensures Up(And(High(x, i), mask), i) == Up(And(High(x, i + 1), mask / 2), i + 1)
  {
    HighTwice(x, i, 1);
    var rest := And(High(x, i + 1), mask / 2);
    assert And(High(x, i), mask) == Up(rest, 1);
    UpTwice(rest, 1, i);
  }

  lemma {:induction false} OddMask(x: nat, mask: nat, i: nat, L: nat)
    requires L == Ones(mask)
    ensures Up(And(High(x, i), mask), i)
         == Up(Low(High(x, i), L), i) + Up(And(High(x, i + L), High(mask, L)), i + L)
  {
    AndAcrossRun(High(x, i), mask);
    HighTwice(x, i, L);
    var rest := And(High(x, i + L), High(mask, L));
    UpAdd(Low(High(x, i), L), Up(rest, L), i);
    UpTwice(rest, L, i);
  }

  /** The run terms of a mask add up to the masked value, all of it moved up by i bits. */
  lemma {:induction false} RunTermsMean(x0: IntExpr, mask: nat, i: nat, m: Model)
    requires Fits(mask, i) && Eval(x0, m) >= 0
    ensures SumOf(RunTerms(x0, mask, i), m) == Up(And(High(Eval(x0, m), i), mask), i)
    decreases mask
  {
    var x: nat := Eval(x0, m);
    if mask == 0 {
      UpIsMul(0, i);
    } else if mask % 2 == 0 {
      FitsHalf(mask, i);
      RunTermsMean(x0, mask / 2, i + 1, m);
      EvenMask(x, mask, i);
    } else {
      var L := Ones(mask);
      FitsRun(mask, i);
      HighShrinks(mask, L);
      RunTermsMean(x0, High(mask, L), i + L, m);
      TermMeans(x0, i, L, m);
      OddMask(x, mask, i, L);
    }
  }

  /** The w-bit value of an integer: its residue modulo 2^w. */
  function Word(x: int, bits: nat): (r: nat)
    ensures r < Pow2(bits)
  {
    x % Pow2(bits)
  }

  lemma {:induction false} MaskIsWord(mask: nat, bits: nat)
    requires bits < WORD_BITS
    ensures MaskTo(mask, bits) == Word(mask, bits)
  {
    AndFull(mask, bits);
    LowIsMod(mask, bits);
  }

  lemma {:induction false} AllRunsMean(x0: IntExpr, mask: nat, m: Model)
    requires Fits(mask, 0) && Eval(x0, m) >= 0
    ensures Eval(Sum(Const(0), RunTerms(x0, mask, 0)), m) == And(Eval(x0, m), mask)
  {
    SumMeans(Const(0), RunTerms(x0, mask, 0), m);
    RunTermsMean(x0, mask, 0, m);
  }

  lemma {:induction false} SmallWord(x: nat, bits: nat)
    requires x < Pow2(bits)
    ensures Word(x, bits) == x
  {
    LowOfSmall(x, bits);
    LowIsMod(x, bits);
  }

  lemma {:induction false} ZeroWord(bits: nat)
    ensures Word(0, bits) == 0
  {
  }

  /** For every integer, mask and width, the encoding of AND is the bitwise AND of the two words. */
  lemma {:induction false} BvAndMeans(x: IntExpr, mask: nat, bits: nat, m: Model)
    requires bits < WORD_BITS
    ensures Eval(BvAnd(x, mask, bits), m) == And(Word(Eval(x, m), bits), Word(mask, bits))
  {
    if mask == 0 {
      ZeroWord(bits);
    } else {
      MaskIsWord(mask, bits);
      MaskFits(mask, bits);
      ConstDivisor(x, Pow2(bits), m);
      AllRunsMean(ModTwoPow(x, bits), MaskTo(mask, bits), m);
    }
  }

  /** The complement of the mask that OR and XOR compute is its w-bit complement. */
  lemma {:induction false} ComplementMask(mask: nat, bits: nat)
    requires bits < WORD_BITS
    ensures MaskTo(mask, bits) == Word(mask, bits)
    ensures Xor(Pow2(bits) - 1, MaskTo(mask, bits)) == Bits.Not(Word(mask, bits), bits) < Pow2(bits)
    ensures Word(Xor(Pow2(bits) - 1, MaskTo(mask, bits)), bits) == Bits.Not(Word(mask, bits), bits)
  {
    MaskIsWord(mask, bits);
    XorFull(Word(mask, bits), bits);
    NotIsSubtraction(Word(mask, bits), bits);
    SmallWord(Bits.Not(Word(mask, bits), bits), bits);
  }

  lemma {:induction false} BvOrMeans(x: IntExpr, mask: nat, bits: nat, m: Model)
    requires bits < WORD_BITS
    ensures Eval(BvOr(x, mask, bits), m) == Or(Word(Eval(x, m), bits), Word(mask, bits))
  {
    ComplementMask(mask, bits);
    BvAndMeans(x, Xor(Pow2(bits) - 1, MaskTo(mask, bits)), bits, m);
    OrAsClearThenAdd(Word(Eval(x, m), bits), Word(mask, bits), bits);
  }

  lemma {:induction false} BvNotMeans(x: IntExpr, bits: nat, m: Model)
    requires bits < WORD_BITS
    ensures Eval(BvNot(x, bits), m) == Bits.Not(Word(Eval(x, m), bits), bits)
  {
    ConstDivisor(x, Pow2(bits), m);
    assert Eval(Sub(TwoPow(bits), Const(1)), m) == Pow2(bits) - 1;
    NotIsSubtraction(Word(Eval(x, m), bits), bits);
  }

  lemma {:induction false} BvXorMeans(x: IntExpr, mask: nat, bits: nat, m: Model)
    requires bits < WORD_BITS
    ensures Eval(BvXor(x, mask, bits), m) == Xor(Word(Eval(x, m), bits), Word(mask, bits))
  {
    var xw, mw, maskW := Word(Eval(x, m), bits), Word(mask, bits), MaskTo(mask, bits);
    XorParts(x, mask, bits, m);
    var keep, flip := BvAnd(x, Xor(Pow2(bits) - 1, maskW), bits), BvAnd(BvNot(x, bits), maskW, bits);
    XorAsTwoParts(xw, mw, bits);
    assert Eval(Add(keep, flip), m) == Xor(xw, mw);
    ConstDivisor(Add(keep, flip), Pow2(bits), m);
    SmallWord(Xor(xw, mw), bits);
  }

  lemma {:induction false} XorParts(x: IntExpr, mask: nat, bits: nat, m: Model)
    requires bits < WORD_BITS
    ensures var xw, mw, maskW := Word(Eval(x, m), bits), Word(mask, bits), MaskTo(mask, bits);
            && Eval(BvAnd(x, Xor(Pow2(bits) - 1, maskW), bits), m) == And(xw, Bits.Not(mw, bits))
            && Eval(BvAnd(BvNot(x, bits), maskW, bits), m) == And(Bits.Not(xw, bits), mw)
  {
    var xw, mw := Word(Eval(x, m), bits), Word(mask, bits);
    ComplementMask(mask, bits);
    BvAndMeans(x, Xor(Pow2(bits) - 1, MaskTo(mask, bits)), bits, m);
    BvNotMeans(x, bits, m);
    NotIsSubtraction(xw, bits);
    SmallWord(Bits.Not(xw, bits), bits);
    SmallWord(mw, bits);
    BvAndMeans(BvNot(x, bits), MaskTo(mask, bits), bits, m);
  }
}
