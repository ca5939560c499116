/** Choices of type arguments that several parameters can share
    (crates/movy-fuzz/src/mutators/object_data.rs, `intersect_generics` and `get_ty_args_candidates`). */
module Candidates {
  import opened Wrappers
  import opened Abi
  import opened AbiLaws

  ghost predicate BoundIn(combo: seq<Bindings>, i: nat) {
    exists k :: 0 <= k < |combo| && i in combo[k]
  }

  /** m is the union of the choices: it contains each of them and binds nothing else. */
  ghost predicate UnionOf(m: Bindings, combo: seq<Bindings>) {
    && (forall k :: 0 <= k < |combo| ==> Extends(m, combo[k]))
    && (forall i :: i in m ==> BoundIn(combo, i))
  }

  ghost predicate PairwiseCompatible(combo: seq<Bindings>) {
    forall j, k :: 0 <= j < k < |combo| ==> Compatible(combo[j], combo[k])
  }

  ghost function Intersection(combo: seq<Bindings>): Option<Bindings> {
    if combo == [] then Some(map[])
    else Merge(Intersection(combo[..|combo| - 1]), Some(combo[|combo| - 1]))
  }

  /** `intersect_generics` */
  method IntersectGenerics(combo: seq<Bindings>) returns (r: Option<Bindings>)
    ensures r == Intersection(combo)
  {
    var result: Bindings := map[];
    for k := 0 to |combo|
      invariant Intersection(combo[..k]) == Some(result)
    {
      assert combo[..k + 1][..k] == combo[..k];
      var merged := MergeInto(result, combo[k]);
      if merged.None? {
        Conflict(combo, k + 1);
        return None;
      }
      result := merged.value;
    }
    assert combo[..|combo|] == combo;
    r := Some(result);
  }

  lemma {:induction false} Conflict(combo: seq<Bindings>, k: nat)
    requires k <= |combo| && Intersection(combo[..k]).None?
    ensures Intersection(combo).None?
    decreases |combo| - k
  {
    if k == |combo| {
      assert combo[..k] == combo;
    } else {
      assert combo[..k + 1][..k] == combo[..k];
      Conflict(combo, k + 1);
    }
  }

  /** The result is the union of the choices. */
  lemma {:induction false} IntersectionIsUnion(combo: seq<Bindings>, m: Bindings)
    ensures Intersection(combo) == Some(m) <==> UnionOf(m, combo)
  {
    if combo != [] {
      var n := |combo| - 1;
      var front, last := combo[..n], combo[n];
      assert front + [last] == combo;
      if Intersection(combo) == Some(m) {
        var before := Intersection(front).value;
        IntersectionIsUnion(front, before);
        UnionSnoc(before, front, last);
      }
      if UnionOf(m, combo) {
        UnionFront(m, front, last);
        IntersectionIsUnion(front, BoundPart(m, front));
      }
    }
  }

  lemma {:induction false} BoundInSnoc(combo: seq<Bindings>, last: Bindings, i: nat)
    ensures BoundIn(combo + [last], i) <==> BoundIn(combo, i) || i in last
  {
    var all := combo + [last];
    if BoundIn(combo, i) {
      var k :| 0 <= k < |combo| && i in combo[k];
      assert i in all[k];
    }
    if i in last { assert i in all[|combo|]; }
  }

  lemma {:induction false} ExtendsUnion(m: Bindings, last: Bindings, c: Bindings)
    requires Compatible(m, last)
    ensures Extends(m, c) ==> Extends(m + last, c)
    ensures Extends(m + last, last)
  {
  }

  lemma {:induction false} UnionSnoc(m: Bindings, combo: seq<Bindings>, last: Bindings)
    requires UnionOf(m, combo) && Compatible(m, last)
    ensures UnionOf(m + last, combo + [last])
  {
    var combo' := combo + [last];
    forall k | 0 <= k < |combo'| ensures Extends(m + last, combo'[k]) {
      ExtendsUnion(m, last, combo'[k]);
    }
    forall i | i in m + last ensures BoundIn(combo', i) {
      BoundInSnoc(combo, last, i);
    }
  }

  ghost function BoundPart(m: Bindings, combo: seq<Bindings>): Bindings {
    map i | i in m && BoundIn(combo, i) :: m[i]
  }

  lemma {:induction false} BoundPartIsUnion(m: Bindings, combo: seq<Bindings>)
    requires forall k :: 0 <= k < |combo| ==> Extends(m, combo[k])
    ensures UnionOf(BoundPart(m, combo), combo)
  {
    forall k | 0 <= k < |combo| ensures Extends(BoundPart(m, combo), combo[k]) {
      assert Extends(m, combo[k]);
      assert forall i :: i in combo[k] ==> BoundIn(combo, i);
    }
  }

  lemma {:induction false} TwoParts(m: Bindings, part: Bindings, last: Bindings)
    requires Extends(m, part) && Extends(m, last) && m.Keys == part.Keys + last.Keys
    ensures Compatible(part, last) && m == part + last
  {
    assert (part + last).Keys == m.Keys;
  }

  lemma {:induction false} UnionFront(m: Bindings, front: seq<Bindings>, last: Bindings)
    requires UnionOf(m, front + [last])
    ensures UnionOf(BoundPart(m, front), front)
    ensures Compatible(BoundPart(m, front), last) && m == BoundPart(m, front) + last
  {
    var combo := front + [last];
    assert Extends(m, last) by { assert combo[|front|] == last; }
    forall k | 0 <= k < |front| ensures Extends(m, front[k]) { assert combo[k] == front[k]; }
    BoundPartIsUnion(m, front);
    assert m.Keys == BoundPart(m, front).Keys + last.Keys by {
      forall i | i in m ensures BoundIn(front, i) || i in last { BoundInSnoc(front, last, i); }
    }
    TwoParts(m, BoundPart(m, front), last);
  }

  /** The intersection fails exactly when two of the choices contradict each other. */
  lemma {:induction false} IntersectionFails(combo: seq<Bindings>)
    ensures Intersection(combo).Some? <==> PairwiseCompatible(combo)
  {
    if combo != [] {
      var n := |combo| - 1;
      var front, last := combo[..n], combo[n];
      IntersectionFails(front);
      assert PairwiseCompatible(combo) ==> PairwiseCompatible(front) by {
        if PairwiseCompatible(combo) {
          forall j, k | 0 <= j < k < n ensures Compatible(front[j], front[k]) {
            assert Compatible(combo[j], combo[k]);
          }
        }
      }
      if Intersection(front).Some? {
        CompatibleWithUnion(front, last);
        assert PairwiseCompatible(combo) <==> forall k :: 0 <= k < n ==> Compatible(front[k], last) by {
          forall j, k | 0 <= j < k < n ensures Compatible(combo[j], combo[k]) {
            assert Compatible(front[j], front[k]);
          }
        }
      }
    }
  }

  lemma {:induction false} CompatibleWithUnion(combo: seq<Bindings>, last: Bindings)
    requires Intersection(combo).Some?
    ensures Compatible(Intersection(combo).value, last) <==> forall k :: 0 <= k < |combo| ==> Compatible(combo[k], last)
  {
    var m := Intersection(combo).value;
    IntersectionIsUnion(combo, m);
    if Compatible(m, last) {
      forall k | 0 <= k < |combo| ensures Compatible(combo[k], last) { assert Extends(m, combo[k]); }
    }
    if forall k :: 0 <= k < |combo| ==> Compatible(combo[k], last) {
      forall i | i in m && i in last ensures m[i] == last[i] {
        assert BoundIn(combo, i);
        var k :| 0 <= k < |combo| && i in combo[k];
        assert Extends(m, combo[k]) && Compatible(combo[k], last);
      }
    }
  }

  // ----- one choice per row

  ghost predicate OnePerRow(combo: seq<Bindings>, rows: seq<seq<Bindings>>) {
    |combo| == |rows| && forall k :: 0 <= k < |rows| ==> combo[k] in rows[k]
  }

  /** Every combo extended by every choice, the choices varying fastest. */
  function Extended(combos: seq<seq<Bindings>>, row: seq<Bindings>): seq<seq<Bindings>> {
    if combos == [] then []
    else
      var last := combos[|combos| - 1];
      Extended(combos[..|combos| - 1], row) + seq(|row|, i requires 0 <= i < |row| => last + [row[i]])
  }

  /** `multi_cartesian_product`, which gives the one empty combo when there are no rows. */
  function Product(rows: seq<seq<Bindings>>): seq<seq<Bindings>> {
    if rows == [] then [[]] else Extended(Product(rows[..|rows| - 1]), rows[|rows| - 1])
  }

  lemma {:induction false} InExtended(combos: seq<seq<Bindings>>, row: seq<Bindings>, combo: seq<Bindings>)
    ensures combo in Extended(combos, row)
       <==> combo != [] && combo[..|combo| - 1] in combos && combo[|combo| - 1] in row
  {
    if combos != [] {
      var n := |combos| - 1;
      var front, last := combos[..n], combos[n];
      InExtended(front, row, combo);
      assert combos == front + [last];
      var block := seq(|row|, i requires 0 <= i < |row| => last + [row[i]]);
      if combo in block {
        var i :| 0 <= i < |block| && block[i] == combo;
        assert combo == last + [row[i]];
      }
      if combo != [] && combo[..|combo| - 1] == last && combo[|combo| - 1] in row {
        var i :| 0 <= i < |row| && row[i] == combo[|combo| - 1];
        assert block[i] == combo;
      }
    }
  }

  lemma {:induction false} OnePerRowSnoc(combo: seq<Bindings>, last: Bindings, rows: seq<seq<Bindings>>,
                                         row: seq<Bindings>)
    ensures OnePerRow(combo + [last], rows + [row]) <==> OnePerRow(combo, rows) && last in row
  {
    var combo', rows' := combo + [last], rows + [row];
    if OnePerRow(combo', rows') {
      assert combo'[|rows|] in rows'[|rows|];
      forall k | 0 <= k < |rows| ensures combo[k] in rows[k] { assert combo'[k] in rows'[k]; }
    }
  }

  lemma {:induction false} InProduct(rows: seq<seq<Bindings>>, combo: seq<Bindings>)
    ensures combo in Product(rows) <==> OnePerRow(combo, rows)
  {
    if rows != [] {
      var n := |rows| - 1;
      InExtended(Product(rows[..n]), rows[n], combo);
      if combo != [] {
        var front, last := combo[..|combo| - 1], combo[|combo| - 1];
        InProduct(rows[..n], front);
        OnePerRowSnoc(front, last, rows[..n], rows[n]);
        assert front + [last] == combo && rows[..n] + [rows[n]] == rows;
      }
    }
  }

  ghost predicate ChosenFrom(rows: seq<seq<Bindings>>, m: Bindings, combo: seq<Bindings>) {
    OnePerRow(combo, rows) && UnionOf(m, combo)
  }

  /** Some one-per-row choice has m as its union. */
  ghost predicate IsCandidate(rows: seq<seq<Bindings>>, m: Bindings) {
    exists combo :: ChosenFrom(rows, m, combo)
  }

  /** The unions of the combos that have one. */
  ghost function Unions(combos: seq<seq<Bindings>>): seq<Bindings> {
    if combos == [] then []
    else
      var rest, m := Unions(combos[..|combos| - 1]), Intersection(combos[|combos| - 1]);
      if m.Some? then rest + [m.value] else rest
  }

  /** `get_ty_args_candidates` */
  method GetTyArgsCandidates(rows: seq<seq<Bindings>>) returns (candidates: seq<Bindings>)
    ensures candidates == Unions(Product(rows))
  {
    candidates := [];
    var combos := Product(rows);
    for k := 0 to |combos|
      invariant candidates == Unions(combos[..k])
    {
      assert combos[..k + 1][..k] == combos[..k];
      var union := IntersectGenerics(combos[k]);
      if union.Some? {
        candidates := candidates + [union.value];
      }
    }
    assert combos[..|combos|] == combos;
  }

  ghost predicate HasUnion(combos: seq<seq<Bindings>>, m: Bindings) {
    exists combo :: combo in combos && Intersection(combo) == Some(m)
  }

  lemma {:induction false} InUnions(combos: seq<seq<Bindings>>, m: Bindings)
    ensures m in Unions(combos) <==> HasUnion(combos, m)
  {
    if combos != [] {
      var front, last := combos[..|combos| - 1], combos[|combos| - 1];
      InUnions(front, m);
      assert combos == front + [last];
      assert HasUnion(combos, m) <==> HasUnion(front, m) || Intersection(last) == Some(m);
    }
  }

  /** The candidates are exactly the unions of the compatible one-per-row choices. */
  lemma {:induction false} CandidatesAreUnions(rows: seq<seq<Bindings>>, m: Bindings)
    ensures m in Unions(Product(rows)) <==> IsCandidate(rows, m)
  {
    InUnions(Product(rows), m);
    if HasUnion(Product(rows), m) {
      var combo :| combo in Product(rows) && Intersection(combo) == Some(m);
      InProduct(rows, combo);
      IntersectionIsUnion(combo, m);
      assert ChosenFrom(rows, m, combo);
    }
    if IsCandidate(rows, m) {
      var combo :| ChosenFrom(rows, m, combo);
      InProduct(rows, combo);
      IntersectionIsUnion(combo, m);
    }
  }

  ghost predicate AgreeingFrom(rows: seq<seq<Bindings>>, combo: seq<Bindings>) {
    OnePerRow(combo, rows) && PairwiseCompatible(combo)
  }

  lemma {:induction false} AgreeingHasUnion(rows: seq<seq<Bindings>>, combo: seq<Bindings>)
    ensures AgreeingFrom(rows, combo) <==> exists m :: ChosenFrom(rows, m, combo)
  {
    IntersectionFails(combo);
    if AgreeingFrom(rows, combo) {
      var m := Intersection(combo).value;
      IntersectionIsUnion(combo, m);
      assert ChosenFrom(rows, m, combo);
    }
    if m :| ChosenFrom(rows, m, combo) {
      IntersectionIsUnion(combo, m);
    }
  }

  /** There are candidates exactly when some one-per-row choice has no contradiction. */
  lemma {:induction false} CandidatesExist(rows: seq<seq<Bindings>>)
    ensures (exists m :: IsCandidate(rows, m)) <==> (exists combo :: AgreeingFrom(rows, combo))
  {
    forall combo ensures AgreeingFrom(rows, combo) <==> exists m :: ChosenFrom(rows, m, combo) {
      AgreeingHasUnion(rows, combo);
    }
    if combo :| AgreeingFrom(rows, combo) {
      var m :| ChosenFrom(rows, m, combo);
      assert IsCandidate(rows, m);
    }
    if m :| IsCandidate(rows, m) {
      var combo :| ChosenFrom(rows, m, combo);
      assert AgreeingFrom(rows, combo);
    }
  }
}
