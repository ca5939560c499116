/** Finding arguments for a call (crates/movy-fuzz/src/mutators/object_data.rs, `try_construct_args`). Every random
    pick is an arbitrary one. */
module Construct {
  import opened Wrappers
  import opened Abi
  import opened AbiLaws
  import opened Sequences
  import opened Objects
  import opened Ledger
  import opened Candidates
  import opened Sampling

  // ----- parameters

  /** A struct, or a reference to one; other parameters make the call unsolvable. */
  predicate Acceptable(p: Token) {
    IsStruct(p) || ((p.Ref? || p.MutRef?) && IsStruct(p.inner))
  }

  /** What a parameter asks for, once the type arguments that are already fixed are put in. */
  function WantOf(p: Token, fixed: Bindings): (want: Want)
    requires Acceptable(p)
    ensures IsStruct(want.ty)
    ensures want.gate == Owned <==> IsStruct(p)
  {
    assert (p.Ref? || p.MutRef?) ==> IsStruct(PartialSubst(p.inner, fixed));
    match PartialSubst(p, fixed)
    case Ref(inner) => Want(inner, Immutable)
    case MutRef(inner) => Want(inner, Shared)
    case q => Want(q, Owned)
  }

  function WantsOf(params: seq<Token>, fixed: Bindings): (wants: seq<Want>)
    requires forall k :: 0 <= k < |params| ==> Acceptable(params[k])
    ensures |wants| == |params|
    ensures forall k :: 0 <= k < |params| ==> wants[k] == WantOf(params[k], fixed)
  {
    seq(|params|, k requires 0 <= k < |params| => WantOf(params[k], fixed))
  }

  lemma {:induction false} WantInstantiates(p: Token, fixed: Bindings, m: Bindings)
    requires Acceptable(p)
    ensures Subst(WantOf(p, fixed).ty, m) == Subst(p, m + fixed)
  {
    SubstTwice(p, fixed, m);
  }

  /** Only the parameters that are not fixed remain. */
  lemma {:induction false} PartialSubstContains(t: Token, fixed: Bindings, i: nat)
    ensures ContainsParam(PartialSubst(t, fixed), i) <==> ContainsParam(t, i) && i !in fixed
    decreases t, 1
  {
    match t
    case Vector(inner) => PartialSubstContains(inner, fixed, i);
    case Instance(_, args) => PartialSubstAllContains(args, fixed, i);
    case Ref(inner) => PartialSubstContains(inner, fixed, i);
    case MutRef(inner) => PartialSubstContains(inner, fixed, i);
    case Param(j, _) => if j in fixed { LossyContains(fixed[j], i); }
    case _ =>
  }

  lemma {:induction false} PartialSubstAllContains(ts: seq<Token>, fixed: Bindings, i: nat)
    ensures AnyContainsParam(PartialSubstAll(ts, fixed), i) <==> AnyContainsParam(ts, i) && i !in fixed
    decreases ts, 0
  {
    if ts != [] {
      PartialSubstContains(ts[0], fixed, i);
      PartialSubstAllContains(ts[1..], fixed, i);
      assert PartialSubstAll(ts, fixed)[1..] == PartialSubstAll(ts[1..], fixed);
    }
  }

  lemma {:induction false} LossyContains(tag: Tag, i: nat)
    ensures !ContainsParam(Lossy(tag), i)
    decreases tag, 1
  {
    match tag
    case VectorTag(elem) => LossyContains(elem, i);
    case StructTag(_, _, _, tys) => LossyAllContains(tys, i);
    case _ =>
  }

  lemma {:induction false} LossyAllContains(tags: seq<Tag>, i: nat)
    ensures !AnyContainsParam(LossyAll(tags), i)
    decreases tags, 0
  {
    if tags != [] {
      LossyContains(tags[0], i);
      LossyAllContains(tags[1..], i);
      assert LossyAll(tags)[1..] == LossyAll(tags[1..]);
    }
  }

  lemma {:induction false} WantContains(p: Token, fixed: Bindings, i: nat)
    requires Acceptable(p)
    ensures ContainsParam(WantOf(p, fixed).ty, i) <==> ContainsParam(p, i) && i !in fixed
  {
    PartialSubstContains(p, fixed, i);
  }

  // ----- type arguments for all parameters together

  /** Everything a choice of type arguments depends on. */
  datatype Context = Context(w: World, existing: Existing, abilities: seq<Abilities>)

  ghost predicate Served(cx: Context, want: Want)
    requires IsStruct(want.ty)
  {
    exists m :: Offered(cx.w, cx.existing, cx.abilities, want, m)
  }

  /** What one parameter contributes: bindings on offer, or nothing when there are none. */
  ghost predicate ChoiceFor(cx: Context, want: Want, m: Bindings)
    requires IsStruct(want.ty)
  {
    if Served(cx, want) then Offered(cx.w, cx.existing, cx.abilities, want, m) else m == map[]
  }

  ghost predicate AllStructs(wants: seq<Want>) {
    forall k :: 0 <= k < |wants| ==> IsStruct(wants[k].ty)
  }

  ghost predicate Choices(cx: Context, wants: seq<Want>, choice: seq<Bindings>)
    requires AllStructs(wants)
  {
    |choice| == |wants| && forall k :: 0 <= k < |wants| ==> ChoiceFor(cx, wants[k], choice[k])
  }

  ghost predicate Chosen(cx: Context, wants: seq<Want>, m: Bindings, choice: seq<Bindings>)
    requires AllStructs(wants)
  {
    Choices(cx, wants, choice) && UnionOf(m, choice)
  }

  /** m is the union of one contribution per parameter. */
  ghost predicate Choosable(cx: Context, wants: seq<Want>, m: Bindings)
    requires AllStructs(wants)
  {
    exists choice :: Chosen(cx, wants, m, choice)
  }

  ghost predicate Splits(rows: seq<seq<Bindings>>, row: seq<Bindings>, m: Bindings, before: Bindings, last: Bindings) {
    IsCandidate(rows, before) && last in row && Compatible(before, last) && m == before + last
  }

  lemma {:induction false} ComboShape(rows: seq<seq<Bindings>>, row: seq<Bindings>, combo: seq<Bindings>)
    requires OnePerRow(combo, rows + [row])
    ensures |combo| == |rows| + 1 && combo == combo[..|rows|] + [combo[|rows|]]
  {
  }

  lemma {:induction false} ComboSplits(rows: seq<seq<Bindings>>, row: seq<Bindings>, m: Bindings,
                                       front: seq<Bindings>, last: Bindings)
    requires OnePerRow(front + [last], rows + [row]) && UnionOf(m, front + [last])
    ensures Splits(rows, row, m, BoundPart(m, front), last)
  {
    OnePerRowSnoc(front, last, rows, row);
    UnionFront(m, front, last);
    assert ChosenFrom(rows, BoundPart(m, front), front);
  }

  lemma {:induction false} ChoiceSplits(rows: seq<seq<Bindings>>, row: seq<Bindings>, m: Bindings, combo: seq<Bindings>)
      returns (before: Bindings, last: Bindings)
    requires ChosenFrom(rows + [row], m, combo)
    ensures Splits(rows, row, m, before, last)
  {
    ComboShape(rows, row, combo);
    var front := combo[..|rows|];
    last := combo[|rows|];
    before := BoundPart(m, front);
    ComboSplits(rows, row, m, front, last);
  }

  lemma {:induction false} CandidateSplits(rows: seq<seq<Bindings>>, row: seq<Bindings>, m: Bindings)
      returns (before: Bindings, last: Bindings)
    requires IsCandidate(rows + [row], m)
    ensures Splits(rows, row, m, before, last)
  {
    var combo :| ChosenFrom(rows + [row], m, combo);
    before, last := ChoiceSplits(rows, row, m, combo);
  }

  lemma {:induction false} SplitsCandidate(rows: seq<seq<Bindings>>, row: seq<Bindings>, m: Bindings, before: Bindings,
                                           last: Bindings)
    requires Splits(rows, row, m, before, last)
    ensures IsCandidate(rows + [row], m)
  {
    var combo :| ChosenFrom(rows, before, combo);
    UnionSnoc(before, combo, last);
    OnePerRowSnoc(combo, last, rows, row);
    assert ChosenFrom(rows + [row], m, combo + [last]);
  }

  ghost predicate SameCandidates(rows: seq<seq<Bindings>>, padded: seq<seq<Bindings>>) {
    forall m :: IsCandidate(rows, m) <==> IsCandidate(padded, m)
  }

  lemma {:induction false} SplitsSame(rows: seq<seq<Bindings>>, padded: seq<seq<Bindings>>, row: seq<Bindings>,
                                      m: Bindings)
    requires SameCandidates(rows, padded) && IsCandidate(rows + [row], m)
    ensures IsCandidate(padded + [row], m)
  {
    var before, last := CandidateSplits(rows, row, m);
    assert IsCandidate(padded, before);
    SplitsCandidate(padded, row, m, before, last);
  }

  lemma {:induction false} OneMoreRow(rows: seq<seq<Bindings>>, padded: seq<seq<Bindings>>, row: seq<Bindings>)
    requires SameCandidates(rows, padded)
    ensures SameCandidates(rows + [row], padded + [row])
  {
    forall m | IsCandidate(rows + [row], m) ensures IsCandidate(padded + [row], m) { SplitsSame(rows, padded, row, m); }
    forall m | IsCandidate(padded + [row], m) ensures IsCandidate(rows + [row], m) { SplitsSame(padded, rows, row, m); }
  }

  lemma {:induction false} UnitUnion(m: Bindings)
    ensures m + map[] == m
  {
  }

  lemma {:induction false} EmptyRow(padded: seq<seq<Bindings>>)
    ensures SameCandidates(padded, padded + [[map[]]])
  {
    var none: Bindings := map[];
    forall m | IsCandidate(padded, m) ensures IsCandidate(padded + [[none]], m) {
      UnitUnion(m);
      assert none in [none] && Compatible(m, none);
      SplitsCandidate(padded, [none], m, m, none);
    }
    forall m | IsCandidate(padded + [[none]], m) ensures IsCandidate(padded, m) {
      var before, last := CandidateSplits(padded, [none], m);
      assert last == none;
      UnitUnion(before);
    }
  }

  /** The rows of candidates, and the parameters that have none. */
  method FindRows(cx: Context, wants: seq<Want>) returns (rows: seq<seq<Bindings>>, missing: set<nat>)
    requires AllStructs(wants)
    requires forall k :: 0 <= k < |wants| ==> InScope(wants[k].ty, cx.abilities)
    ensures forall m :: IsCandidate(rows, m) <==> Choosable(cx, wants, m)
    ensures forall k :: k in missing <==> 0 <= k < |wants| && !Served(cx, wants[k])
  {
    rows, missing := [], {};
    ghost var padded: seq<seq<Bindings>> := [];
    for n := 0 to |wants|
      invariant |padded| == n
      invariant forall k, c :: 0 <= k < n ==> (c in padded[k] <==> ChoiceFor(cx, wants[k], c))
      invariant SameCandidates(rows, padded)
      invariant forall k :: k in missing <==> 0 <= k < n && !Served(cx, wants[k])
    {
      var row := SampleObject(cx.w, cx.existing, cx.abilities, wants[n]);
      OneMoreRow(rows, padded, row);
      EmptyRow(padded);
      if row == [] {
        assert forall m :: Offered(cx.w, cx.existing, cx.abilities, wants[n], m) ==> m in row;
        missing := missing + {n};
        padded := padded + [[map[]]];
      } else {
        assert Offered(cx.w, cx.existing, cx.abilities, wants[n], row[0]);
        rows := rows + [row];
        padded := padded + [row];
      }
    }
    forall m, choice ensures ChosenFrom(padded, m, choice) <==> Chosen(cx, wants, m, choice) {}
  }

  // ----- serving the parameters one after the other

  datatype NewInput =
    | ImmOrOwned(ty: Tag, id: nat, version: nat, digest: nat)
    | SharedObject(ty: Tag, id: nat, initialVersion: nat, mutable: bool)

  function InputFor(info: ObjectInfo, id: nat): NewInput
    requires HasGate(info.owner)
  {
    match info.owner
    case SharedOwner(v) => SharedObject(info.ty, id, v, true)
    case _ => ImmOrOwned(info.ty, id, info.version, info.digest)
  }

  /** What is at hand while arguments are being chosen. */
  datatype Stock = Stock(existing: Existing, used: seq<nat>, inputs: seq<NewInput>)

  /** Whether a listed object may be given to a parameter. */
  predicate Suitable(gate: Gate, listed: Gate) {
    gate == Immutable || listed != Immutable
  }

  function Removed(list: seq<(Argument, Gate)>, k: nat): seq<(Argument, Gate)>
    requires k < |list|
  {
    list[..k] + list[k + 1..]
  }

  /** Entry k of the list of the type is given away; for good, if the parameter takes it by value. */
  ghost predicate Taking(s: Stock, gate: Gate, ty: Tag, k: nat, arg: Argument, s': Stock) {
    && ty in s.existing && k < |s.existing[ty]|
    && Suitable(gate, s.existing[ty][k].1)
    && arg == s.existing[ty][k].0
    && s' == if gate == Owned then s.(existing := s.existing[ty := Removed(s.existing[ty], k)]) else s
  }

  /** An object of the chain that is not in use yet becomes a new input. */
  ghost predicate Importing(w: World, inputLen: nat, s: Stock, gate: Gate, ty: Tag, id: nat, arg: Argument, s': Stock) {
    && ty !in s.existing
    && id in Available(w, ty, gate) && id !in s.used
    && arg == Argument.Input(inputLen + |s.inputs|)
    && HasGate(w.infos[id].owner)
    && s' == s.(used := s.used + [id], inputs := s.inputs + [InputFor(w.infos[id], id)])
  }

  ghost predicate Exhausted(w: World, s: Stock, gate: Gate, ty: Tag) {
    if ty in s.existing then forall e :: e in s.existing[ty] ==> !Suitable(gate, e.1)
    else forall id :: id in Available(w, ty, gate) ==> id in s.used
  }

  /** One parameter served, or not: an object is given whenever there is one, listed objects first. */
  ghost predicate Step(w: World, inputLen: nat, s: Stock, gate: Gate, ty: Tag, arg: Option<Argument>, s': Stock) {
    match arg
    case None => s' == s && Exhausted(w, s, gate, ty)
    case Some(a) =>
      || (exists k :: Taking(s, gate, ty, k, a, s'))
      || (exists id :: Importing(w, inputLen, s, gate, ty, id, a, s'))
  }

  method Serve(w: World, inputLen: nat, s: Stock, gate: Gate, ty: Tag) returns (arg: Option<Argument>, s': Stock)
    ensures Step(w, inputLen, s, gate, ty, arg, s')
  {
    if ty in s.existing {
      var list := s.existing[ty];
      var fitting := set k: nat | k < |list| && Suitable(gate, list[k].1);
      if fitting == {} {
        forall e | e in list ensures !Suitable(gate, e.1) {
          var k :| 0 <= k < |list| && list[k] == e;
          assert k !in fitting;
        }
        return None, s;
      }
      var k :| k in fitting;
      arg := Some(list[k].0);
      s' := if gate == Owned then s.(existing := s.existing[ty := Removed(list, k)]) else s;
      assert Taking(s, gate, ty, k, list[k].0, s');
    } else {
      var free := set id | id in Available(w, ty, gate) && id !in s.used;
      if free == {} {
        forall id | id in Available(w, ty, gate) ensures id in s.used { assert id !in free; }
        return None, s;
      }
      var id :| id in free;
      var input: NewInput;
      match w.infos[id].owner {
        case AddressOwner(_) => input := ImmOrOwned(w.infos[id].ty, id, w.infos[id].version, w.infos[id].digest);
        case ImmutableOwner => input := ImmOrOwned(w.infos[id].ty, id, w.infos[id].version, w.infos[id].digest);
        case SharedOwner(v) => input := SharedObject(w.infos[id].ty, id, v, true);
        case _ => assert false;
      }
      s' := s.(used := s.used + [id], inputs := s.inputs + [input]);
      var a := Argument.Input(inputLen + |s'.inputs| - 1);
      arg := Some(a);
      assert Importing(w, inputLen, s, gate, ty, id, a, s');
    }
  }
}
