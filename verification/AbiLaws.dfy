/** Matching and substitution undo each other; substitutions compose. */
module AbiLaws {
  import opened Wrappers
  import opened Abi

  ghost predicate Extends(big: Bindings, small: Bindings) {
    forall i :: i in small ==> i in big && big[i] == small[i]
  }

  /** Bindings for exactly the type parameters that occur in t. */
  ghost predicate Covers(m: Bindings, t: Token) {
    forall i: nat :: i in m <==> ContainsParam(t, i)
  }

  ghost predicate CoversAll(m: Bindings, ts: seq<Token>) {
    forall i: nat :: i in m <==> AnyContainsParam(ts, i)
  }

  ghost function Restrict(m: Bindings, t: Token): Bindings {
    map i | i in m && ContainsParam(t, i) :: m[i]
  }

  ghost function RestrictAll(m: Bindings, ts: seq<Token>): Bindings {
    map i | i in m && AnyContainsParam(ts, i) :: m[i]
  }

  /** At every struct that matching compares, signature and tag have the same number of arguments. */
  ghost predicate ArityAgrees(t: Token, tag: Tag)
    decreases t, 1
  {
    match t
    case Vector(inner) => tag.VectorTag? ==> ArityAgrees(inner, tag.elem)
    case Instance(h, args) => tag.StructTag? ==> |args| == |tag.tys| && ArityAgreesAll(args, tag.tys)
    case Struct(_) => tag.StructTag? ==> tag.tys == []
    case Ref(inner) => ArityAgrees(inner, tag)
    case MutRef(inner) => ArityAgrees(inner, tag)
    case _ => true
  }

  ghost predicate ArityAgreesAll(ts: seq<Token>, tags: seq<Tag>)
    requires |ts| == |tags|
    decreases ts, 0
  {
    ts == [] || (ArityAgrees(ts[0], tags[0]) && ArityAgreesAll(ts[1..], tags[1..]))
  }

  // ----- substitution depends on the bindings of the parameters that occur

  lemma {:induction false} SubstExtends(t: Token, m: Bindings, big: Bindings)
    requires Extends(big, m) && Subst(t, m).Some?
    ensures Subst(t, big) == Subst(t, m)
    decreases t, 1
  {
    match t
    case Vector(inner) => SubstExtends(inner, m, big);
    case Instance(_, args) => SubstAllExtends(args, m, big);
    case Ref(inner) => SubstExtends(inner, m, big);
    case MutRef(inner) => SubstExtends(inner, m, big);
    case _ =>
  }

  lemma {:induction false} SubstAllExtends(ts: seq<Token>, m: Bindings, big: Bindings)
    requires Extends(big, m) && SubstAll(ts, m).Some?
    ensures SubstAll(ts, big) == SubstAll(ts, m)
    decreases ts, 0
  {
    if ts != [] {
      SubstExtends(ts[0], m, big);
      SubstAllExtends(ts[1..], m, big);
    }
  }

  // ----- a match, when arities agree, gives the tag back

  lemma {:induction false} MatchThenSubst(t: Token, tag: Tag)
    requires Extract(t, tag).Some? && ArityAgrees(t, tag)
    ensures Subst(t, Extract(t, tag).value) == Some(tag)
    ensures Covers(Extract(t, tag).value, t)
    decreases t, 1
  {
    match t
    case Vector(inner) => MatchThenSubst(inner, tag.elem);
    case Instance(_, args) => MatchAllThenSubst(args, tag.tys);
    case Ref(inner) => MatchThenSubst(inner, tag);
    case MutRef(inner) => MatchThenSubst(inner, tag);
    case _ =>
  }

  lemma {:induction false} MatchAllThenSubst(ts: seq<Token>, tags: seq<Tag>)
    requires |ts| == |tags| && ExtractAll(ts, tags).Some? && ArityAgreesAll(ts, tags)
    ensures SubstAll(ts, ExtractAll(ts, tags).value) == Some(tags)
    ensures CoversAll(ExtractAll(ts, tags).value, ts)
    decreases ts, 0
  {
    if ts != [] {
      var m := ExtractAll(ts, tags).value;
      var head, tail := Extract(ts[0], tags[0]).value, ExtractAll(ts[1..], tags[1..]).value;
      MatchThenSubst(ts[0], tags[0]);
      MatchAllThenSubst(ts[1..], tags[1..]);
      SubstExtends(ts[0], head, m);
      SubstAllExtends(ts[1..], tail, m);
      assert [tags[0]] + tags[1..] == tags;
    }
  }

  // ----- what substitution makes, matching takes apart again

  lemma {:induction false} SubstThenMatch(t: Token, m: Bindings)
    requires Subst(t, m).Some?
    ensures Extract(t, Subst(t, m).value) == Some(Restrict(m, t))
    ensures ArityAgrees(t, Subst(t, m).value)
    decreases t, 1
  {
    match t
    case Vector(inner) =>
      SubstThenMatch(inner, m);
      assert Restrict(m, t) == Restrict(m, inner);
    case Instance(_, args) =>
      SubstAllThenMatch(args, m);
      assert Restrict(m, t) == RestrictAll(m, args);
    case Ref(inner) =>
      SubstThenMatch(inner, m);
      assert Restrict(m, t) == Restrict(m, inner);
    case MutRef(inner) =>
      SubstThenMatch(inner, m);
      assert Restrict(m, t) == Restrict(m, inner);
    case Param(i, _) => assert Restrict(m, t) == map[i := m[i]];
    case _ => assert Restrict(m, t) == map[];
  }

  lemma {:induction false} SubstAllThenMatch(ts: seq<Token>, m: Bindings)
    requires SubstAll(ts, m).Some?
    ensures |SubstAll(ts, m).value| == |ts|
    ensures ExtractAll(ts, SubstAll(ts, m).value) == Some(RestrictAll(m, ts))
    ensures ArityAgreesAll(ts, SubstAll(ts, m).value)
    decreases ts, 0
  {
    if ts == [] {
      assert RestrictAll(m, ts) == map[];
    } else {
      SubstThenMatch(ts[0], m);
      SubstAllThenMatch(ts[1..], m);
      var tags := SubstAll(ts, m).value;
      assert tags[1..] == SubstAll(ts[1..], m).value;
      assert Restrict(m, ts[0]) + RestrictAll(m, ts[1..]) == RestrictAll(m, ts);
    }
  }

  lemma {:induction false} RestrictCovering(m: Bindings, t: Token)
    requires Covers(m, t)
    ensures Restrict(m, t) == m
  {
  }

  /** Matching and substitution are inverse: m is the match of t against a tag of agreeing arities exactly
      when m binds the type parameters of t and turns t into that tag. */
  lemma {:induction false} MatchIffSubst(t: Token, tag: Tag, m: Bindings)
    ensures Extract(t, tag) == Some(m) && ArityAgrees(t, tag) <==> Subst(t, m) == Some(tag) && Covers(m, t)
  {
    if Extract(t, tag) == Some(m) && ArityAgrees(t, tag) { MatchThenSubst(t, tag); }
    if Subst(t, m) == Some(tag) && Covers(m, t) {
      SubstThenMatch(t, m);
      RestrictCovering(m, t);
    }
  }

  /** Agreement of arities is exactly what a successful match needs to be undone by substitution. */
  lemma {:induction false} MatchUndoneIffArityAgrees(t: Token, tag: Tag)
    requires Extract(t, tag).Some?
    ensures Subst(t, Extract(t, tag).value) == Some(tag) <==> ArityAgrees(t, tag)
  {
    var m := Extract(t, tag).value;
    if ArityAgrees(t, tag) { MatchThenSubst(t, tag); }
    if Subst(t, m) == Some(tag) { SubstThenMatch(t, m); }
  }

  /** A match that ignores a surplus argument is not undone: what comes back has lost it. */
  lemma {:induction false} SurplusArgumentIsLost(h: StructHandle, i: nat, a: Tag, b: Tag)
    ensures var t := Instance(h, [Param(i, {})]);
            var tag := StructTag(h.moduleId.address, h.moduleId.name, h.name, [a, b]);
            && Extract(t, tag) == Some(map[i := a])
            && Subst(t, map[i := a]) == Some(StructTag(h.moduleId.address, h.moduleId.name, h.name, [a]))
            && !ArityAgrees(t, tag)
  {
    var ts, tags := [Param(i, {})], [a, b];
    var m: Bindings := map[i := a];
    assert ts[1..] == [];
    MergeUnit(Some(m));
    assert ExtractAll(ts, tags) == Some(m);
    assert Subst(ts[0], m) == Some(a) && SubstAll(ts[1..], m) == Some([]);
    assert [a] + [] == [a];
    assert SubstAll(ts, m) == Some([a]);
  }

  // ----- two-stage substitution

  lemma {:induction false} LossyRoundTrip(tag: Tag, m: Bindings)
    ensures Subst(Lossy(tag), m) == Some(tag)
    decreases tag, 1
  {
    match tag
    case PrimTag(_) =>
    case VectorTag(elem) => LossyRoundTrip(elem, m);
    case StructTag(_, _, _, tys) => LossyAllRoundTrip(tys, m);
  }

  lemma {:induction false} LossyAllRoundTrip(tags: seq<Tag>, m: Bindings)
    ensures SubstAll(LossyAll(tags), m) == Some(tags)
    decreases tags, 0
  {
    if tags != [] {
      LossyRoundTrip(tags[0], m);
      LossyAllRoundTrip(tags[1..], m);
      assert LossyAll(tags)[1..] == LossyAll(tags[1..]);
      assert [tags[0]] + tags[1..] == tags;
    }
  }

  /** Substituting in two stages is substituting once, the earlier bindings taking precedence. */
  lemma {:induction false} SubstTwice(t: Token, first: Bindings, second: Bindings)
    ensures Subst(PartialSubst(t, first), second) == Subst(t, second + first)
    decreases t, 1
  {
    match t
    case Vector(inner) => SubstTwice(inner, first, second);
    case Instance(_, args) => SubstAllTwice(args, first, second);
    case Ref(inner) => SubstTwice(inner, first, second);
    case MutRef(inner) => SubstTwice(inner, first, second);
    case Param(i, _) => if i in first { LossyRoundTrip(first[i], second); }
    case _ =>
  }

  lemma {:induction false} SubstAllTwice(ts: seq<Token>, first: Bindings, second: Bindings)
    ensures SubstAll(PartialSubstAll(ts, first), second) == SubstAll(ts, second + first)
    decreases ts, 0
  {
    if ts != [] {
      SubstTwice(ts[0], first, second);
      SubstAllTwice(ts[1..], first, second);
      assert PartialSubstAll(ts, first)[1..] == PartialSubstAll(ts[1..], first);
    }
  }

  // ----- two-sided matching

  function Lookup(m: Bindings, i: nat): Option<Tag> {
    if i in m then Some(m[i]) else None
  }

  /** Two assignments that contain the bindings found and agree on the parameters that met. */
  ghost predicate Realises(f: TwoSided, mine: Bindings, theirs: Bindings) {
    && Extends(mine, f.mine)
    && Extends(theirs, f.theirs)
    && forall k :: 0 <= k < |f.met| ==> Lookup(mine, f.met[k].0) == Lookup(theirs, f.met[k].1)
  }

  lemma {:induction false} RealisesParts(a: TwoSided, b: TwoSided, mine: Bindings, theirs: Bindings)
    requires Join(Some(a), Some(b)).Some?
    requires Realises(Join(Some(a), Some(b)).value, mine, theirs)
    ensures Realises(a, mine, theirs) && Realises(b, mine, theirs)
  {
    var f := Join(Some(a), Some(b)).value;
    forall k | 0 <= k < |a.met| ensures Lookup(mine, a.met[k].0) == Lookup(theirs, a.met[k].1) {
      assert f.met[k] == a.met[k];
    }
    forall k | 0 <= k < |b.met| ensures Lookup(mine, b.met[k].0) == Lookup(theirs, b.met[k].1) {
      assert f.met[|a.met| + k] == b.met[k];
    }
  }

  /** A two-sided match is sound: whatever realises it makes the same type of both signatures. */
  lemma {:induction false} TwoSidedSound(t: Token, u: Token, mine: Bindings, theirs: Bindings)
    requires PartialExtract(t, u).Some? && Realises(PartialExtract(t, u).value, mine, theirs)
    ensures Subst(t, mine) == Subst(u, theirs)
    decreases t, u, 1
  {
    var f := PartialExtract(t, u).value;
    if t.Param? && u.Param? {
      assert f.met[0] == (t.index, u.index);
    } else if t.Param? {
      SubstExtends(u, map[], theirs);
    } else if u.Param? {
      SubstExtends(t, map[], mine);
    } else if t.Struct? && u.Struct? {
    } else if t.Instance? && u.Instance? {
      TwoSidedAllSound(t.args, u.args, mine, theirs);
    } else if (t.MutRef? && u.MutRef?) || (t.Ref? && (u.MutRef? || u.Ref?)) || (t.Vector? && u.Vector?) {
      TwoSidedSound(t.inner, u.inner, mine, theirs);
    } else if t.MutRef? || t.Ref? {
      TwoSidedSound(t.inner, u, mine, theirs);
    }
  }

  lemma {:induction false} TwoSidedAllSound(ts: seq<Token>, us: seq<Token>, mine: Bindings, theirs: Bindings)
    requires |ts| == |us| && PartialExtractAll(ts, us).Some?
    requires Realises(PartialExtractAll(ts, us).value, mine, theirs)
    ensures SubstAll(ts, mine) == SubstAll(us, theirs)
    decreases ts, us, 0
  {
    if ts != [] {
      RealisesParts(PartialExtract(ts[0], us[0]).value, PartialExtractAll(ts[1..], us[1..]).value, mine, theirs);
      TwoSidedSound(ts[0], us[0], mine, theirs);
      TwoSidedAllSound(ts[1..], us[1..], mine, theirs);
    }
  }

  // ----- two-sided matching against a type tag is matching

  /** Instantiated structs have at least one argument, as compiled signatures do. */
  ghost predicate Proper(t: Token)
    decreases t, 1
  {
    match t
    case Vector(inner) => Proper(inner)
    case Instance(_, args) => args != [] && ProperAll(args)
    case Ref(inner) => Proper(inner)
    case MutRef(inner) => Proper(inner)
    case _ => true
  }

  ghost predicate ProperAll(ts: seq<Token>)
    decreases ts, 0
  {
    ts == [] || (Proper(ts[0]) && ProperAll(ts[1..]))
  }

  ghost function OneSided(m: Option<Bindings>): Option<TwoSided> {
    if m.Some? then Some(TwoSided(m.value, map[], [])) else None
  }

  lemma {:induction false} JoinOneSided(a: Option<Bindings>, b: Option<Bindings>)
    ensures Join(OneSided(a), OneSided(b)) == OneSided(Merge(a, b))
  {
    MergeUnit(Some(map[]));
    var none: seq<(nat, nat)> := [];
    assert none + none == none;
  }

  /** The consumers of a tag found by two-sided matching against its embedding are those whose signature
      matches the tag with agreeing arities, with the same bindings. */
  lemma {:induction false} MatchEmbedded(t: Token, tag: Tag)
    requires Proper(t)
    ensures PartialExtract(t, Lossy(tag)) == if ArityAgrees(t, tag) then OneSided(Extract(t, tag)) else None
    decreases t, 1
  {
    match t
    case Param(i, _) => LossyRoundTrip(tag, map[]);
    case Vector(inner) => if tag.VectorTag? { MatchEmbedded(inner, tag.elem); }
    case Ref(inner) => MatchEmbedded(inner, tag);
    case MutRef(inner) => MatchEmbedded(inner, tag);
    case Instance(h, args) =>
      if tag.StructTag? && tag.tys != [] && |args| == |tag.tys| { MatchEmbeddedAll(args, tag.tys); }
    case _ =>
  }

  lemma {:induction false} MatchEmbeddedAll(ts: seq<Token>, tags: seq<Tag>)
    requires |ts| == |tags| && ProperAll(ts)
    ensures PartialExtractAll(ts, LossyAll(tags))
         == if ArityAgreesAll(ts, tags) then OneSided(ExtractAll(ts, tags)) else None
    decreases ts, 0
  {
    if ts != [] {
      MatchEmbedded(ts[0], tags[0]);
      MatchEmbeddedAll(ts[1..], tags[1..]);
      assert LossyAll(tags)[1..] == LossyAll(tags[1..]);
      JoinOneSided(Extract(ts[0], tags[0]), ExtractAll(ts[1..], tags[1..]));
    }
  }

  // ----- two-sided matching is complete, but for what it does not look into

  /** No type parameter meets a signature with type parameters other than one itself, and no reference is offered
      where none, or a mutable one, is asked for. */
  ghost predicate Meets(t: Token, u: Token)
    decreases t, u, 1
  {
    if t.Param? && u.Param? then true
    else if t.Param? then Subst(u, map[]).Some?
    else if u.Param? then Subst(t, map[]).Some?
    else if t.Instance? && u.Instance? then |t.args| == |u.args| ==> MeetAll(t.args, u.args)
    else if (t.MutRef? && u.MutRef?) || (t.Ref? && (u.MutRef? || u.Ref?)) || (t.Vector? && u.Vector?) then
      Meets(t.inner, u.inner)
    else if t.MutRef? || t.Ref? then Meets(t.inner, u)
    else !u.Ref? && !u.MutRef?
  }

  ghost predicate MeetAll(ts: seq<Token>, us: seq<Token>)
    requires |ts| == |us|
    decreases ts, us, 0
  {
    ts == [] || (Meets(ts[0], us[0]) && MeetAll(ts[1..], us[1..]))
  }

  lemma {:induction false} RealisesJoin(a: TwoSided, b: TwoSided, mine: Bindings, theirs: Bindings)
    requires Realises(a, mine, theirs) && Realises(b, mine, theirs)
    ensures Join(Some(a), Some(b)).Some? && Realises(Join(Some(a), Some(b)).value, mine, theirs)
  {
    assert Compatible(a.mine, b.mine) && Compatible(a.theirs, b.theirs);
    var met := a.met + b.met;
    forall k | 0 <= k < |met| ensures Lookup(mine, met[k].0) == Lookup(theirs, met[k].1) {
      assert met[k] == if k < |a.met| then a.met[k] else b.met[k - |a.met|];
    }
  }

  lemma {:induction false} SameArguments(t: Token, u: Token, mine: Bindings, theirs: Bindings)
    requires t.Instance? && u.Instance? && Subst(t, mine).Some? && Subst(t, mine) == Subst(u, theirs)
    ensures SameName(t.handle, u.handle) && |t.args| == |u.args|
    ensures SubstAll(t.args, mine).Some? && SubstAll(t.args, mine) == SubstAll(u.args, theirs)
  {
    SubstAllThenMatch(t.args, mine);
    SubstAllThenMatch(u.args, theirs);
  }

  /** Two signatures with a common instance match exactly when they meet, and the match is one that the instance
      realises. */
  lemma {:induction false} TwoSidedComplete(t: Token, u: Token, mine: Bindings, theirs: Bindings)
    requires Proper(t) && Proper(u) && Subst(t, mine).Some? && Subst(t, mine) == Subst(u, theirs)
    ensures PartialExtract(t, u).Some? <==> Meets(t, u)
    ensures PartialExtract(t, u).Some? ==> Realises(PartialExtract(t, u).value, mine, theirs)
    decreases t, u, 1
  {
    if t.Param? && u.Param? {
    } else if t.Param? {
      if Subst(u, map[]).Some? { SubstExtends(u, map[], theirs); }
    } else if u.Param? {
      if Subst(t, map[]).Some? { SubstExtends(t, map[], mine); }
    } else if t.Instance? && u.Instance? {
      SameArguments(t, u, mine, theirs);
      TwoSidedAllComplete(t.args, u.args, mine, theirs);
    } else if (t.MutRef? && u.MutRef?) || (t.Ref? && (u.MutRef? || u.Ref?)) || (t.Vector? && u.Vector?) {
      TwoSidedComplete(t.inner, u.inner, mine, theirs);
    } else if t.MutRef? || t.Ref? {
      TwoSidedComplete(t.inner, u, mine, theirs);
    } else if t.Struct? && u.Instance? {
      SubstAllThenMatch(u.args, theirs);
    } else if t.Instance? && u.Struct? {
      SubstAllThenMatch(t.args, mine);
    }
  }

  lemma {:induction false} TwoSidedAllComplete(ts: seq<Token>, us: seq<Token>, mine: Bindings, theirs: Bindings)
    requires |ts| == |us| && ProperAll(ts) && ProperAll(us)
    requires SubstAll(ts, mine).Some? && SubstAll(ts, mine) == SubstAll(us, theirs)
    ensures PartialExtractAll(ts, us).Some? <==> MeetAll(ts, us)
    ensures PartialExtractAll(ts, us).Some? ==> Realises(PartialExtractAll(ts, us).value, mine, theirs)
    decreases ts, us, 0
  {
    if ts != [] {
      SubstAllHead(ts, us, mine, theirs);
      TwoSidedComplete(ts[0], us[0], mine, theirs);
      TwoSidedAllComplete(ts[1..], us[1..], mine, theirs);
      var head, tail := PartialExtract(ts[0], us[0]), PartialExtractAll(ts[1..], us[1..]);
      if head.Some? && tail.Some? { RealisesJoin(head.value, tail.value, mine, theirs); }
    }
  }

  lemma {:induction false} SubstAllHead(ts: seq<Token>, us: seq<Token>, mine: Bindings, theirs: Bindings)
    requires |ts| == |us| > 0 && SubstAll(ts, mine).Some? && SubstAll(ts, mine) == SubstAll(us, theirs)
    ensures Subst(ts[0], mine).Some? && Subst(ts[0], mine) == Subst(us[0], theirs)
    ensures SubstAll(ts[1..], mine).Some? && SubstAll(ts[1..], mine) == SubstAll(us[1..], theirs)
  {
    var tags := SubstAll(ts, mine).value;
    assert tags[0] == Subst(ts[0], mine).value == Subst(us[0], theirs).value;
    assert tags[1..] == SubstAll(ts[1..], mine).value;
    assert tags[1..] == SubstAll(us[1..], theirs).value;
  }
}
