/** Type signatures and type tags, with matching and substitution (crates/movy-types/src/abi.rs). */
module Abi {
  import opened Wrappers

  type Address = nat

  datatype Ability = Copy | Drop | Store | Key
  type Abilities = set<Ability>

  const PRIMITIVES: Abilities := {Copy, Drop, Store}

  datatype ModuleId = ModuleId(address: Address, name: string)
  datatype StructTypeParameter = StructTypeParameter(constraints: Abilities, phantom: bool)
  datatype StructHandle = StructHandle(moduleId: ModuleId, name: string, abilities: Abilities,
                                       typeParameters: seq<StructTypeParameter>)

  datatype Primitive = Bool | U8 | U16 | U32 | U64 | U128 | U256 | AddressType | Signer

  /** `MoveAbiSignatureToken` */
  datatype Token =
    | Prim(p: Primitive)
    | Vector(inner: Token)
    | Struct(handle: StructHandle)
    | Instance(handle: StructHandle, args: seq<Token>)
    | Param(index: nat, constraints: Abilities)
    | Ref(inner: Token)
    | MutRef(inner: Token)

  /** `MoveTypeTag` */
  datatype Tag =
    | PrimTag(p: Primitive)
    | VectorTag(elem: Tag)
    | StructTag(address: Address, modul: string, name: string, tys: seq<Tag>)

  type Bindings = map<nat, Tag>

  predicate Names(h: StructHandle, tag: Tag) {
    tag.StructTag? && h.moduleId.address == tag.address && h.moduleId.name == tag.modul && h.name == tag.name
  }

  // ----- kinds of signature

  predicate IsStruct(t: Token) {
    t.Struct? || t.Instance?
  }

  predicate HandleIs(h: StructHandle, address: Address, modul: string, name: string) {
    h.moduleId.address == address && h.moduleId.name == modul && h.name == name
  }

  /** `is_tx_context` */
  predicate IsTxContext(t: Token) {
    match t
    case Struct(h) => HandleIs(h, 2, "tx_context", "TxContext")
    case Ref(inner) => IsTxContext(inner)
    case MutRef(inner) => IsTxContext(inner)
    case _ => false
  }

  /** `is_balance` */
  predicate IsBalance(t: Token) {
    t.Instance? && HandleIs(t.handle, 2, "balance", "Balance")
  }

  /** `is_hot_potato`: a struct that can be neither dropped nor stored. */
  predicate IsHotPotato(t: Token) {
    match t
    case Struct(h) => !IsTxContext(t) && Drop !in h.abilities && Store !in h.abilities
    case Instance(h, _) => !IsBalance(t) && Drop !in h.abilities && Store !in h.abilities
    case Vector(inner) => IsHotPotato(inner)
    case _ => false
  }

  /** `needs_sample` */
  predicate NeedsSample(t: Token) {
    if IsTxContext(t) then false
    else
      match t
      case Struct(_) => true
      case Instance(_, _) => true
      case Param(_, _) => true
      case Prim(_) => false
      case Ref(b) => IsStruct(b) || b.Param? || NeedsSample(b)
      case MutRef(b) => IsStruct(b) || b.Param? || NeedsSample(b)
      case Vector(b) => IsStruct(b) || b.Param? || NeedsSample(b)
  }

  // ----- substitution

  /** `subst` */
  function Subst(t: Token, m: Bindings): Option<Tag>
    decreases t, 1
  {
    match t
    case Prim(p) => Some(PrimTag(p))
    case Vector(inner) =>
      (match Subst(inner, m)
       case Some(tag) => Some(VectorTag(tag))
       case None => None)
    case Struct(h) =>
      if h.typeParameters == [] then Some(StructTag(h.moduleId.address, h.moduleId.name, h.name, [])) else None
    case Instance(h, args) =>
      (match SubstAll(args, m)
       case Some(tys) => Some(StructTag(h.moduleId.address, h.moduleId.name, h.name, tys))
       case None => None)
    case Param(i, _) => if i in m then Some(m[i]) else None
    case Ref(inner) => Subst(inner, m)
    case MutRef(inner) => Subst(inner, m)
  }

  function SubstAll(ts: seq<Token>, m: Bindings): Option<seq<Tag>>
    decreases ts, 0
  {
    if ts == [] then Some([])
    else
      match (Subst(ts[0], m), SubstAll(ts[1..], m))
      case (Some(tag), Some(tags)) => Some([tag] + tags)
      case _ => None
  }

  /** `from_type_tag_lossy` */
  function Lossy(tag: Tag): Token
    decreases tag, 1
  {
    match tag
    case PrimTag(p) => Prim(p)
    case VectorTag(elem) => Vector(Lossy(elem))
    case StructTag(a, modul, name, tys) =>
      var h := StructHandle(ModuleId(a, modul), name, {}, []);
      if tys == [] then Struct(h) else Instance(h, LossyAll(tys))
  }

  function LossyAll(tags: seq<Tag>): (ts: seq<Token>)
    ensures |ts| == |tags|
    decreases tags, 0
  {
    if tags == [] then [] else [Lossy(tags[0])] + LossyAll(tags[1..])
  }

  /** `partial_subst` */
  function PartialSubst(t: Token, m: Bindings): Token
    decreases t, 1
  {
    match t
    case Vector(inner) => Vector(PartialSubst(inner, m))
    case Instance(h, args) => Instance(h, PartialSubstAll(args, m))
    case Ref(inner) => Ref(PartialSubst(inner, m))
    case MutRef(inner) => MutRef(PartialSubst(inner, m))
    case Param(i, _) => if i in m then Lossy(m[i]) else t
    case Prim(_) => t
    case Struct(_) => t
  }

  function PartialSubstAll(ts: seq<Token>, m: Bindings): (us: seq<Token>)
    ensures |us| == |ts|
    decreases ts, 0
  {
    if ts == [] then [] else [PartialSubst(ts[0], m)] + PartialSubstAll(ts[1..], m)
  }

  /** `contains_type_param` */
  predicate ContainsParam(t: Token, i: nat)
    decreases t, 1
  {
    match t
    case Param(j, _) => i == j
    case Vector(inner) => ContainsParam(inner, i)
    case Ref(inner) => ContainsParam(inner, i)
    case MutRef(inner) => ContainsParam(inner, i)
    case Instance(_, args) => AnyContainsParam(args, i)
    case _ => false
  }

  predicate AnyContainsParam(ts: seq<Token>, i: nat)
    decreases ts, 0
  {
    ts != [] && (ContainsParam(ts[0], i) || AnyContainsParam(ts[1..], i))
  }

  // ----- matching

  ghost predicate Compatible(a: Bindings, b: Bindings) {
    forall i :: i in a && i in b ==> a[i] == b[i]
  }

  /** The union of two sets of bindings, when they do not contradict each other. */
  ghost function Merge(a: Option<Bindings>, b: Option<Bindings>): Option<Bindings> {
    if a.Some? && b.Some? && Compatible(a.value, b.value) then Some(a.value + b.value) else None
  }

  /** `extract_ty_args`: the bindings under which t becomes the tag. Surplus arguments on either side of a
      struct are not looked at. */
  ghost function Extract(t: Token, tag: Tag): Option<Bindings>
    decreases t, 1
  {
    match t
    case Vector(inner) => if tag.VectorTag? then Extract(inner, tag.elem) else None
    case Instance(h, args) => if Names(h, tag) then ExtractAll(args, tag.tys) else None
    case Struct(h) => if Names(h, tag) && h.typeParameters == [] then Some(map[]) else None
    case Ref(inner) => Extract(inner, tag)
    case MutRef(inner) => Extract(inner, tag)
    case Param(i, _) => Some(map[i := tag])
    case Prim(p) => if tag == PrimTag(p) then Some(map[]) else None
  }

  ghost function ExtractAll(ts: seq<Token>, tags: seq<Tag>): Option<Bindings>
    decreases ts, 0
  {
    if ts == [] || tags == [] then Some(map[])
    else Merge(Extract(ts[0], tags[0]), ExtractAll(ts[1..], tags[1..]))
  }

  lemma {:induction false} CompatibleUnion(x: Bindings, y: Bindings, z: Bindings)
    requires Compatible(x, y)
    ensures Compatible(x + y, z) <==> Compatible(x, z) && Compatible(y, z)
    ensures Compatible(z, x + y) <==> Compatible(z, x) && Compatible(z, y)
  {
    assert forall i :: i in x ==> (x + y)[i] == x[i];
    assert forall i :: i in y ==> (x + y)[i] == y[i];
  }

  lemma {:induction false} MergeAssociates(a: Option<Bindings>, b: Option<Bindings>, c: Option<Bindings>)
    ensures Merge(Merge(a, b), c) == Merge(a, Merge(b, c))
  {
    if a.Some? && b.Some? && c.Some? {
      var x, y, z := a.value, b.value, c.value;
      if Compatible(x, y) { CompatibleUnion(x, y, z); }
      if Compatible(y, z) { CompatibleUnion(y, z, x); }
      assert (x + y) + z == x + (y + z);
    }
  }

  lemma {:induction false} MergeUnit(a: Option<Bindings>)
    ensures Merge(a, Some(map[])) == a && Merge(Some(map[]), a) == a
  {
    if a.Some? { assert a.value + map[] == a.value == map[] + a.value; }
  }

  /** Adds bindings one at a time, stopping at the first contradiction. */
  method MergeInto(acc: Bindings, more: Bindings) returns (r: Option<Bindings>)
    ensures r == Merge(Some(acc), Some(more))
  {
    var todo, out := more.Keys, acc;
    while todo != {}
      invariant todo <= more.Keys
      invariant out.Keys == acc.Keys + (more.Keys - todo)
      invariant forall i :: i in acc ==> out[i] == acc[i]
      invariant forall i :: i in more && i !in todo ==> out[i] == more[i]
      decreases todo
    {
      var i :| i in todo;
      if i in out && out[i] != more[i] {
        assert i in acc;
        return None;
      }
      out := out[i := more[i]];
      todo := todo - {i};
    }
    assert out == acc + more;
    r := Some(out);
  }

  /** `extract_ty_args` */
  method ExtractTyArgs(t: Token, tag: Tag) returns (r: Option<Bindings>)
    ensures r == Extract(t, tag)
    decreases t
  {
    match t
    case Vector(inner) =>
      if tag.VectorTag? {
        r := ExtractTyArgs(inner, tag.elem);
      } else {
        r := None;
      }
    case Instance(h, args) =>
      if !Names(h, tag) {
        return None;
      }
      var tys := tag.tys;
      var n := if |args| <= |tys| then |args| else |tys|;
      var acc: Bindings := map[];
      ghost var all := ExtractAll(args, tys);
      MergeUnit(all);
      assert args[0..] == args && tys[0..] == tys;
      for k := 0 to n
        invariant Merge(Some(acc), ExtractAll(args[k..], tys[k..])) == all
      {
        var sub := ExtractTyArgs(args[k], tys[k]);
        assert args[k..][1..] == args[k + 1..] && tys[k..][1..] == tys[k + 1..];
        MergeAssociates(Some(acc), sub, ExtractAll(args[k + 1..], tys[k + 1..]));
        if sub.None? {
          return None;
        }
        var merged := MergeInto(acc, sub.value);
        if merged.None? {
          return None;
        }
        acc := merged.value;
      }
      MergeUnit(Some(acc));
      r := Some(acc);
    case Struct(h) =>
      r := if Names(h, tag) && h.typeParameters == [] then Some(map[]) else None;
    case Ref(inner) => r := ExtractTyArgs(inner, tag);
    case MutRef(inner) => r := ExtractTyArgs(inner, tag);
    case Param(i, _) => r := Some(map[i := tag]);
    case Prim(p) => r := if tag == PrimTag(p) then Some(map[]) else None;
  }

  // ----- two-sided matching

  /** The outcome of matching two signatures: bindings for the first, bindings for the second, and the pairs
      of type parameters that met. */
  datatype TwoSided = TwoSided(mine: Bindings, theirs: Bindings, met: seq<(nat, nat)>)

  ghost function Join(a: Option<TwoSided>, b: Option<TwoSided>): Option<TwoSided> {
    if a.None? || b.None? then None
    else
      match (Merge(Some(a.value.mine), Some(b.value.mine)), Merge(Some(a.value.theirs), Some(b.value.theirs)))
      case (Some(mine), Some(theirs)) => Some(TwoSided(mine, theirs, a.value.met + b.value.met))
      case _ => None
  }

  const NOTHING := TwoSided(map[], map[], [])

  predicate SameName(a: StructHandle, b: StructHandle) {
    a.moduleId == b.moduleId && a.name == b.name
  }

  /** `partial_extract_ty_args`: `t` is what a consumer takes and `u` what a producer gives. */
  ghost function PartialExtract(t: Token, u: Token): Option<TwoSided>
    decreases t, u, 1
  {
    if t.Param? && u.Param? then Some(TwoSided(map[], map[], [(t.index, u.index)]))
    else if t.Param? then
      var ground := Subst(u, map[]);
      if ground.Some? then Some(TwoSided(map[t.index := ground.value], map[], [])) else None
    else if u.Param? then
      var ground := Subst(t, map[]);
      if ground.Some? then Some(TwoSided(map[], map[u.index := ground.value], [])) else None
    else if t.Struct? && u.Struct? then
      if SameName(t.handle, u.handle) && |t.handle.typeParameters| == |u.handle.typeParameters|
      then Some(NOTHING) else None
    else if t.Instance? && u.Instance? then
      if SameName(t.handle, u.handle) && |t.args| == |u.args| then PartialExtractAll(t.args, u.args) else None
    else if (t.MutRef? && u.MutRef?) || (t.Ref? && (u.MutRef? || u.Ref?)) || (t.Vector? && u.Vector?) then
      PartialExtract(t.inner, u.inner)
    else if t.MutRef? || t.Ref? then PartialExtract(t.inner, u)
    else if t == u then Some(NOTHING)
    else None
  }

  ghost function PartialExtractAll(ts: seq<Token>, us: seq<Token>): Option<TwoSided>
    requires |ts| == |us|
    decreases ts, us, 0
  {
    if ts == [] then Some(NOTHING)
    else Join(PartialExtract(ts[0], us[0]), PartialExtractAll(ts[1..], us[1..]))
  }

  lemma {:induction false} JoinAssociates(a: Option<TwoSided>, b: Option<TwoSided>, c: Option<TwoSided>)
    ensures Join(Join(a, b), c) == Join(a, Join(b, c))
  {
    if a.Some? && b.Some? && c.Some? {
      MergeAssociates(Some(a.value.mine), Some(b.value.mine), Some(c.value.mine));
      MergeAssociates(Some(a.value.theirs), Some(b.value.theirs), Some(c.value.theirs));
      assert a.value.met + b.value.met + c.value.met == a.value.met + (b.value.met + c.value.met);
    }
  }

  lemma {:induction false} JoinUnit(a: Option<TwoSided>)
    ensures Join(a, Some(NOTHING)) == a && Join(Some(NOTHING), a) == a
  {
    if a.Some? {
      MergeUnit(Some(a.value.mine));
      MergeUnit(Some(a.value.theirs));
      assert a.value.met + [] == a.value.met == [] + a.value.met;
    }
  }

  /** `partial_extract_ty_args` */
  method PartialExtractTyArgs(t: Token, u: Token) returns (r: Option<TwoSided>)
    ensures r == PartialExtract(t, u)
    decreases t, u
  {
    if t.Param? && u.Param? {
      return Some(TwoSided(map[], map[], [(t.index, u.index)]));
    } else if t.Param? {
      var ground := Subst(u, map[]);
      return if ground.Some? then Some(TwoSided(map[t.index := ground.value], map[], [])) else None;
    } else if u.Param? {
      var ground := Subst(t, map[]);
      return if ground.Some? then Some(TwoSided(map[], map[u.index := ground.value], [])) else None;
    } else if t.Struct? && u.Struct? {
      if !SameName(t.handle, u.handle) || |t.handle.typeParameters| != |u.handle.typeParameters| {
        return None;
      }
    } else if t.Instance? && u.Instance? {
      if !SameName(t.handle, u.handle) || |t.args| != |u.args| {
        return None;
      }
      var ts, us := t.args, u.args;
      var acc := NOTHING;
      ghost var all := PartialExtractAll(ts, us);
      JoinUnit(all);
      assert ts[0..] == ts && us[0..] == us;
      for k := 0 to |ts|
        invariant Join(Some(acc), PartialExtractAll(ts[k..], us[k..])) == all
      {
        var sub := PartialExtractTyArgs(ts[k], us[k]);
        assert ts[k..][1..] == ts[k + 1..] && us[k..][1..] == us[k + 1..];
        JoinAssociates(Some(acc), sub, PartialExtractAll(ts[k + 1..], us[k + 1..]));
        if sub.None? {
          return None;
        }
        var mine := MergeInto(acc.mine, sub.value.mine);
        if mine.None? {
          return None;
        }
        var theirs := MergeInto(acc.theirs, sub.value.theirs);
        if theirs.None? {
          return None;
        }
        acc := TwoSided(mine.value, theirs.value, acc.met + sub.value.met);
      }
      JoinUnit(Some(acc));
      return Some(acc);
    } else if (t.MutRef? && u.MutRef?) || (t.Ref? && (u.MutRef? || u.Ref?)) || (t.Vector? && u.Vector?) {
      r := PartialExtractTyArgs(t.inner, u.inner);
      return r;
    } else if t.MutRef? || t.Ref? {
      r := PartialExtractTyArgs(t.inner, u);
      return r;
    } else if t != u {
      return None;
    }
    r := Some(NOTHING);
  }
}
