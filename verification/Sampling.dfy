/** Which type arguments the objects at hand offer to a parameter
    (crates/movy-fuzz/src/mutators/object_data.rs, `try_sample_object_from_db` and `_from_cache`). */
module Sampling {
  import opened Wrappers
  import opened Abi
  import opened Sequences
  import opened Objects
  import opened Ledger

  /** What the fuzzer knows of the chain: objects by type and by identity, its own address, the abilities of
      structs, and sample types by ability. */
  datatype World = World(pool: map<Tag, set<nat>>, infos: map<nat, ObjectInfo>, attacker: Address,
                         structs: StructName -> Abilities, byAbility: map<Abilities, seq<Tag>>)

  /** A parameter that needs an object: a struct type and how the object is used. */
  datatype Want = Want(ty: Token, gate: Gate)

  predicate HasAbilities(w: World, abilities: seq<Abilities>, m: Bindings)
    requires forall i :: i in m ==> i < |abilities|
  {
    forall i :: i in m ==> abilities[i] <= TagAbilities(w.structs, m[i])
  }

  /** Every type parameter left in t is one of the function's. */
  ghost predicate InScope(t: Token, abilities: seq<Abilities>) {
    forall i: nat :: ContainsParam(t, i) ==> i < |abilities|
  }

  /** The tag matches the parameter, with bindings that have the demanded abilities. */
  ghost predicate Fits(w: World, abilities: seq<Abilities>, t: Token, tag: Tag, m: Bindings) {
    && Extract(t, tag) == Some(m)
    && (forall i :: i in m ==> i < |abilities|)
    && HasAbilities(w, abilities, m)
  }

  // ----- matching binds only parameters that occur

  lemma {:induction false} MatchInScope(t: Token, tag: Tag)
    ensures Extract(t, tag).Some? ==> forall i :: i in Extract(t, tag).value ==> ContainsParam(t, i)
    decreases t, 1
  {
    match t
    case Vector(inner) => if tag.VectorTag? { MatchInScope(inner, tag.elem); }
    case Instance(h, args) => if tag.StructTag? { MatchAllInScope(args, tag.tys); }
    case Ref(inner) => MatchInScope(inner, tag);
    case MutRef(inner) => MatchInScope(inner, tag);
    case _ =>
  }

  lemma {:induction false} MatchAllInScope(ts: seq<Token>, tags: seq<Tag>)
    ensures ExtractAll(ts, tags).Some? ==> forall i :: i in ExtractAll(ts, tags).value ==> AnyContainsParam(ts, i)
    decreases ts, 0
  {
    if ts != [] && tags != [] {
      MatchInScope(ts[0], tags[0]);
      MatchAllInScope(ts[1..], tags[1..]);
    }
  }

  // ----- objects of the chain

  /** `available_objects` */
  function Available(w: World, ty: Tag, gate: Gate): set<nat> {
    if ty !in w.pool then {}
    else set id | id in w.pool[ty] && id in w.infos && OwnerMatchesGate(w.infos[id].owner, gate, w.attacker)
  }

  ghost predicate ChainOffers(w: World, abilities: seq<Abilities>, want: Want, tag: Tag, m: Bindings) {
    Fits(w, abilities, want.ty, tag, m) && Available(w, tag, want.gate) != {}
  }

  /** `try_sample_object_from_db`: the matches against the types of which the chain has a usable object. */
  method SampleFromChain(w: World, abilities: seq<Abilities>, want: Want) returns (row: seq<Bindings>)
    requires InScope(want.ty, abilities)
    ensures forall m :: m in row <==> exists tag :: ChainOffers(w, abilities, want, tag, m)
  {
    row := [];
    var todo := w.pool.Keys;
    while todo != {}
      invariant todo <= w.pool.Keys
      invariant forall m :: m in row ==> exists tag :: ChainOffers(w, abilities, want, tag, m)
      invariant forall tag, m :: tag !in todo && ChainOffers(w, abilities, want, tag, m) ==> m in row
      decreases todo
    {
      var tag :| tag in todo;
      todo := todo - {tag};
      var found := ExtractTyArgs(want.ty, tag);
      MatchInScope(want.ty, tag);
      if found.Some? && HasAbilities(w, abilities, found.value) && Available(w, tag, want.gate) != {} {
        assert ChainOffers(w, abilities, want, tag, found.value);
        row := row + [found.value];
      }
    }
  }

  // ----- objects of the sequence

  /** Whether a listed object is counted when looking for types that can serve a parameter. */
  predicate Promising(gate: Gate, listed: Gate) {
    match gate
    case Owned => listed == Owned
    case Immutable => true
    case Shared => listed != Immutable
  }

  predicate ListPromises(list: seq<(Argument, Gate)>, gate: Gate) {
    gate == Immutable || exists k :: 0 <= k < |list| && Promising(gate, list[k].1)
  }

  ghost predicate ListOffers(w: World, existing: Existing, abilities: seq<Abilities>, want: Want, tag: Tag, m: Bindings)
  {
    tag in existing && Fits(w, abilities, want.ty, tag, m) && ListPromises(existing[tag], want.gate)
  }

  /** `try_sample_object_from_cache`: the matches against the types under which a usable object is listed. A list
      left empty still counts for an immutable borrow. */
  method SampleFromList(w: World, existing: Existing, abilities: seq<Abilities>, want: Want)
      returns (row: seq<Bindings>)
    requires InScope(want.ty, abilities)
    ensures forall m :: m in row <==> exists tag :: ListOffers(w, existing, abilities, want, tag, m)
  {
    row := [];
    var todo := existing.Keys;
    while todo != {}
      invariant todo <= existing.Keys
      invariant forall m :: m in row ==> exists tag :: ListOffers(w, existing, abilities, want, tag, m)
      invariant forall tag, m :: tag !in todo && ListOffers(w, existing, abilities, want, tag, m) ==> m in row
      decreases todo
    {
      var tag :| tag in todo;
      todo := todo - {tag};
      var found := ExtractTyArgs(want.ty, tag);
      MatchInScope(want.ty, tag);
      if found.Some? && HasAbilities(w, abilities, found.value) && ListPromises(existing[tag], want.gate) {
        assert ListOffers(w, existing, abilities, want, tag, found.value);
        row := row + [found.value];
      }
    }
  }

  // ----- both

  /** Some object of type tag is on offer to the parameter, with bindings m. Only types with the key ability are
      looked for on chain. */
  ghost predicate Offers(w: World, existing: Existing, abilities: seq<Abilities>, want: Want, tag: Tag, m: Bindings)
    requires IsStruct(want.ty)
  {
    || ListOffers(w, existing, abilities, want, tag, m)
    || (Key in want.ty.handle.abilities && ChainOffers(w, abilities, want, tag, m))
  }

  ghost predicate Offered(w: World, existing: Existing, abilities: seq<Abilities>, want: Want, m: Bindings)
    requires IsStruct(want.ty)
  {
    exists tag :: Offers(w, existing, abilities, want, tag, m)
  }

  method SampleObject(w: World, existing: Existing, abilities: seq<Abilities>, want: Want) returns (row: seq<Bindings>)
    requires IsStruct(want.ty) && InScope(want.ty, abilities)
    ensures forall m :: m in row <==> Offered(w, existing, abilities, want, m)
  {
    row := SampleFromList(w, existing, abilities, want);
    if Key in want.ty.handle.abilities {
      var more := SampleFromChain(w, abilities, want);
      row := row + more;
    }
    forall m ensures m in row <==> Offered(w, existing, abilities, want, m) {
      if m in row {
        if tag :| ListOffers(w, existing, abilities, want, tag, m) {
          assert Offers(w, existing, abilities, want, tag, m);
        } else {
          var tag :| ChainOffers(w, abilities, want, tag, m);
          assert Offers(w, existing, abilities, want, tag, m);
        }
      }
    }
  }
}
