/** Objects on chain as the mutators see them. */
module Objects {
  import opened Abi

  datatype Owner =
    | AddressOwner(address: Address)
    | ObjectOwner(address: Address)
    | ImmutableOwner
    | SharedOwner(initialVersion: nat)
    | ConsensusOwner(startVersion: nat, address: Address)

  datatype ObjectInfo = ObjectInfo(ty: Tag, owner: Owner, version: nat, digest: nat)

  datatype Gate = Owned | Immutable | Shared

  /** The gate of an object in a sequence's inputs; other owners are not supported there. */
  predicate HasGate(o: Owner) {
    o.AddressOwner? || o.ImmutableOwner? || o.SharedOwner?
  }

  function GateOf(o: Owner): Gate
    requires HasGate(o)
  {
    match o
    case AddressOwner(_) => Owned
    case ImmutableOwner => Immutable
    case SharedOwner(_) => Shared
  }

  /** `owner_matches_gate` */
  predicate OwnerMatchesGate(o: Owner, gate: Gate, sender: Address) {
    match o
    case AddressOwner(a) => a == sender
    case SharedOwner(_) => true
    case ImmutableOwner => gate == Immutable
    case _ => false
  }

  datatype StructName = StructName(address: Address, modul: string, name: string)

  function NameOf(tag: Tag): StructName
    requires tag.StructTag?
  {
    StructName(tag.address, tag.modul, tag.name)
  }

  /** `get_type_tag_ability`, given the abilities of every struct */
  function TagAbilities(structs: StructName -> Abilities, tag: Tag): Abilities {
    match tag
    case PrimTag(Signer) => {Drop}
    case PrimTag(_) => PRIMITIVES
    case VectorTag(_) => PRIMITIVES
    case StructTag(_, _, _, _) => structs(NameOf(tag))
  }
}
