/** The concrete side of a Move trace: the values, the events, and the operand stack, locals and loaded objects rebuilt
    from them (crates/movy-replay/src/tracer/state.rs). */
module Trace {
  import opened Bits
  import opened Wrappers
  import opened Keys

  /** A scalar of the given width (booleans have width 1), a value the shadow machine never looks into, or a reference
      with what it was seen to point to. */
  datatype Value =
    | Prim(bits: nat, n: nat)
    | Compound(id: nat)
    | Reference(seen: Value)

  /** `snapshot` */
  function Snapshot(v: Value): Value {
    if v.Reference? then v.seen else v
  }

  /** A scalar within its width. */
  ghost predicate ValidValue(v: Value) {
    v.Prim? ==> 1 <= v.bits <= 256 && v.n < Pow2(v.bits)
  }

  datatype ArithOp = Plus | Minus | Times | Quotient | Remainder
  datatype BitOp = Conj | Disj | Exclusive
  datatype CmpOp = Equal | NotEqual | Less | LessEqual | Greater | GreaterEqual

  /** Instructions that differ only in how their operand is encoded share a constructor: `LdInt` is every
      numeric and constant load, `Bitwise` both the boolean and the integer form, `Pack` and `Unpack` every
      way of building or taking apart a struct, variant or vector, `Pop` everything that takes one operand (aborting,
      borrowing from a vector, switching on a variant), `Discard` what takes several (writing through a reference,
      changing a vector), `Jump` everything that leaves the operand stack alone (branches without condition, calls,
      returns, reading through a reference, no-ops). `UnpackBlind` takes apart a variant of unknown size. */
  datatype Instr =
    | Pop
    | BrTrue
    | BrFalse
    | Jump
    | LdInt(v: Value)
    | LdFalse
    | LdTrue
    | Cast(bits: nat)
    | Arith(aop: ArithOp)
    | Bitwise(bop: BitOp)
    | Shl
    | Shr
    | Not
    | CopyLoc(idx: nat)
    | MoveLoc(idx: nat)
    | StLoc(idx: nat)
    | Compare(cop: CmpOp)
    | Pack(count: nat, packed: Value)
    | Unpack(fields: seq<Value>)
    | UnpackBlind
    | BorrowLoc(idx: nat)
    | Discard(count: nat)

  /** What a comparison of integers says. */
  predicate Truth(op: CmpOp, l: int, r: int) {
    match op
    case Equal => l == r
    case NotEqual => l != r
    case Less => l < r
    case LessEqual => l <= r
    case Greater => l > r
    case GreaterEqual => l >= r
  }

  predicate IsBinary(i: Instr) {
    i.Arith? || i.Bitwise? || i.Shl? || i.Shr? || i.Compare?
  }

  /** Whether a declared local is a scalar held by value. */
  datatype LocalType = Scalar(bits: nat) | NotScalar

  datatype Frame = Frame(id: nat, parameters: seq<Value>, localTypes: seq<LocalType>, native: bool, returnCount: nat)

  /** Where a value is: a local of a frame, an object, or a part of what is at another place. */
  datatype Location = Local(frame: nat, idx: nat) | Global(object_: nat) | Indexed(whole: Location)

  datatype Event =
    | MoveCallStart
    | OpenFrame(entered: Frame)
    | CloseFrame
    | Instruction(instr: Instr)
    | PushEffect(v: Value)
    | PopEffect
    | ReadEffect(frame: nat, idx: nat, moved: bool)
    | WriteEffect(frame: nat, idx: nat, v: Value)
    | ReadElsewhere(moved: bool)
    | WritePart(whole: Location, v: Value)
    | WriteObject(object_: nat, v: Value)
    | LoadObject(object_: nat, v: Value)
    | ErrorEffect

  /** Operand stack, the live frames by trace index, and the objects loaded. */
  datatype State = State(stack: seq<Value>, frames: map<nat, map<nat, Value>>, loaded: map<nat, Value>)

  const EMPTY := State([], map[], map[])

  /** The place that holds the whole of which a location is a part. */
  function Root(l: Location): Location {
    if l.Indexed? then Root(l.whole) else l
  }

  /** The state with the value at a place replaced, through `get_mut_location`; nothing when the source panics: where
      there is no such place, or a reference. */
  function Replace(s: State, place: Location, v: Value): Option<State> {
    match Root(place)
    case Local(frame, idx) =>
      if frame !in s.frames || idx !in s.frames[frame] || s.frames[frame][idx].Reference? then None
      else
        var locals: map<nat, Value> := s.frames[frame][idx := Snapshot(v)];
        Some(s.(frames := s.frames[frame := locals]))
    case Global(id) => if id !in s.loaded then None else Some(s.(loaded := s.loaded[id := Snapshot(v)]))
    case Indexed(_) => None
  }

  /** What is at a place that is not a part of another. */
  function At(s: State, place: Location): Option<Value> {
    match place
    case Local(frame, idx) => if frame in s.frames && idx in s.frames[frame] then Some(s.frames[frame][idx]) else None
    case Global(id) => if id in s.loaded then Some(s.loaded[id]) else None
    case Indexed(_) => None
  }

  lemma {:induction false} RootIsWhole(place: Location)
    ensures !Root(place).Indexed?
  {
    if place.Indexed? { RootIsWhole(place.whole); }
  }

  /** A write puts the value, or what it was seen to point to, at the place that holds the whole, and leaves every other
      place and the operand stack alone; it panics exactly where there is nothing, or a local reference. */
  lemma {:induction false} ReplacePuts(s: State, place: Location, v: Value)
    ensures var was, root := At(s, Root(place)), Root(place);
            Replace(s, place, v).Some? <==> was.Some? && !(root.Local? && was.value.Reference?)
    ensures Replace(s, place, v).Some? ==>
              var s' := Replace(s, place, v).value;
              && At(s', Root(place)) == Some(if v.Reference? then v.seen else v)
              && (forall l :: l != Root(place) ==> At(s', l) == At(s, l))
              && s'.stack == s.stack
  {
    RootIsWhole(place);
  }

  function DropTop<T>(s: seq<T>, n: nat): seq<T> {
    if n <= |s| then s[..|s| - n] else []
  }

  function IndexMap(vs: seq<Value>): map<nat, Value> {
    map i | 0 <= i < |vs| :: vs[i]
  }

  /** The state after an event, or nothing when the tracer would panic on it. */
  function Apply(s: State, e: Event): Option<State> {
    match e
    case OpenFrame(f) =>
      Some(s.(stack := DropTop(s.stack, |f.parameters|), frames := s.frames[f.id := IndexMap(f.parameters)]))
    case CloseFrame =>
      if s.frames.Keys == {} then None else Some(s.(frames := s.frames - {MaxKey(s.frames.Keys)}))
    case PushEffect(v) => Some(s.(stack := s.stack + [v]))
    case PopEffect => if s.stack == [] then None else Some(s.(stack := DropTop(s.stack, 1)))
    case ReadEffect(frame, idx, moved) =>
      if !moved then Some(s)
      else if frame !in s.frames then None
      else Some(s.(frames := s.frames[frame := s.frames[frame] - {idx}]))
    case WriteEffect(frame, idx, v) =>
      if frame !in s.frames then None
      else
        var locals: map<nat, Value> := s.frames[frame][idx := v];
        Some(s.(frames := s.frames[frame := locals]))
    case ReadElsewhere(moved) => if moved then None else Some(s)
    case WritePart(whole, v) => Replace(s, whole, v)
    case WriteObject(id, v) => Replace(s, Global(id), v)
    case LoadObject(id, v) => Some(s.(loaded := s.loaded[id := v]))
    case MoveCallStart => Some(EMPTY)
    case Instruction(_) => Some(s)
    case ErrorEffect => Some(s)
  }

  /** `TraceState` */
  class TraceState {
    var operandStack: seq<Value>
    var callStack: map<nat, map<nat, Value>>
    var loadedState: map<nat, Value>

    ghost function Now(): State
      reads this
    {
      State(operandStack, callStack, loadedState)
    }

    constructor ()
      ensures Now() == EMPTY
    {
      operandStack, callStack, loadedState := [], map[], map[];
    }

    /** Replaces the value at a place, or the whole it is a part of. */
    method WriteAt(place: Location, v: Value)
      requires Replace(Now(), place, v).Some?
      modifies `callStack, `loadedState
      ensures Some(Now()) == Replace(old(Now()), place, v)
      decreases place
    {
      match place
      case Local(frame, idx) =>
        var locals: map<nat, Value> := callStack[frame][idx := Snapshot(v)];
        callStack := callStack[frame := locals];
      case Global(id) => loadedState := loadedState[id := Snapshot(v)];
      case Indexed(whole) => WriteAt(whole, v);
    }

    /** `apply_event` */
    method ApplyEvent(e: Event)
      requires Apply(Now(), e).Some?
      modifies this
      ensures Some(Now()) == Apply(old(Now()), e)
    {
      match e
      case OpenFrame(f) =>
        var locals: map<nat, Value> := map[];
        for i := 0 to |f.parameters|
          invariant locals == IndexMap(f.parameters[..i])
          invariant operandStack == DropTop(old(operandStack), i)
          invariant callStack == old(callStack) && loadedState == old(loadedState)
        {
          if operandStack != [] {
            operandStack := operandStack[..|operandStack| - 1];
          }
          locals := locals[i := f.parameters[i]];
        }
        assert f.parameters[..|f.parameters|] == f.parameters;
        callStack := callStack[f.id := locals];
      case CloseFrame =>
        callStack := callStack - {MaxKey(callStack.Keys)};
      case PushEffect(v) =>
        operandStack := operandStack + [v];
      case PopEffect =>
        operandStack := operandStack[..|operandStack| - 1];
      case ReadEffect(frame, idx, moved) =>
        if moved {
          callStack := callStack[frame := callStack[frame] - {idx}];
        }
      case WriteEffect(frame, idx, v) =>
        var locals: map<nat, Value> := callStack[frame][idx := v];
        callStack := callStack[frame := locals];
      case ReadElsewhere(_) =>
      case WritePart(whole, v) => WriteAt(whole, v);
      case WriteObject(id, v) => WriteAt(Global(id), v);
      case LoadObject(id, v) => loadedState := loadedState[id := v];
      case MoveCallStart =>
        operandStack, callStack, loadedState := [], map[], map[];
      case Instruction(_) =>
      case ErrorEffect =>
    }
  }
}
