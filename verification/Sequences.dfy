/** Transaction sequences (crates/movy-types/src/input.rs) and the function signatures behind them. */
module Sequences {
  import opened Abi

  datatype Argument =
    | GasCoin
    | Input(i: nat)
    | Result(i: nat)
    | NestedResult(i: nat, j: nat)

  datatype FunctionIdent = FunctionIdent(address: Address, modul: string, name: string)

  datatype MoveCall = MoveCall(function_: FunctionIdent, typeArguments: seq<Tag>, arguments: seq<Argument>)

  /** A Move call, or one of the other commands, which the mutators pass over. */
  datatype Command = Call(call: MoveCall) | Other(payload: nat)

  datatype FunctionAbi = FunctionAbi(name: string, parameters: seq<Token>, results: seq<Token>,
                                     typeParameters: seq<Abilities>, public_: bool)

  type Functions = map<FunctionIdent, FunctionAbi>

  /** `is_split` */
  predicate IsSplit(c: Command) {
    && c.Call?
    && c.call.function_.address == 2
    && (c.call.function_.modul == "coin" || c.call.function_.modul == "balance")
    && c.call.function_.name == "split"
  }

  predicate RefersTo(a: Argument, idx: nat) {
    (a.Result? || a.NestedResult?) && a.i == idx
  }

  /** A call with an argument that is the result, or part of the result, of command idx. */
  predicate Uses(c: Command, idx: nat) {
    c.Call? && exists k :: 0 <= k < |c.call.arguments| && RefersTo(c.call.arguments[k], idx)
  }
}
