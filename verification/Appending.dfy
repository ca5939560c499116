/** Appending a call whose arguments were found keeps a sequence linear
    (crates/movy-fuzz/src/mutators/object_data.rs, `from_ptb` and `try_construct_args`). */
module Appending {
  import opened Wrappers
  import opened Abi
  import opened Sequences
  import opened Objects
  import opened Ledger
  import opened LedgerLaws
  import opened Sampling
  import opened Construct
  import opened Filling
  import opened CallArguments

  // ----- more inputs

  lemma {:induction false} HasInput(inputs: seq<Ledger.Input>, infos: map<nat, ObjectInfo>, a: Argument, ty: Tag)
    requires Readable(inputs, infos)
    ensures Has(InputEntries(inputs, infos), a, ty) <==>
            && a.Input? && a.i < |inputs| && inputs[a.i].ObjectInput?
            && infos[inputs[a.i].id].ty == ty
  {
    if inputs != [] {
      var n := |inputs| - 1;
      HasInput(inputs[..n], infos, a, ty);
      if inputs[n].ObjectInput? {
        var info := infos[inputs[n].id];
        HasSnoc(InputEntries(inputs[..n], infos), Entry(Argument.Input(n), info.ty, GateOf(info.owner), false), a, ty);
      }
    }
  }

  ghost predicate Covers(more: seq<Entry>, start: seq<Entry>) {
    forall a, ty :: Has(start, a, ty) ==> Has(more, a, ty)
  }

  lemma {:induction false} FineWithMore(env: Env, start: seq<Entry>, more: seq<Entry>, cmds: seq<Command>, n: nat,
                                        call: MoveCall, f: FunctionAbi, k: nat)
    requires Covers(more, start) && n <= |cmds| && k < Pairs(call, f)
    requires ArgumentFine(After(env, start, cmds, n).live, call, f, k)
    ensures ArgumentFine(After(env, more, cmds, n).live, call, f, k)
  {
    if TakesByValue(f.parameters[k]) {
      var arg, ty := call.arguments[k], TakenType(call, f, k).value;
      HasConsumed(After(env, start, cmds, n).live, call, f, k, arg, ty);
      HasConsumed(After(env, more, cmds, n).live, call, f, k, arg, ty);
      LiveIffAlive(env, start, cmds, n, arg, ty);
      LiveIffAlive(env, more, cmds, n, arg, ty);
    }
  }

  /** A linear sequence is linear with more inputs. */
  lemma {:induction false} LinearWithMore(env: Env, start: seq<Entry>, more: seq<Entry>, cmds: seq<Command>)
    requires Linear(env, start, cmds) && Covers(more, start)
    ensures Linear(env, more, cmds)
  {
    forall n | 0 <= n < |cmds| && cmds[n].Call? ensures CallFine(env, After(env, more, cmds, n).live, cmds[n].call) {
      var call := cmds[n].call;
      assert CallFine(env, After(env, start, cmds, n).live, call);
      var f := env.fs[call.function_];
      forall k | 0 <= k < Pairs(call, f) ensures ArgumentFine(After(env, more, cmds, n).live, call, f, k) {
        FineWithMore(env, start, more, cmds, n, call, f, k);
      }
    }
  }

  // ----- the appended call

  /** The inputs of the sequence, with the new ones after them. */
  function WithNew(inputs: seq<Ledger.Input>, more: seq<NewInput>): seq<Ledger.Input> {
    inputs + seq(|more|, x requires 0 <= x < |more| => ObjectInput(more[x].id))
  }

  /** A sequence with its accounts, and arguments found for a call of f on their basis. */
  ghost predicate Fitting(env: Env, inputs: seq<Ledger.Input>, cmds: seq<Command>, req: Request, m: Bindings,
                          call: MoveCall, f: FunctionAbi, more: seq<NewInput>)
  {
    && Readable(inputs, req.cx.w.infos) && Linear(env, InputEntries(inputs, req.cx.w.infos), cmds)
    && Grouped(req.cx.existing, After(env, InputEntries(inputs, req.cx.w.infos), cmds, |cmds|).live)
    && req.inputLen == |inputs| && req.params == f.parameters && AllAcceptable(req.params)
    && call.function_ in env.fs && env.fs[call.function_] == f && Instantiates(call, f, |f.results|)
    && Found(req, m, Numbered(call.typeArguments), more, Wrapped(call.arguments))
  }

  lemma {:induction false} FoundBrought(req: Request, m: Bindings, bindings: Bindings, inputs: seq<NewInput>,
                                        args: Given, x: nat)
    requires AllAcceptable(req.params) && Found(req, m, bindings, inputs, args) && x < |inputs|
    ensures inputs[x].id in req.cx.w.infos && HasGate(req.cx.w.infos[inputs[x].id].owner)
    ensures inputs[x].ty == req.cx.w.infos[inputs[x].id].ty
  {
    var job := JobOf(req, m);
    assert BroughtFor(req.inputLen + x, args);
    var j :| 0 <= j < |args| && args[j] == Some(Argument.Input(req.inputLen + x));
    assert ServedWell(job, inputs, args, j);
  }

  lemma {:induction false} StillReadable(env: Env, inputs: seq<Ledger.Input>, cmds: seq<Command>, req: Request,
                                         m: Bindings, call: MoveCall, f: FunctionAbi, more: seq<NewInput>)
    requires Fitting(env, inputs, cmds, req, m, call, f, more)
    ensures Readable(WithNew(inputs, more), req.cx.w.infos)
    ensures Covers(InputEntries(WithNew(inputs, more), req.cx.w.infos), InputEntries(inputs, req.cx.w.infos))
  {
    var infos, all := req.cx.w.infos, WithNew(inputs, more);
    forall k | 0 <= k < |all| && all[k].ObjectInput? ensures all[k].id in infos && HasGate(infos[all[k].id].owner) {
      if k >= |inputs| {
        FoundBrought(req, m, Numbered(call.typeArguments), more, Wrapped(call.arguments), k - |inputs|);
      } else {
        assert all[k] == inputs[k];
      }
    }
    forall a, ty | Has(InputEntries(inputs, infos), a, ty) ensures Has(InputEntries(all, infos), a, ty) {
      HasInput(inputs, infos, a, ty);
      HasInput(all, infos, a, ty);
    }
  }

  /** Each by-value argument is at hand when the call is appended. */
  lemma {:induction false} ArgumentAtHand(env: Env, inputs: seq<Ledger.Input>, cmds: seq<Command>, req: Request,
                                          m: Bindings, call: MoveCall, f: FunctionAbi, more: seq<NewInput>, k: nat,
                                          ty: Tag)
    requires Fitting(env, inputs, cmds, req, m, call, f, more) && Readable(WithNew(inputs, more), req.cx.w.infos)
    requires Covers(InputEntries(WithNew(inputs, more), req.cx.w.infos), InputEntries(inputs, req.cx.w.infos))
    requires k < Pairs(call, f) && TakenType(call, f, k) == Some(ty)
    ensures Has(After(env, InputEntries(WithNew(inputs, more), req.cx.w.infos), cmds, |cmds|).live,
                call.arguments[k], ty)
  {
    var infos, arg := req.cx.w.infos, call.arguments[k];
    var start, more' := InputEntries(inputs, infos), InputEntries(WithNew(inputs, more), infos);
    assert TyArgs(call) == Numbered(call.typeArguments);
    assert Wrapped(call.arguments)[k] == Some(arg);
    assert OfType(req, more, ty, arg);
    InputsStart(inputs, infos);
    LiveIffAlive(env, more', cmds, |cmds|, arg, ty);
    if New(req.inputLen, arg) {
      FoundBrought(req, m, Numbered(call.typeArguments), more, Wrapped(call.arguments), arg.i - |inputs|);
      HasInput(WithNew(inputs, more), infos, arg, ty);
      NeverTaken(env, inputs, infos, cmds, arg, ty);
    } else {
      var g :| Listed(req.cx.existing, ty, arg, g);
      AfterWellKept(env, start, cmds, |cmds|);
      ListedIsLive(req.cx.existing, After(env, start, cmds, |cmds|).live, ty, arg, g);
      LiveIffAlive(env, start, cmds, |cmds|, arg, ty);
    }
  }

  lemma {:induction false} NeverTaken(env: Env, inputs: seq<Ledger.Input>, infos: map<nat, ObjectInfo>,
                                      cmds: seq<Command>, arg: Argument, ty: Tag)
    requires Readable(inputs, infos) && Linear(env, InputEntries(inputs, infos), cmds)
    requires arg.Input? && arg.i >= |inputs|
    ensures !TakenIn(env, cmds, 0, |cmds|, arg, ty)
  {
    InputsStart(inputs, infos);
    HasInput(inputs, infos, arg, ty);
    forall c: nat, k: nat ensures !TakesAs(env, cmds, c, k, arg, ty) {
      if TakesAs(env, cmds, c, k, arg, ty) { TakesEarlier(env, InputEntries(inputs, infos), cmds, c, k, arg, ty); }
    }
  }

  /** No by-value argument is given to two by-value parameters. */
  lemma {:induction false} GivenOnce(req: Request, m: Bindings, call: MoveCall, f: FunctionAbi, more: seq<NewInput>,
                                     k: nat, ty: Tag)
    requires req.params == f.parameters && AllAcceptable(req.params) && k < Pairs(call, f)
    requires Found(req, m, Numbered(call.typeArguments), more, Wrapped(call.arguments))
    ensures !TakenAmong(call, f, k, call.arguments[k], ty)
  {
    var args := Wrapped(call.arguments);
    assert Exclusive(req.inputLen, WantsOf(req.params, req.fixed), args);
    forall i | 0 <= i < k && TakenType(call, f, i) == Some(ty) ensures call.arguments[i] != call.arguments[k] {
      assert IsStruct(req.params[i]);
      assert WantsOf(req.params, req.fixed)[i].gate == Owned;
      assert args[i] == Some(call.arguments[i]) && args[k] == Some(call.arguments[k]);
    }
  }

  /** Appending a call with the arguments, type arguments and inputs found for it gives a linear sequence again. */
  lemma {:induction false} AppendKeepsLinear(env: Env, inputs: seq<Ledger.Input>, cmds: seq<Command>, req: Request,
                                             m: Bindings, call: MoveCall, f: FunctionAbi, more: seq<NewInput>)
    requires Fitting(env, inputs, cmds, req, m, call, f, more)
    ensures Readable(WithNew(inputs, more), req.cx.w.infos)
    ensures Linear(env, InputEntries(WithNew(inputs, more), req.cx.w.infos), cmds + [Call(call)])
  {
    var infos := req.cx.w.infos;
    StillReadable(env, inputs, cmds, req, m, call, f, more);
    var start := InputEntries(WithNew(inputs, more), infos);
    LinearWithMore(env, InputEntries(inputs, infos), start, cmds);
    var live := After(env, start, cmds, |cmds|).live;
    forall k | 0 <= k < Pairs(call, f) ensures ArgumentFine(live, call, f, k) {
      if TakesByValue(f.parameters[k]) {
        assert Wrapped(call.arguments)[k] == Some(call.arguments[k]);
        assert TyArgs(call) == Numbered(call.typeArguments);
        var ty := TakenType(call, f, k).value;
        ArgumentAtHand(env, inputs, cmds, req, m, call, f, more, k, ty);
        GivenOnce(req, m, call, f, more, k, ty);
        HasConsumed(live, call, f, k, call.arguments[k], ty);
      }
    }
    LinearAppended(env, start, cmds, call);
  }
}
