/** Arguments and type arguments for a whole call, and what appending the call does to its sequence
    (crates/movy-fuzz/src/mutators/object_data.rs, `try_construct_args`). */
module CallArguments {
  import opened Wrappers
  import opened Abi
  import opened AbiLaws
  import opened Sequences
  import opened Objects
  import opened Ledger
  import opened LedgerLaws
  import opened Candidates
  import opened Sampling
  import opened Construct
  import opened Filling

  // ----- the chosen type arguments

  /** Whatever matches a parameter has as many type arguments as the parameter. */
  ghost predicate AritiesAgree(cx: Context, t: Token) {
    forall tag :: (tag in cx.existing || tag in cx.w.pool) && Extract(t, tag).Some? ==> ArityAgrees(t, tag)
  }

  lemma {:induction false} ChoiceInstantiates(cx: Context, want: Want, c: Bindings, m: Bindings, tag: Tag)
    requires IsStruct(want.ty) && AritiesAgree(cx, want.ty) && Extends(m, c)
    requires Offers(cx.w, cx.existing, cx.abilities, want, tag, c)
    ensures Subst(want.ty, m) == Some(tag)
  {
    MatchThenSubst(want.ty, tag);
    SubstExtends(want.ty, c, m);
  }

  /** The chosen type arguments turn every parameter that has candidates into a type on offer to it, so that
      substitution cannot fail. */
  lemma {:induction false} ChosenTypeIsOffered(cx: Context, wants: seq<Want>, m: Bindings, k: nat)
    requires AllStructs(wants) && k < |wants| && AritiesAgree(cx, wants[k].ty)
    requires Choosable(cx, wants, m) && Served(cx, wants[k])
    ensures exists tag, c ::
              Offers(cx.w, cx.existing, cx.abilities, wants[k], tag, c) && Subst(wants[k].ty, m) == Some(tag)
  {
    var choice :| Chosen(cx, wants, m, choice);
    assert ChoiceFor(cx, wants[k], choice[k]);
    var tag :| Offers(cx.w, cx.existing, cx.abilities, wants[k], tag, choice[k]);
    ChoiceInstantiates(cx, wants[k], choice[k], m, tag);
  }

  lemma {:induction false} OfferedBinding(cx: Context, want: Want, c: Bindings, i: nat)
    requires IsStruct(want.ty) && Offered(cx.w, cx.existing, cx.abilities, want, c) && i in c
    ensures i < |cx.abilities| && cx.abilities[i] <= TagAbilities(cx.w.structs, c[i]) && ContainsParam(want.ty, i)
  {
    var tag :| Offers(cx.w, cx.existing, cx.abilities, want, tag, c);
    assert Fits(cx.w, cx.abilities, want.ty, tag, c);
    MatchInScope(want.ty, tag);
  }

  /** The binding of a type parameter has the abilities that the function demands, and comes from a parameter. */
  lemma {:induction false} ChosenHasAbilities(cx: Context, wants: seq<Want>, m: Bindings, i: nat) returns (k: nat)
    requires AllStructs(wants) && Choosable(cx, wants, m) && i in m
    ensures i < |cx.abilities| && cx.abilities[i] <= TagAbilities(cx.w.structs, m[i])
    ensures k < |wants| && ContainsParam(wants[k].ty, i)
  {
    var choice :| Chosen(cx, wants, m, choice);
    assert BoundIn(choice, i);
    k :| 0 <= k < |choice| && i in choice[k];
    assert ChoiceFor(cx, wants[k], choice[k]) && Extends(m, choice[k]);
    OfferedBinding(cx, wants[k], choice[k], i);
  }

  // ----- the whole call

  /** What arguments are wanted for: the objects there are, the number of inputs, the objects in use, the parameters,
      and the type arguments that are already fixed. */
  datatype Request = Request(cx: Context, inputLen: nat, used: seq<nat>, params: seq<Token>, fixed: Bindings)

  datatype ConstructResult =
    | Ok(args: seq<Argument>, tyArgs: seq<Tag>, inputs: seq<NewInput>)
    | PartialFound(found: Given, bindings: Bindings, inputs: seq<NewInput>)
    | Unsolvable

  function Numbered(tys: seq<Tag>): Bindings {
    map i: nat | i < |tys| :: tys[i]
  }

  ghost predicate AllAcceptable(params: seq<Token>) {
    forall k :: 0 <= k < |params| ==> Acceptable(params[k])
  }

  /** The chain's index by type is right about the types of objects. */
  ghost predicate PoolTyped(w: World) {
    forall ty, id :: ty in w.pool && id in w.pool[ty] && id in w.infos ==> w.infos[id].ty == ty
  }

  ghost function JobOf(req: Request, m: Bindings): (job: Job)
    requires AllAcceptable(req.params)
    ensures AllStructs(job.wants) && |job.wants| == |req.params|
  {
    Job(req.cx, req.inputLen, req.used, WantsOf(req.params, req.fixed), m)
  }

  /** The argument denotes an object of the type. */
  ghost predicate OfType(req: Request, inputs: seq<NewInput>, ty: Tag, a: Argument) {
    if New(req.inputLen, a) then a.i - req.inputLen < |inputs| && inputs[a.i - req.inputLen].ty == ty
    else exists g :: Listed(req.cx.existing, ty, a, g)
  }

  /** Every argument found is of the type that its parameter has under the bindings. */
  ghost predicate WellTyped(req: Request, bindings: Bindings, inputs: seq<NewInput>, args: Given)
    requires |args| == |req.params|
  {
    forall k :: 0 <= k < |args| && args[k].Some? ==>
      var ty := Subst(req.params[k], bindings);
      ty.Some? && OfType(req, inputs, ty.value, args[k].value)
  }

  /** All that is promised of arguments found under type arguments m beside those already fixed. */
  ghost predicate Found(req: Request, m: Bindings, bindings: Bindings, inputs: seq<NewInput>, args: Given)
    requires AllAcceptable(req.params)
  {
    && Choosable(req.cx, WantsOf(req.params, req.fixed), m)
    && |args| == |req.params| && Filled(JobOf(req, m), inputs, args)
    && (forall i :: i in m ==> i !in req.fixed)
    && Extends(bindings, m)
    && WellTyped(req, bindings, inputs, args)
  }

  lemma {:induction false} FilledWellTyped(req: Request, m: Bindings, inputs: seq<NewInput>, args: Given)
    requires AllAcceptable(req.params) && PoolTyped(req.cx.w) && |args| == |req.params|
    requires Filled(JobOf(req, m), inputs, args)
    ensures WellTyped(req, m + req.fixed, inputs, args)
  {
    forall k | 0 <= k < |args| && args[k].Some?
      ensures Subst(req.params[k], m + req.fixed).Some?
      ensures OfType(req, inputs, Subst(req.params[k], m + req.fixed).value, args[k].value)
    {
      assert ServedWell(JobOf(req, m), inputs, args, k);
      WantInstantiates(req.params[k], req.fixed, m);
    }
  }

  lemma {:induction false} OccursNotFixed(params: seq<Token>, fixed: Bindings, k: nat, i: nat)
    requires AllAcceptable(params) && k < |params| && ContainsParam(WantsOf(params, fixed)[k].ty, i)
    ensures i !in fixed
  {
    WantContains(params[k], fixed, i);
  }

  lemma {:induction false} ChosenNotFixed(cx: Context, params: seq<Token>, fixed: Bindings, wants: seq<Want>,
                                          m: Bindings, i: nat)
    requires AllAcceptable(params) && wants == WantsOf(params, fixed) && Choosable(cx, wants, m) && i in m
    ensures i !in fixed && i < |cx.abilities|
  {
    var k := ChosenHasAbilities(cx, wants, m, i);
    OccursNotFixed(params, fixed, k, i);
  }

  /** Bindings for the type parameters that occur are enough. */
  lemma {:induction false} SubstInScope(t: Token, abilities: seq<Abilities>, some: Bindings, all: Bindings)
    requires InScope(t, abilities) && Subst(t, some).Some?
    requires forall i :: i in some && i < |abilities| ==> i in all && all[i] == some[i]
    ensures Subst(t, all) == Subst(t, some)
  {
    SubstThenMatch(t, some);
    MatchThenSubst(t, Subst(t, some).value);
    SubstExtends(t, Restrict(some, t), all);
  }

  /** A sample type for the abilities, or u64 if there is none. */
  ghost predicate SampledFor(w: World, abilities: Abilities, tag: Tag) {
    if abilities in w.byAbility && w.byAbility[abilities] != [] then tag in w.byAbility[abilities]
    else tag == PrimTag(U64)
  }

  /** `gen_type_tag_by_abilities` */
  method SampleType(w: World, abilities: Abilities) returns (tag: Tag)
    ensures SampledFor(w, abilities, tag)
  {
    if abilities in w.byAbility && w.byAbility[abilities] != [] {
      var pick :| 0 <= pick < |w.byAbility[abilities]|;
      return w.byAbility[abilities][pick];
    }
    tag := PrimTag(U64);
  }

  /** All type arguments of the call: chosen, fixed, or else sampled. */
  method TypeArguments(cx: Context, fixed: Bindings, m: Bindings) returns (tys: seq<Tag>)
    ensures |tys| == |cx.abilities|
    ensures forall i :: i in m && i < |tys| ==> tys[i] == m[i]
    ensures forall i :: i in fixed && i !in m && i < |tys| ==> tys[i] == fixed[i]
    ensures forall i :: 0 <= i < |tys| && i !in m && i !in fixed ==> SampledFor(cx.w, cx.abilities[i], tys[i])
  {
    tys := [];
    for n := 0 to |cx.abilities|
      invariant |tys| == n
      invariant forall i :: i in m && i < n ==> tys[i] == m[i]
      invariant forall i :: i in fixed && i !in m && i < n ==> tys[i] == fixed[i]
      invariant forall i :: 0 <= i < n && i !in m && i !in fixed ==> SampledFor(cx.w, cx.abilities[i], tys[i])
    {
      var sampled := SampleType(cx.w, cx.abilities[n]);
      tys := tys + [if n in m then m[n] else if n in fixed then fixed[n] else sampled];
    }
  }

  lemma {:induction false} WellTypedByNumber(req: Request, bindings: Bindings, tys: seq<Tag>, inputs: seq<NewInput>,
                                             args: Given)
    requires |args| == |req.params| && WellTyped(req, bindings, inputs, args)
    requires forall k :: 0 <= k < |req.params| ==> InScope(req.params[k], req.cx.abilities)
    requires |tys| == |req.cx.abilities| && forall i :: i in bindings && i < |tys| ==> tys[i] == bindings[i]
    ensures WellTyped(req, Numbered(tys), inputs, args)
  {
    forall k | 0 <= k < |args| && args[k].Some?
      ensures Subst(req.params[k], Numbered(tys)) == Subst(req.params[k], bindings)
    {
      SubstInScope(req.params[k], req.cx.abilities, bindings, Numbered(tys));
    }
  }

  function Wrapped(args: seq<Argument>): (r: Given)
    ensures |r| == |args|
  {
    seq(|args|, k requires 0 <= k < |args| => Some(args[k]))
  }

  /** The callers' side: no transaction context among the parameters, all type parameters known, types of agreeing
      arities, a list without duplicates, and a pool that is right about types. */
  ghost predicate Proper(req: Request) {
    && (forall k :: 0 <= k < |req.params| ==>
          !IsTxContext(req.params[k]) && InScope(req.params[k], req.cx.abilities))
    && (forall k :: 0 <= k < |req.params| && Acceptable(req.params[k]) ==>
          AritiesAgree(req.cx, WantOf(req.params[k], req.fixed).ty))
    && NoDuplicates(req.cx.existing) && InputsBelow(req.cx.existing, req.inputLen) && PoolTyped(req.cx.w)
  }

  /** The first pass: the type arguments that all parameters can share, and the parameters without candidates. */
  method ChooseTypes(req: Request, wants: seq<Want>) returns (m: Option<Bindings>, missing: set<nat>)
    requires AllAcceptable(req.params) && Proper(req) && wants == WantsOf(req.params, req.fixed)
    ensures m.Some? <==> exists x :: Choosable(req.cx, wants, x)
    ensures m.Some? ==> Choosable(req.cx, wants, m.value)
    ensures forall k :: k in missing <==> 0 <= k < |wants| && !Served(req.cx, wants[k])
  {
    forall k | 0 <= k < |wants| ensures InScope(wants[k].ty, req.cx.abilities) {
      forall i: nat | ContainsParam(wants[k].ty, i) ensures i < |req.cx.abilities| {
        WantContains(req.params[k], req.fixed, i);
      }
    }
    var rows;
    rows, missing := FindRows(req.cx, wants);
    var candidates := GetTyArgsCandidates(rows);
    forall x ensures x in candidates <==> Choosable(req.cx, wants, x) { CandidatesAreUnions(rows, x); }
    if candidates == [] {
      return None, missing;
    }
    var pick :| 0 <= pick < |candidates|;
    assert candidates[pick] in candidates;
    m := Some(candidates[pick]);
  }

  /** What is promised of a result, given the chosen type arguments m: all arguments with all type arguments, or some
      of them with the bindings so far. */
  ghost predicate Concluded(req: Request, m: Bindings, r: ConstructResult)
    requires AllAcceptable(req.params)
  {
    match r
    case Ok(args, tyArgs, inputs) =>
      && Found(req, m, Numbered(tyArgs), inputs, Wrapped(args))
      && |tyArgs| == |req.cx.abilities|
      && (forall i :: i in req.fixed && i < |tyArgs| ==> tyArgs[i] == req.fixed[i])
      && forall i :: 0 <= i < |tyArgs| && i !in m && i !in req.fixed ==>
           SampledFor(req.cx.w, req.cx.abilities[i], tyArgs[i])
    case PartialFound(found, bindings, inputs) =>
      && Found(req, m, bindings, inputs, found)
      && bindings == m + req.fixed
      && exists k :: 0 <= k < |found| && found[k].None?
    case Unsolvable => false
  }

  function Unwrapped(args: Given): (r: seq<Argument>)
    requires forall k :: 0 <= k < |args| ==> args[k].Some?
    ensures Wrapped(r) == args
  {
    seq(|args|, k requires 0 <= k < |args| => args[k].value)
  }

  lemma {:induction false} FoundUnder(req: Request, m: Bindings, inputs: seq<NewInput>, args: Given)
    requires AllAcceptable(req.params) && Proper(req) && Choosable(req.cx, WantsOf(req.params, req.fixed), m)
    requires |args| == |req.params| && Filled(JobOf(req, m), inputs, args)
    ensures Found(req, m, m + req.fixed, inputs, args)
    ensures forall i :: i in m ==> i !in req.fixed && i < |req.cx.abilities|
  {
    FilledWellTyped(req, m, inputs, args);
    forall i | i in m ensures i !in req.fixed && i < |req.cx.abilities| {
      ChosenNotFixed(req.cx, req.params, req.fixed, WantsOf(req.params, req.fixed), m, i);
    }
  }

  lemma {:induction false} FoundByNumber(req: Request, m: Bindings, tys: seq<Tag>, inputs: seq<NewInput>, args: Given)
    requires AllAcceptable(req.params) && Proper(req) && Found(req, m, m + req.fixed, inputs, args)
    requires |tys| == |req.cx.abilities|
    requires forall i :: i in m ==> i !in req.fixed && i < |tys| && tys[i] == m[i]
    requires forall i :: i in req.fixed && i < |tys| ==> tys[i] == req.fixed[i]
    ensures Found(req, m, Numbered(tys), inputs, args)
  {
    WellTypedByNumber(req, m + req.fixed, tys, inputs, args);
  }

  /** The end of `try_construct_args`: a full result if no parameter is missing, a partial one otherwise. */
  method Conclude(req: Request, m: Bindings, args: Given, inputs: seq<NewInput>, missing: set<nat>)
      returns (r: ConstructResult)
    requires AllAcceptable(req.params) && Proper(req) && Choosable(req.cx, WantsOf(req.params, req.fixed), m)
    requires |args| == |req.params| && Filled(JobOf(req, m), inputs, args)
    requires forall k :: k in missing <==> 0 <= k < |args| && args[k].None?
    ensures Concluded(req, m, r)
  {
    FoundUnder(req, m, inputs, args);
    if missing != {} {
      var k :| k in missing;
      return PartialFound(args, m + req.fixed, inputs);
    }
    forall k | 0 <= k < |args| ensures args[k].Some? { assert k !in missing; }
    var tys := TypeArguments(req.cx, req.fixed, m);
    FoundByNumber(req, m, tys, inputs, args);
    r := Ok(Unwrapped(args), tys, inputs);
  }

  /** `try_construct_args` */
  method TryConstructArgs(req: Request) returns (r: ConstructResult)
    requires Proper(req)
    ensures r.Unsolvable? <==>
            !AllAcceptable(req.params) || !(exists m :: Choosable(req.cx, WantsOf(req.params, req.fixed), m))
    ensures !r.Unsolvable? ==> exists m :: Concluded(req, m, r)
  {
    if exists k :: 0 <= k < |req.params| && !Acceptable(req.params[k]) {
      return Unsolvable;
    }
    var wants := WantsOf(req.params, req.fixed);
    var chosen, missing := ChooseTypes(req, wants);
    if chosen.None? {
      return Unsolvable;
    }
    var m := chosen.value;
    forall k | 0 <= k < |wants| && Served(req.cx, wants[k]) ensures Subst(wants[k].ty, m).Some? {
      ChosenTypeIsOffered(req.cx, wants, m, k);
    }
    var args, inputs, missing' := Fill(Job(req.cx, req.inputLen, req.used, wants, m), missing);
    r := Conclude(req, m, args, inputs, missing');
  }

  // ----- the accounts of a sequence are a proper start

  lemma {:induction false} GroupedNoDuplicates(existing: Existing, live: seq<Entry>)
    requires Grouped(existing, live) && DistinctArgs(live)
    ensures NoDuplicates(existing)
  {
    forall ty, ty', i: nat, j: nat, arg | ListedAt(existing, ty, i, arg) && ListedAt(existing, ty', j, arg)
      ensures ty == ty' && i == j
    {
      ListedOnce(existing, live, arg, ty);
      ListedOnce(existing, live, arg, ty');
    }
  }

  lemma {:induction false} ListedIsLive(existing: Existing, live: seq<Entry>, ty: Tag, arg: Argument, gate: Gate)
    requires Grouped(existing, live) && DistinctArgs(live) && Listed(existing, ty, arg, gate)
    ensures Has(live, arg, ty)
  {
    ListedOnce(existing, live, arg, ty);
    var k :| 0 <= k < |existing[ty]| && existing[ty][k] == (arg, gate);
  }

  /** What `from_ptb` lists for any sequence can be given to `try_construct_args`: nothing is listed twice, and inputs
      are inputs of the sequence. */
  lemma {:induction false} AccountsAreProper(env: Env, inputs: seq<Ledger.Input>, infos: map<nat, ObjectInfo>,
                                             cmds: seq<Command>, existing: Existing)
    requires Readable(inputs, infos)
    requires Grouped(existing, After(env, InputEntries(inputs, infos), cmds, |cmds|).live)
    ensures NoDuplicates(existing) && InputsBelow(existing, |inputs|)
  {
    var start := InputEntries(inputs, infos);
    var live := After(env, start, cmds, |cmds|).live;
    InputsStart(inputs, infos);
    AfterWellKept(env, start, cmds, |cmds|);
    GroupedNoDuplicates(existing, live);
    forall ty, arg, gate | Listed(existing, ty, arg, gate) && arg.Input? ensures arg.i < |inputs| {
      ListedIsLive(existing, live, ty, arg, gate);
      LiveIffAlive(env, start, cmds, |cmds|, arg, ty);
      forall c: nat ensures !MadeBy(env, cmds, c, arg, ty) {}
      assert Has(start, arg, ty);
    }
  }
}
