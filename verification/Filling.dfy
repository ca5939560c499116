/** What every step of serving parameters keeps, and what a whole call of `try_construct_args` therefore gives. */
module Filling {
  import opened Wrappers
  import opened Abi
  import opened AbiLaws
  import opened Sequences
  import opened Objects
  import opened Ledger
  import opened LedgerLaws
  import opened Candidates
  import opened Sampling
  import opened Construct

  /** The arguments found so far, parameter by parameter. */
  type Given = seq<Option<Argument>>

  /** What the second pass works on: the objects to choose from, the number of inputs there are, the objects in use,
      what the parameters want, and the chosen type arguments. */
  datatype Job = Job(cx: Context, inputLen: nat, used: seq<nat>, wants: seq<Want>, m: Bindings)

  ghost predicate Listed(existing: Existing, ty: Tag, arg: Argument, gate: Gate) {
    ty in existing && (arg, gate) in existing[ty]
  }

  ghost predicate ListedAt(existing: Existing, ty: Tag, i: nat, arg: Argument) {
    ty in existing && i < |existing[ty]| && existing[ty][i].0 == arg
  }

  /** No argument is listed twice, under one type or under two. */
  ghost predicate NoDuplicates(existing: Existing) {
    forall ty, ty', i, j, arg ::
      ListedAt(existing, ty, i, arg) && ListedAt(existing, ty', j, arg) ==> ty == ty' && i == j
  }

  ghost predicate InputsBelow(existing: Existing, inputLen: nat) {
    forall ty, arg, gate :: Listed(existing, ty, arg, gate) && arg.Input? ==> arg.i < inputLen
  }

  /** Given by value to one of the parameters served so far. */
  ghost predicate Spent(wants: seq<Want>, args: Given, arg: Argument)
    requires |args| <= |wants|
  {
    exists j :: 0 <= j < |args| && wants[j].gate == Owned && args[j] == Some(arg)
  }

  // ----- the lists

  ghost predicate ListsKept(start: Existing, existing: Existing, wants: seq<Want>, args: Given)
    requires |args| <= |wants|
  {
    && existing.Keys == start.Keys
    && NoDuplicates(existing)
    && forall ty, arg, gate ::
         Listed(existing, ty, arg, gate) <==> Listed(start, ty, arg, gate) && !Spent(wants, args, arg)
  }

  lemma {:induction false} RemovedElements(list: seq<(Argument, Gate)>, k: nat, e: (Argument, Gate))
    requires k < |list|
    requires forall i, j :: 0 <= i < j < |list| ==> list[i].0 != list[j].0
    ensures e in Removed(list, k) <==> e in list && e.0 != list[k].0
  {
    var rest := Removed(list, k);
    if e in rest {
      var i :| 0 <= i < |rest| && rest[i] == e;
      assert e == if i < k then list[i] else list[i + 1];
    }
    if e in list && e.0 != list[k].0 {
      var i :| 0 <= i < |list| && list[i] == e;
      assert e == if i < k then rest[i] else rest[i - 1];
    }
  }

  lemma {:induction false} RemoveKeepsNoDuplicates(existing: Existing, ty: Tag, k: nat)
    requires NoDuplicates(existing) && ty in existing && k < |existing[ty]|
    ensures NoDuplicates(existing[ty := Removed(existing[ty], k)])
  {
    var after := existing[ty := Removed(existing[ty], k)];
    forall t, t', i: nat, j: nat, arg | ListedAt(after, t, i, arg) && ListedAt(after, t', j, arg)
      ensures t == t' && i == j
    {
      var i' := if t == ty && i >= k then i + 1 else i;
      var j' := if t' == ty && j >= k then j + 1 else j;
      assert ListedAt(existing, t, i', arg) && ListedAt(existing, t', j', arg);
    }
  }

  lemma {:induction false} RemoveUnlists(existing: Existing, ty: Tag, k: nat, t: Tag, arg: Argument, gate: Gate)
    requires NoDuplicates(existing) && ty in existing && k < |existing[ty]|
    ensures Listed(existing[ty := Removed(existing[ty], k)], t, arg, gate)
       <==> Listed(existing, t, arg, gate) && arg != existing[ty][k].0
  {
    var list := existing[ty];
    assert ListedAt(existing, ty, k, list[k].0);
    if t == ty {
      forall i: nat, j: nat | i < j < |list| ensures list[i].0 != list[j].0 {
        assert ListedAt(existing, ty, i, list[i].0) && ListedAt(existing, ty, j, list[j].0);
      }
      RemovedElements(list, k, (arg, gate));
    } else if t in existing && (arg, gate) in existing[t] {
      var i: nat :| i < |existing[t]| && existing[t][i] == (arg, gate);
      assert ListedAt(existing, t, i, arg);
    }
  }

  lemma {:induction false} SpentSnoc(wants: seq<Want>, args: Given, next: Option<Argument>, arg: Argument)
    requires |args| < |wants|
    ensures Spent(wants, args + [next], arg)
       <==> Spent(wants, args, arg) || (wants[|args|].gate == Owned && next == Some(arg))
  {
    var all := args + [next];
    if Spent(wants, args, arg) {
      var j :| 0 <= j < |args| && wants[j].gate == Owned && args[j] == Some(arg);
      assert all[j] == Some(arg);
    }
    if wants[|args|].gate == Owned && next == Some(arg) { assert all[|args|] == Some(arg); }
  }

  lemma {:induction false} TakingKeepsLists(start: Existing, s: Stock, wants: seq<Want>, args: Given, ty: Tag, k: nat,
                                            a: Argument, s': Stock)
    requires |args| < |wants| && ListsKept(start, s.existing, wants, args)
    requires Taking(s, wants[|args|].gate, ty, k, a, s')
    ensures ListsKept(start, s'.existing, wants, args + [Some(a)])
  {
    var owned := wants[|args|].gate == Owned;
    if owned { RemoveKeepsNoDuplicates(s.existing, ty, k); }
    forall t, arg, gate
      ensures Listed(s'.existing, t, arg, gate) <==> Listed(start, t, arg, gate) && !Spent(wants, args + [Some(a)], arg)
    {
      SpentSnoc(wants, args, Some(a), arg);
      if owned { RemoveUnlists(s.existing, ty, k, t, arg, gate); }
    }
  }

  lemma {:induction false} UnlistedKeepsLists(start: Existing, existing: Existing, wants: seq<Want>, args: Given,
                                              next: Option<Argument>)
    requires |args| < |wants| && ListsKept(start, existing, wants, args)
    requires forall ty, gate :: next.Some? ==> !Listed(start, ty, next.value, gate)
    ensures ListsKept(start, existing, wants, args + [next])
  {
    forall t, arg, gate
      ensures Listed(existing, t, arg, gate) <==> Listed(start, t, arg, gate) && !Spent(wants, args + [next], arg)
    {
      SpentSnoc(wants, args, next, arg);
    }
  }

  // ----- identities

  /** The objects brought in are distinct, and none was in use before. */
  ghost predicate FreshIds(used: seq<nat>, inputs: seq<NewInput>) {
    && (forall i, j :: 0 <= i < j < |inputs| ==> inputs[i].id != inputs[j].id)
    && (forall i :: 0 <= i < |inputs| ==> inputs[i].id !in used)
  }

  ghost predicate IdsKept(used: seq<nat>, s: Stock) {
    && FreshIds(used, s.inputs)
    && forall id :: id in s.used <==> id in used || exists j :: 0 <= j < |s.inputs| && s.inputs[j].id == id
  }

  lemma {:induction false} ImportingKeepsIds(used: seq<nat>, w: World, inputLen: nat, s: Stock, gate: Gate, ty: Tag,
                                             id: nat, a: Argument, s': Stock)
    requires IdsKept(used, s) && Importing(w, inputLen, s, gate, ty, id, a, s')
    ensures IdsKept(used, s')
  {
    var n := |s.inputs|;
    assert s'.inputs[n].id == id;
    forall x ensures x in s'.used <==> x in used || exists j :: 0 <= j < |s'.inputs| && s'.inputs[j].id == x {
      if j :| 0 <= j < n && s.inputs[j].id == x { assert s'.inputs[j].id == x; }
    }
  }

  // ----- one argument, one parameter

  predicate New(inputLen: nat, arg: Argument) {
    arg.Input? && arg.i >= inputLen
  }

  /** An argument given by value, or brought in for a parameter, is not given to a later one. */
  ghost predicate Exclusive(inputLen: nat, wants: seq<Want>, args: Given)
    requires |args| <= |wants|
  {
    forall i, j :: 0 <= i < j < |args| && args[i].Some? && args[i] == args[j]
      ==> wants[i].gate != Owned && !New(inputLen, args[i].value)
  }

  ghost predicate InputsMade(count: nat, args: Given) {
    forall i :: 0 <= i < |args| && args[i].Some? && args[i].value.Input? ==> args[i].value.i < count
  }

  lemma {:induction false} TakingExclusive(start: Existing, inputLen: nat, s: Stock, wants: seq<Want>, args: Given,
                                           ty: Tag, k: nat, a: Argument, s': Stock)
    requires |args| < |wants| && ListsKept(start, s.existing, wants, args) && InputsBelow(start, inputLen)
    requires Exclusive(inputLen, wants, args) && InputsMade(inputLen + |s.inputs|, args)
    requires Taking(s, wants[|args|].gate, ty, k, a, s')
    ensures Exclusive(inputLen, wants, args + [Some(a)]) && InputsMade(inputLen + |s'.inputs|, args + [Some(a)])
    ensures exists gate :: Listed(start, ty, a, gate) && Suitable(wants[|args|].gate, gate)
  {
    assert Listed(s.existing, ty, a, s.existing[ty][k].1);
    assert Listed(start, ty, a, s.existing[ty][k].1) && !Spent(wants, args, a);
    assert !New(inputLen, a);
  }

  lemma {:induction false} ImportingExclusive(inputLen: nat, w: World, s: Stock, wants: seq<Want>, args: Given,
                                              ty: Tag, id: nat, a: Argument, s': Stock)
    requires |args| < |wants| && Exclusive(inputLen, wants, args) && InputsMade(inputLen + |s.inputs|, args)
    requires Importing(w, inputLen, s, wants[|args|].gate, ty, id, a, s')
    ensures Exclusive(inputLen, wants, args + [Some(a)]) && InputsMade(inputLen + |s'.inputs|, args + [Some(a)])
  {
  }

  // ----- where an argument comes from, and why there is none

  /** The new input is an object of the chain of the given type that the parameter may use. */
  ghost predicate Brought(w: World, gate: Gate, ty: Tag, input: NewInput) {
    && input.id in Available(w, ty, gate)
    && HasGate(w.infos[input.id].owner)
    && input == InputFor(w.infos[input.id], input.id)
  }

  /** The argument denotes an object of the type: one of the sequence, listed under it, or one of the chain, if none is
      listed. */
  ghost predicate Provided(job: Job, inputs: seq<NewInput>, gate: Gate, ty: Tag, a: Argument) {
    if New(job.inputLen, a) then
      && ty !in job.cx.existing && a.i - job.inputLen < |inputs|
      && Brought(job.cx.w, gate, ty, inputs[a.i - job.inputLen])
    else exists g :: Listed(job.cx.existing, ty, a, g) && Suitable(gate, g)
  }

  /** An earlier parameter brought the object in. */
  ghost predicate BroughtEarlier(inputLen: nat, inputs: seq<NewInput>, args: Given, id: nat) {
    exists j :: 0 <= j < |args| && args[j].Some? && New(inputLen, args[j].value)
             && args[j].value.i - inputLen < |inputs| && inputs[args[j].value.i - inputLen].id == id
  }

  /** Nothing suitable of the type is left for the next parameter: of a listed type, every suitable object was given
      away by value; of another, every object of the chain was in use from the start or brought in earlier. */
  ghost predicate AllGone(job: Job, inputs: seq<NewInput>, args: Given, ty: Tag)
    requires |args| < |job.wants|
  {
    var gate, start := job.wants[|args|].gate, job.cx.existing;
    if ty in start then forall a, g :: Listed(start, ty, a, g) && Suitable(gate, g) ==> Spent(job.wants, args, a)
    else forall id :: id in Available(job.cx.w, ty, gate) ==>
           id in job.used || BroughtEarlier(job.inputLen, inputs, args, id)
  }

  /** Every new input was brought in for one of the parameters. */
  ghost predicate AllBrought(inputLen: nat, inputs: seq<NewInput>, args: Given) {
    forall i :: inputLen <= i < inputLen + |inputs| ==> BroughtFor(i, args)
  }

  ghost predicate BroughtFor(i: nat, args: Given) {
    exists j :: 0 <= j < |args| && args[j] == Some(Argument.Input(i))
  }

  lemma {:induction false} BroughtForSnoc(i: nat, args: Given, next: Option<Argument>)
    ensures BroughtFor(i, args + [next]) <==> BroughtFor(i, args) || next == Some(Argument.Input(i))
  {
    var all := args + [next];
    if BroughtFor(i, args) {
      var j :| 0 <= j < |args| && args[j] == Some(Argument.Input(i));
      assert all[j] == args[j];
    }
    assert all[|args|] == next;
  }

  lemma {:induction false} BroughtMeans(inputLen: nat, used: seq<nat>, s: Stock, args: Given, id: nat)
    requires IdsKept(used, s) && AllBrought(inputLen, s.inputs, args)
    ensures id in s.used <==> id in used || BroughtEarlier(inputLen, s.inputs, args, id)
  {
    if x :| 0 <= x < |s.inputs| && s.inputs[x].id == id {
      assert BroughtFor(inputLen + x, args);
      var j :| 0 <= j < |args| && args[j] == Some(Argument.Input(inputLen + x));
      assert New(inputLen, args[j].value);
    }
  }

  lemma {:induction false} ExhaustedIffAllGone(job: Job, s: Stock, args: Given, ty: Tag)
    requires |args| < |job.wants| && ListsKept(job.cx.existing, s.existing, job.wants, args)
    requires IdsKept(job.used, s) && AllBrought(job.inputLen, s.inputs, args)
    ensures Exhausted(job.cx.w, s, job.wants[|args|].gate, ty) <==> AllGone(job, s.inputs, args, ty)
  {
    if ty in job.cx.existing {
      forall a, g
        ensures (a, g) in s.existing[ty] <==> Listed(job.cx.existing, ty, a, g) && !Spent(job.wants, args, a)
      {
        assert Listed(s.existing, ty, a, g) <==> (a, g) in s.existing[ty];
      }
    } else {
      forall id ensures id in s.used <==> id in job.used || BroughtEarlier(job.inputLen, s.inputs, args, id) {
        BroughtMeans(job.inputLen, job.used, s, args, id);
      }
    }
  }

  /** The k-th parameter gets nothing: it had no candidates, or nothing suitable is left when its turn comes. */
  ghost predicate Unserved(job: Job, inputs: seq<NewInput>, args: Given, k: nat)
    requires AllStructs(job.wants) && k < |args| <= |job.wants|
  {
    Served(job.cx, job.wants[k]) ==>
      var ty := Subst(job.wants[k].ty, job.m);
      ty.Some? && AllGone(job, inputs, args[..k], ty.value)
  }

  /** How the k-th parameter was served: with nothing exactly if it has to be, otherwise with an object of its type. */
  ghost predicate ServedWell(job: Job, inputs: seq<NewInput>, args: Given, k: nat)
    requires AllStructs(job.wants) && k < |args| <= |job.wants|
  {
    && (args[k].None? <==> Unserved(job, inputs, args, k))
    && (args[k].Some? ==>
          var ty := Subst(job.wants[k].ty, job.m);
          ty.Some? && Provided(job, inputs, job.wants[k].gate, ty.value, args[k].value))
  }

  lemma {:induction false} BroughtLater(inputLen: nat, inputs: seq<NewInput>, more: seq<NewInput>, args: Given, id: nat)
    requires inputs <= more && InputsMade(inputLen + |inputs|, args)
    ensures BroughtEarlier(inputLen, inputs, args, id) <==> BroughtEarlier(inputLen, more, args, id)
  {
  }

  lemma {:induction false} AllGoneLater(job: Job, inputs: seq<NewInput>, more: seq<NewInput>, args: Given, ty: Tag)
    requires |args| < |job.wants| && inputs <= more && InputsMade(job.inputLen + |inputs|, args)
    ensures AllGone(job, inputs, args, ty) <==> AllGone(job, more, args, ty)
  {
    forall id
      ensures BroughtEarlier(job.inputLen, inputs, args, id) <==> BroughtEarlier(job.inputLen, more, args, id)
    {
      BroughtLater(job.inputLen, inputs, more, args, id);
    }
  }

  lemma {:induction false} ServedWellLater(job: Job, inputs: seq<NewInput>, more: seq<NewInput>, args: Given,
                                           next: Option<Argument>, k: nat)
    requires AllStructs(job.wants) && k < |args| < |job.wants| && ServedWell(job, inputs, args, k)
    requires inputs <= more && InputsMade(job.inputLen + |inputs|, args)
    ensures ServedWell(job, more, args + [next], k)
  {
    var all, ty := args + [next], Subst(job.wants[k].ty, job.m);
    assert all[k] == args[k] && all[..k] == args[..k];
    if ty.Some? { AllGoneLater(job, inputs, more, args[..k], ty.value); }
  }

  // ----- all together

  ghost predicate Filled(job: Job, inputs: seq<NewInput>, args: Given)
    requires AllStructs(job.wants) && |args| <= |job.wants|
  {
    && FreshIds(job.used, inputs) && AllBrought(job.inputLen, inputs, args)
    && Exclusive(job.inputLen, job.wants, args)
    && forall k :: 0 <= k < |args| ==> ServedWell(job, inputs, args, k)
  }

  ghost predicate Serving(job: Job, s: Stock, args: Given)
    requires AllStructs(job.wants) && |args| <= |job.wants|
  {
    && ListsKept(job.cx.existing, s.existing, job.wants, args)
    && IdsKept(job.used, s)
    && InputsMade(job.inputLen + |s.inputs|, args)
    && Filled(job, s.inputs, args)
  }

  lemma {:induction false} FilledSnoc(job: Job, inputs: seq<NewInput>, more: seq<NewInput>, args: Given,
                                      next: Option<Argument>)
    requires AllStructs(job.wants) && |args| < |job.wants| && Filled(job, inputs, args)
    requires inputs <= more && InputsMade(job.inputLen + |inputs|, args)
    requires FreshIds(job.used, more) && AllBrought(job.inputLen, more, args + [next])
    requires Exclusive(job.inputLen, job.wants, args + [next])
    requires ServedWell(job, more, args + [next], |args|)
    ensures Filled(job, more, args + [next])
  {
    forall k | 0 <= k < |args| ensures ServedWell(job, more, args + [next], k) {
      ServedWellLater(job, inputs, more, args, next, k);
    }
  }

  lemma {:induction false} BroughtSnoc(inputLen: nat, inputs: seq<NewInput>, args: Given, next: Option<Argument>)
    requires AllBrought(inputLen, inputs, args)
    ensures AllBrought(inputLen, inputs, args + [next])
  {
    forall i | inputLen <= i < inputLen + |inputs| ensures BroughtFor(i, args + [next]) {
      BroughtForSnoc(i, args, next);
    }
  }

  /** A parameter for which there is nothing. */
  lemma {:induction false} NoneServedWell(job: Job, s: Stock, args: Given)
    requires AllStructs(job.wants) && |args| < |job.wants| && Serving(job, s, args)
    requires Served(job.cx, job.wants[|args|]) ==>
               var ty := Subst(job.wants[|args|].ty, job.m);
               ty.Some? && Exhausted(job.cx.w, s, job.wants[|args|].gate, ty.value)
    ensures Serving(job, s, args + [None])
  {
    var n, all, ty := |args|, args + [None], Subst(job.wants[|args|].ty, job.m);
    assert all[..n] == args;
    if ty.Some? { ExhaustedIffAllGone(job, s, args, ty.value); }
    UnlistedKeepsLists(job.cx.existing, s.existing, job.wants, args, None);
    BroughtSnoc(job.inputLen, s.inputs, args, None);
    FilledSnoc(job, s.inputs, s.inputs, args, None);
  }

  /** A parameter that gets a listed object. */
  lemma {:induction false} TakingServesWell(job: Job, s: Stock, args: Given, ty: Tag, k: nat, a: Argument, s': Stock)
    requires AllStructs(job.wants) && |args| < |job.wants| && InputsBelow(job.cx.existing, job.inputLen)
    requires Serving(job, s, args) && Served(job.cx, job.wants[|args|])
    requires Subst(job.wants[|args|].ty, job.m) == Some(ty)
    requires Taking(s, job.wants[|args|].gate, ty, k, a, s')
    ensures Serving(job, s', args + [Some(a)])
  {
    var n, all := |args|, args + [Some(a)];
    assert all[..n] == args;
    ExhaustedIffAllGone(job, s, args, ty);
    assert s.existing[ty][k] in s.existing[ty];
    TakingKeepsLists(job.cx.existing, s, job.wants, args, ty, k, a, s');
    TakingExclusive(job.cx.existing, job.inputLen, s, job.wants, args, ty, k, a, s');
    BroughtSnoc(job.inputLen, s.inputs, args, Some(a));
    FilledSnoc(job, s.inputs, s'.inputs, args, Some(a));
  }

  lemma {:induction false} ImportedServedWell(job: Job, s: Stock, args: Given, ty: Tag, id: nat, a: Argument, s': Stock)
    requires AllStructs(job.wants) && |args| < |job.wants|
    requires Serving(job, s, args) && Served(job.cx, job.wants[|args|])
    requires Subst(job.wants[|args|].ty, job.m) == Some(ty)
    requires Importing(job.cx.w, job.inputLen, s, job.wants[|args|].gate, ty, id, a, s')
    ensures ServedWell(job, s'.inputs, args + [Some(a)], |args|)
  {
    assert (args + [Some(a)])[..|args|] == args;
    ExhaustedIffAllGone(job, s, args, ty);
    AllGoneLater(job, s.inputs, s'.inputs, args, ty);
    assert s'.inputs[|s.inputs|] == InputFor(job.cx.w.infos[id], id);
  }

  lemma {:induction false} ImportedBrought(inputLen: nat, inputs: seq<NewInput>, args: Given, input: NewInput,
                                           a: Argument)
    requires AllBrought(inputLen, inputs, args) && a == Argument.Input(inputLen + |inputs|)
    ensures AllBrought(inputLen, inputs + [input], args + [Some(a)])
  {
    BroughtSnoc(inputLen, inputs, args, Some(a));
    BroughtForSnoc(inputLen + |inputs|, args, Some(a));
  }

  /** A parameter that gets an object of the chain. */
  lemma {:induction false} ImportingServesWell(job: Job, s: Stock, args: Given, ty: Tag, id: nat, a: Argument,
                                               s': Stock)
    requires AllStructs(job.wants) && |args| < |job.wants| && InputsBelow(job.cx.existing, job.inputLen)
    requires Serving(job, s, args) && Served(job.cx, job.wants[|args|])
    requires Subst(job.wants[|args|].ty, job.m) == Some(ty)
    requires Importing(job.cx.w, job.inputLen, s, job.wants[|args|].gate, ty, id, a, s')
    ensures Serving(job, s', args + [Some(a)])
  {
    var gate := job.wants[|args|].gate;
    ImportedServedWell(job, s, args, ty, id, a, s');
    UnlistedKeepsLists(job.cx.existing, s.existing, job.wants, args, Some(a));
    ImportingKeepsIds(job.used, job.cx.w, job.inputLen, s, gate, ty, id, a, s');
    ImportingExclusive(job.inputLen, job.cx.w, s, job.wants, args, ty, id, a, s');
    ImportedBrought(job.inputLen, s.inputs, args, InputFor(job.cx.w.infos[id], id), a);
    FilledSnoc(job, s.inputs, s'.inputs, args, Some(a));
  }

  /** Every step keeps the accounts in order. */
  lemma {:induction false} StepKeepsServing(job: Job, s: Stock, args: Given, ty: Tag, next: Option<Argument>, s': Stock)
    requires AllStructs(job.wants) && |args| < |job.wants| && InputsBelow(job.cx.existing, job.inputLen)
    requires Serving(job, s, args) && Served(job.cx, job.wants[|args|])
    requires Subst(job.wants[|args|].ty, job.m) == Some(ty)
    requires Step(job.cx.w, job.inputLen, s, job.wants[|args|].gate, ty, next, s')
    ensures Serving(job, s', args + [next])
  {
    var gate := job.wants[|args|].gate;
    match next {
      case None => NoneServedWell(job, s, args);
      case Some(a) =>
        if k :| Taking(s, gate, ty, k, a, s') {
          TakingServesWell(job, s, args, ty, k, a, s');
        } else {
          var id :| Importing(job.cx.w, job.inputLen, s, gate, ty, id, a, s');
          ImportingServesWell(job, s, args, ty, id, a, s');
        }
    }
  }

  lemma {:induction false} ServingStarts(job: Job)
    requires AllStructs(job.wants) && NoDuplicates(job.cx.existing)
    ensures Serving(job, Stock(job.cx.existing, job.used, []), [])
  {
  }

  /** Serves the next parameter, unless it had no candidates. */
  method ServeNext(job: Job, s: Stock, args: Given, skip: bool) returns (arg: Option<Argument>, s': Stock)
    requires AllStructs(job.wants) && |args| < |job.wants| && InputsBelow(job.cx.existing, job.inputLen)
    requires Serving(job, s, args) && (skip <==> !Served(job.cx, job.wants[|args|]))
    requires !skip ==> Subst(job.wants[|args|].ty, job.m).Some?
    ensures Serving(job, s', args + [arg]) && (skip ==> arg.None?)
  {
    if skip {
      NoneServedWell(job, s, args);
      return None, s;
    }
    var want := job.wants[|args|];
    var ty := Subst(want.ty, job.m).value;
    arg, s' := Serve(job.cx.w, job.inputLen, s, want.gate, ty);
    StepKeepsServing(job, s, args, ty, arg, s');
  }

  /** The second pass: serves the parameters in turn, passing over those that had no candidates. */
  method Fill(job: Job, missing: set<nat>) returns (args: Given, inputs: seq<NewInput>, missing': set<nat>)
    requires AllStructs(job.wants) && NoDuplicates(job.cx.existing) && InputsBelow(job.cx.existing, job.inputLen)
    requires forall k :: k in missing <==> 0 <= k < |job.wants| && !Served(job.cx, job.wants[k])
    requires forall k :: 0 <= k < |job.wants| && Served(job.cx, job.wants[k]) ==> Subst(job.wants[k].ty, job.m).Some?
    ensures |args| == |job.wants| && Filled(job, inputs, args)
    ensures forall k :: k in missing' <==> 0 <= k < |args| && args[k].None?
  {
    args, missing' := [], missing;
    var s := Stock(job.cx.existing, job.used, []);
    ServingStarts(job);
    for n := 0 to |job.wants|
      invariant |args| == n && Serving(job, s, args)
      invariant forall k :: k in missing' <==> k in missing || (0 <= k < n && args[k].None?)
      invariant forall k :: 0 <= k < n && k in missing ==> args[k].None?
    {
      var arg, next := ServeNext(job, s, args, n in missing);
      args, s := args + [arg], next;
      if arg.None? {
        missing' := missing' + {n};
      }
    }
    inputs := s.inputs;
  }

  // ----- two parameters of one type

  /** Two parameters of a type with a single listed object: the first gets it; the second gets it too if it was only
      lent, and nothing if it was given away, whatever the chain has. */
  lemma {:induction false} LoneObject(job: Job, inputs: seq<NewInput>, args: Given, ty: Tag, a: Argument, g: Gate)
    requires AllStructs(job.wants) && |job.wants| == |args| == 2 && Filled(job, inputs, args)
    requires forall k :: 0 <= k < 2 ==>
               Served(job.cx, job.wants[k]) && Subst(job.wants[k].ty, job.m) == Some(ty)
    requires ty in job.cx.existing && job.cx.existing[ty] == [(a, g)] && g != Immutable
    ensures args == [Some(a), if job.wants[0].gate == Owned then None else Some(a)] && inputs == []
  {
    var start := job.cx.existing;
    assert Listed(start, ty, a, g) && forall x, y :: Listed(start, ty, x, y) ==> x == a;
    assert ServedWell(job, inputs, args, 0) && ServedWell(job, inputs, args, 1);
    assert args[..0] == [] && !Spent(job.wants, [], a);
    assert args[0] == Some(a);
    assert args[..1] == [Some(a)];
    assert Spent(job.wants, [Some(a)], a) <==> job.wants[0].gate == Owned by { assert [Some(a)][0] == Some(a); }
    assert !BroughtFor(job.inputLen, args);
  }

  /** So an unused object of the chain is passed over when the listed one has been given away. */
  lemma {:induction false} UsedUpListHidesChain(job: Job, inputs: seq<NewInput>, args: Given, ty: Tag, a: Argument,
                                                g: Gate, id: nat)
    requires AllStructs(job.wants) && |job.wants| == |args| == 2 && Filled(job, inputs, args)
    requires forall k :: 0 <= k < 2 ==>
               Served(job.cx, job.wants[k]) && Subst(job.wants[k].ty, job.m) == Some(ty) && job.wants[k].gate == Owned
    requires ty in job.cx.existing && job.cx.existing[ty] == [(a, g)] && g != Immutable
    requires id in Available(job.cx.w, ty, Owned) && id !in job.used
    ensures args == [Some(a), None] && !BroughtEarlier(job.inputLen, inputs, args, id)
  {
    LoneObject(job, inputs, args, ty, a, g);
  }

  /** An object is given to two parameters only if the first was lent it, and it is one of the sequence. */
  lemma {:induction false} GivenTwice(job: Job, inputs: seq<NewInput>, args: Given, i: nat, j: nat)
    requires AllStructs(job.wants) && |args| == |job.wants| && Filled(job, inputs, args)
    requires i < j < |args| && args[i].Some? && args[i] == args[j]
    ensures job.wants[i].gate != Owned
    ensures exists ty, g :: Subst(job.wants[i].ty, job.m) == Some(ty) && Listed(job.cx.existing, ty, args[i].value, g)
  {
    assert ServedWell(job, inputs, args, i);
  }
}
