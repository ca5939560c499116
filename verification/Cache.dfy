/** The versioned object cache over a forked store (crates/movy-sui/src/database/cache.rs). */
module Cache {
  import opened Wrappers
  import opened Keys

  datatype Object = Object(id: nat, version: nat, data: nat)

  /** A fallible read. */
  datatype Reply = Failed | Found(found: Option<Object>)

  /** The store behind the cache, which does not change while the cache is in use. */
  datatype Backing = Backing(
    byKey: (nat, nat) -> Option<Object>,
    latest: nat -> Option<Object>,
    package_: nat -> Reply,
    child: (nat, nat, nat) -> Reply,
    received: (nat, nat, nat, nat) -> Reply)

  /** Every object the store hands out is the one it keeps under that identity and version, and is what was asked
      for. */
  ghost predicate Coherent(b: Backing) {
    && (forall id, v :: b.byKey(id, v).Some? ==> b.byKey(id, v).value.id == id && b.byKey(id, v).value.version == v)
    && (forall id :: b.latest(id).Some? ==> b.latest(id).value.id == id && Kept(b, b.latest(id).value))
    && (forall id :: b.package_(id).Found? && b.package_(id).found.Some? ==> Kept(b, b.package_(id).found.value))
    && (forall p, c, v :: b.child(p, c, v).Found? && b.child(p, c, v).found.Some? ==>
          Kept(b, b.child(p, c, v).found.value))
    && (forall o, id, v, e :: b.received(o, id, v, e).Found? && b.received(o, id, v, e).found.Some? ==>
          Kept(b, b.received(o, id, v, e).found.value))
  }

  ghost predicate Kept(b: Backing, o: Object) {
    b.byKey(o.id, o.version) == Some(o)
  }

  // ----- snapshots

  type Versions = map<nat, Option<Object>>
  type Snapshot = map<nat, Versions>

  /** The entry at a key: absent, known not to exist, or an object. */
  function Entry(s: Snapshot, id: nat, v: nat): Option<Option<Object>> {
    if id in s && v in s[id] then Some(s[id][v]) else None
  }

  /** `object_exact_version` */
  function ExactVersion(s: Snapshot, id: nat, v: nat): Option<Object> {
    if id in s && v in s[id] then s[id][v] else None
  }

  datatype Resolved = Unbound | KnownNotExisting | Existing(hit: Object)

  function UpTo(versions: Versions, bound: Option<nat>): (keys: set<nat>)
    ensures keys <= versions.Keys
  {
    set v | v in versions && (bound.Some? ==> v <= bound.value)
  }

  /** `object_resolve_upperbound_details`: the newest entry no newer than the bound, if there is one. */
  function Resolve(s: Snapshot, id: nat, bound: Option<nat>): Resolved {
    if id !in s then Unbound
    else
      var keys := UpTo(s[id], bound);
      if keys == {} then Unbound
      else
        match s[id][MaxKey(keys)]
        case Some(o) => Existing(o)
        case None => KnownNotExisting
  }

  /** `cache_query` */
  function CacheQuery(s: Snapshot, id: nat, v: nat, o: Option<Object>): Snapshot {
    var versions: Versions := if id in s then s[id] else map[];
    var versions': Versions := versions[v := o];
    s[id := versions']
  }

  /** `cache_object_only` */
  function CacheObject(s: Snapshot, o: Object): Snapshot {
    CacheQuery(s, o.id, o.version, Some(o))
  }

  lemma {:induction false} QueryEntry(s: Snapshot, id: nat, v: nat, o: Option<Object>, id': nat, v': nat)
    ensures Entry(CacheQuery(s, id, v, o), id', v') == if id' == id && v' == v then Some(o) else Entry(s, id', v')
  {
  }

  // ----- what has been written

  datatype Write = Put(o: Object) | Tombstone(id: nat, version: nat)

  predicate WritesTo(w: Write, id: nat, v: nat) {
    match w
    case Put(o) => o.id == id && o.version == v
    case Tombstone(i, u) => i == id && u == v
  }

  /** The last write to a key. */
  function LastWrite(log: seq<Write>, id: nat, v: nat): Option<Write> {
    if log == [] then None
    else if WritesTo(log[|log| - 1], id, v) then Some(log[|log| - 1])
    else LastWrite(log[..|log| - 1], id, v)
  }

  /** What a reader of a key should see: the object last committed there; where there is none, or it has been
      deleted since, what the backing store has. */
  function Ideal(b: Backing, log: seq<Write>, id: nat, v: nat): Option<Object> {
    var w := LastWrite(log, id, v);
    if w.Some? && w.value.Put? then Some(w.value.o) else b.byKey(id, v)
  }

  /** Objects committed do not contradict the history of the backing store. */
  ghost predicate NewToHistory(b: Backing, w: Write) {
    w.Put? ==> b.byKey(w.o.id, w.o.version) in {None, Some(w.o)}
  }

  ghost predicate AllNew(b: Backing, log: seq<Write>) {
    forall k :: 0 <= k < |log| ==> NewToHistory(b, log[k])
  }

  ghost predicate OwnKeys(s: Snapshot) {
    forall id, v {:trigger Entry(s, id, v)} :: Entry(s, id, v).Some? && Entry(s, id, v).value.Some? ==>
      Entry(s, id, v).value.value.id == id && Entry(s, id, v).value.value.version == v
  }

  /** Cached objects are what readers should see, and what was committed last is cached. */
  ghost predicate Truthful(s: Snapshot, b: Backing, log: seq<Write>) {
    forall id, v {:trigger Entry(s, id, v)} {:trigger LastWrite(log, id, v)} ::
      && (Entry(s, id, v).Some? && Entry(s, id, v).value.Some? ==> Entry(s, id, v).value == Ideal(b, log, id, v))
      && (LastWrite(log, id, v).Some? && LastWrite(log, id, v).value.Put? ==>
            Entry(s, id, v) == Some(Some(LastWrite(log, id, v).value.o)))
  }

  ghost predicate Consistent(s: Snapshot, b: Backing, log: seq<Write>) {
    OwnKeys(s) && Truthful(s, b, log) && AllNew(b, log)
  }

  lemma {:induction false} LastWriteHits(log: seq<Write>, id: nat, v: nat)
    ensures LastWrite(log, id, v).Some? ==>
              WritesTo(LastWrite(log, id, v).value, id, v) && LastWrite(log, id, v).value in log
  {
    if log != [] && !WritesTo(log[|log| - 1], id, v) { LastWriteHits(log[..|log| - 1], id, v); }
  }

  /** Caching an object that the backing store keeps under its own key changes nothing a reader sees. */
  lemma {:induction false} CacheBacked(s: Snapshot, b: Backing, log: seq<Write>, o: Object)
    requires Consistent(s, b, log) && Kept(b, o)
    ensures Consistent(CacheObject(s, o), b, log)
  {
    var s' := CacheObject(s, o);
    forall id, v ensures Entry(s', id, v) == if id == o.id && v == o.version then Some(Some(o)) else Entry(s, id, v) {
      QueryEntry(s, o.id, o.version, Some(o), id, v);
    }
    LastWriteHits(log, o.id, o.version);
    var w := LastWrite(log, o.id, o.version);
    if w.Some? && w.value.Put? {
      var k :| 0 <= k < |log| && log[k] == w.value;
      assert NewToHistory(b, log[k]);
    }
  }

  lemma {:induction false} CacheCommitted(s: Snapshot, b: Backing, log: seq<Write>, o: Object)
    requires Consistent(s, b, log) && NewToHistory(b, Put(o))
    ensures Consistent(CacheObject(s, o), b, log + [Put(o)])
  {
    var s', log' := CacheObject(s, o), log + [Put(o)];
    assert log'[..|log|] == log;
    forall id, v ensures Entry(s', id, v) == if id == o.id && v == o.version then Some(Some(o)) else Entry(s, id, v) {
      QueryEntry(s, o.id, o.version, Some(o), id, v);
    }
    forall id, v
      ensures LastWrite(log', id, v) == if id == o.id && v == o.version then Some(Put(o)) else LastWrite(log, id, v)
    {
    }
  }

  lemma {:induction false} CacheTombstone(s: Snapshot, b: Backing, log: seq<Write>, id: nat, v: nat)
    requires Consistent(s, b, log)
    ensures Consistent(CacheQuery(s, id, v, None), b, log + [Tombstone(id, v)])
  {
    var s', log' := CacheQuery(s, id, v, None), log + [Tombstone(id, v)];
    assert log'[..|log|] == log;
    forall i, u ensures Entry(s', i, u) == if i == id && u == v then Some(None) else Entry(s, i, u) {
      QueryEntry(s, id, v, None, i, u);
    }
    forall i, u
      ensures LastWrite(log', i, u) == if i == id && u == v then Some(Tombstone(id, v)) else LastWrite(log, i, u)
    {
    }
  }

  /** A negative entry where nothing was cached. */
  lemma {:induction false} CacheNegative(s: Snapshot, b: Backing, log: seq<Write>, id: nat, v: nat)
    requires Consistent(s, b, log) && Entry(s, id, v).None?
    ensures Consistent(CacheQuery(s, id, v, None), b, log)
  {
    var s' := CacheQuery(s, id, v, None);
    forall i, u ensures Entry(s', i, u) == if i == id && u == v then Some(None) else Entry(s, i, u) {
      QueryEntry(s, id, v, None, i, u);
    }
  }

  /** An entry at the bound itself decides. */
  lemma {:induction false} ResolveAtBound(s: Snapshot, id: nat, bound: nat)
    requires id in s && bound in s[id]
    ensures Resolve(s, id, Some(bound)) == match s[id][bound] case Some(o) => Existing(o) case None => KnownNotExisting
  {
    var keys := UpTo(s[id], Some(bound));
    assert bound in keys;
    assert MaxKey(keys) == bound;
  }

  /** Where the newest entry up to a bound is no hit for the bound itself, nothing is cached at the bound. */
  lemma {:induction false} BoundIsFree(s: Snapshot, id: nat, bound: nat)
    requires OwnKeys(s) && !Resolve(s, id, Some(bound)).KnownNotExisting?
    requires Resolve(s, id, Some(bound)).Existing? ==> Resolve(s, id, Some(bound)).hit.version != bound
    ensures Entry(s, id, bound).None?
  {
    if id in s && bound in s[id] {
      assert Entry(s, id, bound) == Some(s[id][bound]);
      ResolveAtBound(s, id, bound);
    }
  }

  // ----- reads

  datatype Query =
    | Latest(id: nat)
    | Package(id: nat)
    | ByKey(id: nat, version: nat)
    | Received(owner: nat, id: nat, version: nat, epoch: nat)
    | Child(parent: nat, id: nat, bound: nat)

  /** Whether the cache answers by itself, and with what. */
  function Hit(s: Snapshot, q: Query): Option<Option<Object>> {
    match q
    case ByKey(id, v) => if ExactVersion(s, id, v).Some? then Some(ExactVersion(s, id, v)) else None
    case Received(_, id, v, _) => if ExactVersion(s, id, v).Some? then Some(ExactVersion(s, id, v)) else None
    case Child(_, id, bound) =>
      (match Resolve(s, id, Some(bound))
       case KnownNotExisting => Some(None)
       case Existing(o) => if o.version == bound then Some(Some(o)) else None
       case Unbound => None)
    case Latest(id) =>
      (match Resolve(s, id, None)
       case Existing(o) => Some(Some(o))
       case _ => None)
    case Package(id) =>
      (match Resolve(s, id, None)
       case Existing(o) => Some(Some(o))
       case _ => None)
  }

  function Ask(b: Backing, q: Query): Reply {
    match q
    case Latest(id) => Found(b.latest(id))
    case Package(id) => b.package_(id)
    case ByKey(id, v) => Found(b.byKey(id, v))
    case Received(owner, id, v, epoch) => b.received(owner, id, v, epoch)
    case Child(parent, id, bound) => b.child(parent, id, bound)
  }

  function Answer(s: Snapshot, b: Backing, q: Query): Reply {
    if Hit(s, q).Some? then Found(Hit(s, q).value) else Ask(b, q)
  }

  /** What a read leaves in the cache: the object found; for child reads also that there is none. */
  function AfterRead(s: Snapshot, b: Backing, q: Query): Snapshot {
    if Hit(s, q).Some? then s
    else
      match Ask(b, q)
      case Failed => s
      case Found(Some(o)) => CacheObject(s, o)
      case Found(None) => if q.Child? then CacheQuery(s, q.id, q.bound, None) else s
  }

  function AfterWrite(s: Snapshot, w: Write): Snapshot {
    match w
    case Put(o) => CacheObject(s, o)
    case Tombstone(id, v) => CacheQuery(s, id, v, None)
  }

  lemma {:induction false} AskKept(b: Backing, q: Query)
    requires Coherent(b)
    ensures Ask(b, q).Found? && Ask(b, q).found.Some? ==> Kept(b, Ask(b, q).found.value)
  {
    match q
    case ByKey(id, v) => assert b.byKey(id, v).Some? || b.byKey(id, v).None?;
    case Latest(id) => assert b.latest(id).Some? || b.latest(id).None?;
    case Package(id) => assert b.package_(id).Found? || b.package_(id).Failed?;
    case Received(o, id, v, e) => assert b.received(o, id, v, e).Found? || b.received(o, id, v, e).Failed?;
    case Child(p, c, v) => assert b.child(p, c, v).Found? || b.child(p, c, v).Failed?;
  }

  lemma {:induction false} ReadKeeps(s: Snapshot, b: Backing, log: seq<Write>, q: Query)
    requires Coherent(b) && Consistent(s, b, log)
    ensures Consistent(AfterRead(s, b, q), b, log)
  {
    if Hit(s, q).None? && Ask(b, q).Found? {
      AskKept(b, q);
      if Ask(b, q).found.Some? {
        CacheBacked(s, b, log, Ask(b, q).found.value);
      } else if q.Child? {
        BoundIsFree(s, q.id, q.bound);
        CacheNegative(s, b, log, q.id, q.bound);
      }
    }
  }

  lemma {:induction false} WriteKeeps(s: Snapshot, b: Backing, log: seq<Write>, w: Write)
    requires Consistent(s, b, log) && NewToHistory(b, w)
    ensures Consistent(AfterWrite(s, w), b, log + [w])
  {
    match w
    case Put(o) => CacheCommitted(s, b, log, o);
    case Tombstone(id, v) => CacheTombstone(s, b, log, id, v);
  }

  /** A read by exact key in a consistent cache is transparent. */
  lemma {:induction false} ByKeyTransparent(s: Snapshot, b: Backing, log: seq<Write>, id: nat, v: nat)
    requires Consistent(s, b, log)
    ensures Answer(s, b, ByKey(id, v)) == Found(Ideal(b, log, id, v))
  {
    assert Entry(s, id, v).Some? || Entry(s, id, v).None?;
  }

  /** A negative child entry never takes the place of an object. */
  lemma {:induction false} NegativeKeepsObjects(s: Snapshot, b: Backing, q: Query, id: nat, v: nat)
    requires OwnKeys(s) && Hit(s, q).None? && Ask(b, q) == Found(None) && ExactVersion(s, id, v).Some?
    ensures ExactVersion(AfterRead(s, b, q), id, v) == ExactVersion(s, id, v)
  {
    if q.Child? {
      BoundIsFree(s, q.id, q.bound);
      QueryEntry(s, q.id, q.bound, None, id, v);
    }
  }

  // ----- runs

  datatype Action = Read(q: Query) | Commit(w: Write)

  function Step(s: Snapshot, b: Backing, act: Action): Snapshot {
    if act.Read? then AfterRead(s, b, act.q) else AfterWrite(s, act.w)
  }

  function After(s: Snapshot, b: Backing, acts: seq<Action>): Snapshot
    decreases |acts|
  {
    if acts == [] then s else After(Step(s, b, acts[0]), b, acts[1..])
  }

  function Written(act: Action): seq<Write> {
    if act.Read? then [] else [act.w]
  }

  function Writes(acts: seq<Action>): seq<Write>
    decreases |acts|
  {
    if acts == [] then [] else Written(acts[0]) + Writes(acts[1..])
  }

  ghost predicate AllCommitsNew(b: Backing, acts: seq<Action>) {
    forall k :: 0 <= k < |acts| && acts[k].Commit? ==> NewToHistory(b, acts[k].w)
  }

  lemma {:induction false} StepConsistent(s: Snapshot, b: Backing, log: seq<Write>, act: Action)
    requires Coherent(b) && Consistent(s, b, log) && (act.Commit? ==> NewToHistory(b, act.w))
    ensures Consistent(Step(s, b, act), b, log + Written(act))
  {
    if act.Read? {
      ReadKeeps(s, b, log, act.q);
      assert log + [] == log;
    } else {
      WriteKeeps(s, b, log, act.w);
    }
  }

  lemma {:induction false} RunUnfolds(s: Snapshot, b: Backing, log: seq<Write>, acts: seq<Action>)
    requires AllCommitsNew(b, acts)
    ensures acts == [] ==> After(s, b, acts) == s && log + Writes(acts) == log
    ensures acts != [] ==>
              && (acts[0].Commit? ==> NewToHistory(b, acts[0].w)) && AllCommitsNew(b, acts[1..])
              && After(s, b, acts) == After(Step(s, b, acts[0]), b, acts[1..])
              && log + Writes(acts) == log + Written(acts[0]) + Writes(acts[1..])
  {
  }

  lemma {:induction false} RunConsistent(s: Snapshot, b: Backing, log: seq<Write>, acts: seq<Action>)
    requires Coherent(b) && Consistent(s, b, log) && AllCommitsNew(b, acts)
    ensures Consistent(After(s, b, acts), b, log + Writes(acts))
    decreases |acts|
  {
    RunUnfolds(s, b, log, acts);
    if acts != [] {
      StepConsistent(s, b, log, acts[0]);
      RunConsistent(Step(s, b, acts[0]), b, log + Written(acts[0]), acts[1..]);
    }
  }

  /** After every run of reads, commits and deletions whose committed objects are new to the backing history, a
      read by exact key gives the object last committed there, and otherwise exactly what the backing store has. */
  lemma {:induction false} RunTransparent(b: Backing, acts: seq<Action>, id: nat, v: nat)
    requires Coherent(b) && AllCommitsNew(b, acts)
    ensures Answer(After(map[], b, acts), b, ByKey(id, v)) == Found(Ideal(b, Writes(acts), id, v))
    ensures OwnKeys(After(map[], b, acts))
  {
    RunConsistent(map[], b, [], acts);
    assert [] + Writes(acts) == Writes(acts);
    ByKeyTransparent(After(map[], b, acts), b, Writes(acts), id, v);
  }

  /** The condition cannot be dropped: an object committed over a different one in the backing history is lost to
      a child read that reaches past it. */
  lemma {:induction false} CommitOverHistoryIsLost(b: Backing, o: Object, x: Object, parent: nat, bound: nat)
    requires Coherent(b) && Kept(b, x) && o.id == x.id && o.version == x.version && o != x
    requires b.child(parent, o.id, bound) == Found(Some(x)) && bound > o.version
    ensures var s := After(map[], b, [Commit(Put(o)), Read(Child(parent, o.id, bound))]);
            Answer(s, b, ByKey(o.id, o.version)) == Found(Some(x))
    ensures Ideal(b, [Put(o)], o.id, o.version) == Some(o)
  {
    var s := CacheObject(map[], o);
    var read := Child(parent, o.id, bound);
    var keys := UpTo(s[o.id], Some(bound));
    assert o.version in keys;
    assert keys == {o.version};
    assert Resolve(s, o.id, Some(bound)) == Existing(o);
    var acts := [Commit(Put(o)), Read(read)];
    assert acts[1..] == [Read(read)] && acts[1..][1..] == [];
    assert After(map[], b, acts) == After(s, b, [Read(read)]) == AfterRead(s, b, read) == CacheObject(s, x);
    QueryEntry(s, x.id, x.version, Some(x), o.id, o.version);
  }

  // ----- newest-version reads

  /** The action, the cache being s before it, records that nothing exists at the key: it buries it, or it is a child
      read at that bound that asks the backing store in vain. */
  ghost predicate Misses(s: Snapshot, b: Backing, act: Action, id: nat, v: nat) {
    match act
    case Commit(w) => w == Tombstone(id, v)
    case Read(q) => q.Child? && q.id == id && q.bound == v && Hit(s, q).None? && Ask(b, q) == Found(None)
  }

  /** The action puts an object at the key: it commits it, or fetches it from the backing store. */
  ghost predicate Stores(s: Snapshot, b: Backing, act: Action, id: nat, v: nat) {
    match act
    case Commit(w) => w.Put? && w.o.id == id && w.o.version == v
    case Read(q) =>
      && Hit(s, q).None? && Ask(b, q).Found? && Ask(b, q).found.Some?
      && Ask(b, q).found.value.id == id && Ask(b, q).found.value.version == v
  }

  lemma {:induction false} StepEntry(s: Snapshot, b: Backing, act: Action, id: nat, v: nat)
    ensures !(Misses(s, b, act, id, v) && Stores(s, b, act, id, v))
    ensures Misses(s, b, act, id, v) ==> Entry(Step(s, b, act), id, v) == Some(None)
    ensures Stores(s, b, act, id, v) ==>
              Entry(Step(s, b, act), id, v).Some? && Entry(Step(s, b, act), id, v).value.Some?
    ensures !Misses(s, b, act, id, v) && !Stores(s, b, act, id, v) ==>
              Entry(Step(s, b, act), id, v) == Entry(s, id, v)
  {
  }

  lemma {:induction false} AfterSnoc(s: Snapshot, b: Backing, acts: seq<Action>, act: Action)
    ensures After(s, b, acts + [act]) == Step(After(s, b, acts), b, act)
    decreases |acts|
  {
    if acts == [] {
      assert acts + [act] == [act] && [act][1..] == [];
    } else {
      AfterSnoc(Step(s, b, acts[0]), b, acts[1..], act);
      assert (acts + [act])[1..] == acts[1..] + [act];
    }
  }

  /** The cache before action k of a run. */
  function Before(b: Backing, acts: seq<Action>, k: nat): Snapshot
    requires k <= |acts|
  {
    After(map[], b, acts[..k])
  }

  ghost predicate MissedAt(b: Backing, acts: seq<Action>, k: nat, id: nat, v: nat)
    requires k < |acts|
  {
    Misses(Before(b, acts, k), b, acts[k], id, v)
  }

  ghost predicate StoredAt(b: Backing, acts: seq<Action>, k: nat, id: nat, v: nat)
    requires k < |acts|
  {
    Stores(Before(b, acts, k), b, acts[k], id, v)
  }

  /** Within the first n actions the key was buried or missed, and no object was put there since. */
  ghost predicate Buried(b: Backing, acts: seq<Action>, n: nat, id: nat, v: nat)
    requires n <= |acts|
  {
    exists k :: 0 <= k < n && MissedAt(b, acts, k, id, v) && forall i :: k < i < n ==> !StoredAt(b, acts, i, id, v)
  }

  /** Within the first n actions an object was put at the key, and it was not buried or missed since. */
  ghost predicate Held(b: Backing, acts: seq<Action>, n: nat, id: nat, v: nat)
    requires n <= |acts|
  {
    exists k :: 0 <= k < n && StoredAt(b, acts, k, id, v) && forall i :: k < i < n ==> !MissedAt(b, acts, i, id, v)
  }

  lemma {:induction false} BuriedStep(b: Backing, acts: seq<Action>, n: nat, id: nat, v: nat)
    requires n < |acts|
    ensures Buried(b, acts, n + 1, id, v)
       <==> MissedAt(b, acts, n, id, v) || (Buried(b, acts, n, id, v) && !StoredAt(b, acts, n, id, v))
  {
    var next := n + 1;
    if Buried(b, acts, next, id, v) && !MissedAt(b, acts, n, id, v) {
      var k :| 0 <= k < next && MissedAt(b, acts, k, id, v)
            && forall i :: k < i < next ==> !StoredAt(b, acts, i, id, v);
      assert k < n;
    }
    if Buried(b, acts, n, id, v) && !StoredAt(b, acts, n, id, v) {
      var k :| 0 <= k < n && MissedAt(b, acts, k, id, v) && forall i :: k < i < n ==> !StoredAt(b, acts, i, id, v);
      assert forall i :: k < i < next ==> !StoredAt(b, acts, i, id, v);
    }
  }

  lemma {:induction false} HeldStep(b: Backing, acts: seq<Action>, n: nat, id: nat, v: nat)
    requires n < |acts|
    ensures Held(b, acts, n + 1, id, v)
       <==> StoredAt(b, acts, n, id, v) || (Held(b, acts, n, id, v) && !MissedAt(b, acts, n, id, v))
  {
    var next := n + 1;
    if Held(b, acts, next, id, v) && !StoredAt(b, acts, n, id, v) {
      var k :| 0 <= k < next && StoredAt(b, acts, k, id, v)
            && forall i :: k < i < next ==> !MissedAt(b, acts, i, id, v);
      assert k < n;
    }
    if Held(b, acts, n, id, v) && !MissedAt(b, acts, n, id, v) {
      var k :| 0 <= k < n && StoredAt(b, acts, k, id, v) && forall i :: k < i < n ==> !MissedAt(b, acts, i, id, v);
      assert forall i :: k < i < next ==> !MissedAt(b, acts, i, id, v);
    }
  }

  /** What is in the cache after a run is what the run last recorded at the key. */
  lemma {:induction false} EntryOfRun(b: Backing, acts: seq<Action>, n: nat, id: nat, v: nat)
    requires n <= |acts|
    ensures Buried(b, acts, n, id, v) <==> Entry(Before(b, acts, n), id, v) == Some(None)
    ensures Held(b, acts, n, id, v)
       <==> Entry(Before(b, acts, n), id, v).Some? && Entry(Before(b, acts, n), id, v).value.Some?
  {
    if n == 0 {
      assert acts[..0] == [];
    } else {
      EntryOfRun(b, acts, n - 1, id, v);
      BuriedStep(b, acts, n - 1, id, v);
      HeldStep(b, acts, n - 1, id, v);
      assert acts[..n] == acts[..n - 1] + [acts[n - 1]];
      AfterSnoc(map[], b, acts[..n - 1], acts[n - 1]);
      StepEntry(Before(b, acts, n - 1), b, acts[n - 1], id, v);
    }
  }

  lemma {:induction false} NewestEntry(s: Snapshot, id: nat, v: nat)
    requires Entry(s, id, v).Some? && forall u :: u > v ==> Entry(s, id, u).None?
    ensures Resolve(s, id, None)
         == match Entry(s, id, v).value case Some(o) => Existing(o) case None => KnownNotExisting
  {
    var keys := UpTo(s[id], None);
    assert v in keys;
    var k := MaxKey(keys);
    assert Entry(s, id, k).Some?;
  }

  lemma {:induction false} NewestExists(s: Snapshot, id: nat, v: nat) returns (top: nat)
    requires Entry(s, id, v).Some?
    ensures top >= v && Entry(s, id, top).Some? && forall u :: u > top ==> Entry(s, id, u).None?
  {
    var keys := UpTo(s[id], None);
    assert v in keys;
    top := MaxKey(keys);
    assert forall u :: u in s[id] ==> u in keys;
  }

  lemma {:induction false} NewestObject(s: Snapshot, id: nat, v: nat, o: Object)
    requires Entry(s, id, v) == Some(Some(o))
    requires forall u :: u > v ==> Entry(s, id, u) in {None, Some(None)}
    ensures Resolve(s, id, None)
         == if exists u :: u > v && Entry(s, id, u) == Some(None) then KnownNotExisting else Existing(o)
  {
    var top := NewestExists(s, id, v);
    NewestEntry(s, id, top);
  }

  lemma {:induction false} HeldObject(b: Backing, acts: seq<Action>, id: nat, v: nat)
    requires Coherent(b) && AllCommitsNew(b, acts) && Held(b, acts, |acts|, id, v)
    ensures var s, o := After(map[], b, acts), Ideal(b, Writes(acts), id, v);
            o.Some? && Entry(s, id, v) == Some(o) && o.value.id == id && o.value.version == v
  {
    assert acts[..|acts|] == acts;
    RunConsistent(map[], b, [], acts);
    assert [] + Writes(acts) == Writes(acts);
    EntryOfRun(b, acts, |acts|, id, v);
  }

  /** After every run of reads, commits and deletions whose committed objects are new to the backing history: a read
      of the newest version of an object finds the newest object held exactly when no newer version is buried or
      missed, and asks the backing store otherwise. */
  lemma {:induction false} NewestReadIff(b: Backing, acts: seq<Action>, id: nat, v: nat)
    requires Coherent(b) && AllCommitsNew(b, acts)
    requires Held(b, acts, |acts|, id, v) && forall u :: u > v ==> !Held(b, acts, |acts|, id, u)
    ensures var s, o := After(map[], b, acts), Ideal(b, Writes(acts), id, v);
            && o.Some? && o.value.id == id && o.value.version == v
            && if forall u :: u > v ==> !Buried(b, acts, |acts|, id, u)
               then Answer(s, b, Latest(id)) == Found(o) && Answer(s, b, Package(id)) == Found(o)
               else Hit(s, Latest(id)).None? && Answer(s, b, Latest(id)) == Found(b.latest(id))
                    && Answer(s, b, Package(id)) == b.package_(id)
  {
    var s, n := After(map[], b, acts), |acts|;
    assert acts[..n] == acts;
    HeldObject(b, acts, id, v);
    forall u
      ensures Buried(b, acts, n, id, u) <==> Entry(s, id, u) == Some(None)
      ensures Held(b, acts, n, id, u) <==> Entry(s, id, u).Some? && Entry(s, id, u).value.Some?
    {
      EntryOfRun(b, acts, n, id, u);
    }
    NewestObject(s, id, v, Ideal(b, Writes(acts), id, v).value);
  }

  /** Where no object of the identity is held, the backing store is asked. */
  lemma {:induction false} NothingHeld(b: Backing, acts: seq<Action>, id: nat)
    requires forall v :: !Held(b, acts, |acts|, id, v)
    ensures var s := After(map[], b, acts);
            Answer(s, b, Latest(id)) == Found(b.latest(id)) && Answer(s, b, Package(id)) == b.package_(id)
  {
    var s, n := After(map[], b, acts), |acts|;
    assert acts[..n] == acts;
    if v :| Entry(s, id, v).Some? {
      var top := NewestExists(s, id, v);
      NewestEntry(s, id, top);
      EntryOfRun(b, acts, n, id, top);
    } else {
      NoEntries(s, id);
    }
  }

  lemma {:induction false} NoEntries(s: Snapshot, id: nat)
    requires forall v :: Entry(s, id, v).None?
    ensures Resolve(s, id, None) == Unbound
  {
    if id in s {
      assert forall v :: v in s[id] ==> Entry(s, id, v).Some?;
    }
  }

  /** Up to the bound, the newest key at which anything is recorded is a buried or missed one. */
  ghost predicate NewestBuried(b: Backing, acts: seq<Action>, id: nat, bound: nat) {
    exists at: nat :: at <= bound && Buried(b, acts, |acts|, id, at)
                 && forall u :: at < u <= bound ==> !Held(b, acts, |acts|, id, u)
  }

  /** The newest entry up to a bound, by its key. */
  lemma {:induction false} NewestUpTo(s: Snapshot, id: nat, bound: nat) returns (top: Option<nat>)
    ensures top.None? ==>
              Resolve(s, id, Some(bound)) == Unbound && forall u: nat :: u <= bound ==> Entry(s, id, u).None?
    ensures top.Some? ==>
              && top.value <= bound && Entry(s, id, top.value).Some?
              && (forall u :: top.value < u <= bound ==> Entry(s, id, u).None?)
              && Resolve(s, id, Some(bound))
                 == match Entry(s, id, top.value).value case Some(o) => Existing(o) case None => KnownNotExisting
  {
    top := None;
    if id in s {
      var keys := UpTo(s[id], Some(bound));
      assert forall u :: u <= bound && u in s[id] ==> u in keys;
      if keys != {} { top := Some(MaxKey(keys)); }
    }
  }

  lemma {:induction false} EntriesOfRun(b: Backing, acts: seq<Action>, id: nat)
    ensures forall u :: Buried(b, acts, |acts|, id, u) <==> Entry(After(map[], b, acts), id, u) == Some(None)
    ensures forall u :: Held(b, acts, |acts|, id, u) <==>
              Entry(After(map[], b, acts), id, u).Some? && Entry(After(map[], b, acts), id, u).value.Some?
  {
    assert acts[..|acts|] == acts;
    forall u
      ensures Buried(b, acts, |acts|, id, u) <==> Entry(After(map[], b, acts), id, u) == Some(None)
      ensures Held(b, acts, |acts|, id, u) <==>
                Entry(After(map[], b, acts), id, u).Some? && Entry(After(map[], b, acts), id, u).value.Some?
    {
      EntryOfRun(b, acts, |acts|, id, u);
    }
  }

  /** After every run of reads, commits and deletions whose committed objects are new to the backing history: a child
      read finds the ideal object where one is held at the bound itself, nothing where the newest key recorded up to
      the bound is buried or missed, and what the backing store says otherwise; in particular where only an older
      version is held. */
  lemma {:induction false} ChildReadIff(b: Backing, acts: seq<Action>, parent: nat, id: nat, bound: nat)
    requires Coherent(b) && AllCommitsNew(b, acts)
    ensures Answer(After(map[], b, acts), b, Child(parent, id, bound))
         == if Held(b, acts, |acts|, id, bound) then Found(Ideal(b, Writes(acts), id, bound))
            else if NewestBuried(b, acts, id, bound) then Found(None)
            else b.child(parent, id, bound)
    ensures Held(b, acts, |acts|, id, bound) ==> Ideal(b, Writes(acts), id, bound).Some?
  {
    var s := After(map[], b, acts);
    EntriesOfRun(b, acts, id);
    if Held(b, acts, |acts|, id, bound) {
      HeldObject(b, acts, id, bound);
      ResolveAtBound(s, id, bound);
    } else {
      var top := NewestUpTo(s, id, bound);
      if top.Some? {
        if Entry(s, id, top.value) == Some(None) {
          assert Buried(b, acts, |acts|, id, top.value);
        } else {
          HeldObject(b, acts, id, top.value);
          assert !NewestBuried(b, acts, id, bound);
        }
      }
    }
  }

  /** A read of a received object finds the ideal object where one is held at the key, and otherwise what the backing
      store says. */
  lemma {:induction false} ReceivedReadIff(b: Backing, acts: seq<Action>, owner: nat, id: nat, v: nat, epoch: nat)
    requires Coherent(b) && AllCommitsNew(b, acts)
    ensures Answer(After(map[], b, acts), b, Received(owner, id, v, epoch))
         == if Held(b, acts, |acts|, id, v) then Found(Ideal(b, Writes(acts), id, v))
            else b.received(owner, id, v, epoch)
    ensures Held(b, acts, |acts|, id, v) ==> Ideal(b, Writes(acts), id, v).Some?
  {
    EntriesOfRun(b, acts, id);
    if Held(b, acts, |acts|, id, v) { HeldObject(b, acts, id, v); }
  }

  lemma {:induction false} TwoActions(b: Backing, o: Object, act: Action, v: nat)
    requires v > o.version && Misses(CacheObject(map[], o), b, act, o.id, v)
    ensures var s := After(map[], b, [Commit(Put(o)), act]);
            s == CacheQuery(CacheObject(map[], o), o.id, v, None) && Resolve(s, o.id, None).KnownNotExisting?
            && ExactVersion(s, o.id, o.version) == Some(o)
  {
    var s0 := CacheObject(map[], o);
    var s := CacheQuery(s0, o.id, v, None);
    var acts := [Commit(Put(o)), act];
    assert acts[1..] == [act] && acts[1..][1..] == [];
    assert After(map[], b, acts) == After(s0, b, [act]) == Step(s0, b, act) == s;
    QueryEntry(s0, o.id, v, None, o.id, v);
    forall u | u > v ensures Entry(s, o.id, u).None? { QueryEntry(s0, o.id, v, None, o.id, u); }
    NewestEntry(s, o.id, v);
  }

  /** A committed object vanishes from newest-version reads, without having been deleted, once a child read at a newer
      bound finds nothing; it is still there by key. */
  lemma {:induction false} HiddenByChildMiss(b: Backing, o: Object, parent: nat, bound: nat)
    requires bound > o.version && b.child(parent, o.id, bound) == Found(None)
    ensures var s := After(map[], b, [Commit(Put(o)), Read(Child(parent, o.id, bound))]);
            && Answer(s, b, Latest(o.id)) == Found(b.latest(o.id)) && Answer(s, b, Package(o.id)) == b.package_(o.id)
            && Answer(s, b, ByKey(o.id, o.version)) == Found(Some(o))
  {
    var s0, read := CacheObject(map[], o), Child(parent, o.id, bound);
    var keys := UpTo(s0[o.id], Some(bound));
    assert o.version in keys;
    assert keys == {o.version};
    assert Resolve(s0, o.id, Some(bound)) == Existing(o);
    TwoActions(b, o, Read(read), bound);
  }

  /** A deleted object comes back in newest-version reads, if the backing store has one. */
  lemma {:induction false} DeletedComesBack(b: Backing, o: Object, v: nat)
    requires v > o.version
    ensures var s := After(map[], b, [Commit(Put(o)), Commit(Tombstone(o.id, v))]);
            Answer(s, b, Latest(o.id)) == Found(b.latest(o.id)) && Answer(s, b, Package(o.id)) == b.package_(o.id)
  {
    TwoActions(b, o, Commit(Tombstone(o.id, v)), v);
  }

  // ----- reads that are not transparent

  /** A remembered negative answer stands for every later bound up to the next cached version, so it agrees with
      the backing store exactly when that still has nothing. */
  lemma {:induction false} NegativeChildSticks(s: Snapshot, b: Backing, parent: nat, id: nat, at: nat, bound: nat)
    requires Entry(s, id, at) == Some(None) && at <= bound
    requires forall v :: at < v <= bound ==> Entry(s, id, v).None?
    ensures Answer(s, b, Child(parent, id, bound)) == Found(None)
    ensures Answer(s, b, Child(parent, id, bound)) == Ask(b, Child(parent, id, bound))
       <==> b.child(parent, id, bound) == Found(None)
  {
    var keys := UpTo(s[id], Some(bound));
    assert at in keys;
    var k := MaxKey(keys);
    assert Entry(s, id, k).Some?;
    assert k == at;
  }

  // ----- the store

  /** `CachedStore`; `log` records what was committed and deleted. */
  class CachedStore {
    const store: Backing
    var objects: Snapshot
    ghost var log: seq<Write>

    ghost predicate Valid()
      reads this
    {
      Coherent(store) && Consistent(objects, store, log)
    }

    constructor (store: Backing)
      requires Coherent(store)
      ensures Valid() && this.store == store && objects == map[] && log == []
    {
      this.store := store;
      objects := map[];
      log := [];
    }

    method GetObject(id: nat) returns (r: Option<Object>)
      requires Valid()
      modifies `objects
      ensures Valid() && Found(r) == Answer(old(objects), store, Latest(id))
      ensures objects == AfterRead(old(objects), store, Latest(id))
    {
      ReadKeeps(objects, store, log, Latest(id));
      var newest := Resolve(objects, id, None);
      if newest.Existing? {
        return Some(newest.hit);
      }
      r := store.latest(id);
      if r.Some? {
        objects := CacheObject(objects, r.value);
      }
    }

    method GetPackageObject(id: nat) returns (r: Reply)
      requires Valid()
      modifies `objects
      ensures Valid() && r == Answer(old(objects), store, Package(id))
      ensures objects == AfterRead(old(objects), store, Package(id))
    {
      ReadKeeps(objects, store, log, Package(id));
      var newest := Resolve(objects, id, None);
      if newest.Existing? {
        return Found(Some(newest.hit));
      }
      r := store.package_(id);
      if r.Found? && r.found.Some? {
        objects := CacheObject(objects, r.found.value);
      }
    }

    method GetObjectByKey(id: nat, version: nat) returns (r: Option<Object>)
      requires Valid()
      modifies `objects
      ensures Valid() && r == Ideal(store, log, id, version)
      ensures objects == AfterRead(old(objects), store, ByKey(id, version))
    {
      ReadKeeps(objects, store, log, ByKey(id, version));
      ByKeyTransparent(objects, store, log, id, version);
      var hit := ExactVersion(objects, id, version);
      if hit.Some? {
        return hit;
      }
      r := store.byKey(id, version);
      if r.Some? {
        objects := CacheObject(objects, r.value);
      }
    }

    method GetObjectReceivedAtVersion(owner: nat, id: nat, version: nat, epoch: nat) returns (r: Reply)
      requires Valid()
      modifies `objects
      ensures Valid() && r == Answer(old(objects), store, Received(owner, id, version, epoch))
      ensures objects == AfterRead(old(objects), store, Received(owner, id, version, epoch))
    {
      ReadKeeps(objects, store, log, Received(owner, id, version, epoch));
      var hit := ExactVersion(objects, id, version);
      if hit.Some? {
        return Found(hit);
      }
      r := store.received(owner, id, version, epoch);
      if r.Found? && r.found.Some? {
        objects := CacheObject(objects, r.found.value);
      }
    }

    method ReadChildObject(parent: nat, child: nat, bound: nat) returns (r: Reply)
      requires Valid()
      modifies `objects
      ensures Valid() && r == Answer(old(objects), store, Child(parent, child, bound))
      ensures objects == AfterRead(old(objects), store, Child(parent, child, bound))
    {
      ReadKeeps(objects, store, log, Child(parent, child, bound));
      var newest := Resolve(objects, child, Some(bound));
      if newest.KnownNotExisting? {
        return Found(None);
      } else if newest.Existing? && newest.hit.version == bound {
        return Found(Some(newest.hit));
      }
      r := store.child(parent, child, bound);
      if r.Found? {
        if r.found.Some? {
          objects := CacheObject(objects, r.found.value);
        } else {
          objects := CacheQuery(objects, child, bound, None);
        }
      }
    }

    method CommitSingleObject(o: Object)
      requires Valid() && NewToHistory(store, Put(o))
      modifies this
      ensures Valid() && log == old(log) + [Put(o)]
      ensures objects == AfterWrite(old(objects), Put(o))
    {
      WriteKeeps(objects, store, log, Put(o));
      objects := CacheObject(objects, o);
      log := log + [Put(o)];
    }

    method Bury(id: nat, version: nat)
      requires Valid()
      modifies this
      ensures Valid() && log == old(log) + [Tombstone(id, version)]
      ensures objects == AfterWrite(old(objects), Tombstone(id, version))
    {
      WriteKeeps(objects, store, log, Tombstone(id, version));
      objects := CacheQuery(objects, id, version, None);
      log := log + [Tombstone(id, version)];
    }

    /** The objects written by a transaction. */
    method CommitWritten(written: seq<Object>)
      requires Valid() && forall k :: 0 <= k < |written| ==> NewToHistory(store, Put(written[k]))
      modifies this
      ensures Valid() && log == old(log) + Puts(written) && objects == AfterWrites(old(objects), Puts(written))
    {
      for k := 0 to |written|
        invariant Valid() && log == old(log) + Puts(written[..k])
        invariant objects == AfterWrites(old(objects), Puts(written[..k]))
      {
        CommitSingleObject(written[k]);
        WritesSnoc(old(objects), Puts(written[..k]), Put(written[k]));
        assert Puts(written[..k + 1]) == Puts(written[..k]) + [Put(written[k])];
      }
      assert written[..|written|] == written;
    }

    /** A tombstone for each input of a transaction that was deleted or moved out of consensus, at the version given. */
    method BuryInputs(gone: seq<(nat, nat)>, inputs: set<nat>)
      requires Valid()
      modifies this
      ensures Valid() && log == old(log) + Tombstones(gone, inputs)
      ensures objects == AfterWrites(old(objects), Tombstones(gone, inputs))
    {
      var remaining := inputs;
      ghost var ws: seq<Write> := [];
      for k := 0 to |gone|
        invariant Valid() && log == old(log) + ws && objects == AfterWrites(old(objects), ws)
        invariant ws + Tombstones(gone[k..], remaining) == Tombstones(gone, inputs)
      {
        var (id, version) := gone[k];
        assert gone[k..][1..] == gone[k + 1..];
        if id in remaining {
          remaining := remaining - {id};
          Bury(id, version);
          WritesSnoc(old(objects), ws, Tombstone(id, version));
          ws := ws + [Tombstone(id, version)];
        }
      }
      assert ws == Tombstones(gone, inputs);
    }

    /** A tombstone, at the transaction's own version, for each consensus object whose stream ended. */
    method BuryEnded(ended: seq<nat>, lamport: nat)
      requires Valid()
      modifies this
      ensures Valid() && log == old(log) + Endings(ended, lamport)
      ensures objects == AfterWrites(old(objects), Endings(ended, lamport))
    {
      for k := 0 to |ended|
        invariant Valid() && log == old(log) + Endings(ended[..k], lamport)
        invariant objects == AfterWrites(old(objects), Endings(ended[..k], lamport))
      {
        Bury(ended[k], lamport);
        WritesSnoc(old(objects), Endings(ended[..k], lamport), Tombstone(ended[k], lamport));
        assert Endings(ended[..k + 1], lamport) == Endings(ended[..k], lamport) + [Tombstone(ended[k], lamport)];
      }
      assert ended[..|ended|] == ended;
    }

    /** `commit_store` */
    method CommitStore(written: seq<Object>, gone: seq<(nat, nat)>, inputs: set<nat>, ended: seq<nat>, lamport: nat)
      requires Valid() && forall k :: 0 <= k < |written| ==> NewToHistory(store, Put(written[k]))
      modifies this
      ensures Valid()
      ensures var ws := Puts(written) + Tombstones(gone, inputs) + Endings(ended, lamport);
              log == old(log) + ws && objects == AfterWrites(old(objects), ws)
    {
      ghost var puts, burials, endings := Puts(written), Tombstones(gone, inputs), Endings(ended, lamport);
      CommitWritten(written);
      BuryInputs(gone, inputs);
      BuryEnded(ended, lamport);
      assert old(log) + puts + burials + endings == old(log) + (puts + burials + endings);
      WritesConcat(old(objects), puts, burials);
      WritesConcat(old(objects), puts + burials, endings);
    }
  }

  ghost function AfterWrites(s: Snapshot, ws: seq<Write>): Snapshot {
    if ws == [] then s else AfterWrite(AfterWrites(s, ws[..|ws| - 1]), ws[|ws| - 1])
  }

  lemma {:induction false} WritesSnoc(s: Snapshot, ws: seq<Write>, w: Write)
    ensures AfterWrites(s, ws + [w]) == AfterWrite(AfterWrites(s, ws), w)
  {
    assert (ws + [w])[..|ws|] == ws;
  }

  lemma {:induction false} WritesConcat(s: Snapshot, ws: seq<Write>, more: seq<Write>)
    ensures AfterWrites(AfterWrites(s, ws), more) == AfterWrites(s, ws + more)
  {
    if more == [] {
      assert ws + more == ws;
    } else {
      var n := |more| - 1;
      WritesConcat(s, ws, more[..n]);
      WritesSnoc(s, ws + more[..n], more[n]);
      assert ws + more[..n] + [more[n]] == ws + more;
    }
  }

  ghost function Puts(os: seq<Object>): seq<Write> {
    seq(|os|, k requires 0 <= k < |os| => Put(os[k]))
  }

  /** An input is buried at most once, at the version it is first listed with. */
  ghost function Tombstones(gone: seq<(nat, nat)>, inputs: set<nat>): seq<Write>
    decreases |gone|
  {
    if gone == [] then []
    else if gone[0].0 in inputs then [Tombstone(gone[0].0, gone[0].1)] + Tombstones(gone[1..], inputs - {gone[0].0})
    else Tombstones(gone[1..], inputs)
  }

  /** The version an input is first listed with. */
  ghost predicate FirstListed(gone: seq<(nat, nat)>, id: nat, v: nat) {
    exists k :: 0 <= k < |gone| && gone[k] == (id, v) && forall j :: 0 <= j < k ==> gone[j].0 != id
  }

  lemma {:induction false} TombstonesIff(gone: seq<(nat, nat)>, inputs: set<nat>, w: Write)
    ensures w in Tombstones(gone, inputs)
       <==> w.Tombstone? && w.id in inputs && FirstListed(gone, w.id, w.version)
    decreases |gone|
  {
    if gone != [] {
      var (id, v) := gone[0];
      var rest := if id in inputs then inputs - {id} else inputs;
      TombstonesIff(gone[1..], rest, w);
      if w.Tombstone? { FirstOrLater(gone, w.id, w.version); }
    }
  }

  lemma {:induction false} FirstOrLater(gone: seq<(nat, nat)>, id: nat, v: nat)
    requires gone != []
    ensures FirstListed(gone, id, v)
       <==> gone[0] == (id, v) || (gone[0].0 != id && FirstListed(gone[1..], id, v))
  {
    var rest := gone[1..];
    if FirstListed(gone, id, v) && gone[0].0 != id {
      var k :| 0 <= k < |gone| && gone[k] == (id, v) && forall j :: 0 <= j < k ==> gone[j].0 != id;
      assert rest[k - 1] == (id, v);
    }
    if gone[0].0 != id && FirstListed(rest, id, v) {
      var k :| 0 <= k < |rest| && rest[k] == (id, v) && forall j :: 0 <= j < k ==> rest[j].0 != id;
      var at := k + 1;
      assert gone[at] == (id, v);
      forall j | 0 <= j < at ensures gone[j].0 != id { if j > 0 { assert gone[j] == rest[j - 1]; } }
    }
  }

  ghost function Endings(ids: seq<nat>, lamport: nat): seq<Write> {
    seq(|ids|, k requires 0 <= k < |ids| => Tombstone(ids[k], lamport))
  }
}
