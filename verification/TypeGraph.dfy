/** The index from types to the functions that consume and produce them
    (crates/movy-analysis/src/type_graph.rs). */
module TypeGraph {
  import opened Wrappers
  import opened Abi
  import opened Sequences

  datatype Node = FunctionNode(m: ModuleId, f: FunctionAbi) | TypeNode(t: Token)

  datatype Kind = FunctionReturn | ByMutableReference | ByReference | ByValue

  datatype Edge = Edge(source: nat, target: nat, kind: Kind)

  // ----- what the graph stands for

  /** One parameter or result of one function: its type without the reference. */
  datatype Link = Link(kind: Kind, ty: Token, m: ModuleId, f: FunctionAbi)

  /** `dereference`, or the type itself */
  function Bare(t: Token): Token {
    if t.Ref? || t.MutRef? then t.inner else t
  }

  function KindOf(param: Token): Kind {
    if param.Ref? then ByReference else if param.MutRef? then ByMutableReference else ByValue
  }

  ghost function ParameterLinks(m: ModuleId, f: FunctionAbi, params: seq<Token>): (ls: seq<Link>)
    ensures |ls| == |params|
  {
    seq(|params|, k requires 0 <= k < |params| => Link(KindOf(params[k]), Bare(params[k]), m, f))
  }

  ghost function ResultLinks(m: ModuleId, f: FunctionAbi, results: seq<Token>): (ls: seq<Link>)
    ensures |ls| == |results|
  {
    seq(|results|, k requires 0 <= k < |results| => Link(FunctionReturn, Bare(results[k]), m, f))
  }

  lemma {:induction false} ParameterLinksStep(m: ModuleId, f: FunctionAbi, params: seq<Token>, k: nat)
    requires k < |params|
    ensures ParameterLinks(m, f, params[..k + 1])
         == ParameterLinks(m, f, params[..k]) + [Link(KindOf(params[k]), Bare(params[k]), m, f)]
  {
  }

  lemma {:induction false} ResultLinksStep(m: ModuleId, f: FunctionAbi, results: seq<Token>, k: nat)
    requires k < |results|
    ensures ResultLinks(m, f, results[..k + 1])
         == ResultLinks(m, f, results[..k]) + [Link(FunctionReturn, Bare(results[k]), m, f)]
  {
  }

  datatype Added = Added(m: ModuleId, f: FunctionAbi)

  /** A scan of every parameter and every result of every function added. */
  ghost function Scan(added: seq<Added>): seq<Link> {
    if added == [] then []
    else
      var a := added[|added| - 1];
      Scan(added[..|added| - 1]) + ParameterLinks(a.m, a.f, a.f.parameters) + ResultLinks(a.m, a.f, a.f.results)
  }

  // ----- searches

  datatype Search = Search(consumers: bool, ty: Token, publicOnly: bool, excluded: Option<FunctionIdent>)

  /** `is_sui_std` */
  predicate IsSuiStd(a: Address) {
    a == 1 || a == 2 || a == 3 || a == 13
  }

  /** `producer_allowed`: of the framework packages only a few constructors count as producers. */
  predicate ProducerAllowed(m: ModuleId, f: FunctionAbi) {
    !IsSuiStd(m.address)
    || (m.address == 2 && m.name == "coin" && f.name == "into_balance")
    || (m.address == 1 && m.name == "ascii" && f.name == "string")
    || (m.address == 1 && m.name == "string" && f.name == "utf8")
    || (m.address == 1 && m.name == "uq32_32" && f.name == "from_quotient")
    || (m.address == 1 && m.name == "uq64_64" && f.name == "from_quotient")
  }

  predicate Passes(q: Search, m: ModuleId, f: FunctionAbi) {
    && (q.publicOnly ==> f.public_)
    && (!q.consumers ==> q.excluded != Some(FunctionIdent(m.address, m.name, f.name)) && ProducerAllowed(m, f))
  }

  /** The link is of the kind looked for, its type matches, and its function passes the filters. */
  ghost predicate Wanted(q: Search, l: Link) {
    && (q.consumers <==> !l.kind.FunctionReturn?)
    && PartialExtract(l.ty, q.ty).Some?
    && Passes(q, l.m, l.f)
  }

  /** The functions of the wanted links whose type is among the given ones, one per link. */
  ghost function Select(q: Search, links: seq<Link>, types: set<Token>): multiset<Added> {
    if links == [] then multiset{}
    else
      Select(q, links[..|links| - 1], types) + Picked(q, links[|links| - 1], types)
  }

  ghost function Picked(q: Search, l: Link, types: set<Token>): multiset<Added> {
    if Wanted(q, l) && l.ty in types then multiset{Added(l.m, l.f)} else multiset{}
  }

  lemma {:induction false} SelectStep(q: Search, links: seq<Link>, k: nat, types: set<Token>)
    requires k < |links|
    ensures Select(q, links[..k + 1], types) == Select(q, links[..k], types) + Picked(q, links[k], types)
  {
    assert links[..k + 1][..k] == links[..k];
  }

  lemma {:induction false} SelectNoTypes(q: Search, links: seq<Link>)
    ensures Select(q, links, {}) == multiset{}
  {
    if links != [] { SelectNoTypes(q, links[..|links| - 1]); }
  }

  lemma {:induction false} SelectOneMore(q: Search, links: seq<Link>, types: set<Token>, t: Token)
    requires t !in types
    ensures Select(q, links, types + {t}) == Select(q, links, types) + Select(q, links, {t})
  {
    if links != [] { SelectOneMore(q, links[..|links| - 1], types, t); }
  }

  lemma {:induction false} SelectUnmatched(q: Search, links: seq<Link>, t: Token)
    requires PartialExtract(t, q.ty).None?
    ensures Select(q, links, {t}) == multiset{}
  {
    if links != [] { SelectUnmatched(q, links[..|links| - 1], t); }
  }

  /** Everything the search wants, by a plain scan. */
  ghost function Found(q: Search, links: seq<Link>): multiset<Added> {
    if links == [] then multiset{}
    else
      var l := links[|links| - 1];
      Found(q, links[..|links| - 1]) + if Wanted(q, l) then multiset{Added(l.m, l.f)} else multiset{}
  }

  lemma {:induction false} SelectAllTypes(q: Search, links: seq<Link>, types: set<Token>)
    requires forall k :: 0 <= k < |links| ==> links[k].ty in types
    ensures Select(q, links, types) == Found(q, links)
  {
    if links != [] { SelectAllTypes(q, links[..|links| - 1], types); }
  }

  // ----- the searches in plain terms

  /** The type itself, by value or behind a reference, is among the given ones. */
  ghost predicate Occurs(t: Token, among: seq<Token>) {
    (t in among && !t.Ref? && !t.MutRef?) || Token.Ref(t) in among || MutRef(t) in among
  }

  ghost predicate LinkIn(l: Link, f: FunctionAbi) {
    match l.kind
    case ByValue => l.ty in f.parameters && !l.ty.Ref? && !l.ty.MutRef?
    case ByReference => Token.Ref(l.ty) in f.parameters
    case ByMutableReference => MutRef(l.ty) in f.parameters
    case FunctionReturn => Occurs(l.ty, f.results)
  }

  lemma {:induction false} ParameterLinkIff(m: ModuleId, f: FunctionAbi, params: seq<Token>, l: Link)
    ensures l in ParameterLinks(m, f, params) <==>
            l.m == m && l.f == f && !l.kind.FunctionReturn? && LinkIn(l, f.(parameters := params))
  {
    var ls := ParameterLinks(m, f, params);
    if l in ls {
      var k :| 0 <= k < |ls| && ls[k] == l;
      assert params[k] in params;
    }
    if l.m == m && l.f == f && !l.kind.FunctionReturn? && LinkIn(l, f.(parameters := params)) {
      var p := match l.kind
        case ByReference => Token.Ref(l.ty)
        case ByMutableReference => MutRef(l.ty)
        case _ => l.ty;
      var k :| 0 <= k < |params| && params[k] == p;
      assert ls[k] == l;
    }
  }

  lemma {:induction false} ResultLinkIff(m: ModuleId, f: FunctionAbi, results: seq<Token>, l: Link)
    ensures l in ResultLinks(m, f, results) <==>
            l.m == m && l.f == f && l.kind.FunctionReturn? && Occurs(l.ty, results)
  {
    var ls := ResultLinks(m, f, results);
    if l in ls {
      var k :| 0 <= k < |ls| && ls[k] == l;
      assert results[k] in results;
    }
    if l.m == m && l.f == f && l.kind.FunctionReturn? && Occurs(l.ty, results) {
      var r := if l.ty in results && !l.ty.Ref? && !l.ty.MutRef? then l.ty
               else if Token.Ref(l.ty) in results then Token.Ref(l.ty) else MutRef(l.ty);
      var k :| 0 <= k < |results| && results[k] == r;
      assert ls[k] == l;
    }
  }

  /** The links are those of the parameters and results of the functions added, each of its own kind. */
  lemma {:induction false} LinkIff(added: seq<Added>, l: Link)
    ensures l in Scan(added) <==> Added(l.m, l.f) in added && LinkIn(l, l.f)
  {
    if added != [] {
      var front, a := added[..|added| - 1], added[|added| - 1];
      LinkIff(front, l);
      assert added == front + [a];
      ParameterLinkIff(a.m, a.f, a.f.parameters, l);
      ResultLinkIff(a.m, a.f, a.f.results, l);
    }
  }

  lemma {:induction false} FoundIff(q: Search, links: seq<Link>, a: Added)
    ensures a in Found(q, links) <==> exists l :: l in links && Wanted(q, l) && l.m == a.m && l.f == a.f
  {
    if links != [] {
      var front, last := links[..|links| - 1], links[|links| - 1];
      FoundIff(q, front, a);
      assert links == front + [last];
    }
  }

  const FRAMEWORK: set<Address> := {1, 2, 3, 13}

  /** The functions of the framework that count as producers. */
  const CONSTRUCTORS := {
    FunctionIdent(2, "coin", "into_balance"),
    FunctionIdent(1, "ascii", "string"),
    FunctionIdent(1, "string", "utf8"),
    FunctionIdent(1, "uq32_32", "from_quotient"),
    FunctionIdent(1, "uq64_64", "from_quotient")
  }

  /** A search finds as consumers exactly the functions added with a parameter, by value or by reference, whose type
      matches; only public ones, if so asked. */
  lemma {:induction false} ConsumerIff(added: seq<Added>, ty: Token, publicOnly: bool, a: Added)
    ensures a in Found(Search(true, ty, publicOnly, None), Scan(added)) <==>
            && a in added && (publicOnly ==> a.f.public_)
            && exists t :: Occurs(t, a.f.parameters) && PartialExtract(t, ty).Some?
  {
    var q := Search(true, ty, publicOnly, None);
    FoundIff(q, Scan(added), a);
    if l :| l in Scan(added) && Wanted(q, l) && l.m == a.m && l.f == a.f {
      LinkIff(added, l);
      assert a == Added(l.m, l.f) && Occurs(l.ty, a.f.parameters);
    }
    if a in added && (publicOnly ==> a.f.public_) {
      if t :| Occurs(t, a.f.parameters) && PartialExtract(t, ty).Some? {
        var kind := if Token.Ref(t) in a.f.parameters then ByReference
                    else if MutRef(t) in a.f.parameters then ByMutableReference else ByValue;
        var l := Link(kind, t, a.m, a.f);
        LinkIff(added, l);
        assert Wanted(q, l);
      }
    }
  }

  /** And as producers exactly those with such a result, other than the one excluded, and of the framework only the
      five constructors. */
  lemma {:induction false} ProducerIff(added: seq<Added>, ty: Token, publicOnly: bool, excluded: Option<FunctionIdent>,
                                       a: Added)
    ensures a in Found(Search(false, ty, publicOnly, excluded), Scan(added)) <==>
            && a in added && (publicOnly ==> a.f.public_)
            && (exists t :: Occurs(t, a.f.results) && PartialExtract(t, ty).Some?)
            && var name := FunctionIdent(a.m.address, a.m.name, a.f.name);
               excluded != Some(name) && (a.m.address in FRAMEWORK ==> name in CONSTRUCTORS)
  {
    var q, name := Search(false, ty, publicOnly, excluded), FunctionIdent(a.m.address, a.m.name, a.f.name);
    FoundIff(q, Scan(added), a);
    assert ProducerAllowed(a.m, a.f) <==> (a.m.address in FRAMEWORK ==> name in CONSTRUCTORS);
    if l :| l in Scan(added) && Wanted(q, l) && l.m == a.m && l.f == a.f {
      LinkIff(added, l);
      assert a == Added(l.m, l.f) && Occurs(l.ty, a.f.results);
    }
    if a in added && Passes(q, a.m, a.f) {
      if t :| Occurs(t, a.f.results) && PartialExtract(t, ty).Some? {
        var l := Link(FunctionReturn, t, a.m, a.f);
        LinkIff(added, l);
        assert Wanted(q, l);
      }
    }
  }

  // ----- graphs

  /** The edge joins a type and a function, the type first except for results. */
  ghost predicate Joins(nodes: seq<Node>, e: Edge) {
    && e.source < |nodes| && e.target < |nodes|
    && if e.kind.FunctionReturn? then nodes[e.source].FunctionNode? && nodes[e.target].TypeNode?
       else nodes[e.source].TypeNode? && nodes[e.target].FunctionNode?
  }

  ghost predicate Wired(nodes: seq<Node>, edges: seq<Edge>) {
    forall k :: 0 <= k < |edges| ==> Joins(nodes, edges[k])
  }

  ghost function LinkOf(nodes: seq<Node>, e: Edge): Link
    requires Joins(nodes, e)
  {
    if e.kind.FunctionReturn? then Link(e.kind, nodes[e.target].t, nodes[e.source].m, nodes[e.source].f)
    else Link(e.kind, nodes[e.source].t, nodes[e.target].m, nodes[e.target].f)
  }

  ghost function Links(nodes: seq<Node>, edges: seq<Edge>): (ls: seq<Link>)
    requires Wired(nodes, edges)
    ensures |ls| == |edges|
  {
    seq(|edges|, k requires 0 <= k < |edges| => LinkOf(nodes, edges[k]))
  }

  /** Each type has exactly one node, and the index finds it. */
  ghost predicate Indexed(nodes: seq<Node>, tys: map<Token, nat>) {
    && (forall t :: t in tys ==> tys[t] < |nodes| && nodes[tys[t]] == TypeNode(t))
    && (forall n :: 0 <= n < |nodes| && nodes[n].TypeNode? ==> nodes[n].t in tys && tys[nodes[n].t] == n)
  }

  lemma {:induction false} IndexInjective(nodes: seq<Node>, tys: map<Token, nat>, t: Token, u: Token)
    requires Indexed(nodes, tys) && t in tys && u in tys && tys[t] == tys[u]
    ensures t == u
  {
    assert nodes[tys[t]] == TypeNode(t) && nodes[tys[u]] == TypeNode(u);
  }

  lemma {:induction false} NodesGrow(nodes: seq<Node>, more: seq<Node>, edges: seq<Edge>)
    requires Wired(nodes, edges)
    ensures Wired(nodes + more, edges) && Links(nodes + more, edges) == Links(nodes, edges)
  {
    forall k | 0 <= k < |edges| ensures Joins(nodes + more, edges[k]) {
      assert Joins(nodes, edges[k]);
    }
  }

  lemma {:induction false} EdgeAdded(nodes: seq<Node>, edges: seq<Edge>, e: Edge)
    requires Wired(nodes, edges) && Joins(nodes, e)
    ensures Wired(nodes, edges + [e]) && Links(nodes, edges + [e]) == Links(nodes, edges) + [LinkOf(nodes, e)]
  {
  }

  lemma {:induction false} TypeOfLink(nodes: seq<Node>, edges: seq<Edge>, tys: map<Token, nat>, k: nat)
    requires Wired(nodes, edges) && Indexed(nodes, tys) && k < |edges|
    ensures Links(nodes, edges)[k].ty in tys
    ensures tys[Links(nodes, edges)[k].ty] == if edges[k].kind.FunctionReturn? then edges[k].target else edges[k].source
  {
    assert Joins(nodes, edges[k]);
  }

  /** The function at the other end of the edge, if the edge is at the node in the direction asked for and the function
      passes. */
  function Across(q: Search, nodes: seq<Node>, e: Edge, node: nat): seq<Added>
    requires e.source < |nodes| && e.target < |nodes|
  {
    var here, there := if q.consumers then e.source else e.target, if q.consumers then e.target else e.source;
    if here == node && nodes[there].FunctionNode? && Passes(q, nodes[there].m, nodes[there].f)
    then [Added(nodes[there].m, nodes[there].f)] else []
  }

  /** It is found exactly when its link is picked. */
  lemma {:induction false} EdgePicked(q: Search, nodes: seq<Node>, edges: seq<Edge>, tys: map<Token, nat>, k: nat,
                                      t: Token)
    requires Wired(nodes, edges) && Indexed(nodes, tys) && k < |edges|
    requires t in tys && PartialExtract(t, q.ty).Some?
    ensures Joins(nodes, edges[k])
    ensures multiset(Across(q, nodes, edges[k], tys[t])) == Picked(q, Links(nodes, edges)[k], {t})
  {
    TypeOfLink(nodes, edges, tys, k);
    assert Joins(nodes, edges[k]);
    assert nodes[tys[t]] == TypeNode(t);
  }

  /** Goes through the edges of a type in the direction asked for. */
  method EdgesOf(q: Search, nodes: seq<Node>, edges: seq<Edge>, tys: map<Token, nat>, t: Token)
      returns (found: seq<Added>)
    requires Wired(nodes, edges) && Indexed(nodes, tys) && t in tys && PartialExtract(t, q.ty).Some?
    ensures multiset(found) == Select(q, Links(nodes, edges), {t})
  {
    found := [];
    ghost var links := Links(nodes, edges);
    for k := 0 to |edges|
      invariant multiset(found) == Select(q, links[..k], {t})
    {
      SelectStep(q, links, k, {t});
      EdgePicked(q, nodes, edges, tys, k, t);
      found := found + Across(q, nodes, edges[k], tys[t]);
    }
    assert links[..|edges|] == links;
  }

  lemma {:induction false} SelectIndexed(q: Search, nodes: seq<Node>, edges: seq<Edge>, tys: map<Token, nat>)
    requires Wired(nodes, edges) && Indexed(nodes, tys)
    ensures Select(q, Links(nodes, edges), tys.Keys) == Found(q, Links(nodes, edges))
  {
    forall k | 0 <= k < |edges| ensures Links(nodes, edges)[k].ty in tys { TypeOfLink(nodes, edges, tys, k); }
    SelectAllTypes(q, Links(nodes, edges), tys.Keys);
  }

  /** `MoveTypeGraph`; `added` records the functions of the modules analysed. */
  class MoveTypeGraph {
    var nodes: seq<Node>
    var edges: seq<Edge>
    var tys: map<Token, nat>
    var modules: set<ModuleId>
    ghost var added: seq<Added>

    ghost predicate Valid()
      reads this
    {
      Indexed(nodes, tys) && Wired(nodes, edges) && Links(nodes, edges) == Scan(added)
    }

    constructor ()
      ensures Valid() && added == [] && modules == {}
    {
      nodes, edges, tys, modules, added := [], [], map[], {}, [];
    }

    /** `may_add_ty` */
    method MayAddTy(ty: Token) returns (idx: nat)
      requires Indexed(nodes, tys) && Wired(nodes, edges)
      modifies `nodes, `tys
      ensures Indexed(nodes, tys) && Wired(nodes, edges) && Links(nodes, edges) == old(Links(nodes, edges))
      ensures old(nodes) <= nodes && idx < |nodes| && nodes[idx] == TypeNode(ty)
    {
      if ty in tys {
        return tys[ty];
      }
      idx := |nodes|;
      NodesGrow(nodes, [TypeNode(ty)], edges);
      nodes := nodes + [TypeNode(ty)];
      tys := tys[ty := idx];
    }

    /** Links the function at fidx with a type: as a parameter, or as a result. */
    method AddLink(ty: Token, fidx: nat, kind: Kind, ghost m: ModuleId, ghost f: FunctionAbi)
      requires Indexed(nodes, tys) && Wired(nodes, edges)
      requires fidx < |nodes| && nodes[fidx] == FunctionNode(m, f)
      modifies `nodes, `tys, `edges
      ensures Indexed(nodes, tys) && Wired(nodes, edges)
      ensures fidx < |nodes| && nodes[fidx] == FunctionNode(m, f)
      ensures Links(nodes, edges) == old(Links(nodes, edges)) + [Link(kind, ty, m, f)]
    {
      var idx := MayAddTy(ty);
      var e := if kind.FunctionReturn? then Edge(fidx, idx, kind) else Edge(idx, fidx, kind);
      EdgeAdded(nodes, edges, e);
      edges := edges + [e];
    }

    method AddParameters(f: FunctionAbi, ghost m: ModuleId, fidx: nat)
      requires Indexed(nodes, tys) && Wired(nodes, edges)
      requires fidx < |nodes| && nodes[fidx] == FunctionNode(m, f)
      modifies `nodes, `tys, `edges
      ensures Indexed(nodes, tys) && Wired(nodes, edges)
      ensures fidx < |nodes| && nodes[fidx] == FunctionNode(m, f)
      ensures Links(nodes, edges) == old(Links(nodes, edges)) + ParameterLinks(m, f, f.parameters)
    {
      for k := 0 to |f.parameters|
        invariant Indexed(nodes, tys) && Wired(nodes, edges)
        invariant fidx < |nodes| && nodes[fidx] == FunctionNode(m, f)
        invariant Links(nodes, edges) == old(Links(nodes, edges)) + ParameterLinks(m, f, f.parameters[..k])
      {
        var param := f.parameters[k];
        ParameterLinksStep(m, f, f.parameters, k);
        AddLink(Bare(param), fidx, KindOf(param), m, f);
      }
      assert f.parameters[..|f.parameters|] == f.parameters;
    }

    method AddResults(f: FunctionAbi, ghost m: ModuleId, fidx: nat)
      requires Indexed(nodes, tys) && Wired(nodes, edges)
      requires fidx < |nodes| && nodes[fidx] == FunctionNode(m, f)
      modifies `nodes, `tys, `edges
      ensures Indexed(nodes, tys) && Wired(nodes, edges)
      ensures Links(nodes, edges) == old(Links(nodes, edges)) + ResultLinks(m, f, f.results)
    {
      for k := 0 to |f.results|
        invariant Indexed(nodes, tys) && Wired(nodes, edges)
        invariant fidx < |nodes| && nodes[fidx] == FunctionNode(m, f)
        invariant Links(nodes, edges) == old(Links(nodes, edges)) + ResultLinks(m, f, f.results[..k])
      {
        ResultLinksStep(m, f, f.results, k);
        AddLink(Bare(f.results[k]), fidx, FunctionReturn, m, f);
      }
      assert f.results[..|f.results|] == f.results;
    }

    /** `add_function` */
    method AddFunction(f: FunctionAbi, m: ModuleId)
      requires Valid()
      modifies this
      ensures Valid() && modules == old(modules) && added == old(added) + [Added(m, f)]
    {
      var fidx := |nodes|;
      NodesGrow(nodes, [FunctionNode(m, f)], edges);
      nodes := nodes + [FunctionNode(m, f)];
      AddParameters(f, m, fidx);
      AddResults(f, m, fidx);
      added := added + [Added(m, f)];
      assert added[..|added| - 1] == old(added);
    }

    /** `add_module`: a module seen before is passed over. */
    method AddModule(m: ModuleId, functions: seq<FunctionAbi>)
      requires Valid()
      modifies this
      ensures Valid() && modules == old(modules) + {m}
      ensures added == old(added) + if m in old(modules) then [] else FunctionsOf(m, functions)
    {
      if m in modules {
        assert added == added + [];
        return;
      }
      modules := modules + {m};
      for k := 0 to |functions|
        invariant Valid() && modules == old(modules) + {m}
        invariant added == old(added) + FunctionsOf(m, functions[..k])
      {
        AddFunction(functions[k], m);
        assert FunctionsOf(m, functions[..k + 1]) == FunctionsOf(m, functions[..k]) + [Added(m, functions[k])];
      }
      assert functions[..|functions|] == functions;
    }

    /** Goes through the types that match and, for each, through its edges in the direction asked for. */
    method Find(q: Search) returns (found: seq<Added>)
      requires Valid()
      ensures multiset(found) == Found(q, Scan(added))
    {
      found := [];
      ghost var links := Links(nodes, edges);
      ghost var seen: set<Token> := {};
      var todo := tys.Keys;
      SelectNoTypes(q, links);
      while todo != {}
        invariant todo <= tys.Keys && seen !! todo && seen + todo == tys.Keys
        invariant multiset(found) == Select(q, links, seen)
        decreases todo
      {
        var t :| t in todo;
        SelectOneMore(q, links, seen, t);
        var matched := PartialExtractTyArgs(t, q.ty);
        if matched.Some? {
          var more := EdgesOf(q, nodes, edges, tys, t);
          found := found + more;
        } else {
          SelectUnmatched(q, links, t);
        }
        todo := todo - {t};
        seen := seen + {t};
      }
      assert seen == tys.Keys;
      SelectIndexed(q, nodes, edges, tys);
    }

    /** `find_consumers` */
    method FindConsumers(ty: Token, publicOnly: bool) returns (found: seq<Added>)
      requires Valid()
      ensures multiset(found) == Found(Search(true, ty, publicOnly, None), Scan(added))
    {
      found := Find(Search(true, ty, publicOnly, None));
    }

    /** `find_producers` */
    method FindProducers(ty: Token, publicOnly: bool, excluded: Option<FunctionIdent>) returns (found: seq<Added>)
      requires Valid()
      ensures multiset(found) == Found(Search(false, Bare(ty), publicOnly, excluded), Scan(added))
    {
      found := Find(Search(false, Bare(ty), publicOnly, excluded));
    }
  }

  ghost function FunctionsOf(m: ModuleId, functions: seq<FunctionAbi>): seq<Added> {
    seq(|functions|, k requires 0 <= k < |functions| => Added(m, functions[k]))
  }
}
