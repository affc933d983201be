/**
 * The long-lived graph object the editor displays. `FromXml` merges a freshly
 * received description into it, keeping the identity of every vertex whose name
 * survives, so that state keyed on the vertex objects outlives the update.
 */
module Graphs {
  import opened Wrappers
  import opened Descriptions
  import opened Vertices
  import opened Resolution

  /** A registered change listener; its callback is opaque, so the model counts calls. */
  class ChangeListener {
    var notifications: nat

    constructor ()
      ensures notifications == 0
    {
      notifications := 0;
    }

    /** `stateChanged(evt)`. */
    method StateChanged()
      modifies this`notifications
      ensures notifications == old(notifications) + 1
    {
      notifications := notifications + 1;
    }
  }

  /** The names of a set of vertices. */
  function NamesOfVertices(s: set<QVertex>): (r: set<string>)
  {
    set v | v in s :: v.name
  }

  /** No two vertices share a name. */
  ghost predicate UniqueNames(s: set<QVertex>)
  {
    forall v, w :: v in s && w in s && v.name == w.name ==> v == w
  }

  /** The vertices of a set under their names. */
  ghost function NameIndex(s: set<QVertex>): (m: Lookup)
    requires UniqueNames(s)
    ensures m.Keys == NamesOfVertices(s) && m.Values == s && KeyedByName(m)
  {
    var m := map v | v in s :: v.name := v;
    assert m.Values == s by {
      forall v | v in s ensures v in m.Values { assert m[v.name] == v; }
    }
    m
  }

  /** A map keyed by name indexes exactly its own values. */
  lemma NameIndexOf(m: Lookup)
    requires KeyedByName(m)
    ensures UniqueNames(m.Values) && NameIndex(m.Values) == m
  {
    assert UniqueNames(m.Values) by {
      forall v, w | v in m.Values && w in m.Values && v.name == w.name ensures v == w {
        var a :| a in m && m[a] == v;
        var b :| b in m && m[b] == w;
      }
    }
    var idx := NameIndex(m.Values);
    assert idx.Keys == m.Keys by {
      forall n | n in m ensures n in idx.Keys { assert m[n] in m.Values; }
    }
  }

  /** The error `fromXml` raises on a description, given the names the graph had before. */
  ghost function ReconcileError(d: Option<GraphDesc>, known: set<string>): (r: Option<FatalError>)
  {
    match d
    case None => Some(NullGraph)
    case Some(g) =>
      match ParseVertices(g.vertices)
      case Err(e) => Some(e)
      case Ok(xs) =>
        var keys := known + NamesOf(xs);
        if exists i :: 0 <= i < |g.edges| && !EdgeResolvable(g.edges[i], keys) then Some(BadEdge)
        else FirstBoxError(g.bangBoxes, keys)
  }

  /** Once the vertex entries read, the error is the edge phase's, else the bang-box phase's. */
  lemma LinkError(g: GraphDesc, known: set<string>, verts: Lookup)
    requires ParseVertices(g.vertices).Ok? && verts.Keys == known + NamesOf(ParseVertices(g.vertices).value)
    ensures ReconcileError(Some(g), known) ==
      if ResolveEdges(g.edges, verts).Err? then Some(BadEdge)
      else if ResolveBoxes(g.bangBoxes, verts).Err? then Some(ResolveBoxes(g.bangBoxes, verts).error)
      else None
  {
    ResolveEdgesMeaning(g.edges, verts);
  }

  /** The vertex entries of a description that reads without error. */
  ghost function DeclaredVertices(d: Option<GraphDesc>): (r: seq<VertexData>)
  {
    if d.Some? && ParseVertices(d.value.vertices).Ok? then ParseVertices(d.value.vertices).value else []
  }

  /** The graph's vertices are the live names' vertices of a lookup keyed by name. */
  lemma {:induction false} LiveVertices(verts: Lookup, live: set<string>, vs: set<QVertex>)
    requires KeyedByName(verts) && live <= verts.Keys
    requires vs <= verts.Values
    requires forall n :: n in verts ==> (verts[n] in vs <==> n in live)
    ensures UniqueNames(vs) && NameIndex(vs) == Restrict(verts, live)
  {
    var m1 := Restrict(verts, live);
    assert m1.Values == vs by {
      forall v | v in vs ensures v in m1.Values {
        var n :| n in verts && verts[n] == v;
        assert m1[n] == v;
      }
    }
    NameIndexOf(m1);
  }

  /**
   * The edge phase of `fromXml`: one new edge per entry, its endpoints looked up by
   * name, added in order until the first entry that does not resolve. The edges
   * added before a failure stay in the graph.
   */
  method CollectEdges(es: seq<EDesc>, verts: Lookup) returns (r: Outcome<FatalError>, added: seq<QEdge>)
    ensures r.Pass? <==> ResolveEdges(es, verts).Ok?
    ensures r.Pass? ==> ResolveEdges(es, verts) == Ok(added)
    ensures r.Fail? ==> r.error == BadEdge
    ensures |added| <= |es| && ResolveEdges(es[..|added|], verts) == Ok(added)
    ensures r.Fail? ==> |added| < |es| && !EdgeResolvable(es[|added|], verts.Keys)
  {
    added := [];
    for i := 0 to |es|
      invariant |added| == i && ResolveEdges(es[..i], verts) == Ok(added)
    {
      assert es[..i + 1] == es[..i] + [es[i]];
      var e := es[i];
      var source: Option<QVertex> := None;
      var target: Option<QVertex> := None;
      var ename: Option<string> := None;
      if e.source.Some? && e.source.value in verts { source := Some(verts[e.source.value]); }
      if e.target.Some? && e.target.value in verts { target := Some(verts[e.target.value]); }
      if e.name.Some? { ename := e.name; }
      if source.None? || target.None? || ename.None? {
        assert !EdgeResolvable(es[i], verts.Keys);
        ResolveEdgesMeaning(es, verts);
        return Fail(BadEdge), added;
      }
      added := added + [QEdge(ename.value, source.value, target.value)];
    }
    assert es[..|es|] == es;
    r := Pass;
  }

  /**
   * The members of one bang box, added one by one until the first name that is not
   * known. Returns whether every name was known, and the members added.
   */
  method CollectMembers(names: seq<string>, verts: Lookup) returns (ok: bool, members: seq<QVertex>)
    ensures ok <==> ResolveMembers(names, verts).Some?
    ensures ok ==> members == ResolveMembers(names, verts).value
    ensures |members| <= |names| && ResolveMembers(names[..|members|], verts) == Some(members)
  {
    members := [];
    for j := 0 to |names|
      invariant |members| == j && ResolveMembers(names[..j], verts) == Some(members)
    {
      assert names[..j + 1] == names[..j] + [names[j]];
      if names[j] !in verts {
        ResolveMembersMeaning(names, verts);
        return false, members;
      }
      members := members + [verts[names[j]]];
    }
    assert names[..|names|] == names;
    ok := true;
  }

  /**
   * The bang-box phase of `fromXml`: each named box is appended to a fresh list and
   * then filled, member by member, with the vertices its names look up to.
   */
  method CollectBangBoxes(bs: seq<BDesc>, verts: Lookup) returns (r: Outcome<FatalError>, boxes: seq<BangBox>)
    ensures r.Fail? <==> ResolveBoxes(bs, verts).Err?
    ensures r.Fail? ==> r.error == ResolveBoxes(bs, verts).error
    ensures r.Pass? ==> ResolveBoxes(bs, verts) == Ok(boxes)
  {
    boxes := [];
    for i := 0 to |bs|
      invariant ResolveBoxes(bs[..i], verts) == Ok(boxes)
    {
      assert bs[..i + 1] == bs[..i] + [bs[i]];
      var b := bs[i];
      FirstBoxErrorSnoc(bs[..i], b, verts.Keys);
      if b.name.None? {
        FirstBoxErrorPrefix(bs, i + 1, verts.Keys);
        return Fail(UnnamedBangBox), boxes;
      }
      var ok, members := CollectMembers(b.boxedVertices, verts);
      boxes := boxes + [BangBox(b.name.value, members)];
      if !ok {
        ResolveMembersMeaning(b.boxedVertices, verts);
        assert BoxError(b, verts.Keys) == Some(UnknownBoxedVertex);
        FirstBoxErrorPrefix(bs, i + 1, verts.Keys);
        return Fail(UnknownBoxedVertex), boxes;
      }
    }
    assert bs[..|bs|] == bs;
    r := Pass;
  }

  /**
   * After the merge only the vertices still marked stale are dropped, so what is kept
   * is exactly the set of vertices whose name the description declares.
   */
  lemma PrunedByName(verts: Lookup, s0: map<string, VState>, xs: seq<VertexData>,
                     vs: set<QVertex>)
    requires verts.Keys == s0.Keys + NamesOf(xs)
    requires forall n :: n in s0 ==> s0[n].stale
    requires StateOf(verts) == Merged(s0, xs)
    requires forall n :: n in verts ==> (verts[n] in vs <==> !verts[n].stale)
    ensures forall n :: n in verts ==> (verts[n] in vs <==> n in NamesOf(xs))
  {
    forall n | n in verts ensures verts[n] in vs <==> n in NamesOf(xs) {
      MergedAt(s0, xs, n);
      assert StateOf(verts)[n] == Merged(s0, xs)[n];
    }
  }

  /**
   * The vertices kept after the prune, looked up by name, are the merged lookup cut
   * down to the declared names; the lookup taken before the merge covers the rest.
   */
  lemma PrunedLookup(verts: Lookup, m0: Lookup, s0: map<string, VState>, xs: seq<VertexData>,
                     vs: set<QVertex>)
    requires KeyedByName(verts) && verts.Keys == m0.Keys + NamesOf(xs)
    requires forall n :: n in m0 ==> verts[n] == m0[n]
    requires s0.Keys == m0.Keys && forall n :: n in s0 ==> s0[n].stale
    requires StateOf(verts) == Merged(s0, xs)
    requires vs <= verts.Values
    requires forall n :: n in verts ==> (verts[n] in vs <==> !verts[n].stale)
    ensures UniqueNames(vs) && NameIndex(vs) == Restrict(verts, NamesOf(xs))
    ensures verts == m0 + NameIndex(vs) && NamesOfVertices(vs) == NamesOf(xs)
    ensures forall n :: n in m0 ==> (m0[n] in vs <==> n in NamesOf(xs))
  {
    PrunedByName(verts, s0, xs, vs);
    LiveVertices(verts, NamesOf(xs), vs);
    LookupIsOldPlusLive(verts, m0, NamesOf(xs));
  }

  /**
   * One more entry: its name joins the lookup's keys, the names known before keep
   * their vertices, and a boundary entry appends its vertex to the boundary list.
   */
  lemma MergedLookupSnoc(verts: Lookup, verts0: Lookup, xs: seq<VertexData>, x: VertexData, v: QVertex)
    requires verts.Keys == verts0.Keys + NamesOf(xs) && forall n :: n in verts0 ==> verts[n] == verts0[n]
    requires x.name in verts ==> v == verts[x.name]
    ensures verts[x.name := v].Keys == verts0.Keys + NamesOf(xs + [x])
    ensures forall n :: n in verts0 ==> verts[x.name := v][n] == verts0[n]
    ensures BoundaryOf(xs + [x], verts[x.name := v]) ==
      BoundaryOf(xs, verts) + (if x.vtype == Boundary then [v] else [])
  {
    NamesOfSnoc(xs, x);
    BoundaryOfAgree(xs, verts, verts[x.name := v]);
    BoundaryOfSnoc(xs, x, verts[x.name := v]);
  }

  /**
   * A description that refers only to the names it declares: it reconciles without
   * error even into an empty graph.
   */
  ghost predicate SelfContained(d: Option<GraphDesc>)
  {
    ReconcileError(d, {}).None?
  }

  /** A self-contained description reconciles without error into any graph. */
  lemma SelfContainedReconciles(d: Option<GraphDesc>, known: set<string>)
    requires SelfContained(d)
    ensures ReconcileError(d, known).None?
  {
    var g := d.value;
    var names := NamesOf(ParseVertices(g.vertices).value);
    assert forall i :: 0 <= i < |g.edges| ==> EdgeResolvable(g.edges[i], known + names) by {
      forall i | 0 <= i < |g.edges| ensures EdgeResolvable(g.edges[i], known + names) {
        assert EdgeResolvable(g.edges[i], {} + names);
      }
    }
    FirstBoxErrorNone(g.bangBoxes, {} + names);
    FirstBoxErrorNone(g.bangBoxes, known + names);
  }

  /** Every edge and bang-box entry of a self-contained description resolves in its own names. */
  lemma SelfContainedEntries(g: GraphDesc)
    requires SelfContained(Some(g))
    ensures ParseVertices(g.vertices).Ok?
    ensures forall i :: 0 <= i < |g.edges| ==>
      EdgeResolvable(g.edges[i], NamesOf(ParseVertices(g.vertices).value))
    ensures forall i :: 0 <= i < |g.bangBoxes| ==>
      BoxError(g.bangBoxes[i], NamesOf(ParseVertices(g.vertices).value)).None?
  {
    var names := NamesOf(ParseVertices(g.vertices).value);
    assert {} + names == names;
    FirstBoxErrorNone(g.bangBoxes, names);
  }

  /**
   * A self-contained description resolves its edges and bang boxes without error, and
   * alike in any two lookups that agree on the names it declares.
   */
  lemma SelfContainedResolvesAlike(g: GraphDesc, m: Lookup, m': Lookup)
    requires SelfContained(Some(g))
    requires NamesOf(ParseVertices(g.vertices).value) <= m.Keys * m'.Keys
    requires forall n :: n in NamesOf(ParseVertices(g.vertices).value) ==> m[n] == m'[n]
    ensures ResolveEdges(g.edges, m).Ok? && ResolveEdges(g.edges, m) == ResolveEdges(g.edges, m')
    ensures ResolveBoxes(g.bangBoxes, m).Ok? && ResolveBoxes(g.bangBoxes, m) == ResolveBoxes(g.bangBoxes, m')
  {
    SelfContainedEntries(g);
    var names := NamesOf(ParseVertices(g.vertices).value);
    ResolveEdgesMeaning(g.edges, m);
    ResolveEdgesAgree(g.edges, m, m');
    FirstBoxErrorNone(g.bangBoxes, m.Keys);
    forall i, n | 0 <= i < |g.bangBoxes| && n in BoxRefs(g.bangBoxes[i]) ensures n in names {
      var j :| 0 <= j < |g.bangBoxes[i].boxedVertices| && g.bangBoxes[i].boxedVertices[j] == n;
    }
    ResolveBoxesAgree(g.bangBoxes, m, m');
  }

  /** The names of the vertices of another graph that `getSubgraphVertices` looks up. */
  ghost function SubgraphNames(s: set<QVertex>): (r: set<string>)
    reads s
  {
    set u | u in s && u.vtype != Boundary :: u.name
  }

  /**
   * A graph whose names are those of a lookup keyed by name, and which still holds
   * every vertex of that lookup, holds exactly those vertices.
   */
  lemma SameVertices(m: Lookup, vs: set<QVertex>)
    requires KeyedByName(m) && UniqueNames(vs) && NamesOfVertices(vs) == m.Keys
    requires m.Values <= vs
    ensures vs == m.Values && NameIndex(vs) == m
  {
    forall v | v in vs ensures v in m.Values {
      assert m[v.name] in m.Values;
    }
    NameIndexOf(m);
  }

  /**
   * When the live vertices are exactly the declared names, the fields they end up with
   * do not depend on what the graph held before.
   */
  lemma LiveStateAfter(m0: Lookup, m: Lookup, s0: map<string, VState>, xs: seq<VertexData>)
    requires m.Keys == NamesOf(xs)
    requires StateOf(m0 + m) == Merged(MarkedStale(s0), xs)
    ensures StateOf(m) == Merged(map[], xs)
  {
    MergedKeys(map[], xs);
    forall n | n in m ensures StateOf(m)[n] == Merged(map[], xs)[n] {
      assert (m0 + m)[n] == m[n];
      assert StateOf(m0 + m)[n] == StateOf(m)[n];
      MergedAt(MarkedStale(s0), xs, n);
      MergedAt(map[], xs, n);
    }
  }

  /**
   * The lookup the edge phase uses still holds the pruned vertices, so an edge whose
   * source names a vertex that was removed resolves anyway, to that removed vertex,
   * which is then not among the graph's vertices. (In the program, the graph
   * library's `addEdge` would add it back; the model leaves that out.)
   */
  lemma EdgeToPrunedVertex(e: EDesc, m0: Lookup, m1: Lookup)
    requires KeyedByName(m0) && KeyedByName(m1) && EdgeResolvable(e, (m0 + m1).Keys)
    requires e.source.value in m0 && e.source.value !in m1
    ensures ResolveEdges([e], m0 + m1).Ok?
    ensures ResolveEdges([e], m0 + m1).value[0].source == m0[e.source.value]
    ensures m0[e.source.value] !in m1.Values
  {
    var n := e.source.value;
    forall k | k in m1 ensures m1[k] != m0[n] {
      assert m1[k].name == k && m0[n].name == n;
    }
  }

  /**
   * The vertex part of merging `d` into a graph whose lookup was `m0`, with fields `s0`,
   * given the resulting vertices `vs`, boundary list and fields `st` (under the names of
   * `m0` and of `vs`): exactly the declared names remain, an old vertex survives exactly
   * when its name is declared, the fields are those `Merged` gives, and the boundary
   * list holds the boundary vertices in name order.
   */
  ghost predicate MergedShape(d: Option<GraphDesc>, m0: Lookup, s0: map<string, VState>,
                              vs: set<QVertex>, boundary: seq<QVertex>, st: map<string, VState>)
    requires UniqueNames(vs)
  {
    && NamesOfVertices(vs) == NamesOf(DeclaredVertices(d))
    && (forall n :: n in m0 ==> (m0[n] in vs <==> n in NamesOf(DeclaredVertices(d))))
    && st == Merged(MarkedStale(s0), DeclaredVertices(d))
    && boundary == SortByName(BoundaryOf(DeclaredVertices(d), NameIndex(vs)))
  }

  /**
   * The loop of `getSubgraphVertices`: for each non-boundary vertex of `us`, the vertex
   * of the same name in `vmap`, when there is one.
   */
  method LookUpByName(vmap: Lookup, us: set<QVertex>) returns (vs: seq<QVertex>)
    requires KeyedByName(vmap)
    ensures forall v :: v in vs ==> v in vmap.Values
    ensures forall n :: n in vmap ==> (vmap[n] in vs <==> n in SubgraphNames(us))
    ensures UniqueNames(us) ==> forall i, j :: 0 <= i < j < |vs| ==> vs[i] != vs[j]
  {
    vs := [];
    var pending := us;
    ghost var done: set<QVertex> := {};
    while pending != {}
      invariant pending <= us && done == us - pending
      invariant forall v :: v in vs ==> v in vmap.Values && v.name in SubgraphNames(done)
      invariant forall n :: n in vmap && n in SubgraphNames(done) ==> vmap[n] in vs
      invariant UniqueNames(us) ==> forall i, j :: 0 <= i < j < |vs| ==> vs[i] != vs[j]
      decreases pending
    {
      var u :| u in pending;
      assert SubgraphNames(done + {u}) ==
        SubgraphNames(done) + if u.vtype != Boundary then {u.name} else {};
      if u.vtype != Boundary && u.name in vmap {
        assert UniqueNames(us) ==> u.name !in SubgraphNames(done);
        vs := vs + [vmap[u.name]];
      }
      pending := pending - {u};
      done := done + {u};
    }
  }

  /** Marking every vertex of a lookup stale, and nothing else, is `MarkedStale` on its snapshot. */
  twostate lemma StaleSnapshot(verts: Lookup)
    requires forall v :: v in verts.Values ==> v.stale && v.vtype == old(v.vtype) && v.angle == old(v.angle)
    ensures StateOf(verts) == MarkedStale(old(StateOf(verts)))
  {
  }

  class QuantoGraph {
    var vertices: set<QVertex>
    var edges: seq<QEdge>
    var boundaryVertices: seq<QVertex>
    var bangBoxes: seq<BangBox>
    var changeListeners: set<ChangeListener>
    var saved: bool

    /** Vertex names are unique within the graph. */
    ghost predicate Valid()
      reads this`vertices
    {
      UniqueNames(vertices)
    }

    function Names(): (r: set<string>)
      reads this`vertices
    {
      NamesOfVertices(vertices)
    }

    /** Each vertex of the graph under its name. */
    ghost function VertexMap(): (r: Lookup)
      reads this`vertices
      requires Valid()
    {
      NameIndex(vertices)
    }

    constructor ()
      ensures Valid()
      ensures vertices == {} && edges == [] && boundaryVertices == [] && bangBoxes == []
      ensures changeListeners == {} && saved
    {
      vertices, edges, boundaryVertices, bangBoxes := {}, [], [], [];
      changeListeners := {};
      saved := true;
    }

    /** `getVertexMap`: every vertex under its name, each marked stale. */
    method GetVertexMap() returns (verts: Lookup)
      requires Valid()
      modifies vertices
      ensures verts == VertexMap()
      ensures StateOf(verts) == MarkedStale(old(StateOf(VertexMap())))
    {
      verts := map[];
      var pending := vertices;
      while pending != {}
        invariant pending <= vertices
        invariant KeyedByName(verts) && verts.Values == vertices - pending
        invariant forall v :: v in vertices - pending ==> v.stale
        invariant forall v :: v in vertices ==> v.vtype == old(v.vtype) && v.angle == old(v.angle)
        decreases pending
      {
        var v :| v in pending;
        v.stale := true;
        assert v.name !in verts by {
          forall n | n in verts ensures verts[n] in vertices - pending {
            assert verts[n] in verts.Values;
          }
        }
        ValuesOfNewKey(verts, v.name, v);
        verts := verts[v.name := v];
        pending := pending - {v};
      }
      NameIndexOf(verts);
      StaleSnapshot(verts);
    }

    /**
     * One vertex entry: the vertex already known under its name takes on the read
     * fields and stays the same object; an unknown name gets a new vertex. A boundary
     * vertex is appended to the boundary list.
     */
    method MergeVertex(x: VertexData, verts: Lookup) returns (verts': Lookup, v: QVertex)
      requires KeyedByName(verts) && vertices == verts.Values
      modifies this`vertices, this`boundaryVertices, if x.name in verts then {verts[x.name]} else {}
      ensures verts' == verts[x.name := v] && vertices == verts'.Values && KeyedByName(verts')
      ensures x.name in verts ==> v == verts[x.name]
      ensures x.name !in verts ==> fresh(v)
      ensures StateOf(verts') == old(StateOf(verts))[x.name := Seen(x)]
      ensures boundaryVertices == old(boundaryVertices) + if x.vtype == Boundary then [v] else []
    {
      v := new QVertex(x);
      if x.name !in verts {
        ValuesOfNewKey(verts, x.name, v);
        verts' := verts[x.name := v];
        vertices := vertices + {v};
      } else {
        var known := verts[x.name];
        known.UpdateTo(v);
        v := known;
        verts' := verts;
        assert verts' == verts[x.name := v];
      }
      forall n | n in verts && n != x.name ensures verts[n] != v {
        assert verts[n].name == n;
      }
      if v.vtype == Boundary {
        boundaryVertices := boundaryVertices + [v];
      }
    }

    /** The loop invariant of the vertex phase, after the entries `xs`. */
    ghost predicate MergedSoFar(verts: Lookup, verts0: Lookup, s0: map<string, VState>, xs: seq<VertexData>)
      reads this`vertices, this`boundaryVertices, verts.Values
    {
      && KeyedByName(verts) && vertices == verts.Values
      && verts.Keys == verts0.Keys + NamesOf(xs)
      && (forall n :: n in verts0 ==> verts[n] == verts0[n])
      && StateOf(verts) == Merged(s0, xs)
      && boundaryVertices == BoundaryOf(xs, verts)
    }

    /** One turn of the vertex loop keeps its invariant. */
    method MergeStep(x: VertexData, verts: Lookup, ghost verts0: Lookup, ghost s0: map<string, VState>,
                     ghost xs: seq<VertexData>) returns (verts': Lookup)
      requires MergedSoFar(verts, verts0, s0, xs)
      modifies this`vertices, this`boundaryVertices, if x.name in verts then {verts[x.name]} else {}
      ensures MergedSoFar(verts', verts0, s0, xs + [x])
      ensures forall n :: n in verts' && n !in verts ==> fresh(verts'[n])
      ensures forall n :: n in verts ==> n in verts' && verts'[n] == verts[n]
    {
      var v;
      verts', v := MergeVertex(x, verts);
      MergedLookupSnoc(verts, verts0, xs, x, v);
      MergedSnoc(s0, xs, x);
    }

    /**
     * The vertex phase of `fromXml`: each entry updates the vertex of its name in
     * place, or adds a new vertex; boundary vertices are collected in entry order.
     */
    method MergeVertices(vds: seq<VDesc>, verts0: Lookup)
      returns (r: Outcome<FatalError>, verts: Lookup, ghost xs: seq<VertexData>)
      requires KeyedByName(verts0) && vertices == verts0.Values
      requires boundaryVertices == []
      modifies this`vertices, this`boundaryVertices, vertices
      ensures MergedSoFar(verts, verts0, old(StateOf(verts0)), xs)
      ensures forall n :: n in verts && n !in verts0 ==> fresh(verts[n])
      ensures r.Fail? <==> ParseVertices(vds).Err?
      ensures r.Fail? ==> r.error == BadVertex
      ensures r.Pass? ==> ParseVertices(vds) == Ok(xs)
    {
      verts := verts0;
      xs := [];
      ghost var s0 := StateOf(verts0);
      assert NamesOf(xs) == {};
      for i := 0 to |vds|
        invariant ParseVertices(vds[..i]) == Ok(xs)
        invariant MergedSoFar(verts, verts0, s0, xs)
        invariant forall n :: n in verts && n !in verts0 ==> fresh(verts[n])
      {
        var parsed := ParseVertex(vds[i]);
        if parsed.Err? {
          ParseVerticesFails(vds, i);
          return Fail(BadVertex), verts, xs;
        }
        var x := parsed.value;
        ParseVerticesStep(vds, i, xs);
        assert x.name in verts0 ==> verts[x.name] == verts0[x.name] && verts0[x.name] in verts0.Values;
        verts := MergeStep(x, verts, verts0, s0, xs);
        xs := xs + [x];
      }
      assert vds[..|vds|] == vds;
      r := Pass;
    }

    /** Removes the vertices still marked stale; the others stay. */
    method PruneStale(verts: Lookup)
      requires vertices == verts.Values
      modifies this`vertices
      ensures vertices <= verts.Values
      ensures forall n :: n in verts ==> (verts[n] in vertices <==> !verts[n].stale)
    {
      var pending := verts.Values;
      while pending != {}
        invariant pending <= verts.Values
        invariant vertices == set v | v in verts.Values && (v in pending || !v.stale)
        decreases pending
      {
        var v :| v in pending;
        if v.stale {
          vertices := vertices - {v};
        }
        pending := pending - {v};
      }
    }

    /**
     * The edge and bang-box phases of `fromXml`, in that order, each list stored as far
     * as it was built.
     */
    method Link(g: GraphDesc, verts: Lookup, ghost known: set<string>) returns (r: Outcome<FatalError>)
      requires Valid()
      requires ParseVertices(g.vertices).Ok? && verts.Keys == known + NamesOf(ParseVertices(g.vertices).value)
      modifies this`edges, this`bangBoxes
      ensures r.Fail? <==> ReconcileError(Some(g), known).Some?
      ensures r.Fail? ==> r.error == ReconcileError(Some(g), known).value
      ensures r.Pass? ==> ResolveEdges(g.edges, verts) == Ok(edges) && ResolveBoxes(g.bangBoxes, verts) == Ok(bangBoxes)
      ensures vertices == old(vertices) && boundaryVertices == old(boundaryVertices)
      ensures unchanged(verts.Values)
    {
      LinkError(g, known, verts);
      var added;
      r, added := CollectEdges(g.edges, verts);
      edges := added;
      if r.Fail? {
        return;
      }
      var boxes;
      r, boxes := CollectBangBoxes(g.bangBoxes, verts);
      bangBoxes := boxes;
    }

    /**
     * The vertex phase of `fromXml`: clear the boundary list and the edges, mark every
     * vertex stale, merge the vertex entries, sort the boundary list and prune the
     * vertices still stale. Returns the map the edges and bang boxes are then looked
     * up in.
     */
    method ReconcileVertices(vds: seq<VDesc>) returns (r: Outcome<FatalError>, verts: Lookup)
      requires Valid()
      modifies this`vertices, this`boundaryVertices, this`edges, vertices
      ensures Valid() && edges == []
      ensures r.Fail? <==> ParseVertices(vds).Err?
      ensures r.Fail? ==> r.error == BadVertex && old(vertices) <= vertices
      ensures r.Pass? ==> ParseVertices(vds).Ok?
      ensures r.Pass? ==> verts.Keys == old(Names()) + NamesOf(ParseVertices(vds).value)
      ensures r.Pass? ==> verts == old(VertexMap()) + VertexMap()
      ensures r.Pass? ==> forall v :: v in vertices && v !in old(vertices) ==> fresh(v)
      ensures r.Pass? ==> Names() == NamesOf(ParseVertices(vds).value)
      ensures r.Pass? ==> forall n :: n in old(VertexMap()) ==>
        (old(VertexMap())[n] in vertices <==> n in NamesOf(ParseVertices(vds).value))
      ensures r.Pass? ==> StateOf(verts) == Merged(MarkedStale(old(StateOf(VertexMap()))), ParseVertices(vds).value)
      ensures r.Pass? ==> boundaryVertices == SortByName(BoundaryOf(ParseVertices(vds).value, VertexMap()))
    {
      boundaryVertices := [];
      edges := [];
      ghost var m0 := VertexMap();
      ghost var was := StateOf(m0);
      assert m0 == old(VertexMap()) && was == old(StateOf(VertexMap())) && Names() == old(Names());
      var verts0 := GetVertexMap();
      ghost var s0 := StateOf(verts0);
      assert verts0 == m0 && s0 == MarkedStale(was);
      ghost var xs;
      r, verts, xs := MergeVertices(vds, verts0);
      if r.Fail? {
        NameIndexOf(verts);
        return;
      }
      SortAndPrune(verts, m0, was, s0, xs);
    }

    /** The end of the vertex phase of `fromXml`: sort the boundary list, then prune the stale vertices. */
    method SortAndPrune(verts: Lookup, ghost m0: Lookup, ghost was: map<string, VState>,
                        ghost s0: map<string, VState>, ghost xs: seq<VertexData>)
      requires KeyedByName(m0) && was.Keys == m0.Keys && s0 == MarkedStale(was)
      requires MergedSoFar(verts, m0, s0, xs)
      modifies this`vertices, this`boundaryVertices
      ensures Valid() && verts == m0 + VertexMap() && vertices <= old(vertices)
      ensures Names() == NamesOf(xs) && StateOf(verts) == Merged(s0, xs)
      ensures forall n :: n in m0 ==> (m0[n] in vertices <==> n in NamesOf(xs))
      ensures boundaryVertices == SortByName(BoundaryOf(xs, VertexMap()))
    {
      boundaryVertices := SortByName(boundaryVertices);
      PruneStale(verts);
      PrunedIsReconciled(verts, m0, was, s0, xs);
    }

    /**
     * Once the stale vertices are pruned, the graph is the reconciliation: its lookup
     * is the merged lookup cut down to the declared names.
     */
    lemma PrunedIsReconciled(verts: Lookup, m0: Lookup, was: map<string, VState>,
                             s0: map<string, VState>, xs: seq<VertexData>)
      requires KeyedByName(m0) && was.Keys == m0.Keys && s0 == MarkedStale(was)
      requires KeyedByName(verts) && verts.Keys == m0.Keys + NamesOf(xs)
      requires forall n :: n in m0 ==> verts[n] == m0[n]
      requires StateOf(verts) == Merged(s0, xs)
      requires vertices <= verts.Values
      requires forall n :: n in verts ==> (verts[n] in vertices <==> !verts[n].stale)
      requires boundaryVertices == SortByName(BoundaryOf(xs, verts))
      ensures Valid() && verts == m0 + VertexMap() && Names() == NamesOf(xs)
      ensures forall n :: n in m0 ==> (m0[n] in vertices <==> n in NamesOf(xs))
      ensures boundaryVertices == SortByName(BoundaryOf(xs, VertexMap()))
    {
      PrunedLookup(verts, m0, s0, xs, vertices);
      BoundaryOfAgree(xs, verts, VertexMap());
    }

    /** The description is present and all its vertex entries read. */
    ghost predicate VertexPhasePasses(d: Option<GraphDesc>)
    {
      d.Some? && ParseVertices(d.value.vertices).Ok?
    }

    /**
     * The vertex part of merging `d` into a graph whose lookup was `m0`, with fields `s0`:
     * `MergedShape` of the graph's vertices, its boundary list and the fields of every
     * vertex looked up through `m0` and the graph.
     */
    ghost predicate VerticesMerged(d: Option<GraphDesc>, m0: Lookup, s0: map<string, VState>)
      reads this`vertices, this`boundaryVertices
      reads vertices`vtype, vertices`angle, vertices`stale, m0.Values`vtype, m0.Values`angle, m0.Values`stale
      requires Valid()
    {
      MergedShape(d, m0, s0, vertices, boundaryVertices, StateOf(m0 + VertexMap()))
    }

    /** The edges and bang boxes are what the entries of `d` resolve to in the lookup `m`. */
    ghost predicate Linked(d: Option<GraphDesc>, m: Lookup)
      reads this`edges, this`bangBoxes
    {
      && d.Some?
      && ResolveEdges(d.value.edges, m) == Ok(edges)
      && ResolveBoxes(d.value.bangBoxes, m) == Ok(bangBoxes)
    }

    /**
     * `fromXml(IXMLElement)`: merges a description into the graph. Vertices whose name
     * is still declared keep their identity and take on the declared fields; declared
     * names not yet present get new vertices; vertices no longer declared are removed.
     * The boundary list, the edges and the bang boxes are rebuilt.
     */
    method FromXml(d: Option<GraphDesc>) returns (r: Outcome<FatalError>)
      requires Valid()
      modifies this`vertices, this`edges, this`boundaryVertices, this`bangBoxes, vertices
      ensures Valid()
      ensures r.Fail? <==> ReconcileError(d, old(Names())).Some?
      ensures r.Fail? ==> r.error == ReconcileError(d, old(Names())).value
      ensures d.None? ==> unchanged(this) && unchanged(old(vertices))
      ensures unchanged(changeListeners)
      ensures d.Some? && ParseVertices(d.value.vertices).Err? ==>
        edges == [] && old(vertices) <= vertices && bangBoxes == old(bangBoxes)
      ensures VertexPhasePasses(d) ==> forall v :: v in vertices && v !in old(vertices) ==> fresh(v)
      ensures VertexPhasePasses(d) ==> VerticesMerged(d, old(VertexMap()), old(StateOf(VertexMap())))
      ensures r.Pass? ==> VertexPhasePasses(d) && Linked(d, old(VertexMap()) + VertexMap())
    {
      if d.None? {
        return Fail(NullGraph);
      }
      var g := d.value;
      var verts;
      r, verts := ReconcileVertices(g.vertices);
      if r.Fail? {
        return;
      }
      assert DeclaredVertices(d) == ParseVertices(g.vertices).value;
      r := Link(g, verts, old(Names()));
    }

    /**
     * The graph is what reconciling `d` yields: one vertex per declared name carrying
     * the fields of that name's last entry, the boundary vertices in name order, and the
     * edges and bang boxes the entries resolve to.
     */
    ghost predicate Reconciled(d: Option<GraphDesc>)
      reads this, vertices
    {
      && Valid() && d.Some? && ParseVertices(d.value.vertices).Ok?
      && Names() == NamesOf(DeclaredVertices(d))
      && StateOf(VertexMap()) == Merged(map[], DeclaredVertices(d))
      && boundaryVertices == SortByName(BoundaryOf(DeclaredVertices(d), VertexMap()))
      && ResolveEdges(d.value.edges, VertexMap()) == Ok(edges)
      && ResolveBoxes(d.value.bangBoxes, VertexMap()) == Ok(bangBoxes)
    }

    /**
     * What `FromXml` promises on success, for a self-contained description, is that the
     * graph is reconciled with it: the vertices it pruned no longer matter.
     */
    lemma ReconciledAfter(d: Option<GraphDesc>, m0: Lookup, s0: map<string, VState>)
      requires Valid() && SelfContained(d)
      requires Names() == NamesOf(DeclaredVertices(d))
      requires StateOf(m0 + VertexMap()) == Merged(MarkedStale(s0), DeclaredVertices(d))
      requires boundaryVertices == SortByName(BoundaryOf(DeclaredVertices(d), VertexMap()))
      requires ResolveEdges(d.value.edges, m0 + VertexMap()) == Ok(edges)
      requires ResolveBoxes(d.value.bangBoxes, m0 + VertexMap()) == Ok(bangBoxes)
      ensures Reconciled(d)
    {
      SelfContainedEntries(d.value);
      LiveStateAfter(m0, VertexMap(), s0, DeclaredVertices(d));
      SelfContainedResolvesAlike(d.value, m0 + VertexMap(), VertexMap());
    }

    /**
     * Reconciling a graph with the self-contained description it is already reconciled
     * with changes nothing: the same vertex objects with the same fields, and the same
     * boundary list, edges and bang boxes.
     */
    method FromXmlAgain(d: Option<GraphDesc>) returns (r: Outcome<FatalError>)
      requires Reconciled(d) && SelfContained(d)
      modifies this`vertices, this`edges, this`boundaryVertices, this`bangBoxes, vertices
      ensures r == Pass && Reconciled(d)
      ensures vertices == old(vertices) && StateOf(VertexMap()) == old(StateOf(VertexMap()))
      ensures boundaryVertices == old(boundaryVertices)
      ensures edges == old(edges) && bangBoxes == old(bangBoxes)
    {
      ghost var m1 := VertexMap();
      ghost var st := StateOf(m1);
      ghost var xs := DeclaredVertices(d);
      SelfContainedReconciles(d, Names());
      r := FromXml(d);
      forall v | v in m1.Values ensures v in vertices {
        var n :| n in m1 && m1[n] == v;
      }
      SameVertices(m1, vertices);
      assert m1 + VertexMap() == m1;
      MergedOverDeclared(MarkedStale(st), xs);
    }

    /** Reconciling twice with a self-contained description: the second pass is `FromXmlAgain`. */
    method ReconcileTwice(d: Option<GraphDesc>) returns (r1: Outcome<FatalError>, r2: Outcome<FatalError>)
      requires Valid() && SelfContained(d)
      modifies this`vertices, this`edges, this`boundaryVertices, this`bangBoxes, vertices
      ensures r1 == Pass && r2 == Pass && Reconciled(d)
    {
      ghost var m0 := VertexMap();
      ghost var s0 := StateOf(m0);
      SelfContainedReconciles(d, Names());
      r1 := FromXml(d);
      ReconciledAfter(d, m0, s0);
      r2 := FromXmlAgain(d);
    }

    /** `isSaved`. */
    function IsSaved(): (r: bool)
      reads this`saved
    {
      saved
    }

    /** `setSaved`. */
    method SetSaved(b: bool)
      modifies this`saved
      ensures IsSaved() == b
    {
      saved := b;
    }

    /** `getBangBoxes`. */
    function GetBangBoxes(): (r: seq<BangBox>)
      reads this`bangBoxes
    {
      bangBoxes
    }

    /** `addChangeListener`: the listener set is a set, so adding twice registers once. */
    method AddChangeListener(l: ChangeListener)
      modifies this`changeListeners
      ensures changeListeners == old(changeListeners) + {l}
    {
      changeListeners := changeListeners + {l};
    }

    /** `removeChangeListener`. */
    method RemoveChangeListener(l: ChangeListener)
      modifies this`changeListeners
      ensures changeListeners == old(changeListeners) - {l}
    {
      changeListeners := changeListeners - {l};
    }

    /**
     * `fireStateChanged`: the graph now differs from what was saved, and every
     * registered listener is told so exactly once.
     */
    method FireStateChanged()
      modifies this`saved, changeListeners`notifications
      ensures !IsSaved()
      ensures forall l :: l in changeListeners ==> l.notifications == old(l.notifications) + 1
    {
      saved := false;
      var pending := changeListeners;
      while pending != {}
        invariant pending <= changeListeners && !saved
        invariant forall l :: l in changeListeners ==>
          l.notifications == old(l.notifications) + if l in pending then 0 else 1
        decreases pending
      {
        var l :| l in pending;
        l.StateChanged();
        pending := pending - {l};
      }
    }

    /**
     * The part of `fromXmlReader` after a successful parse: the root element is merged,
     * and only a merge that succeeds tells the listeners.
     */
    method MergeAndNotify(d: Option<GraphDesc>) returns (r: Outcome<FatalError>)
      requires Valid()
      modifies this`vertices, this`edges, this`boundaryVertices, this`bangBoxes, this`saved, vertices, changeListeners`notifications
      ensures Valid()
      ensures r.Fail? <==> ReconcileError(d, old(Names())).Some?
      ensures r.Fail? ==> r.error == ReconcileError(d, old(Names())).value
      ensures d.None? ==> unchanged(this) && unchanged(old(vertices))
      ensures d.Some? && ParseVertices(d.value.vertices).Err? ==>
        edges == [] && old(vertices) <= vertices && bangBoxes == old(bangBoxes)
      ensures VertexPhasePasses(d) ==> forall v :: v in vertices && v !in old(vertices) ==> fresh(v)
      ensures VertexPhasePasses(d) ==> VerticesMerged(d, old(VertexMap()), old(StateOf(VertexMap())))
      ensures r.Pass? ==> VertexPhasePasses(d) && Linked(d, old(VertexMap()) + VertexMap())
      ensures changeListeners == old(changeListeners)
      ensures r.Pass? ==> !IsSaved()
      ensures r.Pass? ==> forall l :: l in changeListeners ==> l.notifications == old(l.notifications) + 1
      ensures r.Fail? ==> saved == old(saved)
      ensures r.Fail? ==> forall l :: l in changeListeners ==> l.notifications == old(l.notifications)
    {
      r := FromXml(d);
      if r.Fail? {
        return;
      }
      ghost var m1 := old(VertexMap()) + VertexMap();
      FireAfterMerge(m1);
    }

    /** `fireStateChanged` after a successful merge, which leaves the vertices of `m` as they were. */
    method FireAfterMerge(ghost m: Lookup)
      modifies this`saved, changeListeners`notifications
      ensures StateOf(m) == old(StateOf(m))
      ensures !IsSaved()
      ensures forall l :: l in changeListeners ==> l.notifications == old(l.notifications) + 1
    {
      FireStateChanged();
    }

    /**
     * `fromXmlReader`: a syntax error is fatal and leaves the graph alone; otherwise
     * the root element is merged and returned. The source returns the root only when
     * the merge succeeds: after a failure, `root` is what was parsed and stands for
     * no return value of the program.
     */
    method FromXmlReader(input: XmlInput) returns (r: Outcome<FatalError>, root: Option<GraphDesc>)
      requires Valid()
      modifies this`vertices, this`edges, this`boundaryVertices, this`bangBoxes, this`saved, vertices, changeListeners`notifications
      ensures Valid()
      ensures input.Malformed? ==> r == Fail(XmlParseError) && unchanged(this) && unchanged(old(vertices))
      ensures input.Parsed? ==> root == input.root
      ensures input.Parsed? ==> (r.Fail? <==> ReconcileError(input.root, old(Names())).Some?)
      ensures input.Parsed? && r.Fail? ==> r.error == ReconcileError(input.root, old(Names())).value
      ensures input.Parsed? && input.root.None? ==> unchanged(this) && unchanged(old(vertices))
      ensures input.Parsed? && input.root.Some? && ParseVertices(input.root.value.vertices).Err? ==>
        edges == [] && old(vertices) <= vertices && bangBoxes == old(bangBoxes)
      ensures input.Parsed? && VertexPhasePasses(input.root) ==>
        forall v :: v in vertices && v !in old(vertices) ==> fresh(v)
      ensures input.Parsed? && VertexPhasePasses(input.root) ==>
        VerticesMerged(input.root, old(VertexMap()), old(StateOf(VertexMap())))
      ensures r.Pass? ==> input.Parsed? && VertexPhasePasses(input.root) && Linked(input.root, old(VertexMap()) + VertexMap())
      ensures changeListeners == old(changeListeners)
      ensures r.Pass? ==> !IsSaved()
      ensures r.Pass? ==> forall l :: l in changeListeners ==> l.notifications == old(l.notifications) + 1
      ensures r.Fail? ==> saved == old(saved)
      ensures r.Fail? ==> forall l :: l in changeListeners ==> l.notifications == old(l.notifications)
    {
      match input
      case Malformed =>
        r, root := Fail(XmlParseError), None;
      case Parsed(d) =>
        root := d;
        r := MergeAndNotify(d);
    }

    /** `getBoundaryIndex`: the position of `bv` in the boundary list, or -1 when it is absent. */
    function GetBoundaryIndex(bv: QVertex): (r: int)
      reads this`boundaryVertices
      ensures -1 <= r < |boundaryVertices|
      ensures r == -1 <==> bv !in boundaryVertices
      ensures 0 <= r ==> boundaryVertices[r] == bv && bv !in boundaryVertices[..r]
    {
      IndexOf(boundaryVertices, bv)
    }

    /**
     * In a graph reconciled with `d`, a vertex has a boundary position exactly when some
     * entry of its name declares a boundary, and the boundary list is in name order.
     */
    lemma BoundaryIndexReconciled(d: Option<GraphDesc>, v: QVertex)
      requires Reconciled(d) && v in vertices
      ensures SortedByName(boundaryVertices)
      ensures GetBoundaryIndex(v) >= 0 <==>
        exists i :: 0 <= i < |DeclaredVertices(d)| &&
          DeclaredVertices(d)[i].name == v.name && DeclaredVertices(d)[i].vtype == Boundary
    {
      var m := VertexMap();
      assert m[v.name] == v;
      BoundaryOfHas(DeclaredVertices(d), m, v.name);
      assert v in boundaryVertices <==> v in multiset(boundaryVertices);
    }

    /**
     * `getSubgraphVertices`: for each non-boundary vertex of `other`, the vertex of this
     * graph with the same name, when there is one. Looking them up through
     * `getVertexMap` marks every vertex of this graph stale.
     */
    method GetSubgraphVertices(other: QuantoGraph) returns (vs: seq<QVertex>)
      requires Valid()
      modifies vertices
      ensures StateOf(VertexMap()) == MarkedStale(old(StateOf(VertexMap())))
      ensures forall v :: v in vs ==> v in vertices
      ensures forall w :: w in vertices ==> (w in vs <==> w.name in SubgraphNames(other.vertices))
      ensures other.Valid() ==> forall i, j :: 0 <= i < j < |vs| ==> vs[i] != vs[j]
    {
      var vmap := GetVertexMap();
      vs := LookUpByName(vmap, other.vertices);
      forall w | w in vertices ensures w.name in vmap && vmap[w.name] == w {
        assert w in vmap.Values;
      }
    }
  }
}
