/**
 * Resolving names against the reconciliation's name-to-vertex map: the edges, the
 * bang boxes and the boundary list that `fromXml` builds from a description.
 */
module Resolution {
  import opened Wrappers
  import opened Descriptions
  import opened Vertices

  /** An edge; a new edge object is made on every reconciliation, so it is a value. */
  datatype QEdge = QEdge(name: string, source: QVertex, target: QVertex)

  /** A bang box: its name and the vertices added to it, in order. */
  datatype BangBox = BangBox(name: string, members: seq<QVertex>)

  /** The map `verts` of `fromXml`: every vertex under its own name. */
  type Lookup = map<string, QVertex>

  /** Each vertex in the map is stored under its own name. */
  ghost predicate KeyedByName(m: Lookup)
  {
    forall n :: n in m ==> m[n].name == n
  }

  /** Adding a vertex under a new name adds exactly that vertex to the values. */
  lemma ValuesOfNewKey(m: Lookup, n: string, v: QVertex)
    requires n !in m
    ensures m[n := v].Values == m.Values + {v}
  {
    var m' := m[n := v];
    forall w | w in m.Values ensures w in m'.Values {
      var k :| k in m && m[k] == w;
      assert m'[k] == w;
    }
    assert m'[n] == v;
  }

  // ---------------------------------------------------------------- vertex fields

  /** The mutable fields of a vertex at one moment. */
  datatype VState = VState(vtype: VertexType, angle: string, stale: bool)

  /** The fields a vertex has once an entry has been read into it. */
  function Seen(x: VertexData): (r: VState)
  {
    VState(x.vtype, x.angle, false)
  }

  /** A snapshot of the fields of every vertex in the lookup, by name. */
  ghost function StateOf(m: Lookup): (r: map<string, VState>)
    reads m.Values`vtype, m.Values`angle, m.Values`stale
  {
    map n | n in m :: VState(m[n].vtype, m[n].angle, m[n].stale)
  }

  /** The same fields with every vertex marked stale. */
  function MarkedStale(s: map<string, VState>): (r: map<string, VState>)
  {
    map n | n in s :: VState(s[n].vtype, s[n].angle, true)
  }

  /** The vertex fields after reading the entries `xs` in order, starting from `s0`. */
  function Merged(s0: map<string, VState>, xs: seq<VertexData>): (r: map<string, VState>)
  {
    if xs == [] then s0
    else Merged(s0, xs[..|xs| - 1])[xs[|xs| - 1].name := Seen(xs[|xs| - 1])]
  }

  /** One more entry overwrites the state under its name. */
  lemma MergedSnoc(s0: map<string, VState>, xs: seq<VertexData>, x: VertexData)
    ensures Merged(s0, xs + [x]) == Merged(s0, xs)[x.name := Seen(x)]
  {
    assert (xs + [x])[..|xs|] == xs;
  }

  /** The names with fields after the vertex phase: those before and the declared ones. */
  lemma {:induction false} MergedKeys(s0: map<string, VState>, xs: seq<VertexData>)
    ensures Merged(s0, xs).Keys == s0.Keys + NamesOf(xs)
  {
    if xs != [] {
      var init, last := xs[..|xs| - 1], xs[|xs| - 1];
      assert xs == init + [last];
      NamesOfSnoc(init, last);
      MergedKeys(s0, init);
    }
  }

  /**
   * After the vertex phase, a declared name carries the fields of its last entry and
   * is no longer stale; an undeclared name keeps what it had.
   */
  lemma {:induction false} MergedAt(s0: map<string, VState>, xs: seq<VertexData>, n: string)
    ensures n in Merged(s0, xs) <==> n in s0 || n in NamesOf(xs)
    ensures n in NamesOf(xs) ==> Merged(s0, xs)[n] == Seen(LastWith(xs, n))
    ensures n !in NamesOf(xs) && n in s0 ==> Merged(s0, xs)[n] == s0[n]
  {
    if xs != [] {
      var init, last := xs[..|xs| - 1], xs[|xs| - 1];
      assert xs == init + [last];
      NamesOfSnoc(init, last);
      MergedAt(s0, init, n);
      if n in NamesOf(xs) {
        LastWithSnoc(init, last, n);
      }
    }
  }

  /**
   * Reading the entries over fields stored only under declared names gives the same
   * fields as reading them into an empty graph: every such field is overwritten.
   */
  lemma MergedOverDeclared(s: map<string, VState>, xs: seq<VertexData>)
    requires s.Keys <= NamesOf(xs)
    ensures Merged(s, xs) == Merged(map[], xs)
  {
    var a, b := Merged(s, xs), Merged(map[], xs);
    forall n ensures n in a <==> n in b {
      MergedAt(s, xs, n);
      MergedAt(map[], xs, n);
    }
    forall n | n in a ensures a[n] == b[n] {
      MergedAt(s, xs, n);
      MergedAt(map[], xs, n);
    }
  }

  /** The vertices under the live names, out of a lookup that also holds pruned ones. */
  function Restrict(m: Lookup, live: set<string>): (r: Lookup)
    ensures r.Keys == m.Keys * live
    ensures forall n :: n in r ==> r[n] == m[n]
  {
    map n | n in m && n in live :: m[n]
  }

  /**
   * The lookup `fromXml` uses for edges and bang boxes is the map before pruning: it is
   * the old vertices under their names, overridden by the live ones.
   */
  lemma {:induction false} LookupIsOldPlusLive(verts: Lookup, m0: Lookup, live: set<string>)
    requires forall n :: n in m0 ==> n in verts && verts[n] == m0[n]
    requires verts.Keys == m0.Keys + live
    ensures verts == m0 + Restrict(verts, live)
  {
    var m1 := Restrict(verts, live);
    assert (m0 + m1).Keys == verts.Keys;
    forall n | n in verts ensures (m0 + m1)[n] == verts[n] {
      if n in m1 { } else { assert n in m0; }
    }
  }

  // ---------------------------------------------------------------- edges

  /** An edge entry has a name and both endpoints name known vertices. */
  predicate EdgeResolvable(e: EDesc, known: set<string>)
  {
    && e.name.Some?
    && e.source.Some? && e.source.value in known
    && e.target.Some? && e.target.value in known
  }

  /** The names an edge entry refers to. */
  function EdgeRefs(e: EDesc): (r: set<string>)
  {
    (if e.source.Some? then {e.source.value} else {}) + (if e.target.Some? then {e.target.value} else {})
  }

  /** The edges built from the entries, in order; an unresolvable entry is fatal. */
  function ResolveEdges(es: seq<EDesc>, verts: Lookup): (r: Result<seq<QEdge>, FatalError>)
    ensures r.Err? ==> r.error == BadEdge
  {
    if es == [] then Ok([])
    else
      var e := es[|es| - 1];
      match ResolveEdges(es[..|es| - 1], verts)
      case Err(err) => Err(err)
      case Ok(prev) =>
        if EdgeResolvable(e, verts.Keys) then
          Ok(prev + [QEdge(e.name.value, verts[e.source.value], verts[e.target.value])])
        else Err(BadEdge)
  }

  /**
   * The edges resolve exactly when every entry does, and then there is one edge per
   * entry, from the vertex its source names to the vertex its target names.
   */
  lemma {:induction false} ResolveEdgesMeaning(es: seq<EDesc>, verts: Lookup)
    ensures ResolveEdges(es, verts).Ok? <==> forall i :: 0 <= i < |es| ==> EdgeResolvable(es[i], verts.Keys)
    ensures ResolveEdges(es, verts).Ok? ==> |ResolveEdges(es, verts).value| == |es|
    ensures ResolveEdges(es, verts).Ok? ==> forall i :: 0 <= i < |es| ==>
      ResolveEdges(es, verts).value[i] ==
        QEdge(es[i].name.value, verts[es[i].source.value], verts[es[i].target.value])
  {
    if es != [] {
      var init := es[..|es| - 1];
      ResolveEdgesMeaning(init, verts);
      assert forall i :: 0 <= i < |init| ==> init[i] == es[i];
    }
  }

  /** Two lookups that agree on the names the entries refer to resolve them alike. */
  lemma {:induction false} ResolveEdgesAgree(es: seq<EDesc>, m: Lookup, m': Lookup)
    requires forall i, n :: 0 <= i < |es| && n in EdgeRefs(es[i]) ==>
      (n in m <==> n in m') && (n in m ==> m[n] == m'[n])
    ensures ResolveEdges(es, m) == ResolveEdges(es, m')
  {
    if es != [] {
      ResolveEdgesAgree(es[..|es| - 1], m, m');
      var e := es[|es| - 1];
      assert EdgeResolvable(e, m.Keys) <==> EdgeResolvable(e, m'.Keys) by {
        assert forall n :: n in EdgeRefs(e) ==> (n in m <==> n in m');
      }
    }
  }

  /** Every endpoint of a resolved edge is a vertex of the lookup. */
  lemma EdgeEndpointsInLookup(es: seq<EDesc>, verts: Lookup)
    requires ResolveEdges(es, verts).Ok?
    ensures forall e :: e in ResolveEdges(es, verts).value ==>
      e.source in verts.Values && e.target in verts.Values
  {
    ResolveEdgesMeaning(es, verts);
    var r := ResolveEdges(es, verts).value;
    forall e | e in r ensures e.source in verts.Values && e.target in verts.Values {
      var i :| 0 <= i < |r| && r[i] == e;
      assert EdgeResolvable(es[i], verts.Keys);
    }
  }

  // ---------------------------------------------------------------- bang boxes

  /** The error of one bang-box entry, if it has one. */
  function BoxError(b: BDesc, known: set<string>): (r: Option<FatalError>)
  {
    if b.name.None? then Some(UnnamedBangBox)
    else if exists j :: 0 <= j < |b.boxedVertices| && b.boxedVertices[j] !in known then Some(UnknownBoxedVertex)
    else None
  }

  /** The error of the first bang-box entry that has one. */
  function FirstBoxError(bs: seq<BDesc>, known: set<string>): (r: Option<FatalError>)
  {
    if bs == [] then None
    else if BoxError(bs[0], known).Some? then BoxError(bs[0], known)
    else FirstBoxError(bs[1..], known)
  }

  /** No entry has an error exactly when there is no first one. */
  lemma {:induction false} FirstBoxErrorNone(bs: seq<BDesc>, known: set<string>)
    ensures FirstBoxError(bs, known).None? <==> forall i :: 0 <= i < |bs| ==> BoxError(bs[i], known).None?
  {
    if bs != [] {
      FirstBoxErrorNone(bs[1..], known);
      assert forall i :: 1 <= i < |bs| ==> bs[1..][i - 1] == bs[i];
    }
  }

  lemma {:induction false} FirstBoxErrorSnoc(bs: seq<BDesc>, b: BDesc, known: set<string>)
    ensures FirstBoxError(bs + [b], known) ==
      if FirstBoxError(bs, known).Some? then FirstBoxError(bs, known) else BoxError(b, known)
  {
    if bs == [] {
      assert [b][1..] == [];
    } else {
      assert (bs + [b])[1..] == bs[1..] + [b];
      FirstBoxErrorSnoc(bs[1..], b, known);
    }
  }

  /** Once a prefix of the entries has an error, it is the first error of them all. */
  lemma {:induction false} FirstBoxErrorPrefix(bs: seq<BDesc>, k: nat, known: set<string>)
    requires k <= |bs| && FirstBoxError(bs[..k], known).Some?
    ensures FirstBoxError(bs, known) == FirstBoxError(bs[..k], known)
  {
    assert k > 0;
    assert bs[..k][0] == bs[0];
    if BoxError(bs[0], known).None? {
      assert bs[..k][1..] == bs[1..][..k - 1];
      FirstBoxErrorPrefix(bs[1..], k - 1, known);
    }
  }

  /** The vertices the member names resolve to, or None if one is unknown. */
  function ResolveMembers(names: seq<string>, verts: Lookup): (r: Option<seq<QVertex>>)
  {
    if names == [] then Some([])
    else
      match ResolveMembers(names[..|names| - 1], verts)
      case None => None
      case Some(prev) =>
        if names[|names| - 1] in verts then Some(prev + [verts[names[|names| - 1]]]) else None
  }

  /** The members resolve exactly when every name is known, each to the vertex of its name. */
  lemma {:induction false} ResolveMembersMeaning(names: seq<string>, verts: Lookup)
    ensures ResolveMembers(names, verts).Some? <==> forall j :: 0 <= j < |names| ==> names[j] in verts
    ensures ResolveMembers(names, verts).Some? ==> |ResolveMembers(names, verts).value| == |names|
    ensures ResolveMembers(names, verts).Some? ==>
      forall j :: 0 <= j < |names| ==> ResolveMembers(names, verts).value[j] == verts[names[j]]
  {
    if names != [] {
      var init := names[..|names| - 1];
      ResolveMembersMeaning(init, verts);
      assert forall j :: 0 <= j < |init| ==> init[j] == names[j];
    }
  }

  /** The bang boxes built from the entries, in order; the first bad entry is fatal. */
  function ResolveBoxes(bs: seq<BDesc>, verts: Lookup): (r: Result<seq<BangBox>, FatalError>)
    ensures r.Err? <==> FirstBoxError(bs, verts.Keys).Some?
    ensures r.Err? ==> r.error == FirstBoxError(bs, verts.Keys).value
  {
    if bs == [] then Ok([])
    else
      var b := bs[|bs| - 1];
      assert bs == bs[..|bs| - 1] + [b];
      FirstBoxErrorSnoc(bs[..|bs| - 1], b, verts.Keys);
      ResolveMembersMeaning(b.boxedVertices, verts);
      match ResolveBoxes(bs[..|bs| - 1], verts)
      case Err(err) => Err(err)
      case Ok(prev) =>
        if b.name.None? then Err(UnnamedBangBox)
        else
          match ResolveMembers(b.boxedVertices, verts)
          case None => Err(UnknownBoxedVertex)
          case Some(members) => Ok(prev + [BangBox(b.name.value, members)])
  }

  /** Once they resolve, there is one bang box per entry, holding its resolved members. */
  lemma {:induction false} ResolveBoxesMeaning(bs: seq<BDesc>, verts: Lookup)
    ensures ResolveBoxes(bs, verts).Ok? ==> |ResolveBoxes(bs, verts).value| == |bs|
    ensures ResolveBoxes(bs, verts).Ok? ==> forall i :: 0 <= i < |bs| ==>
      bs[i].name.Some? && ResolveMembers(bs[i].boxedVertices, verts).Some? &&
      ResolveBoxes(bs, verts).value[i] ==
        BangBox(bs[i].name.value, ResolveMembers(bs[i].boxedVertices, verts).value)
  {
    if bs != [] {
      var init := bs[..|bs| - 1];
      ResolveBoxesMeaning(init, verts);
      assert forall i :: 0 <= i < |init| ==> init[i] == bs[i];
    }
  }

  /** The names the bang-box entries refer to. */
  function BoxRefs(b: BDesc): (r: set<string>)
  {
    set n | n in b.boxedVertices
  }

  lemma {:induction false} ResolveMembersAgree(names: seq<string>, m: Lookup, m': Lookup)
    requires forall n :: n in names ==> (n in m <==> n in m') && (n in m ==> m[n] == m'[n])
    ensures ResolveMembers(names, m) == ResolveMembers(names, m')
  {
    if names != [] {
      ResolveMembersAgree(names[..|names| - 1], m, m');
    }
  }

  /** Two lookups that agree on the member names resolve the bang boxes alike. */
  lemma {:induction false} ResolveBoxesAgree(bs: seq<BDesc>, m: Lookup, m': Lookup)
    requires forall i, n :: 0 <= i < |bs| && n in BoxRefs(bs[i]) ==>
      (n in m <==> n in m') && (n in m ==> m[n] == m'[n])
    ensures ResolveBoxes(bs, m) == ResolveBoxes(bs, m')
  {
    if bs != [] {
      ResolveBoxesAgree(bs[..|bs| - 1], m, m');
      ResolveMembersAgree(bs[|bs| - 1].boxedVertices, m, m');
    }
  }

  // ---------------------------------------------------------------- boundary list

  /** The boundary list before sorting: for each boundary entry, the vertex of its name. */
  function BoundaryOf(xs: seq<VertexData>, verts: Lookup): (r: seq<QVertex>)
    requires NamesOf(xs) <= verts.Keys
  {
    if xs == [] then []
    else
      var last := xs[|xs| - 1];
      assert NamesOf(xs[..|xs| - 1]) <= NamesOf(xs) by {
        forall x | x in xs[..|xs| - 1] ensures x in xs { }
      }
      BoundaryOf(xs[..|xs| - 1], verts) + (if last.vtype == Boundary then [verts[last.name]] else [])
  }

  /** A vertex is in the boundary list exactly when some entry with its name says boundary. */
  lemma {:induction false} BoundaryOfHas(xs: seq<VertexData>, verts: Lookup, n: string)
    requires NamesOf(xs) <= verts.Keys && KeyedByName(verts) && n in verts
    ensures verts[n] in BoundaryOf(xs, verts) <==>
      exists i :: 0 <= i < |xs| && xs[i].name == n && xs[i].vtype == Boundary
  {
    if xs != [] {
      var init := xs[..|xs| - 1];
      assert NamesOf(init) <= NamesOf(xs) by {
        forall x | x in init ensures x in xs { }
      }
      BoundaryOfHas(init, verts, n);
      assert forall i :: 0 <= i < |init| ==> init[i] == xs[i];
    }
  }

  /** With distinct entry names, no vertex appears twice in the boundary list. */
  lemma {:induction false} BoundaryOfOnce(xs: seq<VertexData>, verts: Lookup, n: string)
    requires NamesOf(xs) <= verts.Keys && KeyedByName(verts) && n in verts && DistinctNames(xs)
    ensures multiset(BoundaryOf(xs, verts))[verts[n]] <= 1
  {
    if xs != [] {
      var init := xs[..|xs| - 1];
      var last := xs[|xs| - 1];
      assert NamesOf(init) <= NamesOf(xs) by {
        forall x | x in init ensures x in xs { }
      }
      assert DistinctNames(init);
      BoundaryOfOnce(init, verts, n);
      if last.vtype == Boundary && last.name == n {
        BoundaryOfHas(init, verts, n);
        assert forall i :: 0 <= i < |init| ==> init[i].name != n;
      }
    }
  }

  lemma BoundaryOfSnoc(xs: seq<VertexData>, x: VertexData, verts: Lookup)
    requires NamesOf(xs + [x]) <= verts.Keys
    ensures NamesOf(xs) <= verts.Keys
    ensures BoundaryOf(xs + [x], verts) ==
      BoundaryOf(xs, verts) + (if x.vtype == Boundary then [verts[x.name]] else [])
  {
    NamesOfSnoc(xs, x);
    assert (xs + [x])[..|xs|] == xs;
  }

  /** The boundary list depends only on the vertices under the declared names. */
  lemma {:induction false} BoundaryOfAgree(xs: seq<VertexData>, m: Lookup, m': Lookup)
    requires NamesOf(xs) <= m.Keys && NamesOf(xs) <= m'.Keys
    requires forall n :: n in NamesOf(xs) ==> m[n] == m'[n]
    ensures BoundaryOf(xs, m) == BoundaryOf(xs, m')
  {
    if xs != [] {
      assert NamesOf(xs[..|xs| - 1]) <= NamesOf(xs) by {
        forall x | x in xs[..|xs| - 1] ensures x in xs { }
      }
      BoundaryOfAgree(xs[..|xs| - 1], m, m');
    }
  }
}
