/**
 * The parsed graph description that the rewriting engine sends: a `graph` element
 * with `vertex`, `edge` and `bangbox` children. An absent child element is `None`;
 * a present one carries its text content.
 */
module Descriptions {
  import opened Wrappers

  /** The `angleexpr` child of a vertex; `asString` is its `as_string` child. */
  datatype AngleExpr = AngleExpr(asString: Option<string>)

  /** A `vertex` entry with its `name`, `boundary`, `colour` and `angleexpr` children. */
  datatype VDesc = VDesc(
    name: Option<string>,
    boundary: Option<string>,
    colour: Option<string>,
    angleExpr: Option<AngleExpr>)

  /** An `edge` entry with its `name`, `source` and `target` children. */
  datatype EDesc = EDesc(name: Option<string>, source: Option<string>, target: Option<string>)

  /** A `bangbox` entry: its `name` child and the contents of its `boxedvertex` children. */
  datatype BDesc = BDesc(name: Option<string>, boxedVertices: seq<string>)

  /** A `graph` element. */
  datatype GraphDesc = GraphDesc(vertices: seq<VDesc>, edges: seq<EDesc>, bangBoxes: seq<BDesc>)

  /** What the XML parser hands back: a syntax error, or the root element, which may be absent. */
  datatype XmlInput = Malformed | Parsed(root: Option<GraphDesc>)

  /** The fatal errors raised while reading a graph, one per message of the source. */
  datatype FatalError =
    | NullGraph            // "Attempting to parse null graph."
    | BadVertex            // "Error reading graph XML."
    | BadEdge              // "Bad edge definition in XML."
    | UnnamedBangBox       // "Got an unnamed bang box in XML."
    | UnknownBoxedVertex   // "Unknown vertex in bang box"
    | XmlParseError        // "Error parsing XML."

  /** A vertex is a boundary or carries a colour (red, green, H, ...). */
  datatype VertexType = Boundary | Typed(colour: string)

  /** The fields read from one well-formed vertex entry. */
  datatype VertexData = VertexData(name: string, vtype: VertexType, angle: string)

  /** The content of `boundary` that marks a boundary vertex. */
  const BoundaryMark := "true"

  /** The angle of a vertex entry without `angleexpr`. */
  const DefaultAngle := "0"

  /** Reads one vertex entry; any required child that is missing is fatal. */
  function ParseVertex(vd: VDesc): (r: Result<VertexData, FatalError>)
    ensures r.Err? <==>
      || vd.name.None?
      || vd.boundary.None?
      || (vd.boundary.value != BoundaryMark && vd.colour.None?)
      || (vd.angleExpr.Some? && vd.angleExpr.value.asString.None?)
    ensures r.Err? ==> r.error == BadVertex
    ensures r.Ok? ==> r.value.name == vd.name.value
    ensures r.Ok? ==> (r.value.vtype == Boundary <==> vd.boundary.value == BoundaryMark)
    ensures r.Ok? && vd.boundary.value != BoundaryMark ==> r.value.vtype == Typed(vd.colour.value)
    ensures r.Ok? && vd.angleExpr.None? ==> r.value.angle == DefaultAngle
    ensures r.Ok? && vd.angleExpr.Some? ==> r.value.angle == vd.angleExpr.value.asString.value
  {
    match (vd.name, vd.boundary)
    case (None, _) => Err(BadVertex)
    case (_, None) => Err(BadVertex)
    case (Some(n), Some(b)) =>
      if b != BoundaryMark && vd.colour.None? then Err(BadVertex)
      else
        var vtype := if b == BoundaryMark then Boundary else Typed(vd.colour.value);
        match vd.angleExpr
        case None => Ok(VertexData(n, vtype, DefaultAngle))
        case Some(AngleExpr(None)) => Err(BadVertex)
        case Some(AngleExpr(Some(a))) => Ok(VertexData(n, vtype, a))
  }

  /** An entry that reads back as `x`: a right inverse of ParseVertex. */
  function DescribeVertex(x: VertexData): (r: VDesc)
  {
    match x.vtype
    case Boundary => VDesc(Some(x.name), Some(BoundaryMark), None, Some(AngleExpr(Some(x.angle))))
    case Typed(c) => VDesc(Some(x.name), Some("false"), Some(c), Some(AngleExpr(Some(x.angle))))
  }

  lemma ParseDescribeRoundTrip(x: VertexData)
    ensures ParseVertex(DescribeVertex(x)) == Ok(x)
  {
  }

  /** Reads the vertex entries in order; the first bad entry is fatal. */
  function ParseVertices(vds: seq<VDesc>): (r: Result<seq<VertexData>, FatalError>)
    ensures r.Err? ==> r.error == BadVertex
  {
    if vds == [] then Ok([])
    else
      match ParseVertices(vds[..|vds| - 1])
      case Err(e) => Err(e)
      case Ok(prev) =>
        match ParseVertex(vds[|vds| - 1])
        case Err(e) => Err(e)
        case Ok(x) => Ok(prev + [x])
  }

  /**
   * The entries read without error exactly when each one does, and then the result
   * holds each entry's reading at the entry's position.
   */
  lemma {:induction false} ParseVerticesMeaning(vds: seq<VDesc>)
    ensures ParseVertices(vds).Ok? <==> forall i :: 0 <= i < |vds| ==> ParseVertex(vds[i]).Ok?
    ensures ParseVertices(vds).Ok? ==> |ParseVertices(vds).value| == |vds|
    ensures ParseVertices(vds).Ok? ==>
      forall i :: 0 <= i < |vds| ==> ParseVertex(vds[i]) == Ok(ParseVertices(vds).value[i])
  {
    if vds != [] {
      var init := vds[..|vds| - 1];
      ParseVerticesMeaning(init);
      assert forall i :: 0 <= i < |init| ==> init[i] == vds[i];
    }
  }

  /** An entry that does not read, after a prefix that does, makes the whole reading fail. */
  lemma ParseVerticesFails(vds: seq<VDesc>, i: nat)
    requires i < |vds| && ParseVertex(vds[i]).Err?
    ensures ParseVertices(vds).Err?
  {
    ParseVerticesMeaning(vds);
  }

  /** Reading one more entry extends the entries read so far. */
  lemma ParseVerticesStep(vds: seq<VDesc>, i: nat, xs: seq<VertexData>)
    requires i < |vds| && ParseVertices(vds[..i]) == Ok(xs) && ParseVertex(vds[i]).Ok?
    ensures ParseVertices(vds[..i + 1]) == Ok(xs + [ParseVertex(vds[i]).value])
  {
    assert vds[..i + 1][..i] == vds[..i];
  }

  /** The names a list of read vertex entries declares. */
  function NamesOf(xs: seq<VertexData>): (r: set<string>)
  {
    set x | x in xs :: x.name
  }

  /** No two entries share a name. */
  predicate DistinctNames(xs: seq<VertexData>)
  {
    forall i, j :: 0 <= i < j < |xs| ==> xs[i].name != xs[j].name
  }

  /** The last entry named `n`: the one whose fields a repeated name ends up with. */
  function LastWith(xs: seq<VertexData>, n: string): (r: VertexData)
    requires n in NamesOf(xs)
    ensures r.name == n
  {
    var last := xs[|xs| - 1];
    if last.name == n then last
    else
      assert n in NamesOf(xs[..|xs| - 1]) by {
        var x :| x in xs && x.name == n;
        var k :| 0 <= k < |xs| && xs[k] == x;
        assert xs[..|xs| - 1][k] == x;
      }
      LastWith(xs[..|xs| - 1], n)
  }

  /** LastWith is the entry named `n` that no later entry of that name follows. */
  lemma {:induction false} LastWithIsLast(xs: seq<VertexData>, n: string)
    requires n in NamesOf(xs)
    ensures exists i :: 0 <= i < |xs| && xs[i] == LastWith(xs, n) && (forall j :: i < j < |xs| ==> xs[j].name != n)
  {
    var init := xs[..|xs| - 1];
    if xs[|xs| - 1].name != n {
      assert n in NamesOf(init) by {
        var x :| x in xs && x.name == n;
        var k :| 0 <= k < |xs| && xs[k] == x;
        assert init[k] == x;
      }
      LastWithIsLast(init, n);
      var i :| 0 <= i < |init| && init[i] == LastWith(init, n) && (forall j :: i < j < |init| ==> init[j].name != n);
      assert xs[i] == init[i];
      assert forall j :: i < j < |xs| - 1 ==> xs[j] == init[j];
    }
  }

  lemma NamesOfSnoc(xs: seq<VertexData>, x: VertexData)
    ensures NamesOf(xs + [x]) == NamesOf(xs) + {x.name}
  {
    assert forall y :: y in xs + [x] <==> y in xs || y == x;
  }

  lemma LastWithSnoc(xs: seq<VertexData>, x: VertexData, n: string)
    requires n in NamesOf(xs + [x])
    ensures n != x.name ==> n in NamesOf(xs)
    ensures LastWith(xs + [x], n) == if n == x.name then x else LastWith(xs, n)
  {
    NamesOfSnoc(xs, x);
    assert (xs + [x])[..|xs|] == xs;
  }
}
