/**
 * Graph vertices, the name order `HasName.NameComparator` sorts them by, and the
 * list operations the graph applies to its boundary list.
 */
module Vertices {
  import opened Descriptions

  /**
   * A vertex object. Its identity is what callers key positions, locks and selection
   * on. Its name never changes once created: the reconciliation only updates a vertex
   * found under the same name.
   */
  class QVertex {
    const name: string
    var vtype: VertexType
    var angle: string
    /** The source's `old` flag: not yet seen in the reconciliation under way. */
    var stale: bool

    constructor (data: VertexData)
      ensures name == data.name && vtype == data.vtype && angle == data.angle
      ensures !stale
    {
      name := data.name;
      vtype := data.vtype;
      angle := data.angle;
      stale := false;
    }

    /** Takes on the fields of a freshly read vertex with the same name. */
    method UpdateTo(v: QVertex)
      requires v.name == name
      modifies this
      ensures vtype == old(v.vtype) && angle == old(v.angle) && stale == old(v.stale)
    {
      vtype, angle, stale := v.vtype, v.angle, v.stale;
    }
  }

  /** `a.compareTo(b) <= 0`: lexicographic order on characters, a prefix first. */
  predicate NameLe(a: string, b: string)
  {
    a == [] || (b != [] && (a[0] < b[0] || (a[0] == b[0] && NameLe(a[1..], b[1..]))))
  }

  lemma {:induction false} NameLeTotal(a: string, b: string)
    ensures NameLe(a, b) || NameLe(b, a)
  {
    if a != [] && b != [] && a[0] == b[0] {
      NameLeTotal(a[1..], b[1..]);
    }
  }

  lemma {:induction false} NameLeTransitive(a: string, b: string, c: string)
    requires NameLe(a, b) && NameLe(b, c)
    ensures NameLe(a, c)
  {
    if a != [] && b != [] && c != [] && a[0] == b[0] == c[0] {
      NameLeTransitive(a[1..], b[1..], c[1..]);
    }
  }

  lemma {:induction false} NameLeAntisymmetric(a: string, b: string)
    requires NameLe(a, b) && NameLe(b, a)
    ensures a == b
  {
    if a != [] && b != [] {
      NameLeAntisymmetric(a[1..], b[1..]);
      assert a == [a[0]] + a[1..] && b == [b[0]] + b[1..];
    }
  }

  /** The list is in name order. */
  ghost predicate SortedByName(s: seq<QVertex>)
  {
    forall i, j :: 0 <= i < j < |s| ==> NameLe(s[i].name, s[j].name)
  }

  /** A name below every element of `s` and below `v` is below every element of a permutation of both. */
  lemma LowerBoundKept(a: string, s: seq<QVertex>, v: QVertex, r: seq<QVertex>)
    requires forall j :: 0 <= j < |s| ==> NameLe(a, s[j].name)
    requires NameLe(a, v.name)
    requires multiset(r) == multiset(s) + multiset{v}
    ensures forall j :: 0 <= j < |r| ==> NameLe(a, r[j].name)
  {
    forall j | 0 <= j < |r| ensures NameLe(a, r[j].name) {
      assert r[j] in multiset(r);
      if r[j] != v {
        assert r[j] in multiset(s);
        var k :| 0 <= k < |s| && s[k] == r[j];
      }
    }
  }

  /** Inserts `v` into a name-ordered list. */
  function InsertByName(v: QVertex, s: seq<QVertex>): (r: seq<QVertex>)
    requires SortedByName(s)
    ensures SortedByName(r)
    ensures multiset(r) == multiset(s) + multiset{v}
  {
    if s == [] then [v]
    else if NameLe(v.name, s[0].name) then
      assert forall j :: 0 <= j < |s| ==> NameLe(v.name, s[j].name) by {
        forall j | 0 <= j < |s| ensures NameLe(v.name, s[j].name) {
          if j > 0 { NameLeTransitive(v.name, s[0].name, s[j].name); }
        }
      }
      [v] + s
    else
      NameLeTotal(v.name, s[0].name);
      var rest := InsertByName(v, s[1..]);
      assert s == [s[0]] + s[1..];
      LowerBoundKept(s[0].name, s[1..], v, rest);
      [s[0]] + rest
  }

  /** The boundary list as `Collections.sort` leaves it: in name order, same elements. */
  function SortByName(s: seq<QVertex>): (r: seq<QVertex>)
    ensures SortedByName(r)
    ensures multiset(r) == multiset(s)
  {
    if s == [] then []
    else
      assert s == s[..|s| - 1] + [s[|s| - 1]];
      InsertByName(s[|s| - 1], SortByName(s[..|s| - 1]))
  }

  /** `List.indexOf`: the first position of `x` in `s`, or -1 when it is absent. */
  function IndexOf<T(==)>(s: seq<T>, x: T): (r: int)
    ensures -1 <= r < |s|
    ensures r == -1 <==> x !in s
    ensures 0 <= r ==> s[r] == x && x !in s[..r]
  {
    if s == [] then -1
    else if s[0] == x then 0
    else
      var k := IndexOf(s[1..], x);
      assert s == [s[0]] + s[1..];
      if k == -1 then -1
      else
        assert s[..k + 1] == [s[0]] + s[1..][..k];
        k + 1
  }
}
