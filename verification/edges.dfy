/** The edge records and active-edge list of the scanline fill
    (lib/scanlineSkeleton.c:13-46, 346-356, 543-590).

    The C threads edges on singly-linked lists headed by a sentinel; here
    a list is the sequence of edges after the sentinel.  Each edge carries
    its current intersection values (x, 1/z, colour/z, normal/z, world
    position/z, s/z, t/z) and their per-scanline increments. */
module Edges {
  import opened Colors
  import opened Geometry

  datatype Edge = Edge(
    yUpper: int,
    x: real, dx: real,
    z: real, dz: real,
    c: Color, dc: Color,
    n: Vector, dn: Vector,
    p: Point, dp: Point,
    s: real, ds: real,
    t: real, dt: real)

  /** Ascending by the x intersection, the key insertEdge compares. */
  predicate Sorted(l: seq<Edge>)
  {
    forall i, j :: 0 <= i < j < |l| ==> l[i].x <= l[j].x
  }

  // ------------------------------------------------------------ insertEdge

  /** insertEdge: walks past every edge whose key is not greater than the
      new edge's and links the new edge in before the first greater one
      (or at the end). */
  function Insert(l: seq<Edge>, e: Edge): (r: seq<Edge>)
    ensures |r| == |l| + 1
    ensures multiset(r) == multiset(l) + multiset{e}
    decreases |l|
  {
    if l == [] then [e]
    else if e.x < l[0].x then [e] + l
    else
      assert l == [l[0]] + l[1..];
      [l[0]] + Insert(l[1..], e)
  }

  /** The place insertEdge stops: the first edge whose key is greater
      than the new one's, or the end of the list. */
  function InsertPos(l: seq<Edge>, e: Edge): (k: nat)
    ensures k <= |l|
    ensures forall i :: 0 <= i < k ==> l[i].x <= e.x
    ensures k < |l| ==> e.x < l[k].x
    decreases |l|
  {
    if l == [] || e.x < l[0].x then 0 else 1 + InsertPos(l[1..], e)
  }

  /** insertEdge adds exactly the new edge, at InsertPos, and leaves the
      order of the other edges alone. */
  lemma {:induction false} InsertSplices(l: seq<Edge>, e: Edge)
    ensures var k := InsertPos(l, e);
            Insert(l, e) == l[..k] + [e] + l[k..]
    decreases |l|
  {
    if l != [] && !(e.x < l[0].x) {
      var t := l[1..];
      InsertSplices(t, e);
      SpliceCons(l, InsertPos(t, e), e);
    }
  }

  /** Splicing into the tail of a list is splicing one place further
      into the list. */
  lemma SpliceCons<T>(l: seq<T>, k: nat, e: T)
    requires 0 <= k < |l|
    ensures [l[0]] + (l[1..][..k] + [e] + l[1..][k..]) == l[..k + 1] + [e] + l[k + 1..]
  {
    assert l[..k + 1] == [l[0]] + l[1..][..k];
    assert l[k + 1..] == l[1..][k..];
  }

  /** On a sorted list the new edge goes after every edge with an equal or
      smaller key and before every edge with a greater one, and the list
      stays sorted. */
  lemma InsertKeepsSorted(l: seq<Edge>, e: Edge)
    requires Sorted(l)
    ensures Sorted(Insert(l, e))
    ensures forall i :: 0 <= i < |l| ==> (l[i].x <= e.x <==> i < InsertPos(l, e))
  {
    var k := InsertPos(l, e);
    InsertSplices(l, e);
    var r := Insert(l, e);
    assert forall i :: k <= i < |l| ==> e.x < l[i].x by {
      forall i | k <= i < |l| ensures e.x < l[i].x {
        assert l[k].x <= l[i].x;
      }
    }
    forall i, j | 0 <= i < j < |r| ensures r[i].x <= r[j].x {
      SpliceAt(l, k, e, i);
      SpliceAt(l, k, e, j);
    }
  }

  /** Entry i of l with e spliced in at k. */
  lemma SpliceAt<T>(l: seq<T>, k: nat, e: T, i: int)
    requires k <= |l| && 0 <= i <= |l|
    ensures (l[..k] + [e] + l[k..])[i] == if i < k then l[i] else if i == k then e else l[i - 1]
  {
  }

  // --------------------------------------------- buildActiveList / resort

  /** Each edge of `es` inserted in turn, as buildActiveList moves a
      bucket into the active list and resortActiveList moves the old list
      into the emptied one. */
  function InsertAll(l: seq<Edge>, es: seq<Edge>): (r: seq<Edge>)
    ensures multiset(r) == multiset(l) + multiset(es)
    decreases |es|
  {
    if es == [] then l
    else
      assert es == [es[0]] + es[1..];
      InsertAll(Insert(l, es[0]), es[1..])
  }

  /** Inserting into a sorted list gives a sorted list. */
  lemma {:induction false} InsertAllKeepsSorted(l: seq<Edge>, es: seq<Edge>)
    ensures Sorted(l) ==> Sorted(InsertAll(l, es))
    decreases |es|
  {
    if es != [] && Sorted(l) {
      InsertKeepsSorted(l, es[0]);
      InsertAllKeepsSorted(Insert(l, es[0]), es[1..]);
    }
  }

  /** buildActiveList: the bucket of row `scan` moved into the active list. */
  function BuildActive(active: seq<Edge>, bucket: seq<Edge>): (r: seq<Edge>)
    ensures multiset(r) == multiset(active) + multiset(bucket)
    ensures Sorted(active) ==> Sorted(r)
  {
    InsertAllKeepsSorted(active, bucket);
    InsertAll(active, bucket)
  }

  /** resortActiveList: every edge re-inserted into an empty list, an
      insertion sort.  The result is a sorted permutation. */
  function Resort(active: seq<Edge>): (r: seq<Edge>)
    ensures multiset(r) == multiset(active)
    ensures Sorted(r)
  {
    InsertAllKeepsSorted([], active);
    InsertAll([], active)
  }

  /** An edge whose key is at least every key of a list goes at its end. */
  lemma InsertAtEnd(l: seq<Edge>, e: Edge)
    requires forall i :: 0 <= i < |l| ==> l[i].x <= e.x
    ensures Insert(l, e) == l + [e]
  {
    InsertSplices(l, e);
    assert InsertPos(l, e) == |l|;
  }

  /** The sort is stable: a list that is already sorted comes back in
      the same order, edges with equal keys included. */
  lemma {:induction false} InsertAllSorted(l: seq<Edge>, es: seq<Edge>)
    requires Sorted(l + es)
    ensures InsertAll(l, es) == l + es
    decreases |es|
  {
    if es != [] {
      var e := es[0];
      assert forall i :: 0 <= i < |l| ==> l[i].x <= e.x by {
        forall i | 0 <= i < |l| ensures l[i].x <= e.x {
          assert (l + es)[i] == l[i] && (l + es)[|l|] == e;
        }
      }
      InsertAtEnd(l, e);
      assert l + [e] + es[1..] == l + es;
      InsertAllSorted(l + [e], es[1..]);
    }
  }

  lemma ResortSortedIsIdentity(active: seq<Edge>)
    requires Sorted(active)
    ensures Resort(active) == active
  {
    assert [] + active == active;
    InsertAllSorted([], active);
  }

  // ----------------------------------------------------- updateActiveList

  /** One scanline's advance of a surviving edge: every running value
      gains its increment; yUpper and the increments stay. */
  function Advance(e: Edge): (r: Edge)
    ensures r.yUpper == e.yUpper
  {
    e.(x := e.x + e.dx, z := e.z + e.dz,
       c := ColorSum(e.c, e.dc),
       n := Vec4(e.n.x + e.dn.x, e.n.y + e.dn.y, e.n.z + e.dn.z, e.n.w),
       p := Vec4(e.p.x + e.dp.x, e.p.y + e.dp.y, e.p.z + e.dp.z, e.p.w + e.dp.w),
       s := e.s + e.ds, t := e.t + e.dt)
  }

  /** The edge after k advances. */
  function AdvanceTimes(e: Edge, k: nat): Edge
  {
    if k == 0 then e else Advance(AdvanceTimes(e, k - 1))
  }

  /** k increments of d, added one at a time. */
  function Times(k: nat, d: real): real
  {
    if k == 0 then 0.0 else Times(k - 1, d) + d
  }

  /** Adding d k times is multiplying it by k. */
  lemma {:induction false} TimesIsProduct(k: nat, d: real)
    ensures Times(k, d) == k as real * d
  {
    if k > 0 {
      TimesIsProduct(k - 1, d);
      assert (k - 1) as real * d + d == k as real * d;
    }
  }

  /** AdvanceTimesLinear with the increments counted one by one. */
  lemma {:induction false} AdvanceTimesSum(e: Edge, k: nat)
    ensures var a := AdvanceTimes(e, k);
            && a.yUpper == e.yUpper && a.dx == e.dx && a.dz == e.dz
            && a.ds == e.ds && a.dt == e.dt && a.dc == e.dc
            && a.x == e.x + Times(k, e.dx) && a.z == e.z + Times(k, e.dz)
            && a.s == e.s + Times(k, e.ds) && a.t == e.t + Times(k, e.dt)
            && a.c.r == e.c.r + Times(k, e.dc.r)
            && a.c.g == e.c.g + Times(k, e.dc.g)
            && a.c.b == e.c.b + Times(k, e.dc.b)
  {
    if k > 0 {
      AdvanceTimesSum(e, k - 1);
    }
  }

  /** After k scanlines each running value has moved k increments along
      the edge: the edge is sampled linearly. */
  lemma AdvanceTimesLinear(e: Edge, k: nat)
    ensures var a := AdvanceTimes(e, k);
            && a.yUpper == e.yUpper && a.dx == e.dx && a.dz == e.dz
            && a.ds == e.ds && a.dt == e.dt && a.dc == e.dc
            && a.x == e.x + k as real * e.dx
            && a.z == e.z + k as real * e.dz
            && a.s == e.s + k as real * e.ds
            && a.t == e.t + k as real * e.dt
            && a.c.r == e.c.r + k as real * e.dc.r
            && a.c.g == e.c.g + k as real * e.dc.g
            && a.c.b == e.c.b + k as real * e.dc.b
  {
    AdvanceTimesSum(e, k);
    TimesIsProduct(k, e.dx);
    TimesIsProduct(k, e.dz);
    TimesIsProduct(k, e.ds);
    TimesIsProduct(k, e.dt);
    TimesIsProduct(k, e.dc.r);
    TimesIsProduct(k, e.dc.g);
    TimesIsProduct(k, e.dc.b);
  }

  /** The part of AdvanceTimesLinear about x and 1/z. */
  lemma AdvanceTimesDepth(e: Edge, k: nat)
    ensures AdvanceTimes(e, k).x == e.x + k as real * e.dx
    ensures AdvanceTimes(e, k).z == e.z + k as real * e.dz
  {
    AdvanceTimesLinear(e, k);
  }

  /** updateActiveList: edges whose last row is `scan` or earlier are
      unlinked; every other edge is advanced in place. */
  function Update(scan: int, l: seq<Edge>): (r: seq<Edge>)
    ensures |r| <= |l|
    ensures forall i :: 0 <= i < |r| ==> scan < r[i].yUpper
    decreases |l|
  {
    if l == [] then []
    else
      var rest := Update(scan, l[1..]);
      if scan >= l[0].yUpper then rest else [Advance(l[0])] + rest
  }

  /** Exactly the edges ending after `scan` survive, each advanced. */
  lemma {:induction false} UpdateSurvivors(scan: int, l: seq<Edge>)
    ensures forall e :: e in l && scan < e.yUpper ==> Advance(e) in Update(scan, l)
    ensures forall e' :: e' in Update(scan, l) ==> exists e :: e in l && scan < e.yUpper && e' == Advance(e)
    decreases |l|
  {
    if l != [] {
      UpdateSurvivors(scan, l[1..]);
      assert forall e :: e in l[1..] ==> e in l;
      assert forall e :: e in l ==> e == l[0] || e in l[1..];
    }
  }

  /** The survivors keep their order: updating a concatenation updates
      each part. */
  lemma {:induction false} UpdateAppend(scan: int, a: seq<Edge>, b: seq<Edge>)
    ensures Update(scan, a + b) == Update(scan, a) + Update(scan, b)
    decreases |a|
  {
    if a != [] {
      assert (a + b)[0] == a[0];
      assert (a + b)[1..] == a[1..] + b;
      UpdateAppend(scan, a[1..], b);
      var h := if scan >= a[0].yUpper then [] else [Advance(a[0])];
      assert Update(scan, a + b) == h + Update(scan, a[1..] + b);
      assert Update(scan, a) == h + Update(scan, a[1..]);
      assert h + (Update(scan, a[1..]) + Update(scan, b)) == (h + Update(scan, a[1..])) + Update(scan, b);
    } else {
      assert a + b == b;
    }
  }

  /** When no edge ends on `scan`, every edge survives, advanced, in place. */
  lemma {:induction false} UpdateNoneEnding(scan: int, l: seq<Edge>)
    requires forall i :: 0 <= i < |l| ==> scan < l[i].yUpper
    ensures |Update(scan, l)| == |l|
    ensures forall i :: 0 <= i < |l| ==> Update(scan, l)[i] == Advance(l[i])
    decreases |l|
  {
    if l != [] {
      UpdateNoneEnding(scan, l[1..]);
    }
  }
}
