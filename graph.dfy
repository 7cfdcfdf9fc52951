/**
 * Lineage queries over the link list: the descendants of a node (following
 * links forward, `from` to `to`) and its ancestors (following them
 * backward).  Both are an iterative depth-first search with an explicit
 * stack and a visited set, and both must terminate on cyclic link lists.
 */
module Graph {
  import opened Family

  /** Down follows a link from `from` to `to`; Up follows it back. */
  datatype Direction = Down | Up

  /** One step from `a` to `b` in the given direction. */
  predicate Arc(edges: seq<Link>, dir: Direction, a: int, b: int)
  {
    if dir == Down then Link(a, b) in edges else Link(b, a) in edges
  }

  /**
   * `edgesList.filter((e) => e.from === c).map((e) => e.to)` for Down and
   * the mirror image for Up: the neighbours of `c`, in link order.
   */
  function Next(edges: seq<Link>, dir: Direction, c: int): (r: seq<int>)
    ensures forall x :: x in r <==> Arc(edges, dir, c, x)
  {
    if edges == [] then []
    else
      var e := edges[0];
      var here := if dir == Down && e.from == c then [e.to]
                  else if dir == Up && e.to == c then [e.from]
                  else [];
      var r := here + Next(edges[1..], dir, c);
      assert edges == [e] + edges[1..];
      r
  }

  /** Every id that occurs as an endpoint of some link. */
  function EdgeIds(edges: seq<Link>): set<int>
  {
    (set e | e in edges :: e.from) + (set e | e in edges :: e.to)
  }

  /** A walk of one or more steps. */
  ghost predicate IsPath(edges: seq<Link>, dir: Direction, p: seq<int>)
  {
    |p| >= 2 && forall i :: 0 <= i < |p| - 1 ==> Arc(edges, dir, p[i], p[i + 1])
  }

  /** `t` is reachable from `s` by one or more steps. */
  ghost predicate Reaches(edges: seq<Link>, dir: Direction, s: int, t: int)
  {
    exists p :: IsPath(edges, dir, p) && p[0] == s && p[|p| - 1] == t
  }

  /** The ids reachable from `id` by one or more steps, other than `id` itself. */
  ghost function Lineage(edges: seq<Link>, dir: Direction, id: int): set<int>
  {
    set x | x in EdgeIds(edges) && x != id && Reaches(edges, dir, id, x)
  }

  predicate Distinct(s: seq<int>)
  {
    forall i, j :: 0 <= i < j < |s| ==> s[i] != s[j]
  }

  lemma ArcReaches(edges: seq<Link>, dir: Direction, a: int, b: int)
    requires Arc(edges, dir, a, b)
    ensures Reaches(edges, dir, a, b)
  {
    assert IsPath(edges, dir, [a, b]);
  }

  /** Reachability extends by one more step. */
  lemma ReachesExtend(edges: seq<Link>, dir: Direction, s: int, m: int, t: int)
    requires Reaches(edges, dir, s, m) && Arc(edges, dir, m, t)
    ensures Reaches(edges, dir, s, t)
  {
    var p :| IsPath(edges, dir, p) && p[0] == s && p[|p| - 1] == m;
    var q := p + [t];
    assert forall i :: 0 <= i < |p| ==> q[i] == p[i];
    assert IsPath(edges, dir, q);
  }

  /** Whatever is reached lies on some link, so `Lineage` loses nothing by that bound. */
  lemma ReachesEndpoint(edges: seq<Link>, dir: Direction, s: int, t: int)
    requires Reaches(edges, dir, s, t)
    ensures t in EdgeIds(edges)
  {
    var p :| IsPath(edges, dir, p) && p[0] == s && p[|p| - 1] == t;
    var k := |p| - 2;
    assert Arc(edges, dir, p[k], p[k + 1]);
    if dir == Down {
      assert Link(p[k], t) in edges;
    } else {
      assert Link(t, p[k]) in edges;
    }
  }

  /**
   * A set that holds every successor of `start` and of each of its own
   * members holds everything reachable from `start`.
   */
  lemma {:induction false} ClosedHoldsPath(edges: seq<Link>, dir: Direction, start: int, visited: seq<int>, p: seq<int>)
    requires forall x, y :: (x == start || x in visited) && Arc(edges, dir, x, y) ==> y in visited
    requires IsPath(edges, dir, p) && p[0] == start
    ensures p[|p| - 1] in visited
    decreases |p|
  {
    var n := |p|;
    assert Arc(edges, dir, p[n - 2], p[n - 1]);
    if n > 2 {
      var q := p[..n - 1];
      assert forall i :: 0 <= i < |q| ==> q[i] == p[i];
      assert IsPath(edges, dir, q);
      ClosedHoldsPath(edges, dir, start, visited, q);
    }
  }

  /** A sequence without repetitions is no longer than any set holding its elements. */
  lemma {:induction false} DistinctBound(s: seq<int>, t: set<int>)
    requires Distinct(s)
    requires forall x :: x in s ==> x in t
    ensures |s| <= |t|
  {
    if s != [] {
      var rest := s[1..];
      assert forall x :: x in rest ==> x in t - {s[0]} by {
        forall x | x in rest ensures x in t - {s[0]} {
          var j :| 0 <= j < |rest| && rest[j] == x;
          assert s[j + 1] == x;
        }
      }
      DistinctBound(rest, t - {s[0]});
      assert s[0] in t;
    }
  }

  /** `result.delete(x)` on an insertion-ordered set. */
  function Without(s: seq<int>, x: int): (r: seq<int>)
    requires Distinct(s)
    ensures Distinct(r)
    ensures forall y :: y in r <==> y in s && y != x
  {
    if s == [] then []
    else
      var rest := Without(s[1..], x);
      assert forall y :: y in s[1..] ==> y != s[0];
      assert s[0] !in rest;
      if s[0] == x then rest else [s[0]] + rest
  }

  /**
   * The traversal shared by getDescendants and getAncestors: pop the top of
   * the stack, visit each unseen neighbour and push it; finally drop the
   * start id.  `visited` is the insertion-ordered set `result`.
   */
  method Walk(start: int, edges: seq<Link>, dir: Direction) returns (found: seq<int>)
    ensures Distinct(found)
    ensures start !in found
    ensures forall x :: x in found <==> x != start && Reaches(edges, dir, start, x)
  {
    var targets := EdgeIds(edges);
    var visited: seq<int> := [];
    var stack: seq<int> := [start];
    while stack != []
      invariant Distinct(visited)
      invariant forall x :: x in visited ==> x in targets
      invariant forall x :: x in visited ==> Reaches(edges, dir, start, x)
      invariant forall x :: x in stack ==> x == start || x in visited
      invariant forall x, y :: (x == start || x in visited) && x !in stack && Arc(edges, dir, x, y) ==> y in visited
      invariant |visited| <= |targets|
      decreases |targets| - |visited|, |stack|
    {
      var current := stack[|stack| - 1];
      stack := stack[..|stack| - 1];
      ghost var stack0, visited0 := stack, visited;
      var next := Next(edges, dir, current);
      var k := 0;
      while k < |next|
        invariant 0 <= k <= |next|
        invariant Distinct(visited)
        invariant forall x :: x in visited ==> x in targets
        invariant forall x :: x in visited ==> Reaches(edges, dir, start, x)
        invariant forall x :: x in visited0 ==> x in visited
        invariant |visited| >= |visited0| && |stack| == |stack0| + (|visited| - |visited0|)
        invariant forall x :: x in stack0 ==> x in stack
        invariant forall x :: x in stack ==> x == start || x in visited
        invariant current == start || current in visited
        invariant forall x, y :: (x == start || x in visited) && x !in stack && x != current && Arc(edges, dir, x, y) ==> y in visited
        invariant forall j :: 0 <= j < k ==> next[j] in visited
      {
        var child := next[k];
        if child !in visited {
          assert Arc(edges, dir, current, child);
          if current == start {
            ArcReaches(edges, dir, start, child);
          } else {
            ReachesExtend(edges, dir, start, current, child);
          }
          ReachesEndpoint(edges, dir, start, child);
          visited := visited + [child];
          stack := stack + [child];
        }
        k := k + 1;
      }
      DistinctBound(visited, targets);
    }
    forall x | Reaches(edges, dir, start, x) ensures x in visited {
      var p :| IsPath(edges, dir, p) && p[0] == start && p[|p| - 1] == x;
      ClosedHoldsPath(edges, dir, start, visited, p);
    }
    found := Without(visited, start);
  }

  /** `getDescendants(startID, edgesList)`. */
  method GetDescendants(startId: int, edges: seq<Link>) returns (r: seq<int>)
    ensures Distinct(r) && startId !in r
    ensures forall x :: x in r <==> x in Lineage(edges, Down, startId)
  {
    r := Walk(startId, edges, Down);
    forall x | x in r ensures x in EdgeIds(edges) {
      ReachesEndpoint(edges, Down, startId, x);
    }
  }

  /** `getAncestors(startID, edgesList)`. */
  method GetAncestors(startId: int, edges: seq<Link>) returns (r: seq<int>)
    ensures Distinct(r) && startId !in r
    ensures forall x :: x in r <==> x in Lineage(edges, Up, startId)
  {
    r := Walk(startId, edges, Up);
    forall x | x in r ensures x in EdgeIds(edges) {
      ReachesEndpoint(edges, Up, startId, x);
    }
  }
}
