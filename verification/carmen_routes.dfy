/** `can_go` (carmen.py:40-64): a depth-first search over the location graph
    with one visited list shared by every recursive call. A move may enter a
    location only while its `starts-locked` flag is false; the start itself
    is never checked. */
module Routes {
  import opened Options
  import opened CarmenData

  /** What `can_go` needs of the locations to run without a `KeyError`: every
      connection names a location that carries a `starts-locked` flag. */
  predicate WellFormed(locs: map<string, Location>) {
    forall a, b :: a in locs && b in locs[a].connections ==> b in locs && locs[b].startsLocked.Some?
  }

  /** One move: b is a connection of a and b is not locked. */
  predicate Edge(locs: map<string, Location>, a: string, b: string) {
    a in locs && b in locs[a].connections && b in locs && locs[b].startsLocked == Some(false)
  }

  /** A walk along moves; a single location is a walk of no moves. */
  predicate IsPath(locs: map<string, Location>, p: seq<string>) {
    |p| >= 1 && forall i :: 0 <= i < |p| - 1 ==> Edge(locs, p[i], p[i + 1])
  }

  /** The reference meaning of `can_go`: some walk leads from start to end. */
  ghost predicate Reachable(locs: map<string, Location>, start: string, end: string) {
    exists p :: IsPath(locs, p) && p[0] == start && p[|p| - 1] == end
  }

  /** The search's answer and the visited list it leaves, as a set: the code
      only ever asks whether a name is in the list. */
  datatype Search = Search(found: bool, visited: set<string>)

  lemma SubsetCard(a: set<string>, b: set<string>)
    requires a <= b
    ensures |a| <= |b|
  {
    if a != b {
      var x :| x in b && x !in a;
      SubsetCard(a, b - {x});
    }
  }

  /** One call of `can_go`: mark the start visited; succeed at once if it is
      the end, or if the end is an unlocked connection; otherwise try each
      unvisited unlocked connection in order. Visiting only grows. */
  function Dfs(start: string, end: string, locs: map<string, Location>, visited: set<string>): (r: Search)
    requires WellFormed(locs)
    requires start !in visited
    requires start == end || start in locs
    ensures visited + {start} <= r.visited
    decreases |locs.Keys - visited|, 0
  {
    var v := visited + {start};
    if start == end then Search(true, v)
    else if end in locs[start].connections && !locs[end].startsLocked.value then Search(true, v)
    else
      assert locs.Keys - v == (locs.Keys - visited) - {start};
      DfsNeighbors(locs[start].connections, end, locs, v)
  }

  /** The loop over a location's connections, from the given one onwards. */
  function DfsNeighbors(ns: seq<string>, end: string, locs: map<string, Location>, visited: set<string>): (r: Search)
    requires WellFormed(locs)
    requires forall i :: 0 <= i < |ns| ==> ns[i] in locs && locs[ns[i]].startsLocked.Some?
    ensures visited <= r.visited
    decreases |locs.Keys - visited|, 1, |ns|
  {
    if |ns| == 0 then Search(false, visited)
    else if ns[0] !in visited && !locs[ns[0]].startsLocked.value then
      var r := Dfs(ns[0], end, locs, visited);
      if r.found then r
      else
        SubsetCard(locs.Keys - r.visited, locs.Keys - visited);
        DfsNeighbors(ns[1..], end, locs, r.visited)
    else DfsNeighbors(ns[1..], end, locs, visited)
  }

  /** A walk from b extended backwards by the move a -> b. */
  lemma PrependEdge(locs: map<string, Location>, a: string, p: seq<string>)
    requires IsPath(locs, p) && Edge(locs, a, p[0])
    ensures IsPath(locs, [a] + p) && ([a] + p)[0] == a && ([a] + p)[|p|] == p[|p| - 1]
  {
    var q := [a] + p;
    forall i | 0 <= i < |q| - 1 ensures Edge(locs, q[i], q[i + 1]) {
      if i > 0 {
        assert q[i] == p[i - 1] && q[i + 1] == p[i];
      }
    }
  }

  /** Soundness: a successful search found a walk to the end. */
  lemma {:induction false} DfsSound(start: string, end: string, locs: map<string, Location>, visited: set<string>)
    requires WellFormed(locs)
    requires start !in visited
    requires start == end || start in locs
    ensures Dfs(start, end, locs, visited).found ==> Reachable(locs, start, end)
    decreases |locs.Keys - visited|, 0
  {
    var v := visited + {start};
    if start == end {
      assert IsPath(locs, [start]);
    } else if end in locs[start].connections && !locs[end].startsLocked.value {
      assert IsPath(locs, [start, end]);
    } else {
      var ns := locs[start].connections;
      assert locs.Keys - v == (locs.Keys - visited) - {start};
      DfsNeighborsSound(ns, end, locs, v);
      if Dfs(start, end, locs, visited).found {
        var i :| 0 <= i < |ns| && locs[ns[i]].startsLocked == Some(false) && Reachable(locs, ns[i], end);
        var p :| IsPath(locs, p) && p[0] == ns[i] && p[|p| - 1] == end;
        PrependEdge(locs, start, p);
      }
    }
  }

  lemma {:induction false} DfsNeighborsSound(ns: seq<string>, end: string, locs: map<string, Location>, visited: set<string>)
    requires WellFormed(locs)
    requires forall i :: 0 <= i < |ns| ==> ns[i] in locs && locs[ns[i]].startsLocked.Some?
    ensures DfsNeighbors(ns, end, locs, visited).found ==>
      exists i :: 0 <= i < |ns| && locs[ns[i]].startsLocked == Some(false) && Reachable(locs, ns[i], end)
    decreases |locs.Keys - visited|, 1, |ns|
  {
    if |ns| > 0 {
      if ns[0] !in visited && !locs[ns[0]].startsLocked.value {
        DfsSound(ns[0], end, locs, visited);
        var r := Dfs(ns[0], end, locs, visited);
        if !r.found {
          SubsetCard(locs.Keys - r.visited, locs.Keys - visited);
          DfsNeighborsSound(ns[1..], end, locs, r.visited);
          if DfsNeighbors(ns[1..], end, locs, r.visited).found {
            var i :| 0 <= i < |ns| - 1 && locs[ns[1..][i]].startsLocked == Some(false) && Reachable(locs, ns[1..][i], end);
            assert ns[1..][i] == ns[i + 1];
          }
        }
      } else {
        DfsNeighborsSound(ns[1..], end, locs, visited);
        if DfsNeighbors(ns[1..], end, locs, visited).found {
          var i :| 0 <= i < |ns| - 1 && locs[ns[1..][i]].startsLocked == Some(false) && Reachable(locs, ns[1..][i], end);
          assert ns[1..][i] == ns[i + 1];
        }
      }
    }
  }

  /** Every move out of a location visited since `before` leads to a visited
      location. */
  ghost predicate ClosedSince(locs: map<string, Location>, visited: set<string>, before: set<string>) {
    forall a, b :: a in visited && a !in before && Edge(locs, a, b) ==> b in visited
  }

  /** Completeness, the invariant half: a failed search never visits the end,
      and every location it newly visited has all its moves into the visited
      set. */
  lemma {:induction false} DfsClosed(start: string, end: string, locs: map<string, Location>, visited: set<string>)
    requires WellFormed(locs)
    requires start !in visited && end !in visited
    requires start == end || start in locs
    ensures var r := Dfs(start, end, locs, visited);
      !r.found ==> end !in r.visited && ClosedSince(locs, r.visited, visited)
    decreases |locs.Keys - visited|, 0
  {
    var v := visited + {start};
    if start != end && !(end in locs[start].connections && !locs[end].startsLocked.value) {
      var ns := locs[start].connections;
      assert locs.Keys - v == (locs.Keys - visited) - {start};
      DfsNeighborsClosed(ns, end, locs, v);
      var r := DfsNeighbors(ns, end, locs, v);
      if !r.found {
        forall b | Edge(locs, start, b) ensures b in r.visited {
          var i :| 0 <= i < |ns| && ns[i] == b;
        }
      }
    }
  }

  lemma {:induction false} DfsNeighborsClosed(ns: seq<string>, end: string, locs: map<string, Location>, visited: set<string>)
    requires WellFormed(locs)
    requires forall i :: 0 <= i < |ns| ==> ns[i] in locs && locs[ns[i]].startsLocked.Some?
    requires end !in visited
    ensures var r := DfsNeighbors(ns, end, locs, visited);
      !r.found ==>
        && end !in r.visited
        && ClosedSince(locs, r.visited, visited)
        && forall i :: 0 <= i < |ns| && locs[ns[i]].startsLocked == Some(false) ==> ns[i] in r.visited
    decreases |locs.Keys - visited|, 1, |ns|
  {
    if |ns| > 0 {
      if ns[0] !in visited && !locs[ns[0]].startsLocked.value {
        DfsClosed(ns[0], end, locs, visited);
        var r := Dfs(ns[0], end, locs, visited);
        if !r.found {
          SubsetCard(locs.Keys - r.visited, locs.Keys - visited);
          DfsNeighborsClosed(ns[1..], end, locs, r.visited);
          var r2 := DfsNeighbors(ns[1..], end, locs, r.visited);
          if !r2.found {
            forall i | 0 <= i < |ns| && locs[ns[i]].startsLocked == Some(false) ensures ns[i] in r2.visited {
              if i > 0 {
                assert ns[1..][i - 1] == ns[i];
              }
            }
          }
        }
      } else {
        DfsNeighborsClosed(ns[1..], end, locs, visited);
        var r2 := DfsNeighbors(ns[1..], end, locs, visited);
        if !r2.found {
          forall i | 0 <= i < |ns| && locs[ns[i]].startsLocked == Some(false) ensures ns[i] in r2.visited {
            if i > 0 {
              assert ns[1..][i - 1] == ns[i];
            }
          }
        }
      }
    }
  }

  /** No walk leaves a set closed under moves. */
  lemma {:induction false} ClosedNoEscape(locs: map<string, Location>, w: set<string>, p: seq<string>)
    requires ClosedSince(locs, w, {})
    requires IsPath(locs, p) && p[0] in w
    ensures p[|p| - 1] in w
    decreases |p|
  {
    if |p| > 1 {
      var q := p[..|p| - 1];
      assert IsPath(locs, q) by {
        forall i | 0 <= i < |q| - 1 ensures Edge(locs, q[i], q[i + 1]) {
          assert q[i] == p[i] && q[i + 1] == p[i + 1];
        }
      }
      ClosedNoEscape(locs, w, q);
      assert Edge(locs, p[|p| - 2], p[|p| - 1]);
    }
  }

  /** Completeness: when a walk to the end exists, the search from an empty
      visited list finds it. */
  lemma DfsComplete(start: string, end: string, locs: map<string, Location>)
    requires WellFormed(locs)
    requires start == end || start in locs
    ensures Reachable(locs, start, end) ==> Dfs(start, end, locs, {}).found
  {
    var r := Dfs(start, end, locs, {});
    DfsClosed(start, end, locs, {});
    if !r.found {
      forall p | IsPath(locs, p) && p[0] == start
        ensures p[|p| - 1] != end
      {
        ClosedNoEscape(locs, r.visited, p);
      }
    }
  }

  /** `can_go(start, end, locations)`: true iff some walk leads from start to
      end, each move entering an unlocked connection. */
  function CanGo(start: string, end: string, locs: map<string, Location>): (b: bool)
    requires WellFormed(locs)
    requires start == end || start in locs
    ensures b <==> Reachable(locs, start, end)
  {
    DfsSound(start, end, locs, {});
    DfsComplete(start, end, locs);
    Dfs(start, end, locs, {}).found
  }

  /** The destination of a successful move is a known location. */
  lemma ReachableEndsInLocs(locs: map<string, Location>, start: string, end: string)
    requires start in locs
    requires Reachable(locs, start, end)
    ensures end in locs
  {
    var p :| IsPath(locs, p) && p[0] == start && p[|p| - 1] == end;
    if |p| > 1 {
      assert Edge(locs, p[|p| - 2], p[|p| - 1]);
    }
  }
}
