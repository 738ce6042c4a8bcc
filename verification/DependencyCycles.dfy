/** The dependency check: a depth-first search per module, sharing one visited set across branches. */
module DependencyCycles {
  import opened FiniteSets

  type Edges = set<(string, string)>

  /** A walk along at least one edge. */
  predicate IsPath(edges: Edges, p: seq<string>) {
    |p| >= 2 && forall i | 0 <= i < |p| - 1 :: (p[i], p[i + 1]) in edges
  }

  ghost predicate Connected(edges: Edges, a: string, b: string) {
    exists p: seq<string> :: IsPath(edges, p) && p[0] == a && p[|p| - 1] == b
  }

  function Nodes(edges: Edges): set<string> {
    (set e | e in edges :: e.0) + (set e | e in edges :: e.1)
  }

  /** Everything one edge away from `v` has been visited and is not the target. */
  ghost predicate Explored(edges: Edges, v: string, visited: set<string>, target: string) {
    forall w | (v, w) in edges :: w in visited && w != target
  }

  lemma SmallerSet(a: set<string>, b: set<string>, x: string)
    requires a <= b && x in b && x !in a
    ensures |a| < |b|
  {
    SubsetSize(a, b - {x});
  }

  lemma OneEdge(edges: Edges, a: string, b: string)
    requires (a, b) in edges
    ensures Connected(edges, a, b)
  {
    var p := [a, b];
    assert IsPath(edges, p) && p[0] == a && p[|p| - 1] == b;
  }

  lemma EdgeThenPath(edges: Edges, a: string, b: string, c: string)
    requires (a, b) in edges && Connected(edges, b, c)
    ensures Connected(edges, a, c)
  {
    var p :| IsPath(edges, p) && p[0] == b && p[|p| - 1] == c;
    var q := [a] + p;
    assert forall i | 0 <= i < |q| - 1 :: i > 0 ==> (q[i], q[i + 1]) == (p[i - 1], p[i]);
    assert IsPath(edges, q) && q[0] == a && q[|q| - 1] == c;
  }

  /**
   * Looks for `target` from `current`.  A failed search has explored every
   * node it visited; that, not the search tree, is what rules a path out.
   */
  method Reaches(current: string, target: string, edges: Edges, visited: set<string>, first: bool)
    returns (found: bool, nowVisited: set<string>)
    ensures visited <= nowVisited
    ensures found ==> Connected(edges, current, target) || (!first && current == target)
    ensures !found ==>
      && current in nowVisited && (first || current != target)
      && forall v <- nowVisited - visited :: Explored(edges, v, nowVisited, target)
    decreases |(Nodes(edges) + {current}) - visited|
  {
    nowVisited := visited;
    if !first && current == target {
      return true, nowVisited;
    }
    if current in nowVisited {
      return false, nowVisited;
    }
    nowVisited := nowVisited + {current};
    var outgoing := set e | e in edges && e.0 == current;
    var todo := outgoing;
    while todo != {}
      invariant todo <= outgoing
      invariant visited + {current} <= nowVisited
      invariant forall v <- nowVisited - visited - {current} :: Explored(edges, v, nowVisited, target)
      invariant forall e <- outgoing - todo :: e.1 in nowVisited && e.1 != target
      decreases |todo|
    {
      var e :| e in todo;
      todo := todo - {e};
      SmallerSet((Nodes(edges) + {e.1}) - nowVisited, (Nodes(edges) + {current}) - visited, current);
      ghost var before := nowVisited;
      found, nowVisited := Reaches(e.1, target, edges, nowVisited, false);
      if found {
        if e.1 == target {
          OneEdge(edges, current, target);
        } else {
          EdgeThenPath(edges, current, e.1, target);
        }
        return true, nowVisited;
      }
      forall v | v in nowVisited - visited - {current} ensures Explored(edges, v, nowVisited, target) {
        assert v in before - visited - {current} || v in nowVisited - before;
      }
    }
    assert forall w | (current, w) in edges :: (current, w) in outgoing - todo;
    return false, nowVisited;
  }

  /** A set closed under edges, none of which enters the target, holds no way to the target. */
  lemma {:induction false} NoWayOut(edges: Edges, closed: set<string>, target: string, p: seq<string>)
    requires forall v <- closed :: Explored(edges, v, closed, target)
    requires IsPath(edges, p) && p[0] in closed
    ensures p[|p| - 1] in closed && p[|p| - 1] != target
    decreases |p|
  {
    assert (p[0], p[1]) in edges;
    if |p| > 2 {
      var q := p[1..];
      assert forall i | 0 <= i < |q| - 1 :: (q[i], q[i + 1]) == (p[i + 1], p[i + 2]);
      NoWayOut(edges, closed, target, q);
    }
  }

  /** Reports a module exactly when it depends on itself through at least one edge. */
  method ValidateCycles(edges: Edges) returns (reported: seq<string>)
    ensures forall m :: m in reported <==> Connected(edges, m, m)
    ensures forall i, j | 0 <= i < j < |reported| :: reported[i] != reported[j]
  {
    reported := [];
    var todo := Nodes(edges);
    while todo != {}
      invariant todo <= Nodes(edges)
      invariant forall m :: m in reported <==> m in Nodes(edges) - todo && Connected(edges, m, m)
      invariant forall i, j | 0 <= i < j < |reported| :: reported[i] != reported[j]
      decreases |todo|
    {
      var start :| start in todo;
      var found, visited := Reaches(start, start, edges, {}, true);
      if found {
        reported := reported + [start];
      } else {
        forall p: seq<string> | IsPath(edges, p) && p[0] == start ensures p[|p| - 1] != start {
          NoWayOut(edges, visited, start, p);
        }
      }
      todo := todo - {start};
    }
    forall m | Connected(edges, m, m) ensures m in Nodes(edges) {
      var p :| IsPath(edges, p) && p[0] == m && p[|p| - 1] == m;
      assert (p[0], p[1]) in edges;
    }
  }

  /** Every module of a cycle depends on itself, so the report names the whole cycle. */
  lemma CycleMembersReachThemselves(edges: Edges, p: seq<string>, i: nat)
    requires IsPath(edges, p) && p[0] == p[|p| - 1] && i < |p|
    ensures Connected(edges, p[i], p[i])
  {
    var q := p[i..] + p[1..i + 1];
    if i == 0 {
      assert IsPath(edges, p) && p[0] == p[i] && p[|p| - 1] == p[i];
    } else {
      forall k | 0 <= k < |q| - 1 ensures (q[k], q[k + 1]) in edges {
        if k == |p| - i - 1 {
          assert q[k] == p[0] && q[k + 1] == p[1];
          assert (p[0], p[1]) in edges;
        } else if k < |p| - i - 1 {
          assert (q[k], q[k + 1]) == (p[i + k], p[i + k + 1]);
        } else {
          var j := k - (|p| - i) + 1;
          assert (q[k], q[k + 1]) == (p[j], p[j + 1]);
        }
      }
      assert IsPath(edges, q) && q[0] == p[i] && q[|q| - 1] == p[i];
    }
  }
}
