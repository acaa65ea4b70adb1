/**
 Finite directed graphs: who waits for whom.
 */
module WaitGraph {

  type Graph = set<(nat, nat)>

  ghost predicate Path(g: Graph, p: seq<nat>) {
    |p| >= 1 && forall i :: 0 <= i < |p| - 1 ==> (p[i], p[i + 1]) in g
  }

  ghost predicate PathFrom(g: Graph, p: seq<nat>, a: nat, b: nat) {
    Path(g, p) && p[0] == a && p[|p| - 1] == b
  }

  /** A walk of zero or more edges leads from a to b. */
  ghost predicate Reaches(g: Graph, a: nat, b: nat) {
    exists p :: PathFrom(g, p, a, b)
  }

  ghost predicate Acyclic(g: Graph) {
    forall a, b :: (a, b) in g ==> !Reaches(g, b, a)
  }

  /** Nobody waits for two. */
  ghost predicate OutDegreeOne(g: Graph) {
    forall a, b, c :: (a, b) in g && (a, c) in g ==> b == c
  }

  lemma ReachesSelf(g: Graph, a: nat)
    ensures Reaches(g, a, a)
  {
    assert PathFrom(g, [a], a, a);
  }

  lemma ReachesTrans(g: Graph, a: nat, b: nat, c: nat)
    requires Reaches(g, a, b) && Reaches(g, b, c)
    ensures Reaches(g, a, c)
  {
    var p :| PathFrom(g, p, a, b);
    var q :| PathFrom(g, q, b, c);
    var r := p + q[1..];
    forall i | 0 <= i < |r| - 1
      ensures (r[i], r[i + 1]) in g
    {
      if i < |p| - 1 {
        assert (p[i], p[i + 1]) in g;
      } else {
        var k := i - (|p| - 1);
        assert r[i] == q[k] && r[i + 1] == q[k + 1];
      }
    }
    assert PathFrom(g, r, a, c);
  }

  lemma EdgeReaches(g: Graph, a: nat, b: nat)
    requires (a, b) in g
    ensures Reaches(g, a, b)
  {
    assert PathFrom(g, [a, b], a, b);
  }

  /** A walk is at its end, or takes a first edge. */
  lemma FirstEdge(g: Graph, a: nat, b: nat)
    requires Reaches(g, a, b)
    ensures a == b || exists c :: (a, c) in g && Reaches(g, c, b)
  {
    var p :| PathFrom(g, p, a, b);
    if |p| > 1 {
      assert PathFrom(g, p[1..], p[1], b);
      assert (a, p[1]) in g;
    }
  }

  lemma AcyclicSubgraph(g: Graph, h: Graph)
    requires h <= g && Acyclic(g)
    ensures Acyclic(h)
  {
    forall a, b | (a, b) in h
      ensures !Reaches(h, b, a)
    {
      if Reaches(h, b, a) {
        var p :| PathFrom(h, p, b, a);
        assert PathFrom(g, p, b, a);
        assert false;
      }
    }
  }

  /** A walk in the larger graph stays in the smaller one, or goes through the new edge. */
  lemma {:induction false} WalkWithEdge(g: Graph, t: nat, o: nat, p: seq<nat>)
    requires Path(g + {(t, o)}, p)
    ensures Reaches(g, p[0], p[|p| - 1]) || (Reaches(g, p[0], t) && Reaches(g, o, p[|p| - 1]))
    decreases |p|
  {
    var x, y := p[0], p[|p| - 1];
    if |p| == 1 {
      ReachesSelf(g, x);
    } else {
      var x1 := p[1];
      WalkWithEdge(g, t, o, p[1..]);
      assert (p[0], p[1]) in g + {(t, o)};
      if (x, x1) in g {
        EdgeReaches(g, x, x1);
        if Reaches(g, x1, y) {
          ReachesTrans(g, x, x1, y);
        } else {
          ReachesTrans(g, x, x1, t);
        }
      } else {
        ReachesSelf(g, t);
      }
    }
  }

  /** An edge closes a cycle exactly when a walk already leads back along it. */
  lemma AcyclicAdd(g: Graph, t: nat, o: nat)
    requires Acyclic(g)
    ensures Acyclic(g + {(t, o)}) <==> !Reaches(g, o, t)
  {
    var h := g + {(t, o)};
    if Reaches(g, o, t) {
      var p :| PathFrom(g, p, o, t);
      assert PathFrom(h, p, o, t);
      assert (t, o) in h;
    } else {
      forall a, b | (a, b) in h
        ensures !Reaches(h, b, a)
      {
        if Reaches(h, b, a) {
          var p :| PathFrom(h, p, b, a);
          WalkWithEdge(g, t, o, p);
          if (a, b) in g {
            EdgeReaches(g, a, b);
            if !Reaches(g, b, a) {
              ReachesTrans(g, o, a, b);
              ReachesTrans(g, o, b, t);
            }
          }
          assert false;
        }
      }
    }
  }
}
