/** The circularity check of normalization (src/internal/CacheKeySerialization.ts:68-76): a walk over an object
    graph that keeps the objects it is inside of in a set. */
module Circularity {

  datatype Ref = Ref(id: nat)

  /** The object parts of every array, map, set and plain object.  Values that are not objects are left out, and so
      are members named `__proto__`, `prototype` or `constructor`, which normalization skips before it walks them. */
  type Graph = map<Ref, seq<Ref>>

  predicate Closed(g: Graph) {
    forall r, i :: r in g && 0 <= i < |g[r]| ==> g[r][i] in g
  }

  /** What the walk answers: false when it meets an object it is inside of. */
  function Accepted(g: Graph, r: Ref, ancestors: set<Ref>): bool
    requires Closed(g) && r in g
    decreases g.Keys - ancestors, 1, 0
  {
    r !in ancestors && AllAccepted(g, g[r], ancestors + {r})
  }

  function AllAccepted(g: Graph, rs: seq<Ref>, ancestors: set<Ref>): bool
    requires Closed(g) && forall i :: 0 <= i < |rs| ==> rs[i] in g
    decreases g.Keys - ancestors, 2, |rs|
  {
    rs == [] || (Accepted(g, rs[0], ancestors) && AllAccepted(g, rs[1..], ancestors))
  }

  class Walk {
    var ancestors: set<Ref>

    constructor ()
      ensures ancestors == {}
    {
      ancestors := {};
    }

    /** `withAncestor` around the parts of an object.  The set is as before however the walk ends. */
    method Visit(g: Graph, r: Ref) returns (accepted: bool)
      requires Closed(g) && r in g
      modifies this
      ensures ancestors == old(ancestors) && accepted == Accepted(g, r, ancestors)
      decreases g.Keys - ancestors, 1, 0
    {
      if r in ancestors {
        return false;
      }
      ancestors := ancestors + {r};
      accepted := VisitAll(g, g[r]);
      ancestors := ancestors - {r};
    }

    method VisitAll(g: Graph, rs: seq<Ref>) returns (accepted: bool)
      requires Closed(g) && forall i :: 0 <= i < |rs| ==> rs[i] in g
      modifies this
      ensures ancestors == old(ancestors) && accepted == AllAccepted(g, rs, ancestors)
      decreases g.Keys - ancestors, 2, |rs|
    {
      if rs == [] {
        return true;
      }
      accepted := Visit(g, rs[0]);
      if accepted {
        accepted := VisitAll(g, rs[1..]);
      }
    }
  }

  // ---- circular values ----

  /** A path of the graph. */
  predicate Path(g: Graph, p: seq<Ref>) {
    && p != [] && (forall i :: 0 <= i < |p| ==> p[i] in g)
    && forall i :: 0 <= i < |p| - 1 ==> p[i + 1] in g[p[i]]
  }

  /** The path meets one of the objects given, or comes back to one of its own. */
  predicate Returns(p: seq<Ref>, ancestors: set<Ref>) {
    (exists i :: 0 <= i < |p| && p[i] in ancestors) || (exists i, j :: 0 <= i < j < |p| && p[i] == p[j])
  }

  ghost predicate Circular(g: Graph, r: Ref) {
    exists p :: Path(g, p) && p[0] == r && Returns(p, {})
  }

  lemma {:induction false} AllAcceptedIff(g: Graph, rs: seq<Ref>, ancestors: set<Ref>)
    requires Closed(g) && forall i :: 0 <= i < |rs| ==> rs[i] in g
    ensures AllAccepted(g, rs, ancestors) <==> forall i :: 0 <= i < |rs| ==> Accepted(g, rs[i], ancestors)
  {
    if rs == [] {
    } else {
      AllAcceptedIff(g, rs[1..], ancestors);
    }
  }

  /** An accepted walk leaves no way back. */
  lemma {:induction false} AcceptedDoesNotReturn(g: Graph, r: Ref, ancestors: set<Ref>, p: seq<Ref>)
    requires Closed(g) && r in g && Accepted(g, r, ancestors)
    requires Path(g, p) && p[0] == r
    ensures !Returns(p, ancestors)
    decreases |p|
  {
    AllAcceptedIff(g, g[r], ancestors + {r});
    if |p| > 1 {
      var i :| 0 <= i < |g[r]| && g[r][i] == p[1];
      var q := p[1..];
      assert Path(g, q) by {
        forall k | 0 <= k < |q| - 1 ensures q[k + 1] in g[q[k]] { assert p[k + 2] in g[p[k + 1]]; }
      }
      AcceptedDoesNotReturn(g, p[1], ancestors + {r}, q);
      forall k | 0 < k < |p|
        ensures p[k] !in ancestors + {r}
      {
        assert q[k - 1] == p[k];
      }
      forall k, j | 0 < k < j < |p|
        ensures p[k] != p[j]
      {
        assert q[k - 1] == p[k] && q[j - 1] == p[j];
      }
    }
  }

  /** A refused walk gives a way back. */
  lemma {:induction false} RefusedReturns(g: Graph, r: Ref, ancestors: set<Ref>) returns (p: seq<Ref>)
    requires Closed(g) && r in g && !Accepted(g, r, ancestors)
    ensures Path(g, p) && p[0] == r && Returns(p, ancestors)
    decreases g.Keys - ancestors
  {
    if r in ancestors {
      p := [r];
      assert p[0] in ancestors;
    } else {
      AllAcceptedIff(g, g[r], ancestors + {r});
      var i :| 0 <= i < |g[r]| && !Accepted(g, g[r][i], ancestors + {r});
      var q := RefusedReturns(g, g[r][i], ancestors + {r});
      p := [r] + q;
      assert Path(g, p) by {
        forall k | 0 <= k < |p| - 1 ensures p[k + 1] in g[p[k]] { assert k > 0 ==> q[k] in g[q[k - 1]]; }
      }
      PrefixedReturns(r, q, ancestors);
    }
  }

  lemma PrefixedReturns(r: Ref, q: seq<Ref>, ancestors: set<Ref>)
    requires Returns(q, ancestors + {r})
    ensures Returns([r] + q, ancestors)
  {
    var p := [r] + q;
    if i :| 0 <= i < |q| && q[i] in ancestors + {r} {
      assert p[i + 1] == q[i] && p[0] == r;
    } else {
      var i, j :| 0 <= i < j < |q| && q[i] == q[j];
      assert p[i + 1] == q[i] && p[j + 1] == q[j];
    }
  }

  /** A value is refused if and only if it is circular; objects that occur more than once are no obstacle. */
  lemma RefusedIffCircular(g: Graph, r: Ref)
    requires Closed(g) && r in g
    ensures !Accepted(g, r, {}) <==> Circular(g, r)
  {
    if Accepted(g, r, {}) {
      forall p | Path(g, p) && p[0] == r ensures !Returns(p, {}) { AcceptedDoesNotReturn(g, r, {}, p); }
    } else {
      var p := RefusedReturns(g, r, {});
    }
  }
}
