/**
  What "reachable" means, stated independently of the collector: an object
  is reachable from a set of seeds when a chain of child edges leads to it
  from one of them. The lemmas show that this is the least set that contains
  the seeds and is closed under child edges, which is the form in which the
  collector's trace phase establishes its result.
 */
module Reachability {
  import opened Objects
  import opened Vm

  /** `b` is a child of `a`: a Tuple slot or a Vector element of `a`. */
  ghost predicate Edge(heap: map<Id, Obj>, a: Id, b: Id) {
    a in heap && b in Children(heap[a].kind)
  }

  /** `p` is a non-empty chain of child edges. */
  ghost predicate IsPath(heap: map<Id, Obj>, p: seq<Id>) {
    |p| > 0 && forall i :: 0 <= i < |p| - 1 ==> Edge(heap, p[i], p[i + 1])
  }

  /** The allocated objects some chain of child edges leads to from `seeds`. */
  ghost function Reachable(heap: map<Id, Obj>, seeds: set<Id>): set<Id> {
    set b | b in heap && exists p :: IsPath(heap, p) && p[0] in seeds && p[|p| - 1] == b
  }

  /** `S` contains every child of every allocated object in it. */
  ghost predicate Closed(heap: map<Id, Obj>, S: set<Id>) {
    forall a :: a in S && a in heap ==> Children(heap[a].kind) <= S
  }

  /** `L` is the least child-closed superset of `seeds`. */
  ghost predicate LeastClosed(heap: map<Id, Obj>, seeds: set<Id>, L: set<Id>) {
    && seeds <= L
    && Closed(heap, L)
    && forall S :: Closed(heap, S) && seeds <= S ==> L <= S
  }

  /** Every child of an allocated object is allocated. */
  ghost predicate ChildrenAllocated(heap: map<Id, Obj>) {
    forall a :: a in heap ==> Children(heap[a].kind) <= heap.Keys
  }

  /** A chain that starts in a closed set never leaves it. */
  lemma {:induction false} PathStaysInClosed(heap: map<Id, Obj>, S: set<Id>, p: seq<Id>)
    requires IsPath(heap, p) && Closed(heap, S) && p[0] in S
    ensures p[|p| - 1] in S
    decreases |p|
  {
    if |p| > 1 {
      var q := p[..|p| - 1];
      assert forall i :: 0 <= i < |q| ==> q[i] == p[i];
      assert IsPath(heap, q);
      PathStaysInClosed(heap, S, q);
      assert Edge(heap, p[|p| - 2], p[|p| - 1]);
    }
  }

  /** Reachability is the least child-closed superset of the seeds. */
  lemma ReachableIsLeastClosed(heap: map<Id, Obj>, seeds: set<Id>)
    requires seeds <= heap.Keys && ChildrenAllocated(heap)
    ensures LeastClosed(heap, seeds, Reachable(heap, seeds))
  {
    var R := Reachable(heap, seeds);
    forall s | s in seeds
      ensures s in R
    {
      assert IsPath(heap, [s]);
    }
    forall a, c | a in R && c in Children(heap[a].kind)
      ensures c in R
    {
      var p :| IsPath(heap, p) && p[0] in seeds && p[|p| - 1] == a;
      var q := p + [c];
      assert forall i :: 0 <= i < |p| ==> q[i] == p[i];
      assert Edge(heap, q[|q| - 2], q[|q| - 1]);
      assert IsPath(heap, q);
      assert c in heap;
    }
    forall S | Closed(heap, S) && seeds <= S
      ensures R <= S
    {
      forall b | b in R
        ensures b in S
      {
        var p :| IsPath(heap, p) && p[0] in seeds && p[|p| - 1] == b;
        PathStaysInClosed(heap, S, p);
      }
    }
  }

  /** The least closed superset is unique. */
  lemma LeastClosedUnique(heap: map<Id, Obj>, seeds: set<Id>, A: set<Id>, B: set<Id>)
    requires LeastClosed(heap, seeds, A) && LeastClosed(heap, seeds, B)
    ensures A == B
  {
  }

  /** Closedness depends only on the payloads, not on the flags. */
  lemma ClosedSameShape(h1: map<Id, Obj>, h2: map<Id, Obj>, S: set<Id>)
    requires SameShape(h1, h2)
    ensures Closed(h1, S) <==> Closed(h2, S)
  {
    assert forall a :: a in h1 ==> h1[a].kind == h2[a].kind;
  }
}
