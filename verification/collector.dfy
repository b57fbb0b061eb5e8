/**
  The mark / trace / sweep collector of src/vm.c.

  Mark flags every object a frame refers to directly. Trace seeds a grey
  worklist with the flagged registry objects and pops them one at a time,
  flagging and pushing each child that is not yet flagged. Sweep destroys
  every unflagged object, clears the survivors' flags and compacts the
  registry. A collection runs the three in that order.
 */
module Collector {
  import opened Nullable
  import opened Objects
  import opened Vm
  import opened Reachability

  /** The trace phase's working state: the object flags and the grey worklist. */
  datatype Tracing = Tracing(heap: map<Id, Obj>, grey: seq<Id>)

  /** Every grey object is an allocated, flagged object, and none is grey twice. */
  ghost predicate WorklistOk(t: Tracing) {
    && NoDup(t.grey)
    && forall i :: 0 <= i < |t.grey| ==> t.grey[i] in t.heap && t.heap[t.grey[i]].marked
  }

  /** The registry filtered to the members of `S`, in registry order. */
  function Keep(s: seq<Id>, S: set<Id>): (r: seq<Id>)
    ensures forall x :: x in r <==> x in s && x in S
    ensures NoDup(s) ==> NoDup(r)
    ensures |r| <= |s|
  {
    if |s| == 0 then []
    else
      var init := Keep(s[..|s| - 1], S);
      var last := s[|s| - 1];
      assert forall x :: x in s[..|s| - 1] ==> x in s;
      assert NoDup(s) ==> last !in s[..|s| - 1];
      init + (if last in S then [last] else [])
  }

  /** Filtering by a set that holds every entry keeps the whole registry. */
  lemma {:induction false} KeepAll(s: seq<Id>, S: set<Id>)
    requires Elems(s) <= S
    ensures Keep(s, S) == s
    decreases |s|
  {
    if |s| > 0 {
      var init := s[..|s| - 1];
      ElemsAppend(init, s[|s| - 1]);
      assert s == init + [s[|s| - 1]];
      KeepAll(init, S);
    }
  }

  /** Filtering by a set that holds no entry keeps nothing. */
  lemma {:induction false} KeepNone(s: seq<Id>, S: set<Id>)
    requires Elems(s) !! S
    ensures Keep(s, S) == []
    decreases |s|
  {
    if |s| > 0 {
      var init := s[..|s| - 1];
      ElemsAppend(init, s[|s| - 1]);
      assert s == init + [s[|s| - 1]];
      KeepNone(init, S);
    }
  }

  /**
    How blackening may change the trace state: payloads stay put, flags are
    only set, and the worklist only grows at its end, by the newly flagged
    objects, each pushed once.
   */
  ghost predicate Extends(t: Tracing, r: Tracing) {
    && SameShape(r.heap, t.heap)
    && Marked(t.heap) <= Marked(r.heap)
    && |t.grey| <= |r.grey| && r.grey[..|t.grey|] == t.grey
    && NoDup(r.grey[|t.grey|..])
    && Elems(r.grey[|t.grey|..]) == Marked(r.heap) - Marked(t.heap)
  }

  lemma ExtendsRefl(t: Tracing)
    ensures Extends(t, t)
  {
    assert t.grey[..|t.grey|] == t.grey;
    assert t.grey[|t.grey|..] == [];
  }

  lemma ExtendsTrans(a: Tracing, b: Tracing, c: Tracing)
    requires Extends(a, b) && Extends(b, c)
    ensures Extends(a, c)
  {
    var ab := b.grey[|a.grey|..];
    var bc := c.grey[|b.grey|..];
    assert c.grey[..|b.grey|][..|a.grey|] == c.grey[..|a.grey|];
    assert c.grey[|a.grey|..] == ab + bc;
    ElemsConcat(ab, bc);
    forall i, j | 0 <= i < |ab| && 0 <= j < |bc|
      ensures ab[i] != bc[j]
    {
      assert ab[i] in Elems(ab);
      assert bc[j] in Elems(bc);
    }
    NoDupConcat(ab, bc);
  }

  /** Setting flags moves exactly the newly flagged objects out of the unflagged set. */
  lemma UnmarkedShrinks(h0: map<Id, Obj>, h1: map<Id, Obj>)
    requires SameShape(h1, h0) && Marked(h0) <= Marked(h1)
    ensures |Unmarked(h0)| == |Unmarked(h1)| + |Marked(h1) - Marked(h0)|
  {
    assert Unmarked(h0) == Unmarked(h1) + (Marked(h1) - Marked(h0));
    assert Unmarked(h1) !! (Marked(h1) - Marked(h0));
  }

  /** Each push is paid for by one object leaving the unflagged set. */
  lemma ExtendsCount(t: Tracing, r: Tracing)
    requires Extends(t, r)
    ensures |r.grey| + |Unmarked(r.heap)| == |t.grey| + |Unmarked(t.heap)|
  {
    var pushed := r.grey[|t.grey|..];
    NoDupCard(pushed);
    UnmarkedShrinks(t.heap, r.heap);
    assert r.grey == t.grey + pushed;
  }

  /** Blackening keeps the worklist free of repeats and of unflagged objects. */
  lemma ExtendsWorklist(t: Tracing, r: Tracing)
    requires Extends(t, r) && WorklistOk(t)
    ensures WorklistOk(r)
  {
    var pushed := r.grey[|t.grey|..];
    assert r.grey == t.grey + pushed;
    forall i, j | 0 <= i < |t.grey| && 0 <= j < |pushed|
      ensures t.grey[i] != pushed[j]
    {
      assert pushed[j] in Elems(pushed);
      assert t.grey[i] in Marked(t.heap);
    }
    NoDupConcat(t.grey, pushed);
    forall i | 0 <= i < |r.grey|
      ensures r.grey[i] in r.heap && r.heap[r.grey[i]].marked
    {
      if i < |t.grey| {
        assert r.grey[i] == t.grey[i];
        assert t.grey[i] in Marked(t.heap);
      } else {
        assert r.grey[i] == pushed[i - |t.grey|];
        assert pushed[i - |t.grey|] in Elems(pushed);
      }
      assert r.grey[i] in Marked(r.heap);
    }
  }

  /**
    `vm_trace_mark_objects`: a NULL or already flagged child is left alone;
    otherwise the child is flagged and pushed, so an object enters the
    worklist at most once.
   */
  function MarkChild(t: Tracing, c: Ref): (r: Tracing)
    requires c.Some? ==> c.value in t.heap
    ensures Extends(t, r)
    ensures c.None? || t.heap[c.value].marked ==> r == t
    ensures Marked(r.heap) == Marked(t.heap) + RefIds(c)
  {
    if c.None? || t.heap[c.value].marked then
      ExtendsRefl(t);
      t
    else
      var r := Tracing(SetMark(t.heap, c.value, true), t.grey + [c.value]);
      assert r.grey[..|t.grey|] == t.grey;
      assert r.grey[|t.grey|..] == [c.value];
      assert [] + [c.value] == [c.value];
      ElemsAppend([], c.value);
      r
  }

  /** One iteration of the element loop keeps the loop's invariant. */
  lemma ElementStep(t: Tracing, r: Tracing, elems: seq<Id>, i: nat)
    requires i < |elems| && Elems(elems) <= t.heap.Keys
    requires Extends(t, r)
    requires Marked(r.heap) == Marked(t.heap) + Elems(elems[..i])
    ensures elems[i] in r.heap
    ensures Extends(t, MarkChild(r, Some(elems[i])))
    ensures Marked(MarkChild(r, Some(elems[i])).heap) == Marked(t.heap) + Elems(elems[..i + 1])
  {
    var x := elems[i];
    assert x in Elems(elems);
    var u := MarkChild(r, Some(x));
    ExtendsTrans(t, r, u);
    assert elems[..i + 1] == elems[..i] + [x];
    ElemsAppend(elems[..i], x);
  }

  /** The Vector case of `vm_trace_blacken_objects`: every element goes through `MarkChild`. */
  method BlackenElements(t: Tracing, elems: seq<Id>) returns (r: Tracing)
    requires Elems(elems) <= t.heap.Keys
    ensures Extends(t, r)
    ensures Marked(r.heap) == Marked(t.heap) + Elems(elems)
  {
    r := t;
    ExtendsRefl(t);
    var i := 0;
    while i < |elems|
      invariant 0 <= i <= |elems|
      invariant Extends(t, r)
      invariant Marked(r.heap) == Marked(t.heap) + Elems(elems[..i])
    {
      ElementStep(t, r, elems, i);
      r := MarkChild(r, Some(elems[i]));
      i := i + 1;
    }
    assert elems[..i] == elems;
  }

  /**
    `vm_trace_blacken_objects`: flag and push the unflagged children of
    `obj`. Int, Float and String have none; a Tuple has its two slots; a
    Vector has its elements.
   */
  method Blacken(t: Tracing, obj: Id) returns (r: Tracing)
    requires obj in t.heap
    requires Children(t.heap[obj].kind) <= t.heap.Keys
    ensures Extends(t, r)
    ensures Marked(r.heap) == Marked(t.heap) + Children(t.heap[obj].kind)
  {
    match t.heap[obj].kind
    case Int(_) =>
      r := t;
      ExtendsRefl(t);
    case Float(_) =>
      r := t;
      ExtendsRefl(t);
    case String(_) =>
      r := t;
      ExtendsRefl(t);
    case Tuple(x, y) =>
      var u := MarkChild(t, x);
      r := MarkChild(u, y);
      ExtendsTrans(t, u, r);
    case Vector(v) =>
      r := BlackenElements(t, v.elems);
      assert Elems(v.elems) == Children(t.heap[obj].kind);
  }

  /**
    The inner loop of `vm_mark`: flag every object one frame refers to.
    Nothing else changes.
   */
  method MarkFrame(heap: map<Id, Obj>, refs: seq<Id>) returns (h: map<Id, Obj>)
    requires Elems(refs) <= heap.Keys
    ensures SameShape(h, heap)
    ensures Marked(h) == Marked(heap) + Elems(refs)
    ensures forall id :: id in heap && id !in Elems(refs) ==> h[id] == heap[id]
  {
    h := heap;
    var j := 0;
    while j < |refs|
      invariant 0 <= j <= |refs|
      invariant SameShape(h, heap)
      invariant Marked(h) == Marked(heap) + Elems(refs[..j])
      invariant forall id :: id in heap && id !in Elems(refs[..j]) ==> h[id] == heap[id]
    {
      assert refs[j] in Elems(refs);
      h := SetMark(h, refs[j], true);
      assert refs[..j + 1] == refs[..j] + [refs[j]];
      ElemsAppend(refs[..j], refs[j]);
      j := j + 1;
    }
    assert refs[..j] == refs;
  }

  /**
    `vm_mark`: flag exactly the objects some frame refers to. No other flag,
    payload, registry entry or frame changes.
   */
  method Mark(s: State) returns (r: State)
    requires Roots(s.frames) <= s.heap.Keys
    ensures r.objects == s.objects && r.frames == s.frames
    ensures SameShape(r.heap, s.heap)
    ensures Marked(r.heap) == Marked(s.heap) + Roots(s.frames)
    ensures forall id :: id in s.heap && id !in Roots(s.frames) ==> r.heap[id] == s.heap[id]
  {
    var heap := s.heap;
    var i := 0;
    while i < |s.frames|
      invariant 0 <= i <= |s.frames|
      invariant SameShape(heap, s.heap)
      invariant Marked(heap) == Marked(s.heap) + Roots(s.frames[..i])
      invariant forall id :: id in s.heap && id !in Roots(s.frames[..i]) ==> heap[id] == s.heap[id]
    {
      RootsPrefix(s.frames, i);
      heap := MarkFrame(heap, s.frames[i].refs);
      i := i + 1;
    }
    assert s.frames[..i] == s.frames;
    r := State(heap, s.objects, s.frames);
  }

  /**
    The invariant of the drain loop of `vm_trace`, relative to the heap
    `h0` tracing started from: payloads unchanged, flags only added, every
    flagged object off the worklist has flagged children, and the flagged
    set never leaves any child-closed superset of the initial flags.
   */
  ghost predicate Draining(h0: map<Id, Obj>, t: Tracing) {
    && SameShape(t.heap, h0)
    && WorklistOk(t)
    && Marked(h0) <= Marked(t.heap)
    && (forall a :: a in t.heap && t.heap[a].marked && a !in t.grey ==> Children(t.heap[a].kind) <= Marked(t.heap))
    && (forall S :: Closed(h0, S) && Marked(h0) <= S ==> Marked(t.heap) <= S)
  }

  /** The seeded worklist, all flagged registry objects, starts the drain loop. */
  lemma DrainStart(s: State)
    requires s.Valid()
    ensures Draining(s.heap, Tracing(s.heap, Keep(s.objects, Marked(s.heap))))
  {
    var t := Tracing(s.heap, Keep(s.objects, Marked(s.heap)));
    forall i | 0 <= i < |t.grey|
      ensures t.grey[i] in t.heap && t.heap[t.grey[i]].marked
    {
      assert t.grey[i] in t.grey;
    }
  }

  /**
    Blackening the popped object leaves every flagged object off the
    worklist with flagged children: the popped object's children are now
    flagged, and every other such object was already black.
   */
  lemma DrainBlack(t: Tracing, obj: Id, popped: Tracing, next: Tracing)
    requires |t.grey| > 0 && obj in t.heap
    requires obj == t.grey[|t.grey| - 1] && popped == Tracing(t.heap, t.grey[..|t.grey| - 1])
    requires forall a :: a in t.heap && t.heap[a].marked && a !in t.grey ==> Children(t.heap[a].kind) <= Marked(t.heap)
    requires Extends(popped, next)
    requires Marked(next.heap) == Marked(t.heap) + Children(t.heap[obj].kind)
    ensures forall a :: a in next.heap && next.heap[a].marked && a !in next.grey ==> Children(next.heap[a].kind) <= Marked(next.heap)
  {
    assert t.grey == popped.grey + [obj];
    forall a | a in next.heap && next.heap[a].marked && a !in next.grey
      ensures Children(next.heap[a].kind) <= Marked(next.heap)
    {
      assert next.grey[..|popped.grey|] == popped.grey;
      assert a in Marked(next.heap);
      if a != obj {
        assert a !in Elems(next.grey[|popped.grey|..]);
        assert a in Marked(t.heap);
        assert a !in t.grey;
      }
    }
  }

  /** Popping the last grey object and pushing its newly flagged children keeps the worklist well formed and shrinks the measure. */
  lemma DrainShrink(t: Tracing, obj: Id, popped: Tracing, next: Tracing)
    requires WorklistOk(t) && |t.grey| > 0
    requires obj == t.grey[|t.grey| - 1] && popped == Tracing(t.heap, t.grey[..|t.grey| - 1])
    requires Extends(popped, next)
    ensures WorklistOk(next)
    ensures |next.grey| + |Unmarked(next.heap)| < |t.grey| + |Unmarked(t.heap)|
  {
    assert t.grey == popped.grey + [obj];
    assert WorklistOk(popped);
    ExtendsWorklist(popped, next);
    ExtendsCount(popped, next);
  }

  /**
    One round of the drain loop: popping the last grey object and blackening
    it keeps the invariant, and the worklist plus the unflagged objects
    shrink by one.
   */
  lemma DrainStep(h0: map<Id, Obj>, t: Tracing, obj: Id, popped: Tracing, next: Tracing)
    requires Draining(h0, t) && |t.grey| > 0
    requires obj == t.grey[|t.grey| - 1] && popped == Tracing(t.heap, t.grey[..|t.grey| - 1])
    requires obj in t.heap
    requires Extends(popped, next)
    requires Marked(next.heap) == Marked(t.heap) + Children(t.heap[obj].kind)
    ensures Draining(h0, next)
    ensures |next.grey| + |Unmarked(next.heap)| < |t.grey| + |Unmarked(t.heap)|
  {
    DrainShrink(t, obj, popped, next);
    forall S | Closed(h0, S) && Marked(h0) <= S
      ensures Marked(next.heap) <= S
    {
      assert obj in Marked(t.heap);
    }
    DrainBlack(t, obj, popped, next);
  }

  /** Seeds the worklist of `vm_trace`: the flagged registry objects, in registry order. */
  method FlaggedObjects(s: State) returns (grey: seq<Id>)
    requires s.Valid()
    ensures grey == Keep(s.objects, Marked(s.heap))
  {
    grey := [];
    var i := 0;
    while i < |s.objects|
      invariant 0 <= i <= |s.objects|
      invariant grey == Keep(s.objects[..i], Marked(s.heap))
    {
      var id := s.objects[i];
      assert id in s.heap;
      if s.heap[id].marked {
        grey := grey + [id];
      }
      assert s.objects[..i + 1][..i] == s.objects[..i];
      i := i + 1;
    }
    assert s.objects[..i] == s.objects;
  }

  /**
    `vm_trace`: starting from the flagged registry objects, flag everything
    reachable along child edges. Flags are only ever set, and the flagged set
    it leaves is the least child-closed superset of the flagged set on entry.
   */
  method Trace(s: State) returns (r: State)
    requires s.Valid()
    ensures r.objects == s.objects && r.frames == s.frames
    ensures SameShape(r.heap, s.heap)
    ensures Marked(s.heap) <= Marked(r.heap)
    ensures Closed(r.heap, Marked(r.heap))
    ensures forall S :: Closed(s.heap, S) && Marked(s.heap) <= S ==> Marked(r.heap) <= S
  {
    var grey := FlaggedObjects(s);
    var t := Tracing(s.heap, grey);
    DrainStart(s);
    // Pop one grey object at a time and blacken it.
    while |t.grey| > 0
      invariant Draining(s.heap, t)
      decreases |t.grey| + |Unmarked(t.heap)|
    {
      var obj := t.grey[|t.grey| - 1];
      var popped := Tracing(t.heap, t.grey[..|t.grey| - 1]);
      assert obj in t.heap && Children(t.heap[obj].kind) <= t.heap.Keys;
      var next := Blacken(popped, obj);
      DrainStep(s.heap, t, obj, popped, next);
      t := next;
    }
    r := State(t.heap, s.objects, s.frames);
    ClosedSameShape(t.heap, s.heap, Marked(t.heap));
  }

  /** The registry slots after the first pass of `vm_sweep`: survivors kept, destroyed objects NULLed. */
  ghost predicate Blanked(objs: seq<Id>, S: set<Id>, slots: seq<Ref>) {
    && |slots| == |objs|
    && forall k :: 0 <= k < |slots| ==> slots[k] == if objs[k] in S then Some(objs[k]) else None
  }

  /** Blanking one more registry slot. */
  lemma BlankedStep(objs: seq<Id>, S: set<Id>, slots: seq<Ref>, i: nat)
    requires i < |objs| && Blanked(objs[..i], S, slots)
    ensures Blanked(objs[..i + 1], S, slots + [if objs[i] in S then Some(objs[i]) else None])
  {
    assert forall k :: 0 <= k <= i ==> objs[..i + 1][k] == objs[k];
  }

  /**
    The state of the first pass of `vm_sweep` after the first `i` registry
    slots: those slots are blanked, the unflagged objects among them are
    destroyed in order, and the flagged ones have their flag cleared.
   */
  ghost predicate Swept(s: State, i: nat, heap: map<Id, Obj>, slots: seq<Ref>, destroyed: seq<Id>) {
    && i <= |s.objects|
    && Blanked(s.objects[..i], Marked(s.heap), slots)
    && destroyed == Keep(s.objects[..i], s.heap.Keys - Marked(s.heap))
    && heap.Keys == s.heap.Keys - Elems(destroyed)
    && forall id :: id in heap ==> heap[id] == if id in Elems(s.objects[..i]) then Obj(s.heap[id].kind, false) else s.heap[id]
  }

  /** The next registry object has not been visited yet. */
  lemma SweepNext(s: State, i: nat, heap: map<Id, Obj>, slots: seq<Ref>, destroyed: seq<Id>)
    requires s.Valid() && Swept(s, i, heap, slots, destroyed) && i < |s.objects|
    ensures s.objects[i] !in Elems(s.objects[..i])
    ensures s.objects[i] in heap && heap[s.objects[i]] == s.heap[s.objects[i]]
  {
    var id := s.objects[i];
    assert id in s.heap;
    assert id !in destroyed;
  }

  /** Visiting a flagged registry object clears its flag and keeps its slot. */
  lemma SweepKeepStep(s: State, i: nat, heap: map<Id, Obj>, slots: seq<Ref>, destroyed: seq<Id>)
    requires s.Valid() && Swept(s, i, heap, slots, destroyed) && i < |s.objects|
    requires s.objects[i] in heap && s.heap[s.objects[i]].marked
    ensures Swept(s, i + 1, SetMark(heap, s.objects[i], false), slots + [Some(s.objects[i])], destroyed)
  {
    var objs := s.objects;
    var id := objs[i];
    SweepNext(s, i, heap, slots, destroyed);
    BlankedStep(objs, Marked(s.heap), slots, i);
    assert objs[..i + 1] == objs[..i] + [id];
    ElemsAppend(objs[..i], id);
  }

  /** Visiting an unflagged registry object destroys it and NULLs its slot. */
  lemma SweepDestroyStep(s: State, i: nat, heap: map<Id, Obj>, slots: seq<Ref>, destroyed: seq<Id>)
    requires s.Valid() && Swept(s, i, heap, slots, destroyed) && i < |s.objects|
    requires s.objects[i] in heap && !s.heap[s.objects[i]].marked
    ensures Swept(s, i + 1, heap - {s.objects[i]}, slots + [None], destroyed + [s.objects[i]])
  {
    var objs := s.objects;
    var id := objs[i];
    SweepNext(s, i, heap, slots, destroyed);
    BlankedStep(objs, Marked(s.heap), slots, i);
    assert objs[..i + 1] == objs[..i] + [id];
    ElemsAppend(objs[..i], id);
    ElemsAppend(destroyed, id);
    assert id in s.heap;
  }

  /**
    The first pass of `vm_sweep`: in registry order, clear the flag of each
    flagged object, and destroy each unflagged one and NULL its slot.
   */
  method SweepFlags(s: State) returns (heap: map<Id, Obj>, slots: seq<Ref>, destroyed: seq<Id>)
    requires s.Valid()
    ensures Blanked(s.objects, Marked(s.heap), slots)
    ensures destroyed == Keep(s.objects, s.heap.Keys - Marked(s.heap))
    ensures heap.Keys == Marked(s.heap)
    ensures forall id :: id in heap ==> id in s.heap && heap[id] == Obj(s.heap[id].kind, false)
  {
    heap := s.heap;
    slots := [];
    destroyed := [];
    var i := 0;
    while i < |s.objects|
      invariant Swept(s, i, heap, slots, destroyed)
    {
      var id := s.objects[i];
      SweepNext(s, i, heap, slots, destroyed);
      if heap[id].marked {
        SweepKeepStep(s, i, heap, slots, destroyed);
        heap := SetMark(heap, id, false);
        slots := slots + [Some(id)];
      } else {
        SweepDestroyStep(s, i, heap, slots, destroyed);
        heap := heap - {id};
        slots := slots + [None];
        destroyed := destroyed + [id];
      }
      i := i + 1;
    }
    SweepDone(s, heap, slots, destroyed);
  }

  /** After the whole registry, the objects left are exactly the flagged ones. */
  lemma SweptKeys(s: State, heap: map<Id, Obj>, slots: seq<Ref>, destroyed: seq<Id>)
    requires s.Valid() && Swept(s, |s.objects|, heap, slots, destroyed)
    ensures heap.Keys == Marked(s.heap)
    ensures forall id :: id in heap ==> id in Elems(s.objects[..|s.objects|])
  {
    var objs := s.objects;
    assert objs[..|objs|] == objs;
    forall id | id in heap
      ensures id in Marked(s.heap) && id in Elems(objs)
    {
      assert id in objs;
      assert id !in destroyed;
    }
    forall id | id in Marked(s.heap)
      ensures id in heap
    {
      assert id in objs;
    }
  }

  /** After the whole registry, the survivors are exactly the flagged objects, unflagged. */
  lemma SweepDone(s: State, heap: map<Id, Obj>, slots: seq<Ref>, destroyed: seq<Id>)
    requires s.Valid() && Swept(s, |s.objects|, heap, slots, destroyed)
    ensures forall id :: id in heap ==> id in s.heap && heap[id] == Obj(s.heap[id].kind, false)
    ensures Blanked(s.objects, Marked(s.heap), slots)
    ensures destroyed == Keep(s.objects, s.heap.Keys - Marked(s.heap))
    ensures heap.Keys == Marked(s.heap)
  {
    SweptKeys(s, heap, slots, destroyed);
    assert s.objects[..|s.objects|] == s.objects;
  }

  /** The second pass of `vm_sweep`: the non-NULL slots, compacted in order. */
  method Compact(ghost objs: seq<Id>, ghost S: set<Id>, slots: seq<Ref>) returns (kept: seq<Id>)
    requires Blanked(objs, S, slots)
    ensures kept == Keep(objs, S)
  {
    kept := [];
    var j := 0;
    while j < |slots|
      invariant 0 <= j <= |slots|
      invariant kept == Keep(objs[..j], S)
    {
      if slots[j].Some? {
        kept := kept + [slots[j].value];
      }
      assert objs[..j + 1][..j] == objs[..j];
      j := j + 1;
    }
    assert objs[..j] == objs;
  }

  /**
    `vm_sweep`: destroy every unflagged registry object, clear the flag of
    every survivor, and compact the registry to the survivors in their
    original order. `destroyed` lists the objects destroyed, each once.
   */
  method Sweep(s: State) returns (r: State, destroyed: seq<Id>)
    requires s.Valid()
    ensures r.frames == s.frames
    ensures r.objects == Keep(s.objects, Marked(s.heap))
    ensures destroyed == Keep(s.objects, s.heap.Keys - Marked(s.heap))
    ensures NoDup(r.objects) && NoDup(destroyed)
    ensures r.heap.Keys == Marked(s.heap)
    ensures forall id :: id in r.heap ==> id in s.heap && r.heap[id] == Obj(s.heap[id].kind, false)
  {
    var heap, slots;
    heap, slots, destroyed := SweepFlags(s);
    var kept := Compact(s.objects, Marked(s.heap), slots);
    r := State(heap, kept, s.frames);
  }

  /**
    The objects a collection keeps: those reachable from the frames' roots
    and from any object already flagged on entry.
   */
  ghost function Live(s: State): set<Id> {
    Reachable(s.heap, Roots(s.frames) + Marked(s.heap))
  }

  /**
    `vm_gc`: mark, trace, sweep. The registry keeps exactly the live objects
    in their original order with cleared flags, every other object is
    destroyed once, and no directly rooted object is destroyed.
   */
  method Gc(s: State) returns (r: State, destroyed: seq<Id>)
    requires s.Valid()
    ensures forall id :: id in r.heap ==> id in s.heap && r.heap[id] == Obj(s.heap[id].kind, false)
    ensures r.Valid()
    ensures r.frames == s.frames
    ensures r.heap.Keys == Live(s)
    ensures r.objects == Keep(s.objects, Live(s))
    ensures destroyed == Keep(s.objects, s.heap.Keys - Live(s))
    ensures NoDup(destroyed)
    ensures Roots(s.frames) <= r.heap.Keys
  {
    var m := Mark(s);
    ReshapeValid(s, m);
    var t := Trace(m);
    ReshapeValid(s, t);
    TraceFindsLive(s, m, t);
    r, destroyed := Sweep(t);
    GcOutcome(s, t, r, destroyed);
    SweptValid(s, r);
  }

  /**
    `vm_gc` in its intended use, with every flag clear on entry (as every
    collection leaves them): the survivors are exactly the objects reachable
    from the frames' roots, each registered once and unflagged.
   */
  method GcFromRoots(s: State) returns (r: State, destroyed: seq<Id>)
    requires s.Valid()
    requires forall id :: id in s.heap ==> !s.heap[id].marked
    ensures forall id :: id in r.heap ==> id in s.heap && r.heap[id] == Obj(s.heap[id].kind, false)
    ensures r.Valid() && r.frames == s.frames
    ensures r.heap.Keys == Reachable(s.heap, Roots(s.frames))
  {
    assert Marked(s.heap) == {};
    LiveWithoutFlags(s);
    r, destroyed := Gc(s);
  }

  /** Changing only the flags keeps a VM state well formed. */
  lemma ReshapeValid(s: State, r: State)
    requires s.Valid()
    requires r.objects == s.objects && r.frames == s.frames && SameShape(r.heap, s.heap)
    ensures r.Valid()
  {
    assert forall id :: id in r.heap ==> r.heap[id].kind == s.heap[id].kind;
  }

  /**
    After mark and trace, the flagged objects are exactly the live ones: the
    trace result is the least child-closed superset of the roots and the
    flags set on entry, and so is the reachable set.
   */
  lemma TraceFindsLive(s: State, m: State, t: State)
    requires s.Valid()
    requires SameShape(m.heap, s.heap) && Marked(m.heap) == Marked(s.heap) + Roots(s.frames)
    requires SameShape(t.heap, m.heap) && Marked(m.heap) <= Marked(t.heap)
    requires Closed(t.heap, Marked(t.heap))
    requires forall S :: Closed(m.heap, S) && Marked(m.heap) <= S ==> Marked(t.heap) <= S
    ensures Marked(t.heap) == Live(s)
  {
    var seeds := Roots(s.frames) + Marked(s.heap);
    var L := Marked(t.heap);
    assert SameShape(t.heap, s.heap);
    ClosedSameShape(t.heap, s.heap, L);
    forall S | Closed(s.heap, S) && seeds <= S
      ensures L <= S
    {
      ClosedSameShape(m.heap, s.heap, S);
    }
    assert LeastClosed(s.heap, seeds, L);
    ReachableIsLeastClosed(s.heap, seeds);
    LeastClosedUnique(s.heap, seeds, L, Live(s));
  }

  /**
    Sweeping a heap whose flagged objects are exactly the live ones keeps
    the live objects, unflagged, and destroys the rest.
   */
  lemma GcOutcome(s: State, t: State, r: State, destroyed: seq<Id>)
    requires s.Valid() && t.objects == s.objects
    requires SameShape(t.heap, s.heap) && Marked(t.heap) == Live(s)
    requires r.objects == Keep(t.objects, Marked(t.heap))
    requires destroyed == Keep(t.objects, t.heap.Keys - Marked(t.heap))
    requires r.heap.Keys == Marked(t.heap)
    requires forall id :: id in r.heap ==> id in t.heap && r.heap[id] == Obj(t.heap[id].kind, false)
    ensures r.heap.Keys == Live(s)
    ensures r.objects == Keep(s.objects, Live(s))
    ensures destroyed == Keep(s.objects, s.heap.Keys - Live(s))
    ensures forall id :: id in r.heap ==> id in s.heap && r.heap[id] == Obj(s.heap[id].kind, false)
  {
    assert t.heap.Keys == s.heap.Keys;
    UnflaggedSameShape(s.heap, t.heap, r.heap);
  }

  /** With no flag set on entry, the live objects are exactly those reachable from the roots. */
  lemma LiveWithoutFlags(s: State)
    requires Marked(s.heap) == {}
    ensures Live(s) == Reachable(s.heap, Roots(s.frames))
  {
    assert Roots(s.frames) + Marked(s.heap) == Roots(s.frames);
  }

  /** Survivors that are unflagged copies of objects of `h1` are unflagged copies of objects of any `h0` of the same shape. */
  lemma UnflaggedSameShape(h0: map<Id, Obj>, h1: map<Id, Obj>, h: map<Id, Obj>)
    requires SameShape(h1, h0)
    requires forall id :: id in h ==> id in h1 && h[id] == Obj(h1[id].kind, false)
    ensures forall id :: id in h ==> id in h0 && h[id] == Obj(h0[id].kind, false)
  {
    forall id | id in h
      ensures id in h0 && h[id] == Obj(h0[id].kind, false)
    {
      assert id in h1;
    }
  }

  /** Sweeping down to the live objects leaves a well-formed VM state. */
  lemma SweptValid(s: State, r: State)
    requires s.Valid()
    requires r.frames == s.frames
    requires r.objects == Keep(s.objects, Live(s)) && NoDup(r.objects)
    requires r.heap.Keys == Live(s)
    requires forall id :: id in r.heap ==> id in s.heap && r.heap[id] == Obj(s.heap[id].kind, false)
    ensures r.Valid()
    ensures Roots(s.frames) <= r.heap.Keys
  {
    var seeds := Roots(s.frames) + Marked(s.heap);
    ReachableIsLeastClosed(s.heap, seeds);
    forall id | id in r.heap
      ensures Children(r.heap[id].kind) <= r.heap.Keys
    {
      assert r.heap[id].kind == s.heap[id].kind;
    }
  }
}
