/**
  The driver scenarios of src/main.c, and the self-referencing Vector, run
  through the model: object counts after each collection, and which objects
  are destroyed.
 */
module Scenarios {
  import opened Nullable
  import opened Objects
  import opened Vm
  import opened Reachability
  import opened Collector
  import Vec

  /** A heap in which no object is flagged has an empty flagged set. */
  lemma NoneMarked(heap: map<Id, Obj>)
    requires forall id :: id in heap ==> !heap[id].marked
    ensures Marked(heap) == {}
  {
  }

  /** Nothing is reachable from no seeds. */
  lemma NothingReachable(heap: map<Id, Obj>)
    ensures Reachable(heap, {}) == {}
  {
  }

  /** A fresh VM with one empty frame pushed. */
  method OneFrame() returns (r: NewFrame)
    ensures r.state.Valid()
    ensures r.state == State(map[], [], [Frame([])]) && r.frame == 0
  {
    r := FrameCreate(Create());
  }

  /** The first scenario after setup: "foo" allocated and rooted in the only frame. */
  method RootedString() returns (s: State)
    ensures s.Valid()
    ensures s.objects == [0] && |s.frames| == 1 && Roots(s.frames) == {0}
    ensures 0 in s.heap && s.heap[0] == Obj(String("foo"), false)
  {
    var nf := OneFrame();
    var a := CreateString(nf.state, 0, Some("foo"));
    s := FrameTrackObject(a.state, nf.frame, a.obj);
  }

  /**
    A collection with no frame left and no flag set destroys every
    registered object, in registry order.
   */
  method CollectUnrooted(s: State) returns (r: State, destroyed: seq<Id>)
    requires s.Valid() && s.frames == []
    requires forall id :: id in s.heap ==> !s.heap[id].marked
    ensures r.objects == [] && r.heap == map[]
    ensures destroyed == s.objects
  {
    assert Live(s) == {} by {
      NoneMarked(s.heap);
      assert Roots(s.frames) + Marked(s.heap) == {};
      NothingReachable(s.heap);
    }
    KeepNone(s.objects, {});
    assert s.heap.Keys - Live(s) == s.heap.Keys;
    assert Elems(s.objects) <= s.heap.Keys;
    KeepAll(s.objects, s.heap.Keys);
    r, destroyed := Gc(s);
  }

  /**
    A collection in which every registered object is directly rooted
    destroys nothing and keeps the registry as it was.
   */
  method CollectAllRooted(s: State) returns (r: State, destroyed: seq<Id>)
    requires s.Valid() && Elems(s.objects) <= Roots(s.frames)
    ensures r.Valid()
    ensures r.objects == s.objects && r.frames == s.frames
    ensures destroyed == []
    ensures forall id :: id in r.heap ==> !r.heap[id].marked
  {
    r, destroyed := Gc(s);
    KeepAll(s.objects, Live(s));
    KeepNone(s.objects, s.heap.Keys - Live(s));
  }

  /** The first scenario's first collection: the rooted String survives it. */
  method RootedStringKept() returns (r: State)
    ensures r.Valid()
    ensures r.objects == [0] && |r.frames| == 1
    ensures forall id :: id in r.heap ==> !r.heap[id].marked
  {
    var s := RootedString();
    ElemsAppend([], 0);
    assert [] + [0] == s.objects;
    var destroyed;
    r, destroyed := CollectAllRooted(s);
  }

  /**
    The first scenario: a String rooted in a frame survives a collection;
    once the frame is popped, the next collection destroys it.
   */
  method RootedStringScenario() returns (first: nat, second: nat, destroyed: seq<Id>)
    ensures first == 1
    ensures second == 0
    ensures destroyed == [0]
  {
    var r := RootedStringKept();
    first := |r.objects|;
    var p := PopFrame(r);
    assert p.frames == [];
    var r2;
    r2, destroyed := CollectUnrooted(p);
    second := |r2.objects|;
  }

  /** `obj_create_string` followed by `vm_frame_track_object` on one frame. */
  method RootString(s: State, frame: nat, id: Id, chars: string) returns (r: State)
    requires frame < |s.frames| && id !in s.heap
    ensures r.heap == s.heap[id := Obj(String(chars), false)]
    ensures r.objects == s.objects + [id]
    ensures |r.frames| == |s.frames|
    ensures forall i :: 0 <= i < |s.frames| && i != frame ==> r.frames[i] == s.frames[i]
    ensures r.frames[frame].refs == s.frames[frame].refs + [id]
    ensures s.Valid() ==> r.Valid()
  {
    var a := CreateString(s, id, Some(chars));
    r := FrameTrackObject(a.state, frame, a.obj);
  }

  /** A fresh VM with three empty frames pushed: f1, f2 and f3. */
  method ThreeFrames() returns (s: State)
    ensures s.Valid()
    ensures s == State(map[], [], [Frame([]), Frame([]), Frame([])])
  {
    var nf := OneFrame();
    s := FrameCreate(FrameCreate(nf.state).state).state;
  }

  /** The heap the second scenario builds: three Strings, two Ints and a Tuple of the Ints. */
  function DriverHeap(): map<Id, Obj> {
    map[0 := Obj(String("f00"), false), 1 := Obj(String("bar"), false), 2 := Obj(String("baz"), false),
        3 := Obj(Int(10), false), 4 := Obj(Int(20), false), 5 := Obj(Tuple(Some(3), Some(4)), false)]
  }

  /** The second scenario, first lines: three frames, and s1 rooted in f1. */
  method DriverFirstString() returns (s: State)
    ensures s.objects == [0]
    ensures s.frames == [Frame([0]), Frame([]), Frame([])]
    ensures s.heap == map[0 := Obj(String("f00"), false)]
  {
    s := ThreeFrames();
    s := RootString(s, 0, 0, "f00");
    assert s.frames[0].refs == [0];
  }

  /** The second scenario: s2 rooted in f2. */
  method DriverFirstStrings() returns (s: State)
    ensures s.objects == [0, 1]
    ensures s.frames == [Frame([0]), Frame([1]), Frame([])]
    ensures s.heap == map[0 := Obj(String("f00"), false), 1 := Obj(String("bar"), false)]
  {
    s := DriverFirstString();
    s := RootString(s, 1, 1, "bar");
    assert s.frames[1].refs == [1];
  }

  /** The second scenario: s3 rooted in f3. */
  method DriverStrings() returns (s: State)
    ensures s.objects == [0, 1, 2]
    ensures s.frames == [Frame([0]), Frame([1]), Frame([2])]
    ensures s.heap == map[0 := Obj(String("f00"), false), 1 := Obj(String("bar"), false), 2 := Obj(String("baz"), false)]
  {
    s := DriverFirstStrings();
    s := RootString(s, 2, 2, "baz");
    assert s.frames[2].refs == [2];
  }

  /** The second scenario: the Ints 10 and 20 and the Tuple holding them, not yet rooted. */
  method DriverTuple() returns (s: State)
    ensures s.objects == [0, 1, 2, 3, 4, 5]
    ensures s.frames == [Frame([0]), Frame([1]), Frame([2])]
    ensures s.heap == DriverHeap()
  {
    s := DriverStrings();
    var i0 := CreateInt(s, 3, 10);
    var i1 := CreateInt(i0.state, 4, 20);
    var t := CreateTuple(i1.state, 5, i0.obj, i1.obj);
    s := t.state;
  }

  /** The second scenario after setup: the Tuple is rooted in f2 and f3, and six objects are registered. */
  method DriverSetup() returns (s: State)
    ensures s.objects == [0, 1, 2, 3, 4, 5] && |s.objects| == 6
    ensures s.frames == [Frame([0]), Frame([1, 5]), Frame([2, 5])]
    ensures s.heap == DriverHeap()
  {
    s := DriverTuple();
    s := FrameTrackObject(s, 1, Some(5));
    assert s.frames[1].refs == [1, 5];
    s := FrameTrackObject(s, 2, Some(5));
    assert s.frames[2].refs == [2, 5];
  }

  /** The second scenario's state after setup is well formed. */
  lemma DriverValid(s: State)
    requires s.objects == [0, 1, 2, 3, 4, 5]
    requires s.frames == [Frame([0]), Frame([1, 5]), Frame([2, 5])]
    requires s.heap == DriverHeap()
    ensures s.Valid()
  {
    DriverHeapShape();
    forall id | id in Roots(s.frames)
      ensures id in s.heap
    {
      var i :| 0 <= i < |s.frames| && id in s.frames[i].refs;
    }
  }

  /** The driver heap holds ids 0 to 5, and every child is one of them. */
  lemma DriverHeapShape()
    ensures DriverHeap().Keys == {0, 1, 2, 3, 4, 5}
    ensures ChildrenAllocated(DriverHeap())
  {
    var heap := DriverHeap();
    assert Children(heap[5].kind) == {3, 4};
  }

  /** f1 and f2 root s1, s2 and the Tuple. */
  lemma DriverRoots(frames: seq<Frame>)
    requires frames == [Frame([0]), Frame([1, 5])]
    ensures Roots(frames) == {0, 1, 5}
  {
    assert 0 in frames[0].refs && 1 in frames[1].refs && 5 in frames[1].refs;
    forall id | id in Roots(frames)
      ensures id in {0, 1, 5}
    {
      var i :| 0 <= i < |frames| && id in frames[i].refs;
    }
  }

  /** In the second scenario's heap, closing s1, s2 and the Tuple under child edges adds the two Ints. */
  lemma DriverClosure()
    ensures ChildrenAllocated(DriverHeap())
    ensures LeastClosed(DriverHeap(), {0, 1, 5}, {0, 1, 3, 4, 5})
  {
    var heap := DriverHeap();
    DriverHeapShape();
    assert Children(heap[5].kind) == {3, 4};
    forall S | Closed(heap, S) && {0, 1, 5} <= S
      ensures {0, 1, 3, 4, 5} <= S
    {
      assert 5 in S && 5 in heap;
    }
  }

  /**
    After f3 is popped, the live objects are s1 and s2, rooted directly,
    and the Tuple with both Ints, rooted through f2.
   */
  lemma DriverLiveAfterPop(p: State)
    requires p.heap == DriverHeap() && p.frames == [Frame([0]), Frame([1, 5])]
    ensures Live(p) == {0, 1, 3, 4, 5}
  {
    NoneMarked(p.heap);
    DriverRoots(p.frames);
    DriverClosure();
    var seeds := Roots(p.frames) + Marked(p.heap);
    assert seeds == {0, 1, 5};
    ReachableIsLeastClosed(p.heap, seeds);
    LeastClosedUnique(p.heap, seeds, {0, 1, 3, 4, 5}, Live(p));
  }

  /** A well-formed VM registers each allocated object exactly once. */
  lemma RegistrySize(s: State)
    requires s.Valid()
    ensures |s.objects| == |s.heap.Keys|
  {
    NoDupCard(s.objects);
    assert Elems(s.objects) == s.heap.Keys;
  }

  /** The second scenario after f3 is popped. */
  method DriverPopped() returns (p: State)
    ensures p.Valid()
    ensures p.heap == DriverHeap() && p.frames == [Frame([0]), Frame([1, 5])]
  {
    var s := DriverSetup();
    DriverValid(s);
    p := PopFrame(s);
    assert p.frames == [Frame([0]), Frame([1, 5])];
  }

  /** The second scenario's first collection, after popping f3: only s3 is destroyed. */
  method DriverFirstGc() returns (r: State)
    ensures r.Valid()
    ensures r.heap.Keys == {0, 1, 3, 4, 5} && |r.objects| == |r.heap.Keys|
    ensures |r.frames| == 2
    ensures forall id :: id in r.heap ==> !r.heap[id].marked
  {
    var p := DriverPopped();
    DriverLiveAfterPop(p);
    var destroyed;
    r, destroyed := Gc(p);
    RegistrySize(r);
  }

  /**
    The second scenario: six objects after setup; popping f3 and collecting
    leaves five, since the Tuple is still rooted in f2; popping f2 and f1
    and collecting leaves none.
   */
  method DriverScenario() returns (setup: nat, first: nat, second: nat)
    ensures setup == 6 && first == 5 && second == 0
  {
    var survivors: set<Id> := {0, 1, 3, 4, 5};
    assert |survivors| == 5;
    var s := DriverSetup();
    setup := |s.objects|;
    var r := DriverFirstGc();
    first := |r.objects|;
    var p := PopFrame(PopFrame(r));
    assert p.frames == [];
    var r2, destroyed := CollectUnrooted(p);
    second := |r2.objects|;
  }

  /**
    A client storing a reference in a Vector object: push_back on the
    object's backing vector, with the zero-capacity growth repaired. The
    payload gains the reference at its end and nothing else changes; on a
    vector with positive capacity this is exactly `vec_t_push_back`.
   */
  method PushElement(s: State, v: Id, x: Id) returns (r: State)
    requires s.Valid() && v in s.heap && s.heap[v].kind.Vector? && s.heap[v].kind.vec.Valid()
    requires x in s.heap
    ensures r.objects == s.objects && r.frames == s.frames
    ensures r.heap.Keys == s.heap.Keys
    ensures forall o :: o in s.heap && o != v ==> r.heap[o] == s.heap[o]
    ensures r.heap[v].marked == s.heap[v].marked && r.heap[v].kind.Vector?
    ensures r.heap[v].kind.vec.elems == s.heap[v].kind.vec.elems + [x]
    ensures s.heap[v].kind.vec.capacity > 0 ==> r.heap[v].kind.vec == Vec.PushBack(s.heap[v].kind.vec, Some(x)).vec
    ensures r.Valid()
  {
    var u := Vec.PushBackCorrected(s.heap[v].kind.vec, Some(x));
    r := s.(heap := s.heap[v := Obj(Vector(u.vec), s.heap[v].marked)]);
    ElemsAppend(s.heap[v].kind.vec.elems, x);
    assert Children(r.heap[v].kind) == Children(s.heap[v].kind) + {x};
  }

  /** A Vector of capacity one holding a reference to itself, not yet rooted. */
  method SelfCycleVector() returns (s: State, frame: nat)
    ensures s.Valid() && frame == 0
    ensures s.objects == [0] && s.frames == [Frame([])]
    ensures 0 in s.heap && s.heap[0].kind.Vector? && s.heap[0].kind.vec.elems == [0]
  {
    var nf := OneFrame();
    frame := nf.frame;
    var a := CreateVector(nf.state, 0, 1);
    s := PushElement(a.state, 0, 0);
  }

  /** The self-cycle scenario after setup: a Vector holding only itself, rooted in the only frame. */
  method SelfCycleSetup() returns (s: State)
    ensures s.Valid()
    ensures s.objects == [0] && s.frames == [Frame([0])]
    ensures 0 in s.heap && s.heap[0].kind.Vector? && Children(s.heap[0].kind) == {0}
  {
    var frame;
    s, frame := SelfCycleVector();
    ElemsAppend([], 0);
    assert [] + [0] == s.heap[0].kind.vec.elems;
    s := FrameTrackObject(s, frame, Some(0));
    assert s.frames[0].refs == [0];
  }

  /**
    The self-cycle scenario: the Vector survives while rooted; once its
    frame is popped, the next collection destroys it, once.
   */
  method SelfCycleScenario() returns (kept: seq<Id>, destroyed: seq<Id>)
    ensures kept == [0]
    ensures destroyed == [0]
  {
    var s := SelfCycleSetup();
    ElemsAppend([], 0);
    assert Roots(s.frames) == {0} by {
      assert 0 in s.frames[0].refs;
    }
    var r, none := CollectAllRooted(s);
    kept := r.objects;
    var p := PopFrame(r);
    assert p.frames == [];
    var r2;
    r2, destroyed := CollectUnrooted(p);
  }
}
