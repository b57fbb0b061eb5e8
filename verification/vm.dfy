/**
  The heap of src/vm.c: a registry of every live object, a stack of frames
  whose reference lists are the collector's roots, and the object
  constructors that allocate into it.

  The registry, the frame stack and each frame's list are `vec_t`s in the
  source; here they are plain sequences whose appends always succeed
  (`Vec.PushAllSucceeds` shows that pushes on such vectors cannot fail once
  allocation succeeds).
 */
module Vm {
  import opened Nullable
  import opened Objects
  import Vec

  /** A `frame_t`: the objects one scope refers to. */
  datatype Frame = Frame(refs: seq<Id>)

  /**
    A `vm_t`. `heap` maps every allocated object to its record, `objects` is
    the registry in insertion order and `frames` is the frame stack, top last.
   */
  datatype State = State(heap: map<Id, Obj>, objects: seq<Id>, frames: seq<Frame>) {
    /**
      What the collector relies on but never checks: the registry lists each
      allocated object exactly once, and every root and every child refers to
      a registered object.
     */
    ghost predicate Valid() {
      && NoDup(objects)
      && (forall id :: id in objects <==> id in heap)
      && Roots(frames) <= heap.Keys
      && (forall id :: id in heap ==> Children(heap[id].kind) <= heap.Keys)
    }
  }

  predicate NoDup(s: seq<Id>) {
    forall i, j :: 0 <= i < j < |s| ==> s[i] != s[j]
  }

  function Elems(s: seq<Id>): set<Id> {
    set i | 0 <= i < |s| :: s[i]
  }

  lemma ElemsAppend(s: seq<Id>, x: Id)
    ensures Elems(s + [x]) == Elems(s) + {x}
  {
    var t := s + [x];
    forall y | y in Elems(t)
      ensures y in Elems(s) + {x}
    {
      var k :| 0 <= k < |t| && t[k] == y;
      if k < |s| {
        assert s[k] == y;
      }
    }
    forall y | y in Elems(s)
      ensures y in Elems(t)
    {
      var k :| 0 <= k < |s| && s[k] == y;
      assert t[k] == y;
    }
    assert t[|s|] == x;
  }

  lemma ElemsConcat(a: seq<Id>, b: seq<Id>)
    ensures Elems(a + b) == Elems(a) + Elems(b)
  {
    var t := a + b;
    forall y | y in Elems(t)
      ensures y in Elems(a) + Elems(b)
    {
      var k :| 0 <= k < |t| && t[k] == y;
      if k < |a| {
        assert a[k] == y;
      } else {
        assert b[k - |a|] == y;
      }
    }
    forall y | y in Elems(a) + Elems(b)
      ensures y in Elems(t)
    {
      if y in Elems(a) {
        var k :| 0 <= k < |a| && a[k] == y;
        assert t[k] == y;
      } else {
        var k :| 0 <= k < |b| && b[k] == y;
        assert t[|a| + k] == y;
      }
    }
  }

  lemma NoDupConcat(a: seq<Id>, b: seq<Id>)
    requires NoDup(a) && NoDup(b)
    requires forall i, j :: 0 <= i < |a| && 0 <= j < |b| ==> a[i] != b[j]
    ensures NoDup(a + b)
  {
    var t := a + b;
    forall i, j | 0 <= i < j < |t|
      ensures t[i] != t[j]
    {
      if j < |a| {
        assert t[i] == a[i] && t[j] == a[j];
      } else if i >= |a| {
        assert t[i] == b[i - |a|] && t[j] == b[j - |a|];
      } else {
        assert t[i] == a[i] && t[j] == b[j - |a|];
      }
    }
  }

  /** A sequence without repeats has as many distinct elements as entries. */
  lemma {:induction false} NoDupCard(s: seq<Id>)
    requires NoDup(s)
    ensures |Elems(s)| == |s|
    decreases |s|
  {
    if |s| > 0 {
      var init := s[..|s| - 1];
      var x := s[|s| - 1];
      assert s == init + [x];
      assert NoDup(init);
      NoDupCard(init);
      ElemsAppend(init, x);
      assert x !in Elems(init);
    }
  }

  /** Every object referenced by some frame on the stack. */
  function Roots(frames: seq<Frame>): set<Id> {
    set i, id | 0 <= i < |frames| && id in frames[i].refs :: id
  }

  ghost function Marked(heap: map<Id, Obj>): set<Id> {
    set id | id in heap && heap[id].marked
  }

  ghost function Unmarked(heap: map<Id, Obj>): set<Id> {
    set id | id in heap && !heap[id].marked
  }

  /** The two heaps hold the same objects with the same payloads; only flags may differ. */
  ghost predicate SameShape(h1: map<Id, Obj>, h2: map<Id, Obj>) {
    h1.Keys == h2.Keys && forall id :: id in h1 ==> h1[id].kind == h2[id].kind
  }

  /** Set one object's `is_marked` flag. */
  function SetMark(heap: map<Id, Obj>, id: Id, b: bool): (h: map<Id, Obj>)
    requires id in heap
    ensures SameShape(h, heap)
    ensures h[id].marked == b
    ensures forall other :: other in heap && other != id ==> h[other] == heap[other]
    ensures Marked(h) == if b then Marked(heap) + {id} else Marked(heap) - {id}
    ensures Unmarked(h) == if b then Unmarked(heap) - {id} else Unmarked(heap) + {id}
  {
    heap[id := Obj(heap[id].kind, b)]
  }

  /** Walking the frame stack bottom-up: the roots of the first `i + 1` frames add frame `i`'s objects. */
  lemma RootsPrefix(frames: seq<Frame>, i: nat)
    requires i < |frames|
    ensures Roots(frames[..i + 1]) == Roots(frames[..i]) + Elems(frames[i].refs)
    ensures Elems(frames[i].refs) <= Roots(frames)
  {
    assert frames[..i + 1] == frames[..i] + [frames[i]];
    RootsAppend(frames[..i], frames[i]);
    forall x | x in Elems(frames[i].refs)
      ensures x in Roots(frames)
    {
      assert x in frames[i].refs;
    }
  }

  /** Pushing a frame adds exactly its objects to the roots. */
  lemma RootsAppend(frames: seq<Frame>, f: Frame)
    ensures Roots(frames + [f]) == Roots(frames) + Elems(f.refs)
  {
    var t := frames + [f];
    forall id | id in Roots(t)
      ensures id in Roots(frames) + Elems(f.refs)
    {
      var i :| 0 <= i < |t| && id in t[i].refs;
      if i < |frames| {
        assert id in frames[i].refs;
      } else {
        assert id in f.refs;
      }
    }
    forall id | id in Roots(frames) + Elems(f.refs)
      ensures id in Roots(t)
    {
      if id in Roots(frames) {
        var i :| 0 <= i < |frames| && id in frames[i].refs;
        assert id in t[i].refs;
      } else {
        assert id in t[|frames|].refs;
      }
    }
  }

  /** `vm_create`: no objects and no frames. */
  function Create(): (r: State)
    ensures r.Valid()
    ensures r.heap == map[] && r.objects == [] && r.frames == []
  {
    State(map[], [], [])
  }

  /** `vm_frame_push`: put a frame on top of the stack; a NULL frame is ignored. */
  function FramePush(s: State, frame: Option<Frame>): (r: State)
    ensures frame.None? ==> r == s
    ensures frame.Some? ==> r.frames == s.frames + [frame.value]
    ensures r.heap == s.heap && r.objects == s.objects
    ensures frame.Some? ==> Roots(r.frames) == Roots(s.frames) + Elems(frame.value.refs)
    ensures s.Valid() && (frame.Some? ==> Elems(frame.value.refs) <= s.heap.Keys) ==> r.Valid()
  {
    if frame.None? then s
    else
      var r := s.(frames := s.frames + [frame.value]);
      RootsAppend(s.frames, frame.value);
      r
  }

  /** A new frame and its position on the stack. */
  datatype NewFrame = NewFrame(state: State, frame: nat)

  /** `vm_frame_create`: a new empty frame becomes the top of the stack. */
  function FrameCreate(s: State): (r: NewFrame)
    ensures r.frame == |s.frames| && r.frame < |r.state.frames|
    ensures r.state.frames == s.frames + [Frame([])]
    ensures r.state.heap == s.heap && r.state.objects == s.objects
    ensures Roots(r.state.frames) == Roots(s.frames)
    ensures s.Valid() ==> r.state.Valid()
  {
    NewFrame(FramePush(s, Some(Frame([]))), |s.frames|)
  }

  /**
    `vm_frame_destroy(vec_t_pop_back(vm->frames))`, the way a scope ends:
    the top frame leaves the stack and its list is freed. The registry is not
    touched, so the objects it rooted stay allocated until the next
    collection.
   */
  function PopFrame(s: State): (r: State)
    ensures r.heap == s.heap && r.objects == s.objects
    ensures |s.frames| == 0 ==> r == s
    ensures |s.frames| > 0 ==> r.frames == s.frames[..|s.frames| - 1]
    ensures Roots(r.frames) <= Roots(s.frames)
    ensures s.Valid() ==> r.Valid()
  {
    if |s.frames| == 0 then s else s.(frames := s.frames[..|s.frames| - 1])
  }

  /** `vm_track_object`: append an object to the registry; NULL is ignored. */
  function TrackObject(s: State, obj: Ref): (r: State)
    ensures obj.None? ==> r == s
    ensures obj.Some? ==> r.objects == s.objects + [obj.value]
    ensures r.heap == s.heap && r.frames == s.frames
  {
    if obj.None? then s else s.(objects := s.objects + [obj.value])
  }

  /**
    Tracking keeps a duplicate-free registry duplicate-free exactly when the
    object was not tracked already.
   */
  lemma {:induction false} TrackObjectNoDup(s: State, id: Id)
    requires NoDup(s.objects)
    ensures NoDup(TrackObject(s, Some(id)).objects) <==> id !in s.objects
  {
    var t := TrackObject(s, Some(id)).objects;
    assert t[|s.objects|] == id;
    if id in s.objects {
      var k :| 0 <= k < |s.objects| && s.objects[k] == id;
      assert t[k] == t[|s.objects|];
    } else {
      forall i, j | 0 <= i < j < |t|
        ensures t[i] != t[j]
      {
        if j == |s.objects| {
          assert t[i] == s.objects[i];
        } else {
          assert t[i] == s.objects[i] && t[j] == s.objects[j];
        }
      }
    }
  }

  /**
    `vm_frame_track_object`: append an object to one frame's roots; NULL is
    ignored. Nothing is marked and no other frame changes.
   */
  function FrameTrackObject(s: State, frame: nat, obj: Ref): (r: State)
    requires frame < |s.frames|
    ensures obj.None? ==> r == s
    ensures r.heap == s.heap && r.objects == s.objects
    ensures |r.frames| == |s.frames|
    ensures forall i :: 0 <= i < |s.frames| && i != frame ==> r.frames[i] == s.frames[i]
    ensures obj.Some? ==> r.frames[frame].refs == s.frames[frame].refs + [obj.value]
    ensures Roots(r.frames) == Roots(s.frames) + RefIds(obj)
    ensures s.Valid() && RefIds(obj) <= s.heap.Keys ==> r.Valid()
  {
    if obj.None? then s
    else
      var f := Frame(s.frames[frame].refs + [obj.value]);
      var r := s.(frames := s.frames[frame := f]);
      forall id | id in Roots(r.frames)
        ensures id in Roots(s.frames) + RefIds(obj)
      {
        var i :| 0 <= i < |r.frames| && id in r.frames[i].refs;
        if i != frame {
          assert id in s.frames[i].refs;
        } else if id != obj.value {
          assert id in s.frames[frame].refs;
        }
      }
      forall id | id in Roots(s.frames) + RefIds(obj)
        ensures id in Roots(r.frames)
      {
        if id in Roots(s.frames) {
          var i :| 0 <= i < |s.frames| && id in s.frames[i].refs;
          assert id in r.frames[i].refs;
        } else {
          assert id in r.frames[frame].refs;
        }
      }
      r
  }

  /** An allocation's outcome: the heap afterwards and the new object, or NULL on failure. */
  datatype Alloc = Alloc(state: State, obj: Ref)

  /**
    What every object constructor does on success: a fresh, unmarked object
    is allocated and tracked by the VM. The fresh address is the parameter
    `id`.
   */
  function Allocate(s: State, id: Id, kind: Kind): (r: Alloc)
    requires id !in s.heap
    ensures r.obj == Some(id)
    ensures r.state.heap == s.heap[id := Obj(kind, false)]
    ensures r.state.objects == s.objects + [id] && r.state.frames == s.frames
    ensures s.Valid() && Children(kind) <= s.heap.Keys ==> r.state.Valid()
  {
    var stored := s.(heap := s.heap[id := Obj(kind, false)]);
    Alloc(TrackObject(stored, Some(id)), Some(id))
  }

  /** `obj_create_int`: always succeeds. */
  function CreateInt(s: State, id: Id, value: Int32): (r: Alloc)
    requires id !in s.heap
    ensures r.obj == Some(id) && r.state.heap == s.heap[id := Obj(Int(value), false)]
    ensures r.state.objects == s.objects + [id] && r.state.frames == s.frames
    ensures s.Valid() ==> r.state.Valid()
  {
    Allocate(s, id, Int(value))
  }

  /** `obj_create_float`: always succeeds. */
  function CreateFloat(s: State, id: Id, bits: bv32): (r: Alloc)
    requires id !in s.heap
    ensures r.obj == Some(id) && r.state.heap == s.heap[id := Obj(Float(bits), false)]
    ensures r.state.objects == s.objects + [id] && r.state.frames == s.frames
    ensures s.Valid() ==> r.state.Valid()
  {
    Allocate(s, id, Float(bits))
  }

  /** `obj_create_string`: copies the characters; a NULL string is refused and nothing is allocated. */
  function CreateString(s: State, id: Id, chars: Option<string>): (r: Alloc)
    requires id !in s.heap
    ensures r.obj.Some? <==> chars.Some?
    ensures r.obj.None? ==> r.state == s
    ensures r.obj.Some? ==> r.obj == Some(id) && r.state.heap == s.heap[id := Obj(String(chars.value), false)]
    ensures r.obj.Some? ==> r.state.objects == s.objects + [id] && r.state.frames == s.frames
    ensures s.Valid() ==> r.state.Valid()
  {
    if chars.None? then Alloc(s, None) else Allocate(s, id, String(chars.value))
  }

  /**
    `obj_create_tuple`: refuses a NULL slot; stores both references without
    touching their flags.
   */
  function CreateTuple(s: State, id: Id, x: Ref, y: Ref): (r: Alloc)
    requires id !in s.heap
    ensures r.obj.Some? <==> x.Some? && y.Some?
    ensures r.obj.None? ==> r.state == s
    ensures r.obj.Some? ==> r.obj == Some(id) && r.state.heap == s.heap[id := Obj(Tuple(x, y), false)]
    ensures r.obj.Some? ==> r.state.objects == s.objects + [id] && r.state.frames == s.frames
    ensures s.Valid() && RefIds(x) <= s.heap.Keys && RefIds(y) <= s.heap.Keys ==> r.state.Valid()
  {
    if x.None? || y.None? then Alloc(s, None) else Allocate(s, id, Tuple(x, y))
  }

  /** `obj_create_vec`: refuses capacity 0; otherwise an empty vector with that capacity. */
  function CreateVector(s: State, id: Id, capacity: nat): (r: Alloc)
    requires id !in s.heap
    ensures r.obj.Some? <==> capacity > 0
    ensures r.obj.None? ==> r.state == s
    ensures r.obj.Some? ==> r.obj == Some(id) && r.state.heap == s.heap[id := Obj(Vector(Vec.Vector([], capacity)), false)]
    ensures r.obj.Some? ==> r.state.objects == s.objects + [id] && r.state.frames == s.frames
    ensures s.Valid() ==> r.state.Valid()
  {
    if capacity == 0 then Alloc(s, None) else Allocate(s, id, Vector(Vec.Reserve(capacity)))
  }
}
