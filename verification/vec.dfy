/** Nullable references: `None` plays the role of C's NULL pointer. */
module Nullable {

  datatype Option<T> = None | Some(value: T)

}

/**
  The growable sequence of src/vec.c: an ordered array of non-null opaque
  references with a `size` and a `capacity`. Failure is reported through the
  result (SUCCESS/FAILURE or a NULL element), never by faulting.
 */
module Vec {
  import opened Nullable

  /** Capacity of a vector made by `vec_t_create`. */
  const INITIAL_CAPACITY: nat := 10

  /** Growth factor applied when an insertion finds the vector full. */
  const RESIZE_FACTOR: nat := 2

  datatype Status = Success | Failure

  /**
    A `vec_t`: `elems` are the live slots `data[0..size)` in order, `capacity`
    is the length of the slot array.
   */
  datatype Vector<T> = Vector(elems: seq<T>, capacity: nat) {
    /** The representation invariant every operation keeps. */
    predicate Valid() {
      |elems| <= capacity
    }
  }

  /** Outcome of a call returning SUCCESS or FAILURE, with the vector afterwards. */
  datatype Update<T> = Update(vec: Vector<T>, status: Status)

  /** Outcome of a call returning a removed element or NULL, with the vector afterwards. */
  datatype Removal<T> = Removal(vec: Vector<T>, elem: Option<T>)

  function Min(a: nat, b: nat): nat {
    if a <= b then a else b
  }

  /** `vec_t_reserve`: an empty vector with the requested capacity (0 is accepted). */
  function Reserve<T>(capacity: nat): (r: Vector<T>)
    ensures r.Valid()
    ensures r.elems == [] && r.capacity == capacity
  {
    Vector([], capacity)
  }

  /** `vec_t_create`: an empty vector with the default capacity. */
  function Create<T>(): (r: Vector<T>)
    ensures r.Valid()
    ensures r.elems == [] && r.capacity == INITIAL_CAPACITY
  {
    Reserve(INITIAL_CAPACITY)
  }

  /** `vec_t_at`: bounds-checked indexing; NULL past the end. */
  function At<T>(v: Vector<T>, pos: nat): (r: Option<T>)
    ensures r.Some? <==> pos < |v.elems|
    ensures r.Some? ==> r.value == v.elems[pos]
  {
    if pos < |v.elems| then Some(v.elems[pos]) else None
  }

  /** `vec_t_front`: the first element, or NULL when empty. */
  function Front<T>(v: Vector<T>): (r: Option<T>)
    ensures r == At(v, 0)
    ensures r.None? <==> v.elems == []
  {
    if |v.elems| == 0 then None else Some(v.elems[0])
  }

  /** `vec_t_back`: the last element, or NULL when empty. */
  function Back<T>(v: Vector<T>): (r: Option<T>)
    ensures |v.elems| > 0 ==> r == At(v, |v.elems| - 1)
    ensures r.None? <==> v.elems == []
  {
    if |v.elems| == 0 then None else Some(v.elems[|v.elems| - 1])
  }

  /** `vec_t_shrink_to_fit`: drop the unused slots (the reallocation is assumed to succeed). */
  function ShrinkToFit<T>(v: Vector<T>): (r: Update<T>)
    ensures r.status == Success
    ensures r.vec.elems == v.elems
    ensures r.vec.capacity == |v.elems|
    ensures |v.elems| == v.capacity ==> r.vec == v
  {
    if |v.elems| == v.capacity then Update(v, Success)
    else Update(Vector(v.elems, |v.elems|), Success)
  }

  /** `vec_t_clear`: the vector forgets its elements and keeps its capacity. */
  function Clear<T>(v: Vector<T>): (r: Update<T>)
    requires v.Valid()
    ensures r.status == Success && r.vec.Valid()
    ensures r.vec.elems == [] && r.vec.capacity == v.capacity
  {
    Update(Vector([], v.capacity), Success)
  }

  /**
    `vec_t_resize`: sets the capacity to `count`, keeping at most the first
    `count` elements. It refuses `count == size`, and it never appends
    elements (although the header comment says it does).
   */
  function Resize<T>(v: Vector<T>, count: nat): (r: Update<T>)
    requires v.Valid()
    ensures r.vec.Valid()
    ensures r.status == Failure <==> count == |v.elems|
    ensures r.status == Failure ==> r.vec == v
    ensures r.status == Success ==> r.vec.capacity == count
    ensures r.status == Success ==> r.vec.elems == v.elems[..Min(|v.elems|, count)]
    ensures |r.vec.elems| <= |v.elems|
  {
    if count == |v.elems| then Update(v, Failure)
    else if count == 0 then
      var cleared := Clear(v).vec;
      Update(Vector(cleared.elems, 0), Success)
    else
      Update(Vector(if |v.elems| > count then v.elems[..count] else v.elems, count), Success)
  }

  /** The capacity a successful insertion leaves: doubled when the vector was full. */
  function GrownCapacity<T>(v: Vector<T>): nat {
    if |v.elems| == v.capacity then v.capacity * RESIZE_FACTOR else v.capacity
  }

  /** The "if full, resize by RESIZE_FACTOR" step shared by insert and push_back. */
  function Grow<T>(v: Vector<T>): (r: Update<T>)
    requires v.Valid()
    ensures r.vec.Valid()
    ensures r.status == Failure <==> v.capacity == 0
    ensures r.status == Failure ==> r.vec == v
    ensures r.status == Success ==> r.vec.elems == v.elems && r.vec.capacity == GrownCapacity(v)
    ensures r.status == Success ==> |r.vec.elems| < r.vec.capacity
  {
    if |v.elems| == v.capacity then Resize(v, v.capacity * RESIZE_FACTOR) else Update(v, Success)
  }

  /**
    `vec_t_push_back`: append a non-null value, doubling the capacity first
    when the vector is full. A NULL value is refused.
   */
  function PushBack<T>(v: Vector<T>, x: Option<T>): (r: Update<T>)
    requires v.Valid()
    ensures r.vec.Valid()
    ensures r.status == Success <==> x.Some? && v.capacity > 0
    ensures r.status == Failure ==> r.vec == v
    ensures r.status == Success ==> r.vec.elems == v.elems + [x.value]
    ensures r.status == Success ==> r.vec.capacity == GrownCapacity(v)
  {
    if x.None? then Update(v, Failure)
    else
      var g := Grow(v);
      if g.status == Failure then Update(v, Failure)
      else Update(Vector(g.vec.elems + [x.value], g.vec.capacity), Success)
  }

  /** `vec_t_pop_back`: remove and return the last element, or NULL when empty. */
  function PopBack<T>(v: Vector<T>): (r: Removal<T>)
    requires v.Valid()
    ensures r.vec.Valid()
    ensures v.elems == [] ==> r == Removal(v, None)
    ensures v.elems != [] ==> r.elem == Some(v.elems[|v.elems| - 1])
    ensures v.elems != [] ==> r.vec.elems + [r.elem.value] == v.elems
    ensures r.vec.capacity == v.capacity
  {
    if |v.elems| == 0 then Removal(v, None)
    else Removal(Vector(v.elems[..|v.elems| - 1], v.capacity), Some(v.elems[|v.elems| - 1]))
  }

  /**
    `vec_t_insert`: put a non-null value at `pos <= size`, shifting the
    elements from `pos` one slot to the right; appending (`pos == size`) is
    delegated to push_back. A NULL value or `pos > size` is refused.
   */
  function Insert<T>(v: Vector<T>, pos: nat, x: Option<T>): (r: Update<T>)
    requires v.Valid()
    ensures r.vec.Valid()
    ensures r.status == Success <==> x.Some? && pos <= |v.elems| && v.capacity > 0
    ensures r.status == Failure ==> r.vec == v
    ensures r.status == Success ==> r.vec.elems == v.elems[..pos] + [x.value] + v.elems[pos..]
    ensures r.status == Success ==> r.vec.capacity == GrownCapacity(v)
  {
    if x.None? || pos > |v.elems| then Update(v, Failure)
    else
      var g := Grow(v);
      if g.status == Failure then Update(v, Failure)
      else if pos == |g.vec.elems| then PushBack(g.vec, x)
      else
        var e := g.vec.elems;
        var shifted := seq(|e| + 1, i requires 0 <= i <= |e| =>
                             if i < pos then e[i] else if i == pos then x.value else e[i - 1]);
        Update(Vector(shifted, g.vec.capacity), Success)
  }

  /**
    `vec_t_remove`: take out the element at `pos < size`, shifting the later
    elements one slot to the left; removing the last one is delegated to
    pop_back. An out-of-range `pos` yields NULL.
   */
  function Remove<T>(v: Vector<T>, pos: nat): (r: Removal<T>)
    requires v.Valid()
    ensures r.vec.Valid()
    ensures pos >= |v.elems| ==> r == Removal(v, None)
    ensures pos < |v.elems| ==> r.elem == Some(v.elems[pos])
    ensures pos < |v.elems| ==> r.vec.elems == v.elems[..pos] + v.elems[pos + 1..]
    ensures r.vec.capacity == v.capacity
  {
    if pos >= |v.elems| then Removal(v, None)
    else if pos == |v.elems| - 1 then PopBack(v)
    else
      var e := v.elems;
      var shifted := seq(|e| - 1, i requires 0 <= i < |e| - 1 => if i < pos then e[i] else e[i + 1]);
      Removal(Vector(shifted, v.capacity), Some(e[pos]))
  }

  /** push_back then pop_back hands back the pushed value and restores the elements. */
  lemma PopBackAfterPushBack<T>(v: Vector<T>, x: T)
    requires v.Valid() && v.capacity > 0
    ensures PushBack(v, Some(x)).status == Success
    ensures PopBack(PushBack(v, Some(x)).vec).elem == Some(x)
    ensures PopBack(PushBack(v, Some(x)).vec).vec.elems == v.elems
  {
  }

  /** remove at the position of a successful insert hands back the inserted value and restores the elements. */
  lemma RemoveAfterInsert<T>(v: Vector<T>, pos: nat, x: T)
    requires v.Valid() && v.capacity > 0 && pos <= |v.elems|
    ensures Insert(v, pos, Some(x)).status == Success
    ensures Remove(Insert(v, pos, Some(x)).vec, pos).elem == Some(x)
    ensures Remove(Insert(v, pos, Some(x)).vec, pos).vec.elems == v.elems
  {
    var e := Insert(v, pos, Some(x)).vec.elems;
    assert e[..pos] == v.elems[..pos];
    assert e[pos + 1..] == v.elems[pos..];
    assert v.elems[..pos] + v.elems[pos..] == v.elems;
  }

  /** Every element keeps its index below `pos` and moves one up from `pos` on. */
  lemma AtAfterInsert<T>(v: Vector<T>, pos: nat, x: T, i: nat)
    requires v.Valid() && v.capacity > 0 && pos <= |v.elems|
    ensures At(Insert(v, pos, Some(x)).vec, i) ==
              if i < pos then At(v, i) else if i == pos then Some(x) else At(v, i - 1)
  {
  }

  /** push_back is insert at the end. */
  lemma PushBackIsInsertAtEnd<T>(v: Vector<T>, x: Option<T>)
    requires v.Valid()
    ensures PushBack(v, x) == Insert(v, |v.elems|, x)
  {
  }

  /** A second shrink_to_fit changes nothing. */
  lemma ShrinkToFitIdempotent<T>(v: Vector<T>)
    ensures ShrinkToFit(ShrinkToFit(v).vec) == ShrinkToFit(v)
  {
  }

  /** Push every value of `xs` in order, stopping at the first failure. */
  function PushAll<T>(v: Vector<T>, xs: seq<T>): (r: Update<T>)
    requires v.Valid()
    ensures r.vec.Valid()
    decreases |xs|
  {
    if |xs| == 0 then Update(v, Success)
    else
      var u := PushBack(v, Some(xs[0]));
      if u.status == Failure then u else PushAll(u.vec, xs[1..])
  }

  /**
    Growth by doubling never gets stuck once the capacity is positive: every
    push on such a vector succeeds. This covers every vector made by
    `vec_t_create`, such as the frame stack, the object registry and the
    trace worklist.
   */
  lemma {:induction false} PushAllSucceeds<T>(v: Vector<T>, xs: seq<T>)
    requires v.Valid() && v.capacity > 0
    ensures PushAll(v, xs).status == Success
    ensures PushAll(v, xs).vec.elems == v.elems + xs
    ensures PushAll(v, xs).vec.capacity > 0
    decreases |xs|
  {
    if |xs| > 0 {
      var u := PushBack(v, Some(xs[0]));
      assert u.status == Success && u.vec.capacity > 0;
      PushAllSucceeds(u.vec, xs[1..]);
      assert v.elems + [xs[0]] + xs[1..] == v.elems + xs;
    }
  }

  /** A vector made by `vec_t_create` accepts any sequence of pushes, in order. */
  lemma CreateAcceptsPushes<T>(xs: seq<T>)
    ensures PushAll(Create<T>(), xs).status == Success
    ensures PushAll(Create<T>(), xs).vec.elems == xs
  {
    PushAllSucceeds(Create<T>(), xs);
    assert [] + xs == xs;
  }

  /** A vector made by `vec_t_reserve` with a positive capacity accepts any sequence of pushes, in order. */
  lemma ReserveAcceptsPushes<T>(capacity: nat, xs: seq<T>)
    requires capacity > 0
    ensures PushAll(Reserve<T>(capacity), xs).status == Success
    ensures PushAll(Reserve<T>(capacity), xs).vec.elems == xs
  {
    PushAllSucceeds(Reserve<T>(capacity), xs);
    assert [] + xs == xs;
  }

  /**
    As written, a vector whose capacity is 0 (from `vec_t_reserve(0)`,
    `vec_t_resize(v, 0)` or shrink_to_fit on an empty vector) can never grow
    again: doubling 0 gives 0, which equals the size, and resize refuses that.
   */
  lemma PushBackStuckAtZeroCapacity<T>(v: Vector<T>, x: T)
    requires v.Valid() && v.elems != []
    ensures Resize(v, 0).status == Success
    ensures PushBack(Resize(v, 0).vec, Some(x)).status == Failure
    ensures Insert(Resize(v, 0).vec, 0, Some(x)).status == Failure
    ensures PushBack(Reserve(0), Some(x)).status == Failure
  {
  }

  /** The growth step with the zero-capacity case repaired: an empty slot array grows to one slot. */
  function GrowCorrected<T>(v: Vector<T>): (r: Update<T>)
    requires v.Valid()
    ensures r.status == Success && r.vec.Valid()
    ensures r.vec.elems == v.elems && |r.vec.elems| < r.vec.capacity
    ensures v.capacity > 0 ==> r == Grow(v)
  {
    if v.capacity == 0 then Update(Vector(v.elems, 1), Success) else Grow(v)
  }

  /** push_back using the repaired growth step: every non-null value is appended. */
  function PushBackCorrected<T>(v: Vector<T>, x: Option<T>): (r: Update<T>)
    requires v.Valid()
    ensures r.vec.Valid()
    ensures r.status == Success <==> x.Some?
    ensures r.status == Failure ==> r.vec == v
    ensures r.status == Success ==> r.vec.elems == v.elems + [x.value]
    ensures v.capacity > 0 ==> r == PushBack(v, x)
  {
    if x.None? then Update(v, Failure)
    else
      var g := GrowCorrected(v);
      Update(Vector(g.vec.elems + [x.value], g.vec.capacity), Success)
  }
}
