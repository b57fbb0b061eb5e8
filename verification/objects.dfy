/**
  The object shapes of include/obj.h: a tagged variant (Int, Float, String,
  Tuple, Vector) together with the collector's `is_marked` flag.
 */
module Objects {
  import opened Nullable
  import Vec

  /** An object's identity: the `obj_t *` address in the source. */
  type Id = nat

  /** A possibly-NULL `obj_t *`. */
  type Ref = Option<Id>

  /** The payload of an INT object, a C `int`. */
  newtype Int32 = x: int | -0x8000_0000 <= x < 0x8000_0000

  /**
    The variant payload. Floats are kept as their 32-bit pattern and strings
    as their characters; neither is inspected by the collector.
   */
  datatype Kind =
    | Int(value: Int32)
    | Float(bits: bv32)
    | String(chars: string)
    | Tuple(x: Ref, y: Ref)
    | Vector(vec: Vec.Vector<Id>)

  /** An `obj_t` as the collector sees it. */
  datatype Obj = Obj(kind: Kind, marked: bool)

  /** The id a reference points to, if any. */
  function RefIds(r: Ref): set<Id> {
    if r.Some? then {r.value} else {}
  }

  /**
    The objects a payload refers to: a Tuple's non-NULL slots and a Vector's
    elements. Int, Float and String refer to nothing.
   */
  function Children(k: Kind): set<Id> {
    match k
    case Tuple(x, y) => RefIds(x) + RefIds(y)
    case Vector(v) => set i | 0 <= i < |v.elems| :: v.elems[i]
    case _ => {}
  }
}
