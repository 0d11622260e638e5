/**
 * `SimpleObjectPool`: a FIFO queue of reusable objects, with the debug-build
 * set of objects currently handed out.
 */
module ObjectPools {
  import opened Wrappers

  class SimpleObjectPool<T(==)> {
    /** The queue of free objects, front first. */
    var q: seq<T>
    /** Objects acquired and not yet released (`allocated`). */
    var handedOut: set<T>
    const maxSize: nat

    constructor (maxSize: nat)
      ensures q == [] && handedOut == {} && this.maxSize == maxSize
    {
      q := [];
      handedOut := {};
      this.maxSize := maxSize;
    }

    /** `size`: the number of free objects. */
    function Size(): (n: nat)
      reads this
      ensures n == |q|
    {
      |q|
    }

    /** `capacity`: the constructor argument, whatever the queue holds. */
    function Capacity(): (n: nat)
      ensures n == maxSize
    {
      maxSize
    }

    /** `add`: queue an object at the back. */
    method Add(obj: T)
      modifies this
      ensures q == old(q) + [obj] && handedOut == old(handedOut)
      ensures Size() == old(Size()) + 1
    {
      q := q + [obj];
    }

    /** `acquire`: the front object, recorded as handed out; nothing when the
        queue is empty. */
    method Acquire() returns (r: Option<T>)
      modifies this
      ensures old(q) == [] ==> r == None && q == old(q) && handedOut == old(handedOut)
      ensures old(q) != [] ==>
        r == Some(old(q)[0]) && q == old(q)[1..] && handedOut == old(handedOut) + {old(q)[0]}
    {
      if q == [] {
        return None;
      }
      var o := q[0];
      handedOut := handedOut + {o};
      q := q[1..];
      return Some(o);
    }

    /** `release`: the object must be handed out; it is no longer, and it
        goes to the back of the queue. */
    method Release(obj: T)
      requires obj in handedOut
      modifies this
      ensures handedOut == old(handedOut) - {obj} && obj !in handedOut
      ensures q == old(q) + [obj] && Size() == old(Size()) + 1
    {
      handedOut := handedOut - {obj};
      q := q + [obj];
    }
  }
}
