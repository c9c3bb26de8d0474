/** `include/axiom/fixed_vector.hpp`: a fixed-capacity vector over one preallocated array. */
module FixedVectors {

  class FixedVector<T(0)> {
    const data: array<T>
    var size: nat

    ghost predicate Valid()
      reads this
    {
      size <= data.Length
    }

    /** The active elements, `as_span`. */
    function AsSpan(): (s: seq<T>)
      requires Valid()
      reads this, data
      ensures |s| == size
    {
      data[..size]
    }

    constructor (capacity: nat)
      ensures Valid() && fresh(data) && data.Length == capacity && AsSpan() == []
    {
      data := new T[capacity];
      size := 0;
    }

    method PushBack(value: T) returns (ok: bool)
      requires Valid()
      modifies this, data
      ensures Valid()
      ensures ok == (old(size) < data.Length)
      ensures AsSpan() == if ok then old(AsSpan()) + [value] else old(AsSpan())
    {
      if size >= data.Length {
        return false;
      }
      data[size] := value;
      size := size + 1;
      return true;
    }

    method PopBack() returns (ok: bool)
      requires Valid()
      modifies this
      ensures Valid()
      ensures ok == (old(size) > 0)
      ensures AsSpan() == if ok then old(AsSpan())[..old(size) - 1] else old(AsSpan())
    {
      if size == 0 {
        return false;
      }
      size := size - 1;
      return true;
    }

    method Clear()
      modifies this
      ensures Valid() && AsSpan() == []
    {
      size := 0;
    }
  }
}
