/** The owning heap buffer `ArrayPtr<Type>`: a nullable handle to one fixed-length
    block of elements.  The handle does not know the block's length (its owner
    tracks it); in Dafny the block is an `array?<T>` and its length is read from
    the array itself, which only the ghost function `BlockLength` does. */
module ArrayPointer {

  class ArrayPtr<T(0)> {
    /** The held block, or null for the empty state. */
    var raw: array?<T>

    /** Number of slots in the held block (0 for the empty state). */
    ghost function BlockLength(): nat
      reads this
    {
      if raw == null then 0 else raw.Length
    }

    /** The default constructor holds null. */
    constructor ()
      ensures raw == null && BlockLength() == 0
    {
      raw := null;
    }

    /** Allocates a block of exactly `size` slots; for `size == 0` nothing is
        allocated and the handle holds null.  The slots' contents are left
        unspecified, as `new Type[size]` leaves them uninitialised. */
    constructor Sized(size: nat)
      ensures size == 0 ==> raw == null
      ensures size > 0 ==> raw != null && fresh(raw) && raw.Length == size
      ensures BlockLength() == size
    {
      if size == 0 {
        raw := null;
      } else {
        raw := new T[size];
      }
    }

    /** Adopts a caller-supplied block (or null) as it is. */
    constructor Adopt(p: array?<T>)
      ensures raw == p
    {
      raw := p;
    }

    /** Gives up ownership: returns the held block and holds null afterwards. */
    method Release() returns (p: array?<T>)
      modifies this
      ensures p == old(raw) && raw == null
    {
      p := raw;
      raw := null;
    }

    /** Unchecked read of slot `index` (`operator[]` used as a value). */
    method Read(index: nat) returns (v: T)
      requires raw != null && index < raw.Length
      ensures v == raw[index]
    {
      v := raw[index];
    }

    /** Unchecked write of slot `index` (`operator[]` used as an lvalue): only that
        slot of the block changes, and the handle keeps the same block. */
    method Write(index: nat, v: T)
      requires raw != null && index < raw.Length
      modifies raw
      ensures raw[..] == old(raw[..])[index := v]
    {
      raw[index] := v;
    }

    /** `operator bool`: whether a block is held. */
    method IsSet() returns (b: bool)
      ensures b <==> raw != null
    {
      if raw != null {
        b := true;
      } else {
        b := false;
      }
    }

    /** Returns the held block without giving up ownership. */
    method Get() returns (p: array?<T>)
      ensures p == raw
    {
      p := raw;
    }

    /** Exchanges the held blocks of two handles; no block is allocated or touched. */
    method Swap(other: ArrayPtr<T>)
      modifies this, other
      ensures raw == old(other.raw) && other.raw == old(raw)
    {
      var tmp := other.Get();
      other.raw := raw;
      raw := tmp;
    }
  }

  /** Swapping two handles twice gives each its own block back. */
  method SwapTwice<T(0)>(a: ArrayPtr<T>, b: ArrayPtr<T>)
    modifies a, b
    ensures a.raw == old(a.raw) && b.raw == old(b.raw)
  {
    a.Swap(b);
    a.Swap(b);
  }
}
