/**
 * Go's slices: a length over a backing array. Appending writes into the backing
 * array while it has room, so slices that share one can disturb each other.
 */
module Slices {

  datatype Slice<T> = Slice(arr: array<T>, len: nat)
  {
    predicate Ok() {
      len <= arr.Length
    }

    function Elems(): (s: seq<T>)
      requires Ok()
      reads arr
      ensures |s| == len
    {
      arr[..len]
    }
  }

  /** `append`: in place while there is room, into a new array of some larger capacity otherwise. */
  method Append<T(0)>(s: Slice<T>, xs: seq<T>) returns (r: Slice<T>)
    requires s.Ok()
    modifies s.arr
    ensures r.Ok() && r.Elems() == old(s.Elems()) + xs
    ensures r.arr == s.arr || fresh(r.arr)
    ensures s.Elems() == old(s.Elems())
  {
    var n := s.len + |xs|;
    var arr := s.arr;
    if n > s.arr.Length {
      var capacity: nat :| n <= capacity;
      arr := new T[capacity];
      forall i | 0 <= i < s.len {
        arr[i] := s.arr[i];
      }
    }
    forall i | 0 <= i < |xs| {
      arr[s.len + i] := xs[i];
    }
    r := Slice(arr, n);
  }

  /** A copy that shares no backing array with `s`. */
  method Copy<T(0)>(s: Slice<T>) returns (r: Slice<T>)
    requires s.Ok()
    ensures r.Ok() && fresh(r.arr) && r.Elems() == s.Elems()
  {
    var arr := new T[s.len];
    forall i | 0 <= i < s.len {
      arr[i] := s.arr[i];
    }
    r := Slice(arr, s.len);
  }
}
