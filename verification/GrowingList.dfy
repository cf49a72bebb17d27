/** A list in an array that grows by a fixed amount when it is full. */
module GrowingList {

  datatype Fetched<T> = Fetched(value: T) | OutOfRange

  const CHUNK: nat := 100

  class List<T(0)> {
    var p: array<T>
    var top: int
    var size: int
    /** Cursor of the left-dependency scans of the iteration that owns the list. */
    var index: nat
    var iterNum: int

    ghost predicate Valid()
      reads this
    {
      p.Length == size && -1 <= top < size && size > 0
    }

    ghost function Contents(): seq<T>
      reads this, p
      requires Valid()
    {
      p[..top + 1]
    }

    constructor ()
      ensures Valid() && fresh(p) && Contents() == []
      ensures index == 0
    {
      p := new T[CHUNK];
      size := CHUNK;
      top := -1;
      index := 0;
      iterNum := 0;
    }

    method ExtendList()
      requires Valid()
      modifies this`p, this`size
      ensures Valid() && fresh(p) && size == old(size) + CHUNK
      ensures Contents() == old(Contents())
    {
      var temp := new T[size + CHUNK];
      for i := 0 to size
        invariant Valid() && unchanged(this) && temp[..i] == p[..i]
      {
        temp[i] := p[i];
      }
      assert temp[..top + 1] == temp[..size][..top + 1];
      p := temp;
      size := size + CHUNK;
    }

    method Append(element: T)
      requires Valid()
      modifies this`p, this`size, this`top, p
      ensures Valid() && (p == old(p) || fresh(p))
      ensures Contents() == old(Contents()) + [element]
    {
      if top + 1 == size {
        ExtendList();
      }
      top := top + 1;
      p[top] := element;
    }

    function Length(): (n: nat)
      requires Valid()
      reads this, p
      ensures n == |Contents()|
    {
      top + 1
    }

    /** Out of range there is no element: the original throws. */
    method Get(i: int) returns (r: Fetched<T>)
      requires Valid()
      ensures r == if 0 <= i < |Contents()| then Fetched(Contents()[i]) else OutOfRange
    {
      if i >= 0 && i < Length() {
        r := Fetched(p[i]);
      } else {
        r := OutOfRange;
      }
    }
  }
}
