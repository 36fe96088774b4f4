/** The ring buffer of src/ring_buffer.rs and its draining iterator, working in place on machine words. */
module RingBufferCode {
  import opened Options
  import R = RingBuffer

  newtype usize = x: int | 0 <= x < 0x1_0000_0000_0000_0000

  const USIZE_MAX: usize := 0xFFFF_FFFF_FFFF_FFFF

  /** No allocation may have more bytes. */
  const ISIZE_MAX: nat := 0x7FFF_FFFF_FFFF_FFFF

  /** The position `index` places after `head`. No intermediate result leaves the word. */
  function RingIndex(head: usize, index: usize, cap: usize): (r: usize)
    requires head < cap && index <= cap
    ensures r as int == R.At(head as int, index as int, cap as int)
    ensures r < cap
  {
    var tail := cap - head;
    if tail > index then head + index else index - tail
  }

  lemma RingIndexIsRemainder(head: usize, index: usize, cap: usize)
    requires head < cap && index <= cap
    ensures RingIndex(head, index, cap) as int == (head as int + index as int) % cap as int
  {
    R.AtIsRemainder(head as int, index as int, cap as int);
  }

  /** The smallest capacity after growth, by the size of an element in bytes. */
  function MinNonZeroCap(size: nat): (r: usize)
    ensures (size == 1 ==> r == 8) && (size != 1 && size <= 1024 ==> r == 4) && (size > 1024 ==> r == 1)
  {
    if size == 1 then 8 else if size <= 1024 then 4 else 1
  }

  /** The capacity after growth, or nothing if it does not fit a word. */
  function NewCap(cap: usize, minCap: usize): (r: Option<usize>)
    requires minCap > 0
    ensures r == None <==> 2 * cap as int > USIZE_MAX as int
    ensures r.Some? ==> r.value as int == R.NewCap(cap as int, minCap as int)
    ensures r.Some? ==> r.value as int == if 2 * cap as int < minCap as int then minCap as int else 2 * cap as int
  {
    if cap > USIZE_MAX - cap then None
    else if cap + cap >= minCap then Some(cap + cap) else Some(minCap)
  }

  /** `target` with `n` elements of `source` from `from` on written over those from `to` on. */
  function Pasted<C>(target: seq<C>, source: seq<C>, from: nat, to: nat, n: nat): seq<C>
    requires from + n <= |source| && to + n <= |target|
  {
    target[..to] + source[from..from + n] + target[to + n..]
  }

  /** Two copies unroll a ring into an empty array. */
  lemma TwoCopies<C>(cells: seq<C>, head: nat, empty: seq<C>, none: C)
    requires head <= |cells| <= |empty| && forall i :: 0 <= i < |empty| ==> empty[i] == none
    ensures var tail := |cells| - head;
      Pasted(Pasted(empty, cells, head, 0, tail), cells, 0, tail, head) ==
        cells[head..] + cells[..head] + seq(|empty| - |cells|, _ => none)
  {
    var tail := |cells| - head;
    var half := Pasted(empty, cells, head, 0, tail);
    assert half[..tail] == cells[head..];
    assert half[|cells|..] == seq(|empty| - |cells|, _ => none);
  }

  class RingBuffer<T> {
    const size: nat
    var head: usize
    var len: usize
    var cells: array<Option<T>>

    ghost function Model(): R.Ring<T>
      reads this, cells
    {
      R.Ring(head as int, len as int, cells[..])
    }

    ghost predicate Valid()
      reads this, cells
    {
      Model().Live() && cells.Length <= USIZE_MAX as int
    }

    constructor WithCapacity(cap: usize, size: nat)
      ensures Valid() && fresh(cells) && Model() == R.Fresh(cap as int) && this.size == size
    {
      this.size := size;
      head, len := 0, 0;
      cells := new Option<T>[cap](_ => None);
    }

    method Capacity() returns (cap: usize)
      requires Valid()
      ensures cap as int == |Model().cells|
    {
      cap := cells.Length as usize;
    }

    /** The lengths of the run up to the end of the array and of the run from its start. */
    method RunLengths() returns (front: usize, back: usize)
      requires Valid()
      ensures front as int == |Model().Front()| && back as int == |Model().Back()|
    {
      var room := cells.Length as usize - head;
      front := if len < room then len else room;
      back := len - front;
    }

    method AsSlices() returns (front: seq<Option<T>>, back: seq<Option<T>>)
      requires Valid()
      ensures |front + back| == |Model().Contents()|
      ensures forall i :: 0 <= i < |front + back| ==> (front + back)[i] == Some(Model().Contents()[i])
    {
      var n, m := RunLengths();
      front, back := cells[head..head + n], cells[..m];
      R.SlicesAreContents(Model());
    }

    /** Also lists what was dropped, in order. */
    method Clear() returns (dropped: seq<Option<T>>)
      requires Valid()
      modifies this`head, this`len
      ensures Valid() && Model() == old(Model()).Clear()
      ensures |dropped| == |old(Model()).Contents()|
      ensures forall i :: 0 <= i < |dropped| ==> dropped[i] == Some(old(Model()).Contents()[i])
    {
      var front, back := AsSlices();
      head, len := 0, 0;
      dropped := front + back;
    }

    /** Block copy of `n` cells between different arrays. */
    static method CopyNonoverlapping(source: array<Option<T>>, from: usize, target: array<Option<T>>, to: usize, n: usize)
      requires source != target
      requires from as int + n as int <= source.Length && to as int + n as int <= target.Length
      modifies target
      ensures target[..] == Pasted(old(target[..]), source[..], from as int, to as int, n as int)
    {
      forall i | 0 <= i < n as int {
        target[to as int + i] := source[from as int + i];
      }
    }

    /**
     A full ring grows to twice its size, and at least to 8 elements of one byte, 4 of up to 1024 bytes, or 1.
     Panics, leaving everything as it was, exactly if the ring is full and that many elements exceed
     a word or have more bytes than an allocation may have.
     */
    method Push(value: T) returns (panicked: bool)
      requires Valid()
      modifies this, cells
      ensures var cap, least := old(cells.Length), if size == 1 then 8 else if size <= 1024 then 4 else 1;
        var grown := if 2 * cap < least then least else 2 * cap;
        && (panicked <==>
             old(len) as int == cap && (grown > 0xFFFF_FFFF_FFFF_FFFF || grown * size > 0x7FFF_FFFF_FFFF_FFFF))
        && (!panicked ==> cells.Length == if old(len) as int == cap then grown else cap)
      ensures panicked ==> Model() == old(Model()) && cells == old(cells)
      ensures !panicked ==> Model() == old(Model()).Push(value, MinNonZeroCap(size) as int)
      ensures !panicked ==> Valid() && Model().Contents() == old(Model()).Contents() + [value]
      ensures cells == old(cells) || fresh(cells)
    {
      R.PushAppends(Model(), value, MinNonZeroCap(size) as int);
      var cap := cells.Length as usize;
      if len < cap {
        cells[RingIndex(head, len, cap)] := Some(value);
        len := len + 1;
        panicked := false;
      } else {
        var newCap := NewCap(cap, MinNonZeroCap(size));
        if newCap == None || newCap.value as nat * size > ISIZE_MAX {
          return true;
        }
        PushRotated(value, newCap.value, MinNonZeroCap(size) as int);
        panicked := false;
      }
    }

    /** Moves the elements of a full ring into a longer array and adds one. */
    method PushRotated(value: T, newCap: usize, ghost minCap: nat)
      requires Valid() && len as int == cells.Length
      requires minCap > 0 && newCap as int == R.NewCap(cells.Length, minCap)
      modifies this
      ensures Model() == old(Model()).Push(value, minCap) && fresh(cells)
    {
      var cap := cells.Length as usize;
      var newCells := Rotated(newCap);
      newCells[cap] := Some(value);
      assert newCells[..] == old(Model()).Push(value, minCap).cells;
      head, len := 0, cap + 1;
      cells := newCells;
    }

    /** A longer array that holds the cells of this one, from the head on and around the end. */
    method Rotated(newCap: usize) returns (newCells: array<Option<T>>)
      requires Valid() && cells.Length < newCap as int
      ensures fresh(newCells)
      ensures newCells[..] == cells[head..] + cells[..head] + seq(newCap as int - cells.Length, _ => None)
    {
      var cap := cells.Length as usize;
      newCells := new Option<T>[newCap](_ => None);
      ghost var empty := newCells[..];
      CopyNonoverlapping(cells, head, newCells, 0, cap - head);
      CopyNonoverlapping(cells, 0, newCells, cap - head, head);
      TwoCopies(cells[..], head as nat, empty, None);
    }

    method Pop() returns (result: Option<T>)
      requires Valid()
      modifies this`head, this`len
      ensures Valid() && (Model(), result) == old(Model()).Pop()
    {
      R.PopRemovesFirst(Model());
      if len == 0 {
        return None;
      }
      result := cells[head];
      R.AtIsRemainder(head as int, 1, cells.Length);
      head := (head + 1) % cells.Length as usize;
      len := len - 1;
    }
  }

  /** The draining iterator; it borrows the ring for as long as it lives. */
  class Drain<T> {
    const ring: RingBuffer<T>

    constructor (ring: RingBuffer<T>)
      ensures this.ring == ring
    {
      this.ring := ring;
    }

    method Next() returns (result: Option<T>)
      requires ring.Valid()
      modifies ring`head, ring`len
      ensures ring.Valid() && (ring.Model(), result) == old(ring.Model()).Pop()
    {
      R.PopRemovesFirst(ring.Model());
      if ring.len == 0 {
        return None;
      }
      var head := ring.head;
      R.AtIsRemainder(head as int, 1, ring.cells.Length);
      ring.head := (ring.head + 1) % ring.cells.Length as usize;
      ring.len := ring.len - 1;
      result := ring.cells[head];
    }

    /** Also lists what was dropped, in order. */
    method Nth(n: usize) returns (result: Option<T>, dropped: seq<Option<T>>)
      requires ring.Valid()
      modifies ring`head, ring`len
      ensures ring.Valid()
      ensures var (r, skipped, x) := old(ring.Model()).Nth(n as int);
        && ring.Model() == r && result == x
        && |dropped| == |skipped| && forall i :: 0 <= i < |dropped| ==> dropped[i] == Some(skipped[i])
    {
      R.NthIsNexts(ring.Model(), n as int);
      if n == 0 {
        result := Next();
        return result, [];
      }
      if ring.len <= n {
        dropped := ring.Clear();
        return None, dropped;
      }
      dropped := Skip(n);
      result := Next();
    }

    /** Moves the head over `n` elements and drops them: up to the end of the array, then from its start. */
    method Skip(n: usize) returns (dropped: seq<Option<T>>)
      requires ring.Valid() && 0 < n < ring.len
      modifies ring`head, ring`len
      ensures ring.Valid() && var m := old(ring.Model());
        ring.Model() == R.Ring(R.At(m.head, n as int, |m.cells|), m.len - n as int, m.cells)
      ensures |dropped| == n as int
      ensures forall i :: 0 <= i < |dropped| ==> dropped[i] == Some(old(ring.Model()).Contents()[i])
    {
      R.SkipContents(ring.Model(), n as int);
      var head, cap := ring.head, ring.cells.Length as usize;
      ring.head := RingIndex(head, n, cap);
      ring.len := ring.len - n;
      var frontN := if n < cap - head then n else cap - head;
      var backN := n - frontN;
      dropped := ring.cells[head..head + frontN] + ring.cells[..backN];
    }

    /** Dropping the iterator drops what is left. */
    method Drop() returns (dropped: seq<Option<T>>)
      requires ring.Valid()
      modifies ring`head, ring`len
      ensures ring.Valid() && ring.Model() == old(ring.Model()).Clear()
      ensures |dropped| == |old(ring.Model()).Contents()|
      ensures forall i :: 0 <= i < |dropped| ==> dropped[i] == Some(old(ring.Model()).Contents()[i])
    {
      dropped := ring.Clear();
    }
  }
}
