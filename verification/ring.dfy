/** The growable power-of-two ring behind both windows of a connection. A ring
    is reasoned about through its view from a starting number: the slots of
    start, start + 1, ... once around. */
module Rings {
  import opened Words

  datatype Option<+T> = None | Some(value: T)

  /** The sizes a ring takes: 16 doubled, up to what the largest index ever asked for needs. */
  predicate RingSize(n: int)
    ensures RingSize(n) ==> 16 <= n <= 2048
  {
    n == 16 || (16 < n <= 2048 && n % 2 == 0 && RingSize(n / 2))
  }

  lemma RingSizes(n: int)
    requires RingSize(n)
    ensures n in {16, 32, 64, 128, 256, 512, 1024, 2048}
    ensures n < 2048 ==> RingSize(2 * n)
  {
    if n != 16 {
      RingSizes(n / 2);
    }
  }

  /** The smallest doubling of `size` that has room for `index`. */
  function GrownSize(size: int, index: int): (n: int)
    requires size > 0
    ensures n > index && n >= size
    ensures index < size ==> n == size
    ensures index >= size ==> n <= 2 * index
    ensures RingSize(size) && index < 2048 ==> RingSize(n)
    decreases index - size
  {
    if index < size then size
    else
      assert RingSize(size) && index < 2048 ==> RingSize(2 * size) by {
        if RingSize(size) && index < 2048 { RingSizes(size); }
      }
      GrownSize(2 * size, index)
  }

  /** The slot of number i in a ring of n: `i & mask` for a power of two n. */
  function Slot(i: int, n: int): (r: nat)
    requires n > 0
    ensures r < n
    decreases i < 0, Abs(i)
  {
    if i < 0 then Slot(i + n, n) else if i < n then i else Slot(i - n, n)
  }

  lemma {:induction false} SlotIsMod(i: int, n: int)
    requires n > 0
    ensures Slot(i, n) == i % n
    decreases i < 0, Abs(i)
  {
    if i < 0 {
      SlotIsMod(i + n, n);
      ModPlus(i, n);
    } else if i >= n {
      SlotIsMod(i - n, n);
      ModPlus(i - n, n);
    } else {
      ModSmall(i, n);
    }
  }

  /** Inside one turn of the ring no two numbers share a slot. */
  lemma SlotInjective(i: int, j: int, n: int)
    requires n > 0 && -n < i - j < n
    ensures Slot(i, n) == Slot(j, n) <==> i == j
  {
    hide Slot;
    SlotIsMod(i, n);
    SlotIsMod(j, n);
    if i % n == j % n {
      if i <= j {
        ModInjective(i, j, n);
      } else {
        ModInjective(j, i, n);
      }
    }
  }

  /** The slot of a number, found from where the view starts. */
  lemma SlotShift(j: int, start: int, n: int)
    requires n > 0
    ensures Slot(start + Slot(j - start, n), n) == Slot(j, n)
  {
    hide Slot;
    var k := Slot(j - start, n);
    SlotIsMod(j - start, n);
    SlotIsMod(start + k, n);
    SlotIsMod(j, n);
    ModShift(start + k, (j - start) / n, n);
    assert start + k + ((j - start) / n) * n == j;
  }

  /** Numbers equal modulo 2^16 share a slot, because every ring size divides 2^16. */
  lemma SameSlot(a: int, b: int, n: int)
    requires RingSize(n) && U16(a) == U16(b)
    ensures Slot(a, n) == Slot(b, n)
  {
    SlotIsMod(a, n);
    SlotIsMod(b, n);
    RingSizes(n);
    var t := a / 0x1_0000 - b / 0x1_0000;
    assert a == b + 0x1_0000 * t;
    if n == 16 { ModShift(b, 4096 * t, n); }
    else if n == 32 { ModShift(b, 2048 * t, n); }
    else if n == 64 { ModShift(b, 1024 * t, n); }
    else if n == 128 { ModShift(b, 512 * t, n); }
    else if n == 256 { ModShift(b, 256 * t, n); }
    else if n == 512 { ModShift(b, 128 * t, n); }
    else if n == 1024 { ModShift(b, 64 * t, n); }
    else { ModShift(b, 32 * t, n); }
  }

  lemma SameSlotPlus(a: int, b: int, k: int, n: int)
    requires RingSize(n) && U16(a) == U16(b)
    ensures Slot(a + k, n) == Slot(b + k, n)
  {
    U16Plus(a, b, k);
    SameSlot(a + k, b + k, n);
  }

  function Nones<T>(n: nat): (s: seq<Option<T>>)
    ensures |s| == n && forall i :: 0 <= i < n ==> s[i] == None
  {
    seq(n, i => None)
  }

  /** A view grown to have room for index: nothing moves, empty slots follow. */
  function Padded<T>(p: seq<Option<T>>, index: int): (r: seq<Option<T>>)
    requires p != []
    ensures |r| == GrownSize(|p|, index)
    ensures forall k :: 0 <= k < |r| ==> r[k] == (if k < |p| then p[k] else None)
  {
    p + Nones(GrownSize(|p|, index) - |p|)
  }

  /** The first n slots met when walking the ring from `start`. */
  ghost function Walk<T>(s: seq<T>, start: int, n: nat): (r: seq<T>)
    requires |s| > 0
    ensures |r| == n
  {
    if n == 0 then [] else Walk(s, start, n - 1) + [s[Slot(start + n - 1, |s|)]]
  }

  ghost function Rotated<T>(s: seq<T>, start: int): (r: seq<T>)
    requires |s| > 0
    ensures |r| == |s|
  {
    Walk(s, start, |s|)
  }

  lemma {:induction false} WalkAt<T>(s: seq<T>, start: int, n: nat, k: nat)
    requires |s| > 0 && k < n
    ensures Walk(s, start, n)[k] == s[Slot(start + k, |s|)]
  {
    if k < n - 1 {
      WalkAt(s, start, n - 1, k);
    }
  }

  /** Reading: the slot of number i lies at i - start in the view. */
  lemma RotatedAt<T>(s: seq<T>, start: int, i: int)
    requires |s| > 0 && start <= i < start + |s|
    ensures Rotated(s, start)[i - start] == s[Slot(i, |s|)]
  {
    WalkAt(s, start, |s|, i - start);
  }

  lemma RotatedGet<T>(s: seq<T>, start: int, n: nat, k: nat)
    requires |s| == n && k < n
    ensures Rotated(s, start)[k] == s[Slot(start + k, n)]
  {
    RotatedAt(s, start, start + k);
  }

  /** Writing slot i writes position i - start of the view and no other: no aliasing inside one turn. */
  lemma RotatedPut<T>(s: seq<T>, start: int, i: int, v: T)
    requires |s| > 0 && start <= i < start + |s|
    ensures Rotated(s[Slot(i, |s|) := v], start) == Rotated(s, start)[i - start := v]
  {
    hide Slot, Rotated, Walk;
    var n, y := |s|, Slot(i, |s|);
    var t := s[y := v];
    forall k | 0 <= k < n
      ensures Rotated(t, start)[k] == Rotated(s, start)[i - start := v][k]
    {
      SlotInjective(start + k, i, n);
      RotatedGet(s, start, n, k);
      RotatedGet(t, start, n, k);
      assert t[Slot(start + k, n)] == if Slot(start + k, n) == y then v else s[Slot(start + k, n)];
    }
  }

  /** Moving the start by one rotates the view by one. */
  lemma RotatedNext<T>(s: seq<T>, start: int)
    requires |s| > 0
    ensures Rotated(s, start + 1) == Rotated(s, start)[1..] + [Rotated(s, start)[0]]
  {
    hide Slot, Rotated, Walk;
    var lhs, rhs := Rotated(s, start + 1), Rotated(s, start)[1..] + [Rotated(s, start)[0]];
    forall k | 0 <= k < |s|
      ensures lhs[k] == rhs[k]
    {
      RotatedAt(s, start + 1, start + 1 + k);
      if k < |s| - 1 {
        RotatedAt(s, start, start + 1 + k);
      } else {
        RotatedAt(s, start, start);
        SlotIsMod(start, |s|);
        SlotIsMod(start + |s|, |s|);
        ModPlus(start, |s|);
      }
    }
  }

  /** Views from numbers equal modulo 2^16 are the same view. */
  lemma SameView<T>(s: seq<T>, a: int, b: int)
    requires RingSize(|s|) && U16(a) == U16(b)
    ensures Rotated(s, a) == Rotated(s, b)
  {
    hide Slot, Rotated, Walk;
    forall k | 0 <= k < |s|
      ensures Rotated(s, a)[k] == Rotated(s, b)[k]
    {
      RotatedAt(s, a, a + k);
      RotatedAt(s, b, b + k);
      SameSlotPlus(a, b, k, |s|);
    }
  }

  class SizableCircularBuffer<T> {
    var elements: array<Option<T>>
    // the number the ring is currently viewed from, and the view
    ghost var start: int
    ghost var view: seq<Option<T>>

    ghost predicate Valid()
      reads this, elements
      ensures Valid() ==> |view| == elements.Length && RingSize(|view|)
    {
      RingSize(elements.Length) && |view| == elements.Length && view == Rotated(elements[..], start)
    }

    constructor (ghost from: int)
      ensures Valid() && fresh(elements)
      ensures start == from && view == Nones(16)
    {
      elements := new Option<T>[16](i => None);
      start, view := from, Nones(16);
      new;
      forall k | 0 <= k < 16
        ensures Rotated(elements[..], start)[k] == None
      {
        RotatedAt(elements[..], start, start + k);
      }
    }

    function Get(i: int): Option<T>
      requires elements.Length > 0
      reads this, elements
    {
      elements[Slot(i, elements.Length)]
    }

    /** A read through any number sharing the slot of i sees position i - start of the view. */
    lemma GetSlot(i: int, j: int)
      requires Valid() && start <= i < start + |view| && Slot(i, |view|) == Slot(j, |view|)
      ensures Get(j) == view[i - start]
    {
      RotatedAt(elements[..], start, i);
    }

    /** A read through any 16-bit representative of i sees position i - start of the view. */
    lemma GetAt(i: int, j: int)
      requires Valid() && start <= i < start + |view| && U16(i) == U16(j)
      ensures Get(j) == view[i - start] && Slot(i, |view|) == Slot(j, |view|)
    {
      SameSlot(i, j, elements.Length);
      RotatedAt(elements[..], start, i);
    }

    /** One number past the view the ring is back at its first position. */
    lemma GetWrapped(j: int)
      requires Valid() && U16(j) == U16(start + |view|)
      ensures Get(j) == view[0]
    {
      SameSlot(start + |view|, j, |view|);
      SlotIsMod(start + |view|, |view|);
      SlotIsMod(start, |view|);
      ModPlus(start, |view|);
      GetSlot(start, j);
    }

    /** The number just before the view shares its slot with the last one in it. */
    lemma GetBefore(j: int)
      requires Valid() && U16(j) == U16(start - 1)
      ensures Get(j) == view[|view| - 1]
    {
      hide Slot;
      var n := |view|;
      SameSlot(j, start - 1, n);
      SlotIsMod(start - 1, n);
      SlotIsMod(start - 1 + n, n);
      ModPlus(start - 1, n);
      GetSlot(start + n - 1, j);
    }

    /** Every slot is inside the view: a read through any number finds some position of it. */
    lemma GetAnywhere(j: int) returns (k: nat)
      requires Valid()
      ensures k < |view| && Get(j) == view[k] && Slot(start + k, |view|) == Slot(j, |view|)
      ensures k == Slot(j - start, |view|)
    {
      var n := elements.Length;
      k := Slot(j - start, n);
      SlotShift(j, start, n);
      RotatedAt(elements[..], start, start + k);
    }

    /** `put`, through any j that shares the slot of the number i. */
    method Put(ghost i: int, j: int, v: Option<T>)
      requires Valid() && start <= i < start + |view| && Slot(i, |view|) == Slot(j, |view|)
      modifies elements, this`view
      ensures Valid() && view == old(view)[i - start := v]
    {
      RotatedPut(elements[..], start, i, v);
      ghost var was := elements[..];
      elements[Slot(j, elements.Length)] := v;
      assert elements[..] == was[Slot(i, elements.Length) := v];
      view := view[i - start := v];
    }

    /** Look at the ring from the next number on. */
    ghost method Advance()
      requires Valid()
      modifies this`start, this`view
      ensures Valid() && start == old(start) + 1 && view == old(view)[1..] + [old(view)[0]]
    {
      RotatedNext(elements[..], start);
      start, view := start + 1, view[1..] + [view[0]];
    }

    /** Empty the first position, through a 16-bit representative of its number, and move on by one. */
    method TakeFirst(j: int) returns (v: Option<T>)
      requires Valid() && U16(j) == U16(start)
      modifies elements, this`view, this`start
      ensures Valid() && start == old(start) + 1
      ensures v == old(view)[0] && view == old(view)[1..] + [None]
    {
      GetAt(start, j);
      v := Get(j);
      Put(start, j, None);
      Advance();
    }

    /** Look at an empty ring from any number. */
    ghost method Recentre(from: int)
      requires Valid() && forall k :: 0 <= k < |view| ==> view[k] == None
      modifies this`start
      ensures Valid() && start == from
    {
      forall k | 0 <= k < |view|
        ensures Rotated(elements[..], from)[k] == None
      {
        RotatedAt(elements[..], from, from + k);
        var m := GetAnywhere(from + k);
      }
      start := from;
    }

    /** `ensure_size`: grow around `item - index`, so that the old turn keeps its place in the view. */
    method EnsureSize(item: int, index: nat)
      requires Valid() && index < 2048 && U16(start) == U16(item - index)
      modifies this`elements, this`view
      ensures Valid() && (elements == old(elements) || fresh(elements))
      ensures view == old(view) + Nones(GrownSize(|old(view)|, index) - |old(view)|)
    {
      if index > elements.Length - 1 {
        Grow(item, index);
      } else {
        assert view == view + Nones(0);
      }
    }

    method Grow(item: int, index: nat)
      requires Valid() && elements.Length <= index < 2048 && U16(start) == U16(item - index)
      modifies this`elements, this`view
      ensures Valid() && fresh(elements)
      ensures view == old(view) + Nones(GrownSize(|old(view)|, index) - |old(view)|)
    {
      var size := elements.Length * 2;
      while index >= size
        invariant GrownSize(elements.Length, index) == GrownSize(size, index)
        invariant size > 0
        decreases index - size
      {
        size := size * 2;
      }
      var from := item - index;
      var buf := Rehomed(elements, size, from);
      SameView(buf[..], start, from);
      SameView(elements[..], start, from);
      elements := buf;
      view := view + Nones(size - |view|);
    }
  }

  /** The copying loop of `grow`. */
  method Rehomed<T>(a: array<Option<T>>, size: nat, from: int) returns (buf: array<Option<T>>)
    requires 0 < a.Length <= size
    ensures fresh(buf) && buf.Length == size
    ensures Rotated(buf[..], from) == Rotated(a[..], from) + Nones(size - a.Length)
  {
    buf := new Option<T>[size](i => None);
    ghost var turn := Rotated(a[..], from);
    ghost var whole := turn + Nones(size - a.Length);
    forall k | 0 <= k < size
      ensures Rotated(buf[..], from)[k] == None
    {
      RotatedAt(buf[..], from, from + k);
    }
    for i := 0 to a.Length
      invariant fresh(buf) && a[..] == old(a[..])
      invariant forall k :: 0 <= k < i ==> Rotated(buf[..], from)[k] == turn[k]
      invariant forall k :: i <= k < size ==> Rotated(buf[..], from)[k] == None
    {
      RotatedAt(a[..], from, from + i);
      RotatedPut(buf[..], from, from + i, turn[i]);
      ghost var before := buf[..];
      buf[Slot(from + i, size)] := a[Slot(from + i, a.Length)];
      assert buf[..] == before[Slot(from + i, size) := turn[i]];
    }
    assert Rotated(buf[..], from) == whole;
  }
}
