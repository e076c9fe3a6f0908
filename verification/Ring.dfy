/** The ring the two buffers of the CH32V003 port share; one slot always stays free
    (platform/ch32v003/bsp_ch32_uart.c:44-50, platform/ch32v003/ch32_callbacks.c:58-75). */
module Ring {
  import opened CInt

  datatype Ring<T> = Ring(slots: seq<T>, head: nat, tail: nat) {
    predicate Valid() { |slots| > 1 && head < |slots| && tail < |slots| }
  }

  function Next(i: nat, size: nat): nat
    requires size > 0
  {
    (i + 1) % size
  }

  lemma NextWraps(i: nat, size: nat)
    requires i < size
    ensures Next(i, size) == if i + 1 == size then 0 else i + 1
  {
    if i + 1 == size { DivModIs(i + 1, size, 1, 0); } else { DivModIs(i + 1, size, 0, i + 1); }
  }

  /** The stored elements, oldest first. */
  function Pending<T>(r: Ring<T>): seq<T>
    requires r.Valid()
  {
    if r.tail <= r.head then r.slots[r.tail..r.head] else r.slots[r.tail..] + r.slots[..r.head]
  }

  predicate Full<T>(r: Ring<T>)
    requires r.Valid()
  {
    Next(r.head, |r.slots|) == r.tail
  }

  function Push<T>(r: Ring<T>, x: T): Ring<T>
    requires r.Valid()
  {
    r.(slots := r.slots[r.head := x], head := Next(r.head, |r.slots|))
  }

  function Pop<T>(r: Ring<T>): Ring<T>
    requires r.Valid()
  {
    r.(tail := Next(r.tail, |r.slots|))
  }

  /** The ring refuses exactly when all slots but one are in use. */
  lemma FullMeansAllButOne<T>(r: Ring<T>)
    requires r.Valid()
    ensures Full(r) <==> |Pending(r)| == |r.slots| - 1
    ensures |Pending(r)| < |r.slots|
  {
    NextWraps(r.head, |r.slots|);
  }

  lemma PushAppends<T>(r: Ring<T>, x: T)
    requires r.Valid() && !Full(r)
    ensures Push(r, x).Valid() && Pending(Push(r, x)) == Pending(r) + [x]
  {
    NextWraps(r.head, |r.slots|);
  }

  lemma PopTakesOldest<T>(r: Ring<T>)
    requires r.Valid() && r.tail != r.head
    ensures Pop(r).Valid() && Pending(r) == [r.slots[r.tail]] + Pending(Pop(r))
  {
    NextWraps(r.tail, |r.slots|);
  }
}
