/** The UART receiver: an interrupt handler fills the ring while the main loop reads it
    (platform/ch32v003/bsp_ch32_uart.c:24-55, 98-109). */
module UartRx {
  import opened CInt
  import opened Seqs
  import opened Ring

  const RING_SIZE: nat := 64

  /** Where the main loop is inside bsp_ch32_uart_getc; the interrupt may strike at any of these points. */
  datatype Point = Outside | NotEmpty | Holding(byte: u8)

  datatype State = State(ring: Ring<u8>, point: Point, accepted: seq<u8>, popped: seq<u8>)

  /** One atomic step: a byte handled by the interrupt, or one statement of the consumer. */
  datatype Step = Interrupt(byte: u8, lineError: bool) | TestEmpty | ReadSlot | AdvanceTail

  function Start(slots: seq<u8>): State
    requires |slots| == RING_SIZE
  {
    State(Ring(slots, 0, 0), Outside, [], [])
  }

  /** A consumer step that is not the next statement leaves the state alone. */
  function Apply(s: State, step: Step): State
    requires s.ring.Valid()
  {
    match step
    case Interrupt(b, lineError) =>
      if lineError || Full(s.ring) then s
      else s.(ring := Push(s.ring, b), accepted := s.accepted + [b])
    case TestEmpty =>
      if s.point == Outside && s.ring.tail != s.ring.head then s.(point := NotEmpty) else s
    case ReadSlot =>
      if s.point == NotEmpty then s.(point := Holding(s.ring.slots[s.ring.tail])) else s
    case AdvanceTail =>
      if s.point.Holding? then s.(ring := Pop(s.ring), point := Outside, popped := s.popped + [s.point.byte]) else s
  }

  /** Holds between any two steps: what was accepted is what was popped plus what is stored, and a
      consumer past its emptiness test still sees the byte it will return. */
  predicate Inv(s: State) {
    s.ring.Valid() && |s.ring.slots| == RING_SIZE &&
    s.accepted == s.popped + Pending(s.ring) &&
    (s.point != Outside ==> s.ring.tail != s.ring.head) &&
    (s.point.Holding? ==> s.point.byte == s.ring.slots[s.ring.tail])
  }

  lemma InterruptKeepsInv(s: State, b: u8, lineError: bool)
    requires Inv(s)
    ensures Inv(Apply(s, Interrupt(b, lineError)))
  {
    if !lineError && !Full(s.ring) {
      NextWraps(s.ring.head, RING_SIZE);
      PushAppends(s.ring, b);
      Regroup(s.popped, Pending(s.ring), [b]);
    }
  }

  lemma AdvanceKeepsInv(s: State)
    requires Inv(s)
    ensures Inv(Apply(s, AdvanceTail))
  {
    if s.point.Holding? {
      PopTakesOldest(s.ring);
      Regroup(s.popped, [s.point.byte], Pending(Pop(s.ring)));
    }
  }

  lemma StepKeepsInv(s: State, step: Step)
    requires Inv(s)
    ensures Inv(Apply(s, step))
  {
    match step
    case Interrupt(b, lineError) => InterruptKeepsInv(s, b, lineError);
    case AdvanceTail => AdvanceKeepsInv(s);
    case _ =>
  }

  ghost function Run(slots: seq<u8>, steps: seq<Step>): (s: State)
    requires |slots| == RING_SIZE
    ensures Inv(s)
  {
    if |steps| == 0 then Start(slots)
    else
      var k := |steps| - 1;
      StepKeepsInv(Run(slots, steps[..k]), steps[k]);
      Apply(Run(slots, steps[..k]), steps[k])
  }

  /** However interrupts fall between consumer steps, the bytes handed out are a prefix of the bytes
      accepted, in order, and at most 63 are waiting. */
  lemma PoppedIsPrefix(slots: seq<u8>, steps: seq<Step>)
    requires |slots| == RING_SIZE
    ensures var s := Run(slots, steps);
            s.popped <= s.accepted && |s.accepted| - |s.popped| < RING_SIZE
  {
    FullMeansAllButOne(Run(slots, steps).ring);
  }

  /** A byte is lost only to a line error or to 63 bytes already waiting; otherwise it is accepted last. */
  lemma LostOnlyIfFullOrCorrupt(slots: seq<u8>, steps: seq<Step>, b: u8, lineError: bool)
    requires |slots| == RING_SIZE
    ensures var (s, t) := (Run(slots, steps), Run(slots, steps + [Interrupt(b, lineError)]));
            t.accepted == if lineError || |s.accepted| - |s.popped| == RING_SIZE - 1
                          then s.accepted else s.accepted + [b]
  {
    assert (steps + [Interrupt(b, lineError)])[..|steps|] == steps;
    FullMeansAllButOne(Run(slots, steps).ring);
  }

  /** An uninterrupted getc returns the oldest byte, or nothing when none is stored. */
  lemma GetcTakesOldest(s: State)
    requires Inv(s) && s.point == Outside
    ensures var t := Apply(Apply(Apply(s, TestEmpty), ReadSlot), AdvanceTail);
            if Pending(s.ring) == [] then t == s
            else t.popped == s.popped + [Pending(s.ring)[0]] && Pending(t.ring) == Pending(s.ring)[1..]
  {
    if s.ring.tail != s.ring.head { PopTakesOldest(s.ring); }
  }

  /** The receiver's memory, as the interrupt handler and getc update it. */
  class Receiver {
    const slots: array<u8>
    var head: nat
    var tail: nat

    ghost predicate Valid() reads this, slots {
      slots.Length == RING_SIZE && head < RING_SIZE && tail < RING_SIZE
    }

    ghost function View(): Ring<u8>
      reads this, slots
    {
      Ring(slots[..], head, tail)
    }

    constructor ()
      ensures Valid() && Pending(View()) == [] && fresh(slots)
    {
      slots := new u8[RING_SIZE];
      head, tail := 0, 0;
    }

    /** One byte taken from the receive register by the interrupt handler. */
    method HandleByte(b: u8, lineError: bool)
      requires Valid()
      modifies this`head, slots
      ensures Valid()
      ensures View() == if lineError || Full(old(View())) then old(View()) else Push(old(View()), b)
    {
      if lineError { return; }
      var next := Next(head, RING_SIZE);
      if next != tail {
        slots[head] := b;
        head := next;
      }
    }

    method Getc() returns (r: int)
      requires Valid()
      modifies this`tail
      ensures Valid()
      ensures var was := Pending(old(View()));
              if was == [] then r == -1 && View() == old(View())
              else r == was[0] && Pending(View()) == was[1..]
    {
      if tail == head { return -1; }
      PopTakesOldest(View());
      r := slots[tail];
      tail := Next(tail, RING_SIZE);
    }
  }
}
