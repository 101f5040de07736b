/** The receive buffers between a reader thread and the main loop (hidapi_interface.c, handleudp.c,
libarduino.c). Each side tests the fill level before it takes the lock; only the copying is inside. */
module Spsc {
  import opened Wire

  // ---------- the buffer ----------

  class Buffer {
    const data: array<byte>
    var left: nat

    ghost predicate Valid()
      reads this
    {
      left <= data.Length
    }

    ghost function Contents(): seq<byte>
      reads this, data
      requires Valid()
    {
      data[..left]
    }

    constructor (capacity: nat)
      ensures Valid() && data.Length == capacity && Contents() == [] && fresh(data)
    {
      data := new byte[capacity](_ => 0);
      left := 0;
    }

    /** The reader thread's critical section. */
    method Append(packet: seq<byte>)
      requires Valid() && left + |packet| <= data.Length
      modifies this, data
      ensures Valid() && Contents() == old(Contents()) + packet
    {
      var k := 0;
      while k < |packet|
        invariant k <= |packet| && left == old(left)
        invariant data[..left + k] == old(data[..left]) + packet[..k]
      {
        data[left + k] := packet[k];
        k := k + 1;
      }
      left := left + |packet|;
    }

    /** The main loop's critical section: copy out the head, move the rest to the front. */
    method Take(size: nat) returns (bytes: seq<byte>)
      requires Valid() && size <= left
      modifies this, data
      ensures Valid() && old(Contents()) == bytes + Contents() && |bytes| == size
    {
      bytes := data[..size];
      var k := 0;
      while k < left - size
        invariant k <= left - size && left == old(left)
        invariant forall j :: 0 <= j < k ==> data[j] == old(data[size + j])
        invariant forall j :: k <= j < left ==> data[j] == old(data[j])
      {
        data[k] := data[size + k];
        k := k + 1;
      }
      left := left - size;
      assert data[..left] == old(data[size..left]);
    }
  }

  // ---------- both threads ----------

  /** A HID device delivers reports of one size; the UDP socket delivers packets of any size, read by
      messages. */
  datatype Config = Config(capacity: nat, size: Positive, reports: bool)

  type Positive = n: nat | n > 0 witness 1

  /** n bytes are whole messages. */
  predicate Whole(n: nat, size: Positive) {
    n == 0 || (n >= size && Whole(n - size, size))
  }

  datatype Reader = Polling | Fitting(packet: seq<byte>)
  datatype Main = Looping | Reading

  /** buffer is what lies in the buffer; accepted and consumed record what went in and came out. */
  datatype State = State(buffer: seq<byte>, reader: Reader, main: Main, accepted: seq<byte>, consumed: seq<byte>)

  const START := State([], Polling, Looping, [], [])

  datatype Step =
      // the reader thread has got a packet and tests whether it fits
    | Arrive(packet: seq<byte>)
      // it takes the lock and appends
    | Put
      // the main loop tests whether there is something to read
    | Test
      // it takes the lock and removes one message
    | Get

  /** The main loop's test: anything at all for reports, a whole message for packets. */
  predicate Ready(c: Config, n: nat) { if c.reports then n > 0 else n >= c.size }

  function Next(c: Config, s: State, step: Step): State {
    match step
    case Arrive(packet) =>
      if s.reader.Polling? && (c.reports ==> |packet| == c.size) && |s.buffer| + |packet| <= c.capacity then
        s.(reader := Fitting(packet))
      else s
    case Put =>
      if s.reader.Fitting? then
        s.(reader := Polling, buffer := s.buffer + s.reader.packet, accepted := s.accepted + s.reader.packet)
      else s
    case Test =>
      if s.main.Looping? && Ready(c, |s.buffer|) then s.(main := Reading) else s
    case Get =>
      if s.main.Reading? then
        var n := if c.size <= |s.buffer| then c.size else |s.buffer|;
        s.(main := Looping, buffer := s.buffer[n..], consumed := s.consumed + s.buffer[..n])
      else s
  }

  function Run(c: Config, s: State, steps: seq<Step>): State
    decreases |steps|
  {
    if steps == [] then s else Run(c, Next(c, s, steps[0]), steps[1..])
  }

  /** What was tested outside the lock still holds inside it, and nothing is lost, doubled or swapped. */
  predicate Inv(c: Config, s: State) {
    && |s.buffer| <= c.capacity
    && (s.reader.Fitting? ==> |s.buffer| + |s.reader.packet| <= c.capacity && (c.reports ==> |s.reader.packet| == c.size))
    && (s.main.Reading? ==> c.size <= |s.buffer|)
    && (c.reports ==> Whole(|s.buffer|, c.size))
    && Whole(|s.consumed|, c.size)
    && s.consumed + s.buffer == s.accepted
  }

  lemma NextKeepsInv(c: Config, s: State, step: Step)
    requires Inv(c, s)
    ensures Inv(c, Next(c, s, step))
  {
    match step
    case Put =>
      if s.reader.Fitting? {
        Regroup(s.consumed, s.buffer, s.reader.packet);
      }
    case Get =>
      if s.main.Reading? {
        assert s.buffer == s.buffer[..c.size] + s.buffer[c.size..];
        Regroup(s.consumed, s.buffer[..c.size], s.buffer[c.size..]);
      }
    case _ =>
  }

  /** Under every interleaving the fill level stays within the buffer, whole messages come out, and what
      came out followed by what is buffered is what went in. */
  lemma {:induction false} EveryInterleaving(c: Config, s: State, steps: seq<Step>)
    requires Inv(c, s)
    ensures Inv(c, Run(c, s, steps))
    decreases |steps|
  {
    if steps != [] {
      NextKeepsInv(c, s, steps[0]);
      EveryInterleaving(c, Next(c, s, steps[0]), steps[1..]);
    }
  }

  lemma FromTheStart(c: Config, steps: seq<Step>)
    ensures var s := Run(c, START, steps);
      && |s.buffer| <= c.capacity && s.consumed + s.buffer == s.accepted && Whole(|s.consumed|, c.size)
      && (c.reports ==> Whole(|s.buffer|, c.size))
  {
    EveryInterleaving(c, START, steps);
  }

  /** Testing for anything at all is enough only because reports have one size: on packets of other sizes
      a whole message might not be there. */
  lemma ReportsMustHaveOneSize(c: Config, packet: seq<byte>)
    requires c.size > 1 && c.capacity >= |packet| && 0 < |packet| < c.size && !c.reports
    ensures var s := Next(c, Next(c, START, Arrive(packet)), Put);
      |s.buffer| > 0 && !Ready(c, |s.buffer|) && Ready(c.(reports := true), |s.buffer|)
  {
  }
}
