/** TCP hands over the stream in arbitrary pieces; both receive loops collect pieces in a buffer until the
last four bytes are a terminator word. */
module Reassembly {
  import opened Wire
  import opened Dataref
  import opened Buffers

  function Join(chunks: seq<seq<byte>>): seq<byte> {
    if chunks == [] then [] else chunks[0] + Join(chunks[1..])
  }

  /** The first m pieces. */
  function Upto(chunks: seq<seq<byte>>, m: nat): seq<byte>
    requires m <= |chunks|
  {
    Join(chunks[..m])
  }

  /** The test after each recv. With fewer than four bytes there is no last word. */
  predicate Terminated(b: seq<byte>) {
    |b| >= 4 && (ReadWord(b[|b| - 4..]) == MARK_EOT || ReadWord(b[|b| - 4..]) == MARK_DISCONNECT)
  }

  /** There is no room left: the next recv asks for nothing, gets nothing, and that reads as a lost
      connection. */
  predicate Full(b: seq<byte>) { |b| >= TCPBUFSIZE }

  /** How many of the results of recv one call takes, when m of them have not ended it. */
  function Taken(chunks: seq<seq<byte>>, m: nat): (k: nat)
    requires m <= |chunks|
    ensures m <= k <= |chunks| && (m < |chunks| ==> m < k)
    decreases |chunks| - m
  {
    if m == |chunks| then m
    else if Terminated(Upto(chunks, m + 1)) || Full(Upto(chunks, m + 1)) then m + 1
    else Taken(chunks, m + 1)
  }

  /** What the first call collects. */
  function First(chunks: seq<seq<byte>>): seq<byte> { Upto(chunks, Taken(chunks, 0)) }

  /** The buffer fills up without a terminator at its end. */
  predicate Overrun(chunks: seq<seq<byte>>) { Full(First(chunks)) && !Terminated(First(chunks)) }

  /** The results of recv, call by call: none is empty, and none exceeds the room left. */
  predicate Received(chunks: seq<seq<byte>>)
    decreases |chunks|
  {
    && (forall k :: 0 <= k < |chunks| ==> chunks[k] != [])
    && (chunks != [] ==> |First(chunks)| <= TCPBUFSIZE && Received(chunks[Taken(chunks, 0)..]))
  }

  /** The receive loop: recv once more until the buffer ends with a terminator. If it is full before, the
      recv of nothing is taken for a lost connection, and what was collected is dropped. */
  method Collect(buf: array<byte>, chunks: seq<seq<byte>>) returns (n: nat, k: nat, lost: bool)
    requires buf.Length == TCPBUFSIZE && |First(chunks)| <= TCPBUFSIZE
    modifies buf
    ensures k == Taken(chunks, 0) && n <= buf.Length && (lost <==> Overrun(chunks))
    ensures if lost then n == 0 else buf[..n] == First(chunks)
    ensures chunks != [] && !lost ==> k > 0 && (Terminated(buf[..n]) || k == |chunks|)
    ensures forall m :: 0 < m < k ==> !Terminated(Upto(chunks, m)) && !Full(Upto(chunks, m))
  {
    n, k, lost := 0, 0, false;
    TakenStops(chunks, 0);
    var done := false;
    while !done && !lost && (k < |chunks| || n == TCPBUFSIZE)
      invariant k <= |chunks| && n <= TCPBUFSIZE
      invariant lost ==> n == 0 && !done && k == Taken(chunks, 0) && Overrun(chunks)
      invariant !lost ==> buf[..n] == Upto(chunks, k)
      invariant done ==> Terminated(buf[..n]) && k == Taken(chunks, 0)
      invariant !done && !lost && n < TCPBUFSIZE ==> Taken(chunks, 0) == Taken(chunks, k)
      invariant !done && !lost && n == TCPBUFSIZE ==> k == Taken(chunks, 0) && !Terminated(buf[..n])
      decreases |chunks| - k, if lost then 0 else 1
    {
      var room := TCPBUFSIZE - n;
      if room == 0 {
        lost, n := true, 0;
      } else {
        JoinExtend(chunks, k);
        JoinFits(chunks, k);
        n := Put(buf, n, chunks[k]);
        k := k + 1;
        done := Terminated(buf[..n]);
      }
    }
  }

  /** Within a call each result fits the buffer behind those before it. */
  lemma {:induction false} JoinFits(chunks: seq<seq<byte>>, k: nat)
    requires k < |chunks| && Taken(chunks, 0) == Taken(chunks, k) && |First(chunks)| <= TCPBUFSIZE
    ensures |Upto(chunks, k + 1)| <= TCPBUFSIZE
  {
    JoinGrows(chunks, k + 1, Taken(chunks, 0));
  }

  lemma {:induction false} JoinGrows(chunks: seq<seq<byte>>, k: nat, m: nat)
    requires k <= m <= |chunks|
    ensures |Upto(chunks, k)| <= |Upto(chunks, m)|
    decreases m - k
  {
    if k < m {
      JoinExtend(chunks, m - 1);
      JoinGrows(chunks, k, m - 1);
    }
  }

  lemma {:induction false} JoinAppend(a: seq<seq<byte>>, b: seq<seq<byte>>)
    ensures Join(a + b) == Join(a) + Join(b)
  {
    if a == [] {
      assert a + b == b;
    } else {
      assert (a + b)[1..] == a[1..] + b;
      JoinAppend(a[1..], b);
      assert Join(a + b) == a[0] + (Join(a[1..]) + Join(b));
    }
  }

  lemma JoinExtend(chunks: seq<seq<byte>>, k: nat)
    requires k < |chunks|
    ensures Upto(chunks, k + 1) == Upto(chunks, k) + chunks[k]
  {
    assert chunks[..k + 1] == chunks[..k] + [chunks[k]];
    JoinAppend(chunks[..k], [chunks[k]]);
    assert chunks[k] + [] == chunks[k];
  }

  lemma JoinCut(chunks: seq<seq<byte>>, k: nat)
    requires k <= |chunks|
    ensures Join(chunks) == Upto(chunks, k) + Join(chunks[k..])
    ensures Upto(chunks, |chunks|) == Join(chunks)
  {
    assert chunks[..|chunks|] == chunks;
    assert chunks == chunks[..k] + chunks[k..];
    JoinAppend(chunks[..k], chunks[k..]);
  }

  /** The loop stops behind the first result that leaves a terminator at the end or fills the buffer. */
  lemma {:induction false} TakenStops(chunks: seq<seq<byte>>, m: nat)
    requires m <= |chunks|
    ensures forall n :: m < n < Taken(chunks, m) ==> !Terminated(Upto(chunks, n)) && !Full(Upto(chunks, n))
    ensures Taken(chunks, m) < |chunks| ==> Terminated(Upto(chunks, Taken(chunks, m))) || Full(Upto(chunks, Taken(chunks, m)))
    decreases |chunks| - m
  {
    if m < |chunks| && !Terminated(Upto(chunks, m + 1)) && !Full(Upto(chunks, m + 1)) {
      TakenStops(chunks, m + 1);
    }
  }

  lemma Stopped(chunks: seq<seq<byte>>)
    requires Received(chunks) && Taken(chunks, 0) < |chunks| && |Join(chunks)| <= TCPBUFSIZE
    ensures Taken(chunks, 0) > 0 && Terminated(First(chunks))
  {
    var k := Taken(chunks, 0);
    TakenStops(chunks, 0);
    JoinExtend(chunks, k);
    JoinGrows(chunks, k + 1, |chunks|);
    JoinCut(chunks, |chunks|);
  }

  lemma Alone(chunks: seq<seq<byte>>, m: nat)
    requires 0 < m < Taken(chunks, 0)
    ensures !Terminated(Upto(chunks, m))
  {
    TakenStops(chunks, 0);
  }

  /** A transmission arrives whole in one call, exactly if it fits the buffer and no earlier cut falls
      behind four bytes that look like a terminator. */
  lemma OneTransmission(chunks: seq<seq<byte>>)
    requires Received(chunks) && chunks != [] && Terminated(Join(chunks))
    ensures Taken(chunks, 0) == |chunks| && !Overrun(chunks)
       <==> |Join(chunks)| <= TCPBUFSIZE && forall m :: 0 < m < |chunks| ==> !Terminated(Upto(chunks, m))
  {
    JoinCut(chunks, |chunks|);
    if Taken(chunks, 0) < |chunks| {
      if |Join(chunks)| <= TCPBUFSIZE { Stopped(chunks); }
    } else {
      forall m | 0 < m < |chunks|
        ensures !Terminated(Upto(chunks, m))
      {
        Alone(chunks, m);
      }
    }
  }
}
