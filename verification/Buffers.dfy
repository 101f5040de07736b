/** memcpy and its kin between byte buffers and values. */
module Buffers {
  import opened Wire
  import opened Dataref

  /** memcpy into the buffer; end is the position behind what was written. */
  method Put(buf: array<byte>, at: nat, bytes: seq<byte>) returns (end: nat)
    requires at + |bytes| <= buf.Length
    modifies buf
    ensures end == at + |bytes| && buf[..end] == old(buf[..at]) + bytes
  {
    end := at;
    while end < at + |bytes|
      invariant at <= end <= at + |bytes|
      invariant buf[..end] == old(buf[..at]) + bytes[..end - at]
    {
      buf[end] := bytes[end - at];
      end := end + 1;
    }
  }

  method PutWord(buf: array<byte>, at: nat, v: int) returns (end: nat)
    requires at + 4 <= buf.Length && IsInt32(v)
    modifies buf
    ensures end == at + 4 && buf[..end] == old(buf[..at]) + Word(v)
  {
    end := Put(buf, at, Word(v));
  }

  /** A first word and a name, as confirmations and unlink requests have them. */
  method PutText(buf: array<byte>, at: nat, first: int, text: Name) returns (end: nat)
    requires at + 104 <= buf.Length && IsInt32(first) && WfName(text)
    modifies buf
    ensures end == at + 104 && buf[..end] == old(buf[..at]) + (Word(first) + Pad(text))
  {
    end := PutWord(buf, at, first);
    end := Put(buf, end, Pad(text));
    Regroup(old(buf[..at]), Word(first), Pad(text));
  }

  method PutData(buf: array<byte>, at: nat, i: nat, ty: int, vals: seq<nat>) returns (end: nat)
    requires i < MAX_OFFSETS && WfVals(ty, |vals|, vals)
    requires at + Size(Data(i, ty, vals)) <= buf.Length
    modifies buf
    ensures end == at + Size(Data(i, ty, vals)) && buf[..end] == old(buf[..at]) + Bytes(Data(i, ty, vals))
  {
    end := PutWord(buf, at, MARK_DATA + i);
    end := Put(buf, end, EncodeVals(vals, Width(ty)));
    Regroup(old(buf[..at]), Word(MARK_DATA + i), EncodeVals(vals, Width(ty)));
  }

  // ---------- the frames of one call ----------

  /** What a turn of a send loop adds to the buffer. */
  function Added(o: Option<Frame>): seq<byte>
    requires o.Some? ==> WfFrame(o.value)
  {
    if o.None? then [] else Bytes(o.value)
  }

  lemma AppendTurn(fs: seq<Frame>, o: Option<Frame>)
    requires WfFrames(fs) && (o.Some? ==> WfFrame(o.value))
    ensures WfFrames(fs + Opt(o)) && EncodeAll(fs + Opt(o)) == EncodeAll(fs) + Added(o)
    ensures SizeAll(fs + Opt(o)) == SizeAll(fs) + |Added(o)|
  {
    EncodeAppend(fs, Opt(o));
    if o.None? {
      assert fs + [] == fs;
    } else {
      assert (fs + Opt(o))[..|fs|] == fs;
      assert EncodeAll([o.value][1..]) == [];
      BytesSize(o.value);
    }
  }

  /** What the socket gets for the frames of one call. */
  function Sent(fs: seq<Frame>): seq<byte>
    requires WfFrames(fs)
  {
    if fs == [] then [] else Transmission(fs)
  }

  /** The end word fits the send buffer behind the frames. */
  predicate EndFits(fs: seq<Frame>) { SizeAll(fs) + 4 <= TCPBUFSIZE }

  /** What a send loop leaves in its buffer: the transmission, but for the end word if that does not fit. */
  function Buffered(fs: seq<Frame>): seq<byte>
    requires WfFrames(fs)
  {
    if EndFits(fs) then Sent(fs) else EncodeAll(fs)
  }

  lemma {:induction false} DecodedFit(bs: seq<byte>, n: nat, w: nat)
    requires |bs| == n * w
    ensures forall j :: 0 <= j < n ==> DecodeVals(bs, n, w)[j] < Pow256(w)
  {
    if n != 0 {
      assert n * w == w + (n - 1) * w;
      UnLeRange(bs[..w]);
      DecodedFit(bs[w..], n - 1, w);
    }
  }

  lemma DecodeStep(bs: seq<byte>, n: nat, w: nat)
    requires |bs| == n * w && n > 0
    ensures n * w == w + (n - 1) * w
    ensures DecodeVals(bs, n, w) == [UnLe(bs[..w])] + DecodeVals(bs[w..], n - 1, w)
  {
    assert n * w == w + (n - 1) * w;
  }

  /** The elements of a data frame. */
  method ReadVals(buf: array<byte>, at: nat, count: nat, w: nat) returns (vals: seq<nat>)
    requires at + count * w <= buf.Length
    ensures vals == DecodeVals(buf[at..at + count * w], count, w)
  {
    var end := at + count * w;
    ghost var all := DecodeVals(buf[at..end], count, w);
    vals := [];
    var j, p := count, at;
    while j > 0
      invariant 0 <= j <= count && at <= p <= end && end - p == j * w
      invariant vals + DecodeVals(buf[p..end], j, w) == all
    {
      DecodeStep(buf[p..end], j, w);
      assert buf[p..end][..w] == buf[p..p + w] && buf[p..end][w..] == buf[p + w..end];
      vals := vals + [UnLe(buf[p..p + w])];
      p := p + w;
      j := j - 1;
    }
  }

  lemma SubSlice(b: seq<byte>, at: nat, n: nat, lo: nat, hi: nat)
    requires at + hi <= n <= |b| && lo <= hi
    ensures b[at..n][lo..hi] == b[at + lo..at + hi]
  {
    var x, y := b[at..n][lo..hi], b[at + lo..at + hi];
    assert forall k :: 0 <= k < hi - lo ==> x[k] == b[at + lo + k] && y[k] == b[at + lo + k];
    assert x == y;
  }
}
