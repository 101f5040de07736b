/** The byte stream between libxpcockpit and the xpserver plugin.

A transmission is a run of frames closed by the end-of-transmission word. Only the first word of a
frame says what it is; the length of a data frame is known from the receiver's own table alone, so
every decoding function here takes the shape of that table. */
module Wire {

  type byte = x: int | 0 <= x < 256

  /** The contents of a C string, without its terminating zero. */
  type Name = seq<byte>

  const MARK_DATA := 1000000
  const MARK_LINK := 2000000
  const MARK_UNLINK := 3000000
  const MARK_EOT := 4000000
  const MARK_DISCONNECT := 5000000
  const MAX_OFFSETS := 1000000
  const TCPBUFSIZE := 1000000
  const NAME_SIZE := 100
  const INT_MISS := -2000000000

  const XPTYPE_UNKNOWN := 0
  const XPTYPE_INT := 1
  const XPTYPE_FLT := 2
  const XPTYPE_DBL := 4
  const XPTYPE_FLT_ARR := 8
  const XPTYPE_INT_ARR := 16
  const XPTYPE_BYTE_ARR := 32
  const XPTYPE_CMD_ONCE := 64
  const XPTYPE_CMD_HOLD := 128

  predicate Known(ty: int) {
    || ty == XPTYPE_INT || ty == XPTYPE_FLT || ty == XPTYPE_DBL || ty == XPTYPE_FLT_ARR
    || ty == XPTYPE_INT_ARR || ty == XPTYPE_BYTE_ARR || ty == XPTYPE_CMD_ONCE || ty == XPTYPE_CMD_HOLD
  }

  /** Bytes of one element on the wire; an unknown type has no payload at all. */
  function Width(ty: int): nat {
    if ty == XPTYPE_DBL then 8
    else if ty == XPTYPE_BYTE_ARR then 1
    else if Known(ty) then 4
    else 0
  }

  predicate IsInt32(v: int) { -0x8000_0000 <= v < 0x8000_0000 }

  // ---------- little-endian numbers ----------

  function Pow256(w: nat): nat {
    if w == 0 then 1 else 256 * Pow256(w - 1)
  }

  function Le(code: nat, w: nat): (bs: seq<byte>)
    ensures |bs| == w
  {
    if w == 0 then [] else [code % 256] + Le(code / 256, w - 1)
  }

  function UnLe(bs: seq<byte>): nat {
    if bs == [] then 0 else bs[0] + 256 * UnLe(bs[1..])
  }

  lemma {:induction false} LeRoundTrip(code: nat, w: nat)
    requires code < Pow256(w)
    ensures UnLe(Le(code, w)) == code
  {
    if w != 0 {
      LeRoundTrip(code / 256, w - 1);
      assert Le(code, w)[1..] == Le(code / 256, w - 1);
    }
  }

  lemma {:induction false} UnLeRange(bs: seq<byte>)
    ensures UnLe(bs) < Pow256(|bs|)
  {
    if bs != [] {
      UnLeRange(bs[1..]);
    }
  }

  lemma {:induction false} UnLeRoundTrip(bs: seq<byte>)
    ensures Le(UnLe(bs), |bs|) == bs
  {
    if bs != [] {
      var u := UnLe(bs[1..]);
      UnLeRoundTrip(bs[1..]);
      LowByte(bs[0], u);
      assert Le(UnLe(bs), |bs|) == [bs[0]] + Le(u, |bs| - 1);
    }
  }

  lemma LowByte(b: byte, u: nat)
    ensures (b + 256 * u) % 256 == b && (b + 256 * u) / 256 == u
  {
  }

  /** A 32-bit int as it lies in memory. */
  function Word(v: int): (bs: seq<byte>)
    requires IsInt32(v)
    ensures |bs| == 4
  {
    Le(if v < 0 then v + 0x1_0000_0000 else v, 4)
  }

  function ReadWord(bs: seq<byte>): int
    requires |bs| == 4
  {
    var u := UnLe(bs);
    if u >= 0x8000_0000 then u - 0x1_0000_0000 else u
  }

  lemma WordRoundTrip(v: int)
    requires IsInt32(v)
    ensures ReadWord(Word(v)) == v
  {
    assert Pow256(4) == 0x1_0000_0000 by { assert Pow256(2) == 0x1_0000; }
    LeRoundTrip(if v < 0 then v + 0x1_0000_0000 else v, 4);
  }

  // ---------- element sequences and names ----------

  /** n element codes that fit type ty. */
  predicate WfVals(ty: int, n: nat, vals: seq<nat>) {
    && |vals| == n
    && forall j :: 0 <= j < n ==> vals[j] < Pow256(Width(ty))
  }

  function EncodeVals(vals: seq<nat>, w: nat): (bs: seq<byte>)
    ensures |bs| == |vals| * w
  {
    if vals == [] then [] else Le(vals[0], w) + EncodeVals(vals[1..], w)
  }

  function DecodeVals(bs: seq<byte>, n: nat, w: nat): (vals: seq<nat>)
    requires |bs| == n * w
    ensures |vals| == n
  {
    if n == 0 then [] else
      assert n * w == w + (n - 1) * w;
      [UnLe(bs[..w])] + DecodeVals(bs[w..], n - 1, w)
  }

  lemma {:induction false} ValsRoundTrip(vals: seq<nat>, w: nat)
    requires forall j :: 0 <= j < |vals| ==> vals[j] < Pow256(w)
    ensures DecodeVals(EncodeVals(vals, w), |vals|, w) == vals
  {
    if vals != [] {
      LeRoundTrip(vals[0], w);
      ValsRoundTrip(vals[1..], w);
      var bs := EncodeVals(vals, w);
      assert bs[..w] == Le(vals[0], w) && bs[w..] == EncodeVals(vals[1..], w);
      assert vals == [vals[0]] + vals[1..];
    }
  }

  predicate WfName(name: Name) {
    && |name| < NAME_SIZE
    && 0 !in name
  }

  function Zeros(n: nat): (bs: seq<byte>)
    ensures |bs| == n
    ensures forall k :: 0 <= k < n ==> bs[k] == 0
  {
    seq(n, k => 0)
  }

  /** A char[100] field holding the name. */
  function Pad(name: Name): (bs: seq<byte>)
    requires |name| < NAME_SIZE
    ensures |bs| == NAME_SIZE
  {
    name + Zeros(NAME_SIZE - |name|)
  }

  /** What the string functions of C see in a char[] field. */
  function CStr(bs: seq<byte>): (name: Name)
    ensures |name| <= |bs| && name == bs[..|name|] && 0 !in name
    ensures |name| < |bs| ==> bs[|name|] == 0
  {
    if bs == [] || bs[0] == 0 then [] else [bs[0]] + CStr(bs[1..])
  }

  lemma PadRoundTrip(name: Name)
    requires WfName(name)
    ensures CStr(Pad(name)) == name
  {
    var p := Pad(name);
    assert p[..|name|] == name && p[|name|] == 0;
    assert forall k :: 0 <= k < |name| ==> p[k] in name;
  }

  /** A name as the plugin copies it out of a request; an unterminated field counts as no name. */
  function NameField(bs: seq<byte>): (name: Name)
    requires |bs| == NAME_SIZE
    ensures WfName(name)
  {
    var name := CStr(bs);
    if |name| < NAME_SIZE then name else []
  }

  // ---------- frames ----------

  datatype Desc = Desc(name: Name, ty: int, nelements: int, index: int, precision: int)

  datatype Frame =
    | Link(offset: nat, desc: Desc, client: Name)
    | LinkReply(offset: nat, text: Name)
    | Unlink(offset: nat, text: Name)
    | Data(offset: nat, ty: int, vals: seq<nat>)
    | Eot
    | Disconnect
      // bytes the decoder steps over without any effect
    | Noise

  /** The frame is about the dataref at offset i. */
  predicate Addresses(f: Frame, i: nat) {
    (f.Link? || f.LinkReply? || f.Unlink? || f.Data?) && f.offset == i
  }

  datatype Side = ClientSide | ServerSide

  /** What the decoder looks up in its own table before it reads a data frame. */
  datatype Shape = Shape(ty: int, count: int)

  predicate WfDesc(d: Desc) {
    WfName(d.name) && IsInt32(d.ty) && IsInt32(d.nelements) && IsInt32(d.index) && IsInt32(d.precision)
  }

  /** A frame the peer can put on the wire. */
  predicate WfFrame(f: Frame) {
    match f
    case Link(i, d, client) => i < MAX_OFFSETS && WfDesc(d) && WfName(client)
    case LinkReply(i, text) => i < MAX_OFFSETS && WfName(text)
    case Unlink(i, text) => i < MAX_OFFSETS && WfName(text)
    case Data(i, ty, vals) => i < MAX_OFFSETS && WfVals(ty, |vals|, vals)
    case Eot => true
    case Disconnect => true
    case Noise => false
  }

  function Mark(f: Frame): (first: int)
    requires WfFrame(f)
    ensures IsInt32(first)
  {
    match f
    case Link(i, _, _) => MARK_LINK + i
    case LinkReply(i, _) => MARK_LINK + i
    case Unlink(i, _) => MARK_UNLINK + i
    case Data(i, _, _) => MARK_DATA + i
    case Eot => MARK_EOT
    case Disconnect => MARK_DISCONNECT
  }

  function DescBytes(d: Desc, client: Name): seq<byte>
    requires WfDesc(d) && WfName(client)
  {
    Word(d.ty) + (Word(d.nelements) + (Word(d.index) + (Word(d.precision) + (Pad(d.name) + Pad(client)))))
  }

  function Body(f: Frame): seq<byte>
    requires WfFrame(f)
  {
    match f
    case Link(_, d, client) => DescBytes(d, client)
    case LinkReply(_, text) => Pad(text)
    case Unlink(_, text) => Pad(text)
    case Data(_, ty, vals) => EncodeVals(vals, Width(ty))
    case Eot => []
    case Disconnect => []
  }

  function Bytes(f: Frame): seq<byte>
    requires WfFrame(f)
  {
    Word(Mark(f)) + Body(f)
  }

  function Size(f: Frame): nat {
    match f
    case Link(_, _, _) => 220
    case LinkReply(_, _) => 104
    case Unlink(_, _) => 104
    case Data(_, ty, vals) => 4 + |vals| * Width(ty)
    case Eot => 4
    case Disconnect => 4
    case Noise => 0
  }

  lemma BytesSize(f: Frame)
    requires WfFrame(f)
    ensures |Bytes(f)| == Size(f)
  {
  }

  // ---------- one step of the receive loops ----------

  function NextData(shapes: seq<Shape>, offset: nat, rest: seq<byte>): (r: (Frame, seq<byte>))
    ensures |r.1| <= |rest|
  {
    if offset >= |shapes| then (Noise, rest)
    else
      var sh := shapes[offset];
      if !Known(sh.ty) || sh.count < 0 then (Data(offset, XPTYPE_UNKNOWN, []), rest)
      else
        var n := sh.count * Width(sh.ty);
        if |rest| >= n then
          (Data(offset, sh.ty, DecodeVals(rest[..n], sh.count, Width(sh.ty))), rest[n..])
        else
          (Noise, [])
  }

  function NextLink(offset: nat, rest: seq<byte>): (r: (Frame, seq<byte>))
    ensures |r.1| <= |rest|
  {
    if |rest| >= 4 * 4 + NAME_SIZE + NAME_SIZE then
      var d := Desc(NameField(rest[16..116]), ReadWord(rest[0..4]), ReadWord(rest[4..8]), ReadWord(rest[8..12]),
                    ReadWord(rest[12..16]));
      (Link(offset, d, NameField(rest[116..216])), rest[216..])
    else
      (Noise, [])
  }

  /** What the loop does once the first word is read. The plugin asks for one word more behind an
      unlink request. */
  function Dispatch(side: Side, shapes: seq<Shape>, first: int, rest: seq<byte>): (r: (Frame, seq<byte>))
    ensures |r.1| <= |rest|
  {
    if MARK_DATA <= first < MARK_LINK then
      NextData(shapes, first - MARK_DATA, rest)
    else if MARK_LINK <= first < MARK_UNLINK then
      if side.ServerSide? then NextLink(first - MARK_LINK, rest)
      else if |rest| >= NAME_SIZE then (LinkReply(first - MARK_LINK, CStr(rest[..NAME_SIZE])), rest[NAME_SIZE..])
      else (Noise, [])
    else if MARK_UNLINK <= first < MARK_EOT then
      if |rest| >= NAME_SIZE + (if side.ServerSide? then 4 else 0) then
        (Unlink(first - MARK_UNLINK, CStr(rest[..NAME_SIZE])), rest[NAME_SIZE..])
      else (Noise, [])
    else if first == MARK_EOT then (Eot, rest)
    else if first == MARK_DISCONNECT then (Disconnect, rest)
    else (Noise, rest)
  }

  /** The frame at the head of s and what is left behind it, as the receive loop of one side reads
      it with its table. */
  function NextFrame(side: Side, shapes: seq<Shape>, s: seq<byte>): (r: (Frame, seq<byte>))
    requires s != []
    ensures |r.1| < |s|
  {
    if |s| < 4 then (Noise, []) else Dispatch(side, shapes, ReadWord(s[..4]), s[4..])
  }

  /** The frame is one this side is meant to get, and its table knows the payload's shape. */
  predicate Expected(side: Side, shapes: seq<Shape>, f: Frame) {
    match f
    case Link(_, _, _) => side.ServerSide?
    case LinkReply(_, _) => side.ClientSide?
    case Unlink(_, _) => true
    case Data(i, ty, vals) => i < |shapes| && Known(ty) && shapes[i] == Shape(ty, |vals|)
    case Eot => true
    case Disconnect => true
    case Noise => false
  }

  lemma Split(a: seq<byte>, b: seq<byte>, tail: seq<byte>)
    ensures (a + b) + tail == a + (b + tail)
    ensures (a + (b + tail))[..|a|] == a
    ensures (a + (b + tail))[|a|..] == b + tail
  {
  }

  lemma NestedSlices(s: seq<byte>)
    requires |s| >= 216
    ensures var r1 := s[4..]; var r2 := r1[4..]; var r3 := r2[4..]; var r4 := r3[4..]; var r5 := r4[NAME_SIZE..];
      && s[..4] == s[0..4] && r1[..4] == s[4..8] && r2[..4] == s[8..12] && r3[..4] == s[12..16]
      && r4[..NAME_SIZE] == s[16..116] && r5[..NAME_SIZE] == s[116..216] && r5[NAME_SIZE..] == s[216..]
  {
  }

  lemma NextOfLink(i: nat, d: Desc, client: Name, tail: seq<byte>)
    requires WfFrame(Link(i, d, client))
    ensures NextLink(i, DescBytes(d, client) + tail) == (Link(i, d, client), tail)
  {
    var s5 := Pad(d.name) + Pad(client);
    var s4 := Word(d.precision) + s5;
    var s3 := Word(d.index) + s4;
    var s2 := Word(d.nelements) + s3;
    Split(Word(d.ty), s2, tail);
    Split(Word(d.nelements), s3, tail);
    Split(Word(d.index), s4, tail);
    Split(Word(d.precision), s5, tail);
    Split(Pad(d.name), Pad(client), tail);
    Split(Pad(client), [], tail);
    assert Pad(client) + tail == Pad(client) + ([] + tail);
    NestedSlices(DescBytes(d, client) + tail);
    WordRoundTrip(d.ty);
    WordRoundTrip(d.nelements);
    WordRoundTrip(d.index);
    WordRoundTrip(d.precision);
    PadRoundTrip(d.name);
    PadRoundTrip(client);
  }

  lemma NextOfData(shapes: seq<Shape>, f: Frame, tail: seq<byte>)
    requires f.Data? && WfFrame(f) && Expected(ServerSide, shapes, f)
    ensures NextData(shapes, f.offset, EncodeVals(f.vals, Width(f.ty)) + tail) == (f, tail)
  {
    var w := Width(f.ty);
    ValsRoundTrip(f.vals, w);
    var s := EncodeVals(f.vals, w) + tail;
    var n := |f.vals| * w;
    assert s[..n] == EncodeVals(f.vals, w) && s[n..] == tail;
  }

  lemma NextOfWord(side: Side, shapes: seq<Shape>, first: int, body: seq<byte>, tail: seq<byte>)
    requires IsInt32(first)
    ensures NextFrame(side, shapes, (Word(first) + body) + tail) == Dispatch(side, shapes, first, body + tail)
  {
    Split(Word(first), body, tail);
    WordRoundTrip(first);
  }

  lemma TextOfPad(text: Name, tail: seq<byte>)
    requires WfName(text)
    ensures |Pad(text) + tail| == NAME_SIZE + |tail|
    ensures CStr((Pad(text) + tail)[..NAME_SIZE]) == text
    ensures (Pad(text) + tail)[NAME_SIZE..] == tail
  {
    PadRoundTrip(text);
    assert (Pad(text) + tail)[..NAME_SIZE] == Pad(text);
  }

  lemma DispatchOfBody(side: Side, shapes: seq<Shape>, f: Frame, tail: seq<byte>)
    requires WfFrame(f) && Expected(side, shapes, f)
    requires f.Unlink? && side.ServerSide? ==> |tail| >= 4
    ensures Dispatch(side, shapes, Mark(f), Body(f) + tail) == (f, tail)
  {
    if f.Link? {
      NextOfLink(f.offset, f.desc, f.client, tail);
    } else if f.Data? {
      NextOfData(shapes, f, tail);
    } else if f.LinkReply? || f.Unlink? {
      TextOfPad(f.text, tail);
    } else {
      assert [] + tail == tail;
    }
  }

  /** Decoding undoes encoding for every frame the receiver's table expects, whatever follows. */
  lemma NextOfBytes(side: Side, shapes: seq<Shape>, f: Frame, tail: seq<byte>)
    requires WfFrame(f) && Expected(side, shapes, f)
    requires f.Unlink? && side.ServerSide? ==> |tail| >= 4
    ensures NextFrame(side, shapes, Bytes(f) + tail) == (f, tail)
  {
    NextOfWord(side, shapes, Mark(f), Body(f), tail);
    DispatchOfBody(side, shapes, f, tail);
  }

  // ---------- transmissions ----------

  predicate WfFrames(fs: seq<Frame>) {
    forall k :: 0 <= k < |fs| ==> WfFrame(fs[k])
  }

  function EncodeAll(fs: seq<Frame>): seq<byte>
    requires WfFrames(fs)
  {
    if fs == [] then [] else Bytes(fs[0]) + EncodeAll(fs[1..])
  }

  /** A whole transmission: the frames, then the end word. */
  function Transmission(fs: seq<Frame>): seq<byte>
    requires WfFrames(fs)
  {
    EncodeAll(fs) + Word(MARK_EOT)
  }

  lemma Regroup<T>(a: seq<T>, b: seq<T>, c: seq<T>)
    ensures a + b + c == a + (b + c)
  {
  }

  lemma EncodeHead(fs: seq<Frame>, gs: seq<Frame>)
    requires fs != [] && WfFrames(fs) && WfFrames(gs)
    ensures WfFrames(fs + gs) && WfFrames(fs[1..] + gs)
    ensures EncodeAll(fs + gs) == Bytes(fs[0]) + EncodeAll(fs[1..] + gs)
  {
    assert (fs + gs)[1..] == fs[1..] + gs;
  }

  lemma {:induction false} EncodeAppend(fs: seq<Frame>, gs: seq<Frame>)
    requires WfFrames(fs) && WfFrames(gs)
    ensures WfFrames(fs + gs) && EncodeAll(fs + gs) == EncodeAll(fs) + EncodeAll(gs)
  {
    if fs == [] {
      assert fs + gs == gs;
    } else {
      EncodeHead(fs, gs);
      EncodeAppend(fs[1..], gs);
      Regroup(Bytes(fs[0]), EncodeAll(fs[1..]), EncodeAll(gs));
    }
  }
}
