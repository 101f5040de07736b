/** The bytes of each frame, position by position, as both programs put them into their buffers. */
module Layout {
  import opened Wire
  import opened Dataref

  /** An int lies in four bytes, the lowest first; a negative one as its two's complement. */
  lemma WordBytes(v: int)
    requires IsInt32(v)
    ensures var u := if v < 0 then v + 4294967296 else v;
      Word(v) == [u % 256, (u / 256) % 256, (u / 65536) % 256, (u / 16777216) % 256]
  {
    ElementBytes(if v < 0 then v + 4294967296 else v);
  }

  /** A name in its field of 100 bytes, with zeroes behind it. */
  predicate InField(bs: seq<byte>, name: Name) {
    |bs| == 100 && |name| < 100 && forall k :: 0 <= k < 100 ==> bs[k] == if k < |name| then name[k] else 0
  }

  lemma PadFills(name: Name)
    requires |name| < NAME_SIZE
    ensures InField(Pad(name), name)
  {
  }

  lemma Six(a: seq<byte>, b: seq<byte>, c: seq<byte>, d: seq<byte>, e: seq<byte>, f: seq<byte>, g: seq<byte>)
    requires |a| == |b| == |c| == |d| == |e| == 4 && |f| == |g| == 100
    ensures var s := a + (b + (c + (d + (e + (f + g)))));
      && |s| == 220 && s[0..4] == a && s[4..8] == b && s[8..12] == c && s[12..16] == d && s[16..20] == e
      && s[20..120] == f && s[120..220] == g
  {
  }

  /** A link request: marker, type, number of elements, index, precision, the dataref's name, the client's. */
  lemma LinkBytes(i: nat, d: Desc, client: Name)
    requires WfFrame(Link(i, d, client))
    ensures var s := Bytes(Link(i, d, client));
      && |s| == 220 && s[0..4] == Word(2000000 + i) && s[4..8] == Word(d.ty) && s[8..12] == Word(d.nelements)
      && s[12..16] == Word(d.index) && s[16..20] == Word(d.precision)
      && InField(s[20..120], d.name) && InField(s[120..220], client)
  {
    PadFills(d.name);
    PadFills(client);
    Six(Word(2000000 + i), Word(d.ty), Word(d.nelements), Word(d.index), Word(d.precision), Pad(d.name), Pad(client));
  }

  /** The other frames: a marker, and a name, the elements, or nothing. */
  lemma OtherBytes(i: nat, text: Name)
    requires i < MAX_OFFSETS && WfName(text)
    ensures var s := Bytes(LinkReply(i, text)); |s| == 104 && s[0..4] == Word(2000000 + i) && InField(s[4..104], text)
    ensures var s := Bytes(Frame.Unlink(i, text)); |s| == 104 && s[0..4] == Word(3000000 + i) && InField(s[4..104], text)
    ensures Bytes(Eot) == Word(4000000) && Bytes(Disconnect) == Word(5000000)
  {
    PadFills(text);
    assert (Word(2000000 + i) + Pad(text))[4..104] == Pad(text);
    assert (Word(3000000 + i) + Pad(text))[4..104] == Pad(text);
  }

  /** Where element j starts when elements are w bytes wide. */
  function Start(w: nat, j: nat): nat { if j == 0 then 0 else Start(w, j - 1) + w }

  lemma {:induction false} StartGrows(w: nat, j: nat, n: nat)
    requires j < n
    ensures Start(w, j) + w <= Start(w, n)
  {
    if j < n - 1 { StartGrows(w, j, n - 1); }
  }

  lemma {:induction false} LengthIsStart(vals: seq<nat>, w: nat)
    ensures |EncodeVals(vals, w)| == Start(w, |vals|)
  {
    if vals != [] {
      LengthIsStart(vals[1..], w);
    }
  }

  lemma {:induction false} ElementAt(vals: seq<nat>, w: nat, j: nat)
    requires j < |vals|
    ensures var s := EncodeVals(vals, w); Start(w, j) + w <= |s| && s[Start(w, j)..Start(w, j) + w] == Le(vals[j], w)
  {
    LengthIsStart(vals, w);
    StartGrows(w, j, |vals|);
    if j > 0 {
      ElementAt(vals[1..], w, j - 1);
      assert EncodeVals(vals, w)[w..] == EncodeVals(vals[1..], w);
    }
  }

  lemma FourBytes(code: nat)
    ensures Le(code, 4) == [code % 256, (code / 256) % 256, (code / 65536) % 256, (code / 16777216) % 256]
  {
    assert code / 256 / 256 == code / 65536 && code / 65536 / 256 == code / 16777216;
    LeParts(code, 3);
    LeParts(code / 256, 2);
    LeParts(code / 65536, 1);
    LeParts(code / 16777216, 0);
    assert Le(code / 4294967296, 0) == [];
  }

  lemma LeParts(code: nat, w: nat)
    ensures Le(code, w + 1) == [code % 256] + Le(code / 256, w)
  {
  }

  function Shift(code: nat, k: nat): nat { if k == 0 then code else Shift(code / 256, k - 1) }

  lemma {:induction false} LeSplit(code: nat, k: nat, n: nat)
    ensures Le(code, k + n) == Le(code, k) + Le(Shift(code, k), n)
  {
    if k > 0 {
      LeSplit(code / 256, k - 1, n);
      LeParts(code, k - 1 + n);
      LeParts(code, k - 1);
      assert [code % 256] + Le(code / 256, k - 1) + Le(Shift(code, k), n)
          == [code % 256] + (Le(code / 256, k - 1) + Le(Shift(code, k), n));
    }
  }

  lemma ShiftFour(code: nat)
    ensures Shift(code, 4) == code / 4294967296
  {
    assert code / 256 / 256 == code / 65536 && code / 65536 / 256 == code / 16777216;
    assert code / 16777216 / 256 == code / 4294967296;
    assert Shift(code, 4) == Shift(code / 256, 3) == Shift(code / 256 / 256, 2);
    assert Shift(code / 256 / 256, 2) == Shift(code / 256 / 256 / 256, 1) == code / 256 / 256 / 256 / 256;
  }

  /** The elements of one, four and eight bytes, the lowest first. */
  lemma ElementBytes(code: nat)
    ensures Le(code, 1) == [code % 256]
    ensures Le(code, 4) == [code % 256, (code / 256) % 256, (code / 65536) % 256, (code / 16777216) % 256]
    ensures Le(code, 8) == Le(code, 4) + Le(code / 4294967296, 4)
  {
    LeParts(code, 0);
    FourBytes(code);
    LeSplit(code, 4, 4);
    ShiftFour(code);
  }

  lemma Behind(head: seq<byte>, body: seq<byte>, at: nat, w: nat)
    requires |head| == 4 && at + w <= |body|
    ensures (head + body)[0..4] == head && (head + body)[4 + at..4 + at + w] == body[at..at + w]
  {
  }

  /** A value: marker and elements, each in as many bytes as its type has. */
  lemma DataBytes(i: nat, ty: int, vals: seq<nat>, j: nat, w: nat)
    requires WfFrame(Data(i, ty, vals)) && Known(ty) && j < |vals|
    requires w == if ty == XPTYPE_DBL then 8 else if ty == XPTYPE_BYTE_ARR then 1 else 4
    ensures var s := Bytes(Data(i, ty, vals));
      && |s| == 4 + Start(w, |vals|) && s[0..4] == Word(1000000 + i) && 4 + Start(w, j) + w <= |s|
      && s[4 + Start(w, j)..4 + Start(w, j) + w] == Le(vals[j], w)
  {
    var e := EncodeVals(vals, w);
    ElementAt(vals, w, j);
    LengthIsStart(vals, w);
    Behind(Word(1000000 + i), e, Start(w, j), w);
  }

  /** The missing value of whole numbers lies in memory as the int -2000000000. */
  lemma MissingBytes(ty: int)
    requires ty == XPTYPE_INT || ty == XPTYPE_INT_ARR || ty == XPTYPE_CMD_ONCE || ty == XPTYPE_CMD_HOLD
    ensures MissCode(ty) >= 0 && Le(MissCode(ty), 4) == Word(-2000000000)
  {
  }
}
