/** Whole streams of transmissions through the receive loops: the receiver performs exactly the frames sent
if and only if no call overruns its buffer and every call ends behind a whole frame. */
module Streams {
  import opened Wire
  import opened Dataref
  import opened Reassembly
  import opened Framing
  import C = ClientTable
  import S = ServerTable

  /** One end of the connection: what it looks up to decode, what a frame does to it, what a receive call
      does with a full buffer, and what a lost connection does. */
  datatype Peer<!T> = Peer(side: Side, shapes: T -> seq<Shape>, apply: (T, Frame) -> T,
                           receive: (T, seq<byte>) -> T, close: T -> T)

  function Decode<T>(p: Peer<T>, t: T, s: seq<byte>): T
    decreases |s|
  {
    if s == [] then t
    else
      var (f, rest) := NextFrame(p.side, p.shapes(t), s);
      Decode(p, p.apply(t, f), rest)
  }

  /** The frames the decoding loop performs. */
  function Heard<T>(p: Peer<T>, t: T, s: seq<byte>): seq<Frame>
    decreases |s|
  {
    if s == [] then []
    else
      var (f, rest) := NextFrame(p.side, p.shapes(t), s);
      [f] + Heard(p, p.apply(t, f), rest)
  }

  function ApplyAll<T>(p: Peer<T>, t: T, fs: seq<Frame>): T
    decreases |fs|
  {
    if fs == [] then t else ApplyAll(p, p.apply(t, fs[0]), fs[1..])
  }

  /** Each frame is expected by the receiver's table as it stands when the frame is reached. */
  predicate Framed<T>(p: Peer<T>, t: T, fs: seq<Frame>)
    decreases |fs|
  {
    fs != [] ==> Expected(p.side, p.shapes(t), fs[0]) && Framed(p, p.apply(t, fs[0]), fs[1..])
  }

  predicate Closes(fs: seq<Frame>) { Disconnect in fs }

  /** A receive call decodes its buffer, and closes the connection behind it if it was told to. */
  function Closed<T>(p: Peer<T>, t: T, fs: seq<Frame>): T {
    if Closes(fs) then p.close(t) else t
  }

  ghost predicate Receives<T(!new)>(p: Peer<T>) {
    forall t: T, s: seq<byte> {:trigger p.receive(t, s)} :: p.receive(t, s) == Closed(p, Decode(p, t, s), Heard(p, t, s))
  }

  /** The frames performed by one receive call after the other. A call whose buffer overruns performs
      nothing, and none follows it. */
  function HeardAll<T>(p: Peer<T>, t: T, chunks: seq<seq<byte>>): seq<Frame>
    decreases |chunks|
  {
    if chunks == [] || !Terminated(Reassembly.First(chunks)) then []
    else
      var b := Reassembly.First(chunks);
      var h := Heard(p, t, b);
      if Closes(h) then h else h + HeardAll(p, Decode(p, t, b), chunks[Taken(chunks, 0)..])
  }

  /** What these calls make of the receiver. */
  function ReceiveAll<T>(p: Peer<T>, t: T, chunks: seq<seq<byte>>): T
    decreases |chunks|
  {
    if chunks == [] then t
    else
      var b := Reassembly.First(chunks);
      if Overrun(chunks) then p.close(t)
      else if !Terminated(b) then t
      else if Closes(Heard(p, t, b)) then p.receive(t, b)
      else ReceiveAll(p, p.receive(t, b), chunks[Taken(chunks, 0)..])
  }

  // ---------- whole frames ----------

  lemma EncodeFirst(gs: seq<Frame>, j: nat)
    requires WfFrames(gs) && j <= |gs|
    ensures WfFrames(gs[..j]) && WfFrames(gs[j..])
    ensures EncodeAll(gs) == EncodeAll(gs[..j]) + EncodeAll(gs[j..])
  {
    Halves(gs, j);
    EncodeParts(gs, gs[..j], gs[j..]);
  }

  lemma Halves<T>(s: seq<T>, j: nat)
    requires j <= |s|
    ensures s == s[..j] + s[j..]
  {
  }

  lemma EncodeParts(gs: seq<Frame>, a: seq<Frame>, b: seq<Frame>)
    requires WfFrames(gs) && gs == a + b
    ensures WfFrames(a) && WfFrames(b) && EncodeAll(gs) == EncodeAll(a) + EncodeAll(b)
  {
    assert forall k :: 0 <= k < |a| ==> a[k] == gs[k];
    assert forall k :: 0 <= k < |b| ==> b[k] == gs[|a| + k];
    EncodeAppend(a, b);
  }

  lemma SomeBytes(fs: seq<Frame>)
    requires WfFrames(fs) && fs != []
    ensures |EncodeAll(fs)| >= 4
  {
  }

  /** On the plugin's side an unlink request has to have something behind it. */
  predicate TailFor(side: Side, fs: seq<Frame>, tail: seq<byte>) {
    side.ServerSide? && fs != [] && fs[|fs| - 1].Unlink? ==> |tail| >= 4
  }

  /** Decoding the bytes of expected frames performs just these frames and goes on behind them. */
  lemma {:induction false} HeardFrames<T>(p: Peer<T>, t: T, fs: seq<Frame>, tail: seq<byte>)
    requires WfFrames(fs) && Framed(p, t, fs) && TailFor(p.side, fs, tail)
    ensures Heard(p, t, EncodeAll(fs) + tail) == fs + Heard(p, ApplyAll(p, t, fs), tail)
    ensures Decode(p, t, EncodeAll(fs) + tail) == Decode(p, ApplyAll(p, t, fs), tail)
    decreases |fs|
  {
    if fs == [] {
      assert EncodeAll(fs) + tail == tail;
    } else {
      var rest := EncodeAll(fs[1..]) + tail;
      Regroup(Bytes(fs[0]), EncodeAll(fs[1..]), tail);
      if |fs| > 1 { SomeBytes(fs[1..]); }
      NextOfBytes(p.side, p.shapes(t), fs[0], rest);
      HeardFrames(p, p.apply(t, fs[0]), fs[1..], tail);
      assert [fs[0]] + fs[1..] == fs;
      Regroup([fs[0]], fs[1..], Heard(p, ApplyAll(p, t, fs), tail));
    }
  }

  lemma {:induction false} FramedAppend<T>(p: Peer<T>, t: T, fs: seq<Frame>, gs: seq<Frame>)
    ensures Framed(p, t, fs + gs) <==> Framed(p, t, fs) && Framed(p, ApplyAll(p, t, fs), gs)
    ensures ApplyAll(p, t, fs + gs) == ApplyAll(p, ApplyAll(p, t, fs), gs)
    decreases |fs|
  {
    if fs == [] {
      assert fs + gs == gs;
    } else {
      assert (fs + gs)[1..] == fs[1..] + gs && (fs + gs)[0] == fs[0];
      FramedAppend(p, p.apply(t, fs[0]), fs[1..], gs);
    }
  }

  // ---------- broken frames ----------

  lemma WordPrefix(w: seq<byte>, body: seq<byte>, part: seq<byte>)
    requires |w| == 4 && 4 <= |part| <= |w + body| && part == (w + body)[..|part|]
    ensures part[..4] == w && |part[4..]| == |part| - 4
  {
  }

  /** A frame cut short is noise, and all that is left with it. */
  lemma PartialIsNoise(side: Side, shapes: seq<Shape>, f: Frame, part: seq<byte>)
    requires WfFrame(f) && Expected(side, shapes, f)
    requires 0 < |part| < |Bytes(f)| && part == Bytes(f)[..|part|]
    ensures NextFrame(side, shapes, part) == (Noise, [])
  {
    if |part| >= 4 {
      WordPrefix(Word(Mark(f)), Body(f), part);
      WordRoundTrip(Mark(f));
      ShortBodyIsNoise(side, shapes, f, part[4..]);
    }
  }

  lemma ShortBodyIsNoise(side: Side, shapes: seq<Shape>, f: Frame, rest: seq<byte>)
    requires WfFrame(f) && Expected(side, shapes, f) && |rest| < |Body(f)|
    ensures Dispatch(side, shapes, Mark(f), rest) == (Noise, [])
  {
  }

  lemma UnlinkCutShort(shapes: seq<Shape>, f: Frame, tail: seq<byte>)
    requires WfFrame(f) && f.Unlink? && |tail| < 4
    ensures NextFrame(ServerSide, shapes, Bytes(f) + tail) == (Noise, [])
  {
    NextOfWord(ServerSide, shapes, Mark(f), Body(f), tail);
  }

  /** b ends behind a whole frame, on the plugin's side not behind an unlink request. */
  ghost predicate AtFrame(side: Side, gs: seq<Frame>, b: seq<byte>)
    requires WfFrames(gs)
  {
    exists j: nat :: EndsAt(side, gs, b, j)
  }

  predicate EndsAt(side: Side, gs: seq<Frame>, b: seq<byte>, j: nat)
    requires WfFrames(gs)
  {
    j <= |gs| && b == EncodeAll(gs[..j]) && TailFor(side, gs[..j], [])
  }

  lemma FrameStarts(side: Side, gs: seq<Frame>, b: seq<byte>)
    requires WfFrames(gs) && gs != [] && AtFrame(side, gs[1..], b) && TailFor(side, gs[..1], b)
    ensures AtFrame(side, gs, Bytes(gs[0]) + b)
  {
    var j: nat :| EndsAt(side, gs[1..], b, j);
    var head := gs[..j + 1];
    assert head[1..] == gs[1..][..j] && head[0] == gs[0];
    assert EncodeAll(head) == Bytes(gs[0]) + b;
    assert EndsAt(side, gs, Bytes(gs[0]) + b, j + 1);
  }

  lemma StartIsAtFrame(side: Side, gs: seq<Frame>)
    requires WfFrames(gs)
    ensures AtFrame(side, gs, [])
  {
    assert gs[..0] == [];
    assert EndsAt(side, gs, [], 0);
  }

  lemma CutBehindFirst(gs: seq<Frame>, b: seq<byte>) returns (rest: seq<byte>)
    requires WfFrames(gs) && gs != [] && |Bytes(gs[0])| <= |b| <= |EncodeAll(gs)| && b == EncodeAll(gs)[..|b|]
    ensures b == Bytes(gs[0]) + rest && |rest| <= |EncodeAll(gs[1..])| && rest == EncodeAll(gs[1..])[..|rest|]
  {
    rest := BehindHead(Bytes(gs[0]), EncodeAll(gs[1..]), b);
  }

  lemma BehindHead(a: seq<byte>, c: seq<byte>, b: seq<byte>) returns (rest: seq<byte>)
    requires |a| <= |b| <= |a + c| && b == (a + c)[..|b|]
    ensures b == a + rest && |rest| <= |c| && rest == c[..|rest|]
  {
    rest := b[|a|..];
  }

  /** A stream cut inside a frame makes noise. */
  lemma {:induction false} BadCutIsHeard<T>(p: Peer<T>, t: T, gs: seq<Frame>, b: seq<byte>)
    requires WfFrames(gs) && Framed(p, t, gs) && |b| <= |EncodeAll(gs)| && b == EncodeAll(gs)[..|b|]
    requires !AtFrame(p.side, gs, b)
    ensures Noise in Heard(p, t, b)
    decreases |gs|
  {
    StartIsAtFrame(p.side, gs);
    if |b| < |Bytes(gs[0])| {
      assert b == Bytes(gs[0])[..|b|];
      PartialIsNoise(p.side, p.shapes(t), gs[0], b);
    } else {
      var rest := CutBehindFirst(gs, b);
      if p.side.ServerSide? && gs[0].Unlink? && |rest| < 4 {
        UnlinkCutShort(p.shapes(t), gs[0], rest);
      } else {
        if AtFrame(p.side, gs[1..], rest) { FrameStarts(p.side, gs, rest); }
        NextOfBytes(p.side, p.shapes(t), gs[0], rest);
        BadCutIsHeard(p, p.apply(t, gs[0]), gs[1..], rest);
      }
    }
  }

  // ---------- terminators ----------

  predicate Ending(f: Frame) { f.Eot? || f.Disconnect? }

  /** A stream of whole transmissions. */
  predicate Complete(gs: seq<Frame>) { gs != [] ==> Ending(gs[|gs| - 1]) }

  lemma TerminatedSuffix(a: seq<byte>, b: seq<byte>)
    requires |b| >= 4
    ensures Terminated(a + b) <==> Terminated(b)
  {
    assert (a + b)[|a + b| - 4..] == b[|b| - 4..];
  }

  lemma LastFrame(fs: seq<Frame>)
    requires WfFrames(fs) && fs != []
    ensures var f := fs[|fs| - 1];
      EncodeAll(fs) == EncodeAll(fs[..|fs| - 1]) + Bytes(f) && |Bytes(f)| >= 4 && (Terminated(EncodeAll(fs)) <==> Terminated(Bytes(f)))
  {
    var f := fs[|fs| - 1];
    EncodeFirst(fs, |fs| - 1);
    assert fs[|fs| - 1..] == [f];
    assert EncodeAll([f]) == Bytes(f) + EncodeAll([f][1..]) == Bytes(f);
    TerminatedSuffix(EncodeAll(fs[..|fs| - 1]), Bytes(f));
  }

  lemma MarkTerminates(a: seq<byte>, v: int)
    requires v == MARK_EOT || v == MARK_DISCONNECT
    ensures Terminated(a + Word(v))
  {
    WordRoundTrip(v);
    assert (a + Word(v))[|a|..] == Word(v);
  }

  lemma EndingTerminates(f: Frame)
    requires Ending(f)
    ensures Terminated(Bytes(f))
  {
    WordRoundTrip(Mark(f));
    assert Bytes(f) == Word(Mark(f)) && Bytes(f)[0..] == Bytes(f);
  }

  lemma CompleteTerminates(gs: seq<Frame>)
    requires WfFrames(gs) && Complete(gs) && gs != []
    ensures Terminated(EncodeAll(gs))
  {
    LastFrame(gs);
    EndingTerminates(gs[|gs| - 1]);
  }

  // ---------- call by call ----------

  /** No call overruns, each ends behind a whole frame, and none follows the end of the connection. */
  ghost predicate Clean(side: Side, gs: seq<Frame>, chunks: seq<seq<byte>>)
    requires WfFrames(gs)
    decreases |chunks|
  {
    chunks == [] || (!Overrun(chunks) && exists j: nat :: EndsAt(side, gs, Reassembly.First(chunks), j) && CleanFrom(side, gs, chunks, j))
  }

  ghost predicate CleanFrom(side: Side, gs: seq<Frame>, chunks: seq<seq<byte>>, j: nat)
    requires WfFrames(gs) && j <= |gs| && chunks != []
    decreases |chunks|, 0
  {
    EncodeFirst(gs, j);
    if Closes(gs[..j]) then gs[j..] == [] else Clean(side, gs[j..], chunks[Taken(chunks, 0)..])
  }

  /** The stream that is still to come behind a call that ended behind frame j. */
  lemma RestOfStream(gs: seq<Frame>, chunks: seq<seq<byte>>, j: nat)
    requires WfFrames(gs) && Complete(gs) && Received(chunks) && chunks != [] && Join(chunks) == EncodeAll(gs)
    requires j <= |gs| && WfFrames(gs[..j]) && Reassembly.First(chunks) == EncodeAll(gs[..j])
    ensures WfFrames(gs[j..]) && Complete(gs[j..]) && j > 0
    ensures var rest := chunks[Taken(chunks, 0)..]; Received(rest) && Join(rest) == EncodeAll(gs[j..])
  {
    var k := Taken(chunks, 0);
    RestJoins(gs, chunks, k, j);
    FirstIsNotEmpty(chunks);
    NotAtStart(gs, j);
  }

  lemma RestJoins(gs: seq<Frame>, chunks: seq<seq<byte>>, k: nat, j: nat)
    requires WfFrames(gs) && Join(chunks) == EncodeAll(gs) && k <= |chunks|
    requires j <= |gs| && WfFrames(gs[..j]) && Upto(chunks, k) == EncodeAll(gs[..j])
    ensures WfFrames(gs[j..]) && Join(chunks[k..]) == EncodeAll(gs[j..])
  {
    EncodeFirst(gs, j);
    JoinCut(chunks, k);
    Cancel(EncodeAll(gs[..j]), Join(chunks[k..]), EncodeAll(gs[j..]));
  }

  lemma NotAtStart(gs: seq<Frame>, j: nat)
    requires j <= |gs| && WfFrames(gs[..j]) && EncodeAll(gs[..j]) != []
    ensures j > 0
  {
    assert gs[..0] == [];
  }

  lemma FirstIsNotEmpty(chunks: seq<seq<byte>>)
    requires Received(chunks) && chunks != []
    ensures Reassembly.First(chunks) != []
  {
    JoinExtend(chunks, 0);
    JoinGrows(chunks, 1, Taken(chunks, 0));
  }

  lemma Cancel(a: seq<byte>, b: seq<byte>, c: seq<byte>)
    requires a + b == a + c
    ensures b == c
  {
    assert b == (a + b)[|a|..] && c == (a + c)[|a|..];
  }

  /** A call does not wait for more at the end of a complete stream. */
  lemma NotWaiting(gs: seq<Frame>, chunks: seq<seq<byte>>)
    requires WfFrames(gs) && Complete(gs) && Received(chunks) && chunks != [] && Join(chunks) == EncodeAll(gs)
    requires !Overrun(chunks)
    ensures Terminated(Reassembly.First(chunks))
  {
    FirstIsNotEmpty(chunks);
    JoinCut(chunks, Taken(chunks, 0));
    assert gs != [];
    CompleteTerminates(gs);
    TakenStops(chunks, 0);
    if Taken(chunks, 0) == |chunks| {
      JoinCut(chunks, |chunks|);
    }
  }

  lemma FirstIsPrefix(gs: seq<Frame>, chunks: seq<seq<byte>>)
    requires WfFrames(gs) && Join(chunks) == EncodeAll(gs)
    ensures var b := Reassembly.First(chunks); |b| <= |EncodeAll(gs)| && b == EncodeAll(gs)[..|b|]
  {
    JoinCut(chunks, Taken(chunks, 0));
  }

  /** What one call performs if it ends behind frame j. */
  lemma CallPerforms<T>(p: Peer<T>, t: T, gs: seq<Frame>, j: nat)
    requires WfFrames(gs) && Framed(p, t, gs) && j <= |gs| && WfFrames(gs[..j]) && TailFor(p.side, gs[..j], [])
    ensures var b := EncodeAll(gs[..j]); var u := ApplyAll(p, t, gs[..j]);
      && Heard(p, t, b) == gs[..j] && Decode(p, t, b) == u && Framed(p, u, gs[j..])
      && ApplyAll(p, t, gs) == ApplyAll(p, u, gs[j..])
  {
    assert gs == gs[..j] + gs[j..];
    FramedAppend(p, t, gs[..j], gs[j..]);
    HeardFrames(p, t, gs[..j], []);
    assert EncodeAll(gs[..j]) + [] == EncodeAll(gs[..j]);
    assert gs[..j] + [] == gs[..j];
  }

  lemma NoNoise(gs: seq<Frame>)
    requires WfFrames(gs)
    ensures Noise !in gs
  {
  }

  lemma NothingLeft(gs: seq<Frame>)
    requires WfFrames(gs) && EncodeAll(gs) == []
    ensures gs == []
  {
    if gs != [] { SomeBytes(gs); }
  }

  lemma SplitAt(gs: seq<Frame>, j: nat, more: seq<Frame>)
    requires j <= |gs|
    ensures gs[..j] + more == gs <==> more == gs[j..]
  {
    assert gs == gs[..j] + gs[j..];
    if gs[..j] + more == gs { assert more == (gs[..j] + more)[j..]; }
  }

  lemma EncodeLonger(gs: seq<Frame>, i: nat, j: nat)
    requires WfFrames(gs) && i < j <= |gs|
    ensures WfFrames(gs[..i]) && WfFrames(gs[..j]) && |EncodeAll(gs[..i])| < |EncodeAll(gs[..j])|
  {
    Middle(gs, i, j);
    LongerParts(gs[..j], gs[..i], gs[i..j]);
  }

  lemma Middle<T>(s: seq<T>, i: nat, j: nat)
    requires i < j <= |s|
    ensures s[..j] == s[..i] + s[i..j] && s[i..j] != []
  {
  }

  lemma LongerParts(gs: seq<Frame>, a: seq<Frame>, b: seq<Frame>)
    requires WfFrames(gs) && gs == a + b && b != []
    ensures WfFrames(a) && |EncodeAll(a)| < |EncodeAll(gs)|
  {
    EncodeParts(gs, a, b);
    SomeBytes(b);
  }

  lemma SameEnd(side: Side, gs: seq<Frame>, b: seq<byte>, i: nat, j: nat)
    requires WfFrames(gs) && EndsAt(side, gs, b, i) && EndsAt(side, gs, b, j)
    ensures i == j
  {
    if i < j { EncodeLonger(gs, i, j); } else if j < i { EncodeLonger(gs, j, i); }
  }

  lemma CleanAt(side: Side, gs: seq<Frame>, chunks: seq<seq<byte>>, j: nat)
    requires WfFrames(gs) && chunks != [] && !Overrun(chunks) && EndsAt(side, gs, Reassembly.First(chunks), j)
    ensures Clean(side, gs, chunks) <==> CleanFrom(side, gs, chunks, j)
  {
    if Clean(side, gs, chunks) {
      var i: nat :| EndsAt(side, gs, Reassembly.First(chunks), i) && CleanFrom(side, gs, chunks, i);
      SameEnd(side, gs, Reassembly.First(chunks), i, j);
    }
  }

  lemma OverrunIsDeaf<T>(p: Peer<T>, t: T, gs: seq<Frame>, chunks: seq<seq<byte>>)
    requires WfFrames(gs) && Join(chunks) == EncodeAll(gs) && chunks != [] && Received(chunks) && Overrun(chunks)
    ensures HeardAll(p, t, chunks) == [] != gs && !Clean(p.side, gs, chunks)
  {
    FirstIsNotEmpty(chunks);
    FirstIsPrefix(gs, chunks);
  }

  lemma BadCallIsHeard<T>(p: Peer<T>, t: T, gs: seq<Frame>, chunks: seq<seq<byte>>)
    requires WfFrames(gs) && Framed(p, t, gs) && Join(chunks) == EncodeAll(gs) && chunks != []
    requires Terminated(Reassembly.First(chunks)) && !AtFrame(p.side, gs, Reassembly.First(chunks))
    ensures HeardAll(p, t, chunks) != gs && !Clean(p.side, gs, chunks)
  {
    FirstIsPrefix(gs, chunks);
    BadCutIsHeard(p, t, gs, Reassembly.First(chunks));
    NoNoise(gs);
  }

  /** The receiver performs exactly the frames sent, if and only if its calls are clean. */
  lemma {:induction false} HeardIffClean<T>(p: Peer<T>, t: T, gs: seq<Frame>, chunks: seq<seq<byte>>)
    requires WfFrames(gs) && Framed(p, t, gs) && Complete(gs) && Received(chunks) && Join(chunks) == EncodeAll(gs)
    ensures HeardAll(p, t, chunks) == gs <==> Clean(p.side, gs, chunks)
    decreases |chunks|
  {
    if chunks == [] {
      NothingLeft(gs);
    } else if Overrun(chunks) {
      OverrunIsDeaf(p, t, gs, chunks);
    } else {
      NotWaiting(gs, chunks);
      var b := Reassembly.First(chunks);
      if j: nat :| EndsAt(p.side, gs, b, j) {
        CallPerforms(p, t, gs, j);
        RestOfStream(gs, chunks, j);
        CleanAt(p.side, gs, chunks, j);
        var rest, u := chunks[Taken(chunks, 0)..], ApplyAll(p, t, gs[..j]);
        if Closes(gs[..j]) {
          SplitAt(gs, j, []);
          assert gs[..j] + [] == gs[..j];
        } else {
          HeardIffClean(p, u, gs[j..], rest);
          SplitAt(gs, j, HeardAll(p, u, rest));
        }
      } else {
        BadCallIsHeard(p, t, gs, chunks);
      }
    }
  }

  /** And then its state is that of the frames sent, behind the end of the connection if they say so. */
  lemma {:induction false} CleanReceives<T(!new)>(p: Peer<T>, t: T, gs: seq<Frame>, chunks: seq<seq<byte>>)
    requires WfFrames(gs) && Framed(p, t, gs) && Complete(gs) && Received(chunks) && Join(chunks) == EncodeAll(gs)
    requires Receives(p) && Clean(p.side, gs, chunks)
    ensures ReceiveAll(p, t, chunks) == Closed(p, ApplyAll(p, t, gs), gs)
    decreases |chunks|
  {
    if chunks == [] {
      NothingLeft(gs);
    } else {
      NotWaiting(gs, chunks);
      var b := Reassembly.First(chunks);
      var j: nat :| EndsAt(p.side, gs, b, j) && CleanFrom(p.side, gs, chunks, j);
      CallPerforms(p, t, gs, j);
      RestOfStream(gs, chunks, j);
      var rest, u := chunks[Taken(chunks, 0)..], ApplyAll(p, t, gs[..j]);
      assert p.receive(t, b) == Closed(p, u, gs[..j]);
      ClosesSplit(gs, j);
      if !Closes(gs[..j]) {
        CleanReceives(p, u, gs[j..], rest);
      }
    }
  }

  lemma ClosesSplit(gs: seq<Frame>, j: nat)
    requires j <= |gs|
    ensures Closes(gs) <==> Closes(gs[..j]) || Closes(gs[j..])
    ensures gs[j..] == [] ==> gs[..j] == gs
  {
    Halves(gs, j);
  }

  // ---------- what a sender and a network can keep to ----------

  /** b is the bytes of whole transmissions. */
  ghost predicate AtBoundary(gs: seq<Frame>, b: seq<byte>)
    requires WfFrames(gs)
  {
    exists j: nat :: BoundaryAt(gs, b, j)
  }

  predicate BoundaryAt(gs: seq<Frame>, b: seq<byte>, j: nat)
    requires WfFrames(gs)
  {
    j <= |gs| && b == EncodeAll(gs[..j]) && (j > 0 ==> Ending(gs[j - 1]))
  }

  /** A cut that looks like the end of a transmission is one. */
  ghost predicate GoodCuts(gs: seq<Frame>, chunks: seq<seq<byte>>)
    requires WfFrames(gs)
  {
    forall m: nat {:trigger Terminated(Upto(chunks, m))} ::
      m <= |chunks| && Terminated(Upto(chunks, m)) ==> AtBoundary(gs, Upto(chunks, m))
  }

  /** The receiver keeps up: of any cuts a buffer apart, one in between ends a transmission. */
  ghost predicate KeepsUp(gs: seq<Frame>, chunks: seq<seq<byte>>)
    requires WfFrames(gs)
  {
    forall m: nat, n: nat :: m < n <= |chunks| ==> KeepsUpFrom(gs, chunks, m, n)
  }

  ghost predicate KeepsUpFrom(gs: seq<Frame>, chunks: seq<seq<byte>>, m: nat, n: nat)
    requires WfFrames(gs) && m < n <= |chunks|
  {
    |Upto(chunks, n)| - |Upto(chunks, m)| >= TCPBUFSIZE ==> EndsBetween(gs, chunks, m, n)
  }

  ghost predicate EndsBetween(gs: seq<Frame>, chunks: seq<seq<byte>>, m: nat, n: nat)
    requires WfFrames(gs) && n <= |chunks|
  {
    exists k: nat {:trigger AtBoundary(gs, Upto(chunks, k))} :: m < k <= n && AtBoundary(gs, Upto(chunks, k))
  }

  /** Nothing is sent behind the end of the connection. */
  predicate ClosesLast(gs: seq<Frame>) {
    forall k :: 0 <= k < |gs| - 1 ==> !gs[k].Disconnect?
  }

  lemma BoundaryTerminates(gs: seq<Frame>, b: seq<byte>)
    requires WfFrames(gs) && AtBoundary(gs, b) && b != []
    ensures Terminated(b)
  {
    var j: nat :| BoundaryAt(gs, b, j);
    assert gs[..0] == [];
    CompleteTerminates(gs[..j]);
  }

  /** A boundary beyond position j is a boundary of what follows j. */
  lemma BoundaryAfter(gs: seq<Frame>, j: nat, part: seq<byte>)
    requires WfFrames(gs) && j <= |gs| && WfFrames(gs[..j]) && part != [] && AtBoundary(gs, EncodeAll(gs[..j]) + part)
    ensures WfFrames(gs[j..]) && AtBoundary(gs[j..], part)
  {
    var i: nat :| BoundaryAt(gs, EncodeAll(gs[..j]) + part, i);
    if i < j { EncodeLonger(gs, i, j); }
    BehindJ(gs, i, j, part);
    assert BoundaryAt(gs[j..], part, i - j);
  }

  lemma BehindJ(gs: seq<Frame>, i: nat, j: nat, part: seq<byte>)
    requires WfFrames(gs) && j <= i <= |gs| && WfFrames(gs[..j]) && WfFrames(gs[..i])
    requires EncodeAll(gs[..i]) == EncodeAll(gs[..j]) + part
    ensures WfFrames(gs[j..]) && WfFrames(gs[j..][..i - j]) && part == EncodeAll(gs[j..][..i - j])
  {
    SliceOf(gs, j, i);
    EncodeParts(gs[..i], gs[..j], gs[j..][..i - j]);
    Cancel(EncodeAll(gs[..j]), part, EncodeAll(gs[j..][..i - j]));
  }

  lemma SliceOf<T>(s: seq<T>, j: nat, i: nat)
    requires j <= i <= |s|
    ensures s[..i] == s[..j] + s[j..][..i - j]
  {
  }

  lemma UptoRest(chunks: seq<seq<byte>>, k: nat, m: nat)
    requires k + m <= |chunks|
    ensures Upto(chunks, k + m) == Upto(chunks, k) + Upto(chunks[k..], m)
  {
    SliceOf(chunks, k, k + m);
    JoinAppend(chunks[..k], chunks[k..][..m]);
  }

  lemma RestHasGoodCuts(gs: seq<Frame>, chunks: seq<seq<byte>>, k: nat, j: nat)
    requires WfFrames(gs) && GoodCuts(gs, chunks) && k <= |chunks| && j <= |gs|
    requires WfFrames(gs[..j]) && Upto(chunks, k) == EncodeAll(gs[..j])
    ensures WfFrames(gs[j..]) && GoodCuts(gs[j..], chunks[k..])
  {
    EncodeFirst(gs, j);
    forall m: nat | m <= |chunks[k..]| && Terminated(Upto(chunks[k..], m))
      ensures AtBoundary(gs[j..], Upto(chunks[k..], m))
    {
      UptoRest(chunks, k, m);
      TerminatedSuffix(EncodeAll(gs[..j]), Upto(chunks[k..], m));
      BoundaryAfter(gs, j, Upto(chunks[k..], m));
    }
  }

  lemma RestKeepsUpFrom(gs: seq<Frame>, chunks: seq<seq<byte>>, k: nat, j: nat, m: nat, n: nat)
    requires WfFrames(gs) && k <= |chunks| && j <= |gs| && Received(chunks) && m < n <= |chunks[k..]|
    requires WfFrames(gs[..j]) && Upto(chunks, k) == EncodeAll(gs[..j]) && KeepsUpFrom(gs, chunks, k + m, k + n)
    ensures WfFrames(gs[j..]) && KeepsUpFrom(gs[j..], chunks[k..], m, n)
  {
    WfRest(gs, j);
    UptoRest(chunks, k, m);
    UptoRest(chunks, k, n);
    if |Upto(chunks[k..], n)| - |Upto(chunks[k..], m)| >= TCPBUFSIZE {
      RestEndsBetween(gs, chunks, k, j, m, n);
    }
  }

  lemma WfRest(gs: seq<Frame>, j: nat)
    requires WfFrames(gs) && j <= |gs|
    ensures WfFrames(gs[j..])
  {
  }

  lemma RestEndsBetween(gs: seq<Frame>, chunks: seq<seq<byte>>, k: nat, j: nat, m: nat, n: nat)
    requires WfFrames(gs) && k <= |chunks| && j <= |gs| && Received(chunks) && m < n <= |chunks[k..]|
    requires WfFrames(gs[..j]) && Upto(chunks, k) == EncodeAll(gs[..j]) && EndsBetween(gs, chunks, k + m, k + n)
    ensures WfFrames(gs[j..]) && EndsBetween(gs[j..], chunks[k..], m, n)
  {
    var l: nat :| k + m < l <= k + n && AtBoundary(gs, Upto(chunks, l));
    RestEnds(gs, chunks, k, j, l - k);
  }

  lemma RestEnds(gs: seq<Frame>, chunks: seq<seq<byte>>, k: nat, j: nat, m: nat)
    requires WfFrames(gs) && k <= |chunks| && j <= |gs| && Received(chunks) && 0 < m <= |chunks[k..]|
    requires WfFrames(gs[..j]) && Upto(chunks, k) == EncodeAll(gs[..j]) && AtBoundary(gs, Upto(chunks, k + m))
    ensures WfFrames(gs[j..]) && AtBoundary(gs[j..], Upto(chunks[k..], m))
  {
    UptoRest(chunks, k, m);
    SomePiece(chunks[k..], m);
    BoundaryAfter(gs, j, Upto(chunks[k..], m));
  }

  lemma RestKeepsUp(gs: seq<Frame>, chunks: seq<seq<byte>>, k: nat, j: nat)
    requires WfFrames(gs) && KeepsUp(gs, chunks) && k <= |chunks| && j <= |gs| && Received(chunks)
    requires WfFrames(gs[..j]) && Upto(chunks, k) == EncodeAll(gs[..j])
    ensures WfFrames(gs[j..]) && KeepsUp(gs[j..], chunks[k..])
  {
    WfRest(gs, j);
    forall m: nat, n: nat | m < n <= |chunks[k..]|
      ensures KeepsUpFrom(gs[j..], chunks[k..], m, n)
    {
      assert KeepsUpFrom(gs, chunks, k + m, k + n);
      RestKeepsUpFrom(gs, chunks, k, j, m, n);
    }
  }

  lemma SomePiece(chunks: seq<seq<byte>>, m: nat)
    requires 0 < m <= |chunks| && forall k :: 0 <= k < |chunks| ==> chunks[k] != []
    ensures Upto(chunks, m) != []
  {
    JoinExtend(chunks, m - 1);
  }

  lemma NoOverrun(gs: seq<Frame>, chunks: seq<seq<byte>>)
    requires WfFrames(gs) && Received(chunks) && chunks != [] && KeepsUp(gs, chunks)
    ensures !Overrun(chunks)
  {
    var k := Taken(chunks, 0);
    if Overrun(chunks) {
      assert Upto(chunks, 0) == [];
      assert KeepsUpFrom(gs, chunks, 0, k);
      var l: nat :| 0 < l <= k && AtBoundary(gs, Upto(chunks, l));
      SomePiece(chunks, l);
      BoundaryTerminates(gs, Upto(chunks, l));
      if l < k { Alone(chunks, l); }
    }
  }

  /** The first call ends behind a whole transmission, and what follows is as good. */
  lemma GoodCall(side: Side, gs: seq<Frame>, chunks: seq<seq<byte>>) returns (j: nat)
    requires WfFrames(gs) && Complete(gs) && Received(chunks) && Join(chunks) == EncodeAll(gs) && chunks != []
    requires GoodCuts(gs, chunks) && KeepsUp(gs, chunks)
    ensures !Overrun(chunks) && EndsAt(side, gs, Reassembly.First(chunks), j)
    ensures WfFrames(gs[j..]) && GoodCuts(gs[j..], chunks[Taken(chunks, 0)..]) && KeepsUp(gs[j..], chunks[Taken(chunks, 0)..])
  {
    j := StopsAtBoundary(gs, chunks);
    BoundaryEnds(side, gs, Reassembly.First(chunks), j);
    RestHasGoodCuts(gs, chunks, Taken(chunks, 0), j);
    RestKeepsUp(gs, chunks, Taken(chunks, 0), j);
  }

  lemma StopsAtBoundary(gs: seq<Frame>, chunks: seq<seq<byte>>) returns (j: nat)
    requires WfFrames(gs) && Complete(gs) && Received(chunks) && Join(chunks) == EncodeAll(gs) && chunks != []
    requires GoodCuts(gs, chunks) && KeepsUp(gs, chunks)
    ensures !Overrun(chunks) && BoundaryAt(gs, Reassembly.First(chunks), j)
  {
    NoOverrun(gs, chunks);
    NotWaiting(gs, chunks);
    j :| BoundaryAt(gs, Reassembly.First(chunks), j);
  }

  lemma BoundaryEnds(side: Side, gs: seq<Frame>, b: seq<byte>, j: nat)
    requires WfFrames(gs) && BoundaryAt(gs, b, j)
    ensures EndsAt(side, gs, b, j)
  {
    assert gs[..0] == [];
  }

  /** Cuts inside a transmission that do not look like its end, and a receiver that keeps up, are enough. */
  lemma {:induction false} GoodCutsAreClean(side: Side, gs: seq<Frame>, chunks: seq<seq<byte>>)
    requires WfFrames(gs) && Complete(gs) && ClosesLast(gs) && Received(chunks) && Join(chunks) == EncodeAll(gs)
    requires GoodCuts(gs, chunks) && KeepsUp(gs, chunks)
    ensures Clean(side, gs, chunks)
    decreases |chunks|
  {
    if chunks != [] {
      var j := GoodCall(side, gs, chunks);
      RestOfStream(gs, chunks, j);
      if Closes(gs[..j]) {
        ClosedAtEnd(gs, j);
      } else {
        GoodCutsAreClean(side, gs[j..], chunks[Taken(chunks, 0)..]);
      }
      assert CleanFrom(side, gs, chunks, j);
    }
  }

  lemma ClosedAtEnd(gs: seq<Frame>, j: nat)
    requires ClosesLast(gs) && j <= |gs| && Closes(gs[..j])
    ensures gs[j..] == []
  {
    var k :| 0 <= k < j && gs[..j][k] == Disconnect;
    assert gs[k] == Disconnect;
  }

  // ---------- the two ends ----------

  function ServerPeer(): Peer<S.Conn> {
    Peer(ServerSide, (c: S.Conn) => S.Shapes(c.table), S.Apply, S.Decode, (c: S.Conn) => c.(connected := false))
  }

  function ClientPeer(): Peer<seq<C.Slot>> {
    Peer(ClientSide, C.Shapes, C.Apply, C.Receive, C.Reset)
  }

  lemma {:induction false} ServerDecodes(c: S.Conn, s: seq<byte>)
    ensures Decode(ServerPeer(), c, s) == S.Decode(c, s)
    ensures !c.connected || Closes(Heard(ServerPeer(), c, s)) ==> !S.Decode(c, s).connected
    decreases |s|
  {
    if s != [] {
      var (f, rest) := NextFrame(ServerSide, S.Shapes(c.table), s);
      ServerDecodes(S.Apply(c, f), rest);
    }
  }

  lemma ServerReceives()
    ensures Receives(ServerPeer())
  {
    forall c: S.Conn, s: seq<byte>
      ensures S.Decode(c, s) == Closed(ServerPeer(), Decode(ServerPeer(), c, s), Heard(ServerPeer(), c, s))
    {
      ServerDecodes(c, s);
    }
  }

  lemma {:induction false} ServerIsPeer(c: S.Conn, fs: seq<Frame>)
    ensures Framed(ServerPeer(), c, fs) == ServerFramed(c, fs) && ApplyAll(ServerPeer(), c, fs) == S.ApplyAll(c, fs)
    ensures !c.connected || Closes(fs) ==> !S.ApplyAll(c, fs).connected
    decreases |fs|
  {
    if fs != [] {
      ServerIsPeer(S.Apply(c, fs[0]), fs[1..]);
    }
  }

  lemma {:induction false} ClientDecodes(t: seq<C.Slot>, gone: bool, s: seq<byte>)
    ensures C.Decode(t, gone, s) == (Decode(ClientPeer(), t, s), gone || Closes(Heard(ClientPeer(), t, s)))
    decreases |s|
  {
    if s != [] {
      var (f, rest) := NextFrame(ClientSide, C.Shapes(t), s);
      ClientDecodes(C.Apply(t, f), gone || f.Disconnect?, rest);
    }
  }

  lemma ClientReceives()
    ensures Receives(ClientPeer())
  {
    forall t: seq<C.Slot>, s: seq<byte>
      ensures C.Receive(t, s) == Closed(ClientPeer(), Decode(ClientPeer(), t, s), Heard(ClientPeer(), t, s))
    {
      ClientDecodes(t, false, s);
    }
  }

  lemma {:induction false} ClientIsPeer(t: seq<C.Slot>, fs: seq<Frame>)
    ensures Framed(ClientPeer(), t, fs) == ClientFramed(t, fs) && ApplyAll(ClientPeer(), t, fs) == C.ApplyAll(t, fs)
    decreases |fs|
  {
    if fs != [] {
      ClientIsPeer(C.Apply(t, fs[0]), fs[1..]);
    }
  }

  /** The plugin performs exactly the frames sent if and only if its calls are clean, and then it is as the
      frames leave it. */
  lemma ServerHearsIffClean(c: S.Conn, gs: seq<Frame>, chunks: seq<seq<byte>>)
    requires WfFrames(gs) && ServerFramed(c, gs) && Complete(gs) && Received(chunks) && Join(chunks) == EncodeAll(gs)
    ensures HeardAll(ServerPeer(), c, chunks) == gs <==> Clean(ServerSide, gs, chunks)
    ensures Clean(ServerSide, gs, chunks) ==> ReceiveAll(ServerPeer(), c, chunks) == S.ApplyAll(c, gs)
  {
    ServerIsPeer(c, gs);
    HeardIffClean(ServerPeer(), c, gs, chunks);
    if Clean(ServerSide, gs, chunks) {
      ServerReceives();
      CleanReceives(ServerPeer(), c, gs, chunks);
    }
  }

  lemma ClientHearsIffClean(t: seq<C.Slot>, gs: seq<Frame>, chunks: seq<seq<byte>>)
    requires WfFrames(gs) && ClientFramed(t, gs) && Complete(gs) && Received(chunks) && Join(chunks) == EncodeAll(gs)
    ensures HeardAll(ClientPeer(), t, chunks) == gs <==> Clean(ClientSide, gs, chunks)
    ensures Clean(ClientSide, gs, chunks) ==>
      ReceiveAll(ClientPeer(), t, chunks) == if Closes(gs) then C.Reset(C.ApplyAll(t, gs)) else C.ApplyAll(t, gs)
  {
    ClientIsPeer(t, gs);
    HeardIffClean(ClientPeer(), t, gs, chunks);
    if Clean(ClientSide, gs, chunks) {
      ClientReceives();
      CleanReceives(ClientPeer(), t, gs, chunks);
    }
  }

  /** However TCP cuts a stream of transmissions, as long as no cut inside one looks like its end and the
      receiver keeps up, the plugin performs exactly the frames sent, in order. */
  lemma ChunkingIsInvisible(c: S.Conn, gs: seq<Frame>, chunks: seq<seq<byte>>)
    requires WfFrames(gs) && ServerFramed(c, gs) && Complete(gs) && ClosesLast(gs)
    requires Received(chunks) && Join(chunks) == EncodeAll(gs) && GoodCuts(gs, chunks) && KeepsUp(gs, chunks)
    ensures HeardAll(ServerPeer(), c, chunks) == gs && ReceiveAll(ServerPeer(), c, chunks) == S.ApplyAll(c, gs)
  {
    GoodCutsAreClean(ServerSide, gs, chunks);
    ServerHearsIffClean(c, gs, chunks);
  }

  lemma ClientChunkingIsInvisible(t: seq<C.Slot>, gs: seq<Frame>, chunks: seq<seq<byte>>)
    requires WfFrames(gs) && ClientFramed(t, gs) && Complete(gs) && ClosesLast(gs)
    requires Received(chunks) && Join(chunks) == EncodeAll(gs) && GoodCuts(gs, chunks) && KeepsUp(gs, chunks)
    ensures HeardAll(ClientPeer(), t, chunks) == gs
    ensures ReceiveAll(ClientPeer(), t, chunks) == if Closes(gs) then C.Reset(C.ApplyAll(t, gs)) else C.ApplyAll(t, gs)
  {
    GoodCutsAreClean(ClientSide, gs, chunks);
    ClientHearsIffClean(t, gs, chunks);
  }

  // ---------- what gets lost ----------

  /** A backlog of a whole buffer without the end of a transmission at a cut is lost, and the connection
      with it. */
  lemma BacklogIsLost<T>(p: Peer<T>, t: T, chunks: seq<seq<byte>>)
    requires Received(chunks) && |Join(chunks)| >= TCPBUFSIZE
    requires forall m :: 0 < m <= |chunks| && |Upto(chunks, m)| <= TCPBUFSIZE ==> !Terminated(Upto(chunks, m))
    ensures Overrun(chunks) && HeardAll(p, t, chunks) == [] && ReceiveAll(p, t, chunks) == p.close(t)
  {
    var k := Taken(chunks, 0);
    JoinCut(chunks, |chunks|);
    assert chunks != [];
    FirstIsNotEmpty(chunks);
    assert k > 0 && !Terminated(Upto(chunks, k));
    TakenStops(chunks, 0);
  }

  lemma OneResult(b: seq<byte>)
    requires 0 < |b| <= TCPBUFSIZE
    ensures Join([b]) == b && Taken([b], 0) == 1 && Reassembly.First([b]) == b && Received([b])
  {
    var one := [b];
    assert one[1..] == [] && one[..1] == one && b + Join(one[1..]) == b;
  }

  /** Two results of recv: a whole buffer, and the rest. */
  lemma TwoResults(e: seq<byte>)
    requires TCPBUFSIZE < |e| <= 2 * TCPBUFSIZE && !Terminated(e[..TCPBUFSIZE])
    ensures var chunks := [e[..TCPBUFSIZE], e[TCPBUFSIZE..]]; Join(chunks) == e && Received(chunks) && Overrun(chunks)
  {
    var a, b := e[..TCPBUFSIZE], e[TCPBUFSIZE..];
    var chunks := [a, b];
    OneResult(a);
    OneResult(b);
    assert chunks[1..] == [b] && a + b == e;
    assert chunks[..1] == [a];
    assert Taken(chunks, 0) == 1 && Reassembly.First(chunks) == a;
  }

  /** A transmission of n zero bytes for the byte array of slot 0. */
  function ZeroBytes(n: nat): Frame { Data(0, XPTYPE_BYTE_ARR, seq(n, _ => 0)) }

  lemma {:induction false} ZerosEncode(vals: seq<nat>)
    requires forall k :: 0 <= k < |vals| ==> vals[k] == 0
    ensures forall k :: 0 <= k < |vals| ==> EncodeVals(vals, 1)[k] == 0
  {
    if vals != [] {
      ZerosEncode(vals[1..]);
      assert Le(0, 1) == [0];
    }
  }

  lemma TwoTransmissions(a: Frame, n: nat)
    requires a == ZeroBytes(n)
    ensures WfFrame(a) && WfFrames([a, Eot, a, Eot]) && |Bytes(a)| == n + 4
    ensures EncodeAll([a, Eot, a, Eot]) == (Bytes(a) + Word(MARK_EOT)) + (Bytes(a) + Word(MARK_EOT))
    ensures forall k :: 4 <= k < n + 4 ==> Bytes(a)[k] == 0
  {
    Pow256Values();
    BytesSize(a);
    ZerosEncode(a.vals);
    var one: seq<Frame>, three: seq<Frame>, two: seq<Frame> := [Eot], [Eot, a, Eot], [a, Eot];
    assert one[1..] == [] && two[1..] == one && three[1..] == two && [a, Eot, a, Eot][1..] == three;
    assert Word(MARK_EOT) + [] == Word(MARK_EOT);
    assert EncodeAll(two) == Bytes(a) + Word(MARK_EOT);
    Regroup(Bytes(a), Word(MARK_EOT), EncodeAll(two));
  }

  lemma ZeroWord(b: seq<byte>)
    requires |b| >= 4 && forall k :: |b| - 4 <= k < |b| ==> b[k] == 0
    ensures !Terminated(b)
  {
    var w := b[|b| - 4..];
    UnLeZero(w);
  }

  lemma {:induction false} UnLeZero(w: seq<byte>)
    requires forall k :: 0 <= k < |w| ==> w[k] == 0
    ensures UnLe(w) == 0
  {
    if w != [] { UnLeZero(w[1..]); }
  }

  /** Two transmissions of 600000 bytes, each of which fits the buffer, are lost if they wait together, with
      no cut anywhere near a terminator. */
  lemma TwoTransmissionsAreLost<T>(p: Peer<T>, t: T)
    ensures var gs: seq<Frame> := [ZeroBytes(599992), Eot, ZeroBytes(599992), Eot];
      && WfFrames(gs) && Complete(gs) && |EncodeAll(gs)| == 1200000
      && var e := EncodeAll(gs); var chunks := [e[..TCPBUFSIZE], e[TCPBUFSIZE..]];
         && Join(chunks) == e && Received(chunks) && !Terminated(e[..TCPBUFSIZE])
         && HeardAll(p, t, chunks) == [] && ReceiveAll(p, t, chunks) == p.close(t)
  {
    var a := ZeroBytes(599992);
    TwoTransmissions(a, 599992);
    var e := EncodeAll([a, Eot, a, Eot]);
    ZerosInside(Bytes(a), Word(MARK_EOT), e);
    ZeroWord(e[..TCPBUFSIZE]);
    TwoResultsAreLost(p, t, e);
  }

  lemma TwoResultsAreLost<T>(p: Peer<T>, t: T, e: seq<byte>)
    requires TCPBUFSIZE < |e| <= 2 * TCPBUFSIZE && !Terminated(e[..TCPBUFSIZE])
    ensures var chunks := [e[..TCPBUFSIZE], e[TCPBUFSIZE..]];
      Join(chunks) == e && Received(chunks) && HeardAll(p, t, chunks) == [] && ReceiveAll(p, t, chunks) == p.close(t)
  {
    TwoResults(e);
  }

  lemma ZerosInside(x: seq<byte>, w: seq<byte>, e: seq<byte>)
    requires |x| == 599996 && |w| == 4 && (forall k :: 4 <= k < |x| ==> x[k] == 0) && e == (x + w) + (x + w)
    ensures |e| == 1200000 && forall k :: TCPBUFSIZE - 4 <= k < TCPBUFSIZE ==> e[..TCPBUFSIZE][k] == 0
  {
    forall k | TCPBUFSIZE - 4 <= k < TCPBUFSIZE
      ensures e[..TCPBUFSIZE][k] == 0
    {
      assert e[k] == (x + w)[k - 600000] == x[k - 600000];
    }
  }
}
