/** The send buffers: how much one cycle writes, what is deferred, and how far a suppressed value can
stray over many cycles. */
module Budget {
  import opened Wire
  import opened Dataref
  import opened Simulator
  import opened Buffers
  import C = ClientTable
  import S = ServerTable

  lemma SizeOfOneMore(fs: seq<Frame>, o: Option<Frame>)
    ensures SizeAll(fs + Opt(o)) == SizeAll(fs) + (if o.Some? then Size(o.value) else 0)
  {
    if o.None? {
      assert fs + Opt(o) == fs;
    } else {
      assert (fs + Opt(o))[..|fs|] == fs;
    }
  }

  predicate Reserves(f: Frame) { f.Link? || f.Data? }

  /** Either there is still room for the end word, or the last frame is one that did not reserve it. */
  predicate RoomForEot(fs: seq<Frame>) {
    && SizeAll(fs) <= TCPBUFSIZE
    && (SizeAll(fs) + 4 > TCPBUFSIZE ==> fs != [] && !Reserves(fs[|fs| - 1]))
  }

  /** A frame is only written if it fits, and together with the end word unless it is one of those. */
  predicate Fits(o: Option<Frame>, left: nat) {
    o.Some? ==>
      && left + Size(o.value) <= TCPBUFSIZE
      && (Reserves(o.value) ==> left + Size(o.value) + 4 <= TCPBUFSIZE)
  }

  lemma ClientTurnFits(c: C.Slot, me: Name, i: nat, left: nat)
    ensures Fits(C.SendSlot(c, me, i, left).0, left)
  {
  }

  lemma ServerTurnFits(sim: Sim, s: S.Slot, i: nat, left: nat)
    ensures Fits(S.SendSlot(sim, s, i, left).0, left)
  {
  }

  lemma TurnKeepsRoom(fs: seq<Frame>, o: Option<Frame>)
    requires RoomForEot(fs) && Fits(o, SizeAll(fs))
    ensures RoomForEot(fs + Opt(o))
  {
    SizeOfOneMore(fs, o);
    if o.None? { assert fs + Opt(o) == fs; }
  }

  lemma ClientTurnKeepsRoom(fs: seq<Frame>, c: C.Slot, me: Name, i: nat)
    requires RoomForEot(fs)
    ensures RoomForEot(fs + Opt(C.SendSlot(c, me, i, SizeAll(fs)).0))
  {
    ClientTurnFits(c, me, i, SizeAll(fs));
    TurnKeepsRoom(fs, C.SendSlot(c, me, i, SizeAll(fs)).0);
  }

  /** What holds of no frames, and after each turn if before it, holds of every transmission. */
  lemma {:induction false} EachClientTurn(room: iset<seq<Frame>>, t: seq<C.Slot>, me: Name, k: nat)
    requires k <= |t| && [] in room
    requires forall fs: seq<Frame>, i: nat ::
      fs in room && i < |t| ==> fs + Opt(C.SendSlot(t[i], me, i, SizeAll(fs)).0) in room
    ensures C.SendUpTo(t, me, k).0 in room
  {
    if k > 0 {
      EachClientTurn(room, t, me, k - 1);
      assert C.SendUpTo(t, me, k).0 in room;
    }
  }

  lemma ClientBudget(t: seq<C.Slot>, me: Name, k: nat)
    requires k <= |t|
    ensures RoomForEot(C.SendUpTo(t, me, k).0)
  {
    var room := iset fs: seq<Frame> | RoomForEot(fs);
    forall fs: seq<Frame>, i: nat | fs in room && i < |t|
      ensures fs + Opt(C.SendSlot(t[i], me, i, SizeAll(fs)).0) in room
    {
      ClientTurnKeepsRoom(fs, t[i], me, i);
    }
    EachClientTurn(room, t, me, k);
  }

  lemma ServerTurnKeepsRoom(fs: seq<Frame>, sim: Sim, s: S.Slot, i: nat)
    requires RoomForEot(fs)
    ensures RoomForEot(fs + Opt(S.SendSlot(sim, s, i, SizeAll(fs)).0))
  {
    ServerTurnFits(sim, s, i, SizeAll(fs));
    TurnKeepsRoom(fs, S.SendSlot(sim, s, i, SizeAll(fs)).0);
  }

  lemma {:induction false} EachServerTurn(room: iset<seq<Frame>>, sim: Sim, t: seq<S.Slot>, k: nat)
    requires k <= |t| && [] in room
    requires forall fs: seq<Frame>, i: nat ::
      fs in room && i < |t| ==> fs + Opt(S.SendSlot(sim, t[i], i, SizeAll(fs)).0) in room
    ensures S.SendUpTo(sim, t, k).0 in room
  {
    if k > 0 {
      EachServerTurn(room, sim, t, k - 1);
      assert S.SendUpTo(sim, t, k).0 in room;
    }
  }

  lemma ServerBudget(sim: Sim, t: seq<S.Slot>, k: nat)
    requires k <= |t|
    ensures RoomForEot(S.SendUpTo(sim, t, k).0)
  {
    var room := iset fs: seq<Frame> | RoomForEot(fs);
    forall fs: seq<Frame>, i: nat | fs in room && i < |t|
      ensures fs + Opt(S.SendSlot(sim, t[i], i, SizeAll(fs)).0) in room
    {
      ServerTurnKeepsRoom(fs, sim, t[i], i);
    }
    EachServerTurn(room, sim, t, k);
  }

  /** A transmission with its end word is at most one word longer than the buffer, and fits it if its
      last frame is a link request or data. */
  lemma ClientTransmissionSize(t: seq<C.Slot>, me: Name)
    ensures var fs := C.SendUpTo(t, me, |t|).0;
      && SizeAll(fs) + 4 <= TCPBUFSIZE + 4
      && (fs == [] || Reserves(fs[|fs| - 1]) ==> SizeAll(fs) + 4 <= TCPBUFSIZE)
  {
    ClientBudget(t, me, |t|);
  }

  /** The excess is real: a byte array that leaves exactly room for an unlink request. */
  lemma UnlinkOverrunsByOneWord(c: C.Slot, u: C.Slot, me: Name)
    requires c.name != [] && c.status == Valid && c.ty == XPTYPE_BYTE_ARR
    requires |c.data| == |c.shadow| == TCPBUFSIZE - 108 && c.data[0] != c.shadow[0]
    requires u.name != [] && u.status == Dealloc
    ensures SizeAll(C.SendUpTo([c, u], me, 2).0) + 4 == TCPBUFSIZE + 4
  {
    var (fs, t) := C.SendUpTo([c, u], me, 1);
    ArrayFirst(c, u, me);
    SizeOfOneMore(fs, C.SendSlot(u, me, 1, SizeAll(fs)).0);
  }

  lemma ArrayFirst(c: C.Slot, u: C.Slot, me: Name)
    requires c.name != [] && c.status == Valid && c.ty == XPTYPE_BYTE_ARR
    requires |c.data| == |c.shadow| == TCPBUFSIZE - 108 && c.data[0] != c.shadow[0]
    ensures var (fs, t) := C.SendUpTo([c, u], me, 1); SizeAll(fs) == TCPBUFSIZE - 104 && t[1] == u
  {
    var o := C.SendSlot(c, me, 0, 0).0;
    assert ElemChanged(c.ty, c.precision, c.shadow[0], c.data[0]);
    assert C.SendUpTo([c, u], me, 0) == ([], [c, u]);
    assert C.SendUpTo([c, u], me, 1).0 == [] + Opt(o);
    SizeOfOneMore([], o);
  }

  lemma ServerTransmissionSize(sim: Sim, t: seq<S.Slot>)
    ensures var fs := S.SendUpTo(sim, t, |t|).0;
      && SizeAll(fs) + 4 <= TCPBUFSIZE + 4
      && (fs == [] || Reserves(fs[|fs| - 1]) ==> SizeAll(fs) + 4 <= TCPBUFSIZE)
  {
    ServerBudget(sim, t, |t|);
  }

  lemma ReservedEndFits(fs: seq<Frame>, o: Option<Frame>)
    requires EndFits(fs) && Fits(o, SizeAll(fs)) && (o.Some? ==> Reserves(o.value))
    ensures EndFits(fs + Opt(o))
  {
    SizeOfOneMore(fs, o);
    if o.None? { assert fs + Opt(o) == fs; }
  }

  lemma ClientTurnEndFits(fs: seq<Frame>, c: C.Slot, me: Name, i: nat)
    requires EndFits(fs) && (c.name != [] ==> c.status != Dealloc)
    ensures EndFits(fs + Opt(C.SendSlot(c, me, i, SizeAll(fs)).0))
  {
    ClientTurnFits(c, me, i, SizeAll(fs));
    ReservedEndFits(fs, C.SendSlot(c, me, i, SizeAll(fs)).0);
  }

  /** So the end word always fits, as long as nothing is being unlinked. */
  lemma ClientEndFits(t: seq<C.Slot>, me: Name)
    requires forall k :: 0 <= k < |t| && t[k].name != [] ==> t[k].status != Dealloc
    ensures EndFits(C.SendUpTo(t, me, |t|).0)
  {
    var room := iset fs: seq<Frame> | EndFits(fs);
    forall fs: seq<Frame>, i: nat | fs in room && i < |t|
      ensures fs + Opt(C.SendSlot(t[i], me, i, SizeAll(fs)).0) in room
    {
      ClientTurnEndFits(fs, t[i], me, i);
    }
    EachClientTurn(room, t, me, |t|);
  }

  lemma ServerTurnEndFits(fs: seq<Frame>, sim: Sim, s: S.Slot, i: nat)
    requires EndFits(fs) && (s.name != [] ==> s.status != Linking && s.status != Unlinking)
    ensures EndFits(fs + Opt(S.SendSlot(sim, s, i, SizeAll(fs)).0))
  {
    ServerTurnFits(sim, s, i, SizeAll(fs));
    ReservedEndFits(fs, S.SendSlot(sim, s, i, SizeAll(fs)).0);
  }

  /** At the plugin, as long as no subscription is being answered or ended. */
  lemma ServerEndFits(sim: Sim, t: seq<S.Slot>)
    requires forall k :: 0 <= k < |t| && t[k].name != [] ==> t[k].status != Linking && t[k].status != Unlinking
    ensures EndFits(S.SendUpTo(sim, t, |t|).0)
  {
    var room := iset fs: seq<Frame> | EndFits(fs);
    forall fs: seq<Frame>, i: nat | fs in room && i < |t|
      ensures fs + Opt(S.SendSlot(sim, t[i], i, SizeAll(fs)).0) in room
    {
      ServerTurnEndFits(fs, sim, t[i], i);
    }
    EachServerTurn(room, sim, t, |t|);
  }

  // ---------- deferral ----------

  /** A turn that writes nothing changes nothing, and what is due then is due, and the same, at any
      later turn with more room. */
  lemma ClientDefers(c: C.Slot, me: Name, i: nat, left: nat, less: nat)
    requires C.SendSlot(c, me, i, left).0.None? && less <= left
    ensures C.SendSlot(c, me, i, left).1 == c
    ensures C.SendSlot(c, me, i, less).0.Some? ==> C.SendSlot(c, me, i, less) == C.SendSlot(c, me, i, 0)
  {
  }

  lemma ServerDefers(sim: Sim, s: S.Slot, i: nat, left: nat, less: nat)
    requires S.SendSlot(sim, s, i, left).0.None? && less <= left
    ensures S.SendSlot(sim, s, i, left).1 == s
    ensures S.SendSlot(sim, s, i, less).0.Some? ==> S.SendSlot(sim, s, i, less) == S.SendSlot(sim, s, i, 0)
  {
  }

  // ---------- suppression over many cycles ----------

  /** The slot after one turn per simulator state, each with room, and the last value transmitted. */
  function Track(s: S.Slot, i: nat, sims: seq<Sim>, last: seq<nat>): (S.Slot, seq<nat>)
    decreases |sims|
  {
    if sims == [] then (s, last)
    else
      var (o, s') := S.SendSlot(sims[0], s, i, 0);
      Track(s', i, sims[1..], if o.Some? && o.value.Data? then o.value.vals else last)
  }

  predicate Tracked(s: S.Slot) {
    s.name != [] && s.status == Valid && S.Live(s) && Floating(s.ty) && HasPrecision(s.precision)
    && 8 + |s.data| * Width(s.ty) <= TCPBUFSIZE
  }

  /** Element by element, v is within the precision of the simulator, where that fits the cast. */
  predicate Follows(sim: Sim, s: S.Slot, v: seq<nat>)
    requires S.Live(s)
  {
    && |v| == |s.data|
    && forall j :: 0 <= j < |v| ==>
         var now := ValueOf(s.ty, S.ReadSlot(sim, s)[j]);
         FitsCast(s.precision, now) ==> Near(ValueOf(s.ty, v[j]), now, Pow10(s.precision))
  }

  lemma OneTurnFollows(sim: Sim, s: S.Slot, i: nat)
    requires Tracked(s) && WfSim(sim)
    ensures var (o, s') := S.SendSlot(sim, s, i, 0);
      Tracked(s') && s' == s.(data := s'.data) && Follows(sim, s', s'.data)
    ensures var (o, s') := S.SendSlot(sim, s, i, 0); s'.data == if o.Some? then o.value.vals else s.data
    ensures S.SendSlot(sim, s, i, 0).0.Some? ==> S.SendSlot(sim, s, i, 0).0.value.Data?
  {
    var (o, s') := S.SendSlot(sim, s, i, 0);
    var now := S.ReadSlot(sim, s);
    forall j | 0 <= j < |now|
      ensures var v := ValueOf(s.ty, now[j]);
        FitsCast(s.precision, v) ==> Near(ValueOf(s.ty, s'.data[j]), v, Pow10(s.precision))
    {
      SuppressionBoundExact(s.precision, ValueOf(s.ty, now[j]));
      assert !ElemChanged(s.ty, s.precision, s'.data[j], now[j]);
    }
  }

  /** The error does not accumulate: whatever the simulator does between the turns, after each turn the
      last transmitted value is within 10^precision of the current one. */
  lemma {:induction false} SuppressionNeverAccumulates(s: S.Slot, i: nat, sims: seq<Sim>, last: seq<nat>)
    requires Tracked(s) && s.data == last && sims != []
    requires forall k :: 0 <= k < |sims| ==> WfSim(sims[k])
    ensures var (s', last') := Track(s, i, sims, last);
      s'.data == last' && S.Live(s') && Follows(sims[|sims| - 1], s', last')
    decreases |sims|
  {
    OneTurnFollows(sims[0], s, i);
    var (o, s') := S.SendSlot(sims[0], s, i, 0);
    if |sims| > 1 {
      SuppressionNeverAccumulates(s', i, sims[1..], s'.data);
    } else {
      assert sims[1..] == [];
    }
  }

  // ---------- the same at the client ----------

  predicate ClientTracked(c: C.Slot) {
    c.name != [] && c.status == Valid && C.Live(c) && Floating(c.ty) && HasPrecision(c.precision)
    && 8 + |c.data| * Width(c.ty) <= TCPBUFSIZE
  }

  /** The slot after one turn per value the application writes, and the last value transmitted. */
  function ClientTrack(c: C.Slot, me: Name, i: nat, writes: seq<seq<nat>>, last: seq<nat>): (C.Slot, seq<nat>)
    decreases |writes|
  {
    if writes == [] then (c, last)
    else
      var (o, c') := C.SendSlot(c.(data := writes[0]), me, i, 0);
      ClientTrack(c', me, i, writes[1..], if o.Some? && o.value.Data? then o.value.vals else last)
  }

  /** Element by element, v is within the precision of what the application has written, where that fits the
      cast. */
  predicate ClientFollows(c: C.Slot, v: seq<nat>) {
    && |v| == |c.data|
    && forall j :: 0 <= j < |v| ==>
         var now := ValueOf(c.ty, c.data[j]);
         FitsCast(c.precision, now) ==> Near(ValueOf(c.ty, v[j]), now, Pow10(c.precision))
  }

  lemma OneTurnFollowsClient(c: C.Slot, me: Name, i: nat)
    requires ClientTracked(c)
    ensures var (o, c') := C.SendSlot(c, me, i, 0);
      && c' == c.(shadow := c'.shadow) && ClientTracked(c') && ClientFollows(c', c'.shadow)
      && c'.shadow == (if o.Some? then o.value.vals else c.shadow) && (o.Some? ==> o.value.Data?)
  {
    var (o, c') := C.SendSlot(c, me, i, 0);
    forall j | 0 <= j < |c.data|
      ensures var v := ValueOf(c.ty, c.data[j]);
        FitsCast(c.precision, v) ==> Near(ValueOf(c.ty, c'.shadow[j]), v, Pow10(c.precision))
    {
      SuppressionBoundExact(c.precision, ValueOf(c.ty, c.data[j]));
      assert !ElemChanged(c.ty, c.precision, c'.shadow[j], c.data[j]);
    }
  }

  /** Whatever the application writes between the turns, after each turn the last transmitted value is within
      10^precision of the one written last. */
  lemma {:induction false} ClientSuppressionNeverAccumulates(c: C.Slot, me: Name, i: nat, writes: seq<seq<nat>>, last: seq<nat>)
    requires ClientTracked(c) && c.shadow == last && writes != []
    requires forall k :: 0 <= k < |writes| ==> WfVals(c.ty, |c.data|, writes[k])
    ensures var (c', last') := ClientTrack(c, me, i, writes, last);
      c'.shadow == last' && c'.data == writes[|writes| - 1] && ClientFollows(c', last')
    decreases |writes|
  {
    var d := c.(data := writes[0]);
    OneTurnFollowsClient(d, me, i);
    var (o, c') := C.SendSlot(d, me, i, 0);
    if |writes| > 1 {
      ClientSuppressionNeverAccumulates(c', me, i, writes[1..], c'.shadow);
    } else {
      assert writes[1..] == [];
    }
  }
}
