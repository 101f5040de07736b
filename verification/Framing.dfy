/** Frames and bytes tell the same story: as long as every data frame reaches a slot of the sender's
type and size, the table-driven decoders read exactly the frames that were written. */
module Framing {
  import opened Wire
  import opened Dataref
  import opened Simulator
  import opened Protocol
  import C = ClientTable
  import S = ServerTable

  // ---------- codec round trip ----------

  /** Each frame is expected by the plugin's table as it stands when the frame is reached. */
  predicate ServerFramed(c: S.Conn, fs: seq<Frame>)
    decreases |fs|
  {
    fs != [] ==> Expected(ServerSide, S.Shapes(c.table), fs[0]) && ServerFramed(S.Apply(c, fs[0]), fs[1..])
  }

  predicate ClientFramed(t: seq<C.Slot>, fs: seq<Frame>)
    decreases |fs|
  {
    fs != [] ==> Expected(ClientSide, C.Shapes(t), fs[0]) && ClientFramed(C.Apply(t, fs[0]), fs[1..])
  }

  /** Decoding the bytes of expected frames performs just these frames and goes on behind them. */
  lemma {:induction false} ServerDecodesFrames(c: S.Conn, fs: seq<Frame>, tail: seq<byte>)
    requires WfFrames(fs) && ServerFramed(c, fs) && |tail| >= 4
    ensures S.Decode(c, EncodeAll(fs) + tail) == S.Decode(S.ApplyAll(c, fs), tail)
    decreases |fs|
  {
    if fs == [] {
      assert EncodeAll(fs) + tail == tail;
    } else {
      var rest := EncodeAll(fs[1..]) + tail;
      Regroup(Bytes(fs[0]), EncodeAll(fs[1..]), tail);
      NextOfBytes(ServerSide, S.Shapes(c.table), fs[0], rest);
      ServerDecodesFrames(S.Apply(c, fs[0]), fs[1..], tail);
    }
  }

  lemma {:induction false} ClientDecodesFrames(t: seq<C.Slot>, gone: bool, fs: seq<Frame>, tail: seq<byte>)
    requires WfFrames(fs) && ClientFramed(t, fs)
    requires forall k :: 0 <= k < |fs| ==> !fs[k].Disconnect?
    ensures C.Decode(t, gone, EncodeAll(fs) + tail) == C.Decode(C.ApplyAll(t, fs), gone, tail)
    decreases |fs|
  {
    if fs == [] {
      assert EncodeAll(fs) + tail == tail;
    } else {
      var rest := EncodeAll(fs[1..]) + tail;
      Regroup(Bytes(fs[0]), EncodeAll(fs[1..]), tail);
      NextOfBytes(ClientSide, C.Shapes(t), fs[0], rest);
      ClientDecodesFrames(C.Apply(t, fs[0]), gone, fs[1..], tail);
    }
  }

  lemma EotEndsDecoding(side: Side, shapes: seq<Shape>)
    ensures NextFrame(side, shapes, Word(MARK_EOT)) == (Eot, [])
  {
    NextOfBytes(side, shapes, Eot, []);
    assert Bytes(Eot) + [] == Word(MARK_EOT);
  }

  lemma ServerCodecRoundTrip(c: S.Conn, fs: seq<Frame>)
    requires WfFrames(fs) && ServerFramed(c, fs)
    ensures S.Decode(c, Transmission(fs)) == S.ApplyAll(c, fs)
  {
    ServerDecodesFrames(c, fs, Word(MARK_EOT));
    EotEndsDecoding(ServerSide, S.Shapes(S.ApplyAll(c, fs).table));
  }

  lemma ClientCodecRoundTrip(t: seq<C.Slot>, fs: seq<Frame>)
    requires WfFrames(fs) && ClientFramed(t, fs)
    requires forall k :: 0 <= k < |fs| ==> !fs[k].Disconnect?
    ensures C.Receive(t, Transmission(fs)) == C.ApplyAll(t, fs)
  {
    ClientDecodesFrames(t, false, fs, Word(MARK_EOT));
    EotEndsDecoding(ClientSide, C.Shapes(C.ApplyAll(t, fs)));
  }

  // ---------- what is in flight in a reachable state ----------

  lemma BusyMeansNamed(i: nat, l: Local)
    requires Phase(i, l.c, l.x, l.up, l.down) && (l.up != [] || l.down != [])
    ensures l.c.name != []
  {
    if l.c.status == Valid { assert l.x.name != []; }
  }

  lemma UpInPhase(i: nat, l: Local, f: Frame)
    requires Phase(i, l.c, l.x, l.up, l.down) && C.WfSlot(l.c) && i < MAX_OFFSETS && f in l.up
    ensures WfFrame(f) && !f.LinkReply?
  {
    if LeaveSent(i, l.c, l.x, l.up, l.down) {
      assert l.up == l.up[..|l.up| - 1] + [Unlink(i, l.c.name)];
    }
  }

  lemma DownInPhase(i: nat, l: Local, f: Frame)
    requires Phase(i, l.c, l.x, l.up, l.down) && C.WfSlot(l.c) && i < MAX_OFFSETS && f in l.down
    ensures WfFrame(f) && !f.Link?
  {
    if LeaveConfirmed(i, l.c, l.x, l.up, l.down) {
      assert l.down == l.down[..|l.down| - 1] + [Unlink(i, l.c.name)];
    } else if Confirmed(i, l.c, l.x, l.up, l.down) {
      assert l.down == [l.down[0]] + l.down[1..];
    }
  }

  lemma UpFrameIsWellFormed(s: State, k: nat)
    requires Inv(s) && k < |s.up|
    ensures WfFrame(s.up[k]) && !s.up[k].LinkReply?
  {
    var f := s.up[k];
    assert f in s.up + s.down;
    ProjHas(s.up, f, f.offset);
    assert InPhase(s, f.offset) && C.WfSlot(CAt(s, f.offset));
    BusyMeansNamed(f.offset, At(s, f.offset));
    UpInPhase(f.offset, At(s, f.offset), f);
  }

  lemma DownFrameIsWellFormed(s: State, k: nat)
    requires Inv(s) && k < |s.down|
    ensures WfFrame(s.down[k]) && !s.down[k].Link? && !s.down[k].Disconnect?
    ensures s.down[k].offset < |s.client|
  {
    var f := s.down[k];
    assert f in s.up + s.down;
    ProjHas(s.down, f, f.offset);
    assert InPhase(s, f.offset) && C.WfSlot(CAt(s, f.offset));
    BusyMeansNamed(f.offset, At(s, f.offset));
    DownInPhase(f.offset, At(s, f.offset), f);
  }

  /** Towards the plugin, framing is never lost: not by unlinking, not by reconnecting. */
  lemma {:induction false} UpIsFramed(s: State)
    requires Inv(s)
    ensures WfFrames(s.up) && ServerFramed(s.conn, s.up)
    decreases |s.up|
  {
    forall k | 0 <= k < |s.up|
      ensures WfFrame(s.up[k])
    {
      UpFrameIsWellFormed(s, k);
    }
    if s.up != [] {
      UpFrameIsWellFormed(s, 0);
      if s.up[0].Data? { DataFitsItsSlot(s, s.up[0].offset); }
      assert s.up[0] in s.up + s.down;
      NextKeepsInv(s, ServerReceive);
      UpIsFramed(Next(s, ServerReceive));
    }
  }

  /** A data frame on its way to a slot the application has unlinked. */
  predicate Stray(t: seq<C.Slot>, f: Frame) {
    f.Data? && f.offset < |t| && !Known(t[f.offset].ty)
  }

  predicate NoStray(s: State) {
    forall k :: 0 <= k < |s.down| ==> !Stray(s.client, s.down[k])
  }

  lemma HeadIsExpected(s: State)
    requires Inv(s) && s.down != []
    ensures Expected(ClientSide, C.Shapes(s.client), s.down[0]) <==> !Stray(s.client, s.down[0])
  {
    var f := s.down[0];
    assert f in s.up + s.down;
    DownFrameIsWellFormed(s, 0);
    var i := f.offset;
    assert InPhase(s, i) && C.WfSlot(CAt(s, i));
    ClientReceiveLocal(s, i);
    var l := At(s, i);
    if Established(i, l.c, l.x, l.up, l.down) {
      assert f.Data? ==> DataFor(i, l.x, l.down[0]);
    }
  }

  lemma NoStrayHeadAndTail(s: State)
    requires s.down != []
    ensures NoStray(s) <==> !Stray(s.client, s.down[0]) && NoStray(Protocol.Next(s, ClientReceive))
  {
    var s' := Protocol.Next(s, ClientReceive);
    assert forall i :: 0 <= i < |s.client| ==> s'.client[i].ty == s.client[i].ty;
    assert forall k :: 0 <= k < |s'.down| ==> Stray(s'.client, s'.down[k]) == Stray(s.client, s.down[k + 1]);
    if !Stray(s.client, s.down[0]) && NoStray(s') {
      forall k | 0 <= k < |s.down|
        ensures !Stray(s.client, s.down[k])
      {
        if k > 0 { assert !Stray(s'.client, s'.down[k - 1]); }
      }
    }
  }

  /** Towards the client, the decoder stays in step exactly if no data frame is in flight to an
      unlinked slot. */
  lemma {:induction false} DownIsFramedUnlessStray(s: State)
    requires Inv(s)
    ensures WfFrames(s.down) && (ClientFramed(s.client, s.down) <==> NoStray(s))
    ensures forall k :: 0 <= k < |s.down| ==> !s.down[k].Disconnect?
    decreases |s.down|
  {
    forall k | 0 <= k < |s.down|
      ensures WfFrame(s.down[k]) && !s.down[k].Disconnect?
    {
      DownFrameIsWellFormed(s, k);
    }
    if s.down != [] {
      HeadIsExpected(s);
      NextKeepsInv(s, ClientReceive);
      var s' := Next(s, ClientReceive);
      DownIsFramedUnlessStray(s');
      NoStrayHeadAndTail(s);
    }
  }

  /** In every reachable state the bytes in flight towards the plugin decode to exactly the frames in
      flight, and so do those towards the client unless one is on its way to an unlinked slot. */
  lemma ReachableFraming(me: Name, sim: Sim, store: seq<S.Custom>, steps: seq<Step>)
    requires WfName(me) && WfSim(sim) && SaneRun(Init(me, sim, store), steps)
    ensures var s := Run(Init(me, sim, store), steps);
      && WfFrames(s.up) && WfFrames(s.down)
      && S.Decode(s.conn, Transmission(s.up)) == S.ApplyAll(s.conn, s.up)
      && (ClientFramed(s.client, s.down) <==> NoStray(s))
      && (NoStray(s) ==> C.Receive(s.client, Transmission(s.down)) == C.ApplyAll(s.client, s.down))
  {
    var s := Run(Init(me, sim, store), steps);
    ReachableInv(me, sim, store, steps);
    UpIsFramed(s);
    DownIsFramedUnlessStray(s);
    ServerCodecRoundTrip(s.conn, s.up);
    if NoStray(s) {
      ClientCodecRoundTrip(s.client, s.down);
    }
  }

  // ---------- which steps put framing at risk ----------

  /** Unlinking is quiet if nothing is in flight for the name; the plugin is quiet if it does not
      send a value to a slot that is being unlinked. */
  predicate Quiet(s: State, step: Step) {
    match step
    case AppUnlink(name) =>
      name != [] ==> forall k :: 0 <= k < |s.down| && s.down[k].Data? && s.down[k].offset < |s.client| ==>
        s.client[s.down[k].offset].name != name
    case ServerSend(i, left) =>
      i < |s.conn.table| && i < |s.client| && !Known(s.client[i].ty) ==>
        var o := S.SendSlot(s.conn.sim, s.conn.table[i], i, left).0; o.Some? ==> !o.value.Data?
    case _ => true
  }

  /** Values of this type and size never travel towards the client: those of commands, and arrays that do not
      fit the send buffer. */
  predicate Mute(ty: int, n: nat) { Command(ty) || 8 + n * Width(ty) > TCPBUFSIZE }

  /** The plugin sends no value that is mute, or has not changed. */
  lemma QuietWhenUnchanged(s: State, i: nat, left: nat)
    requires i < |s.conn.table|
    requires var x := s.conn.table[i];
      x.name == [] || Mute(x.ty, |x.data|) || (S.Live(x) && !Changed(x.ty, x.precision, x.data, S.ReadSlot(s.conn.sim, x)))
    ensures Quiet(s, ServerSend(i, left))
  {
  }

  lemma LinkNoStray(s: State, d: Desc)
    requires Inv(s) && NoStray(s)
    ensures NoStray(Protocol.Next(s, AppLink(d)))
  {
    var s' := Protocol.Next(s, AppLink(d));
    if WfDesc(d) {
      forall k | 0 <= k < |s'.down|
        ensures !Stray(s'.client, s'.down[k])
      {
        assert !Stray(s.client, s.down[k]);
        DownFrameIsWellFormed(s, k);
        C.LinkWritesOneFreeSlot(s.client, d, s.down[k].offset);
      }
    }
  }

  /** The condition is exact: a step keeps the stream to the client in step if and only if it is
      quiet. */
  lemma FramingKeptIffQuiet(s: State, step: Step)
    requires Inv(s) && Sane(s, step) && NoStray(s)
    ensures NoStray(Protocol.Next(s, step)) <==> Quiet(s, step)
  {
    var s' := Protocol.Next(s, step);
    match step
    case AppLink(d) => LinkNoStray(s, d);
    case AppUnlink(name) =>
      forall k | 0 <= k < |s.down|
        ensures Stray(s'.client, s'.down[k]) <==>
          name != [] && s.down[k].Data? && s.down[k].offset < |s.client| && s.client[s.down[k].offset].name == name
      {
        assert !Stray(s.client, s.down[k]);
      }
    case ServerSend(i, left) =>
      if i < |s.conn.table| {
        var o := S.SendSlot(s.conn.sim, s.conn.table[i], i, left).0;
        assert forall k :: 0 <= k < |s.down| ==> s'.down[k] == s.down[k] && !Stray(s.client, s.down[k]);
        if o.Some? {
          assert s'.down[|s.down|] == o.value;
        }
      }
    case ClientReceive => if s.down != [] { NoStrayHeadAndTail(s); }
    case AppWrite(i, vals) => SameTypesNoStray(s, s');
    case ClientSend(i, left) => SameTypesNoStray(s, s');
    case ServerReceive =>
    case SimChange(sim) =>
    case Reconnect =>
  }

  lemma SameTypesNoStray(s: State, s': State)
    requires NoStray(s) && s'.down == s.down && |s'.client| == |s.client|
    requires forall i :: 0 <= i < |s.client| ==> s'.client[i].ty == s.client[i].ty
    ensures NoStray(s')
  {
    forall k | 0 <= k < |s'.down|
      ensures !Stray(s'.client, s'.down[k])
    {
      assert !Stray(s.client, s.down[k]);
    }
  }

  predicate QuietRun(s: State, steps: seq<Step>)
    decreases |steps|
  {
    steps != [] ==> Quiet(s, steps[0]) && QuietRun(Protocol.Next(s, steps[0]), steps[1..])
  }

  /** With quiet unlinking framing holds in every state of a run. */
  lemma {:induction false} QuietRunKeepsFraming(s: State, steps: seq<Step>)
    requires Inv(s) && SaneRun(s, steps) && QuietRun(s, steps) && NoStray(s)
    ensures NoStray(Run(s, steps)) && ClientFramed(Run(s, steps).client, Run(s, steps).down)
    decreases |steps|
  {
    if steps == [] {
      DownIsFramedUnlessStray(s);
    } else {
      FramingKeptIffQuiet(s, steps[0]);
      NextKeepsInv(s, steps[0]);
      QuietRunKeepsFraming(Protocol.Next(s, steps[0]), steps[1..]);
    }
  }

  /** A data frame about to reach the client finds a valid slot that both sides describe alike, with the
      frame's type and element count, unless the application has unlinked the slot. */
  lemma DownDataFitsItsSlot(s: State, i: nat)
    requires Inv(s) && s.down != [] && s.down[0].Data? && s.down[0].offset == i && !Stray(s.client, s.down[0])
    ensures i < |s.client| && s.client[i].status == Valid && i < |s.conn.table|
    ensures C.DescOf(s.client[i]) == S.DescOf(s.conn.table[i])
    ensures s.down[0].ty == s.client[i].ty && WfVals(s.client[i].ty, |s.client[i].data|, s.down[0].vals)
  {
    DownFrameIsWellFormed(s, 0);
    assert InPhase(s, i) && C.WfSlot(CAt(s, i));
    ClientReceiveLocal(s, i);
    var l := At(s, i);
    assert Established(i, l.c, l.x, l.up, l.down);
    assert DataFor(i, l.x, l.down[0]);
  }

  // ---------- runs that unlink ----------

  /** The plugin has no value to send for the slot: it is mute, or has not changed and nothing can change it
      any more. */
  predicate Still(sim: Sim, x: S.Slot, up: seq<Frame>) {
    x.status == Valid && x.name != [] ==>
      Mute(x.ty, |x.data|) || (S.Live(x) && !Changed(x.ty, x.precision, x.data, S.ReadSlot(sim, x)) && NoData(up))
  }

  predicate Hushed(sim: Sim, l: Local) {
    Gone(l.c) ==> NoData(l.down) && Still(sim, l.x, l.up)
  }

  /** A slot may be unlinked if it is a command, or at rest: no value of it is in flight, and the plugin
      has none to send. */
  predicate AtRest(sim: Sim, l: Local) {
    Command(l.c.ty) || (NoData(l.down) && l.x.name != [] && Still(sim, l.x, l.up))
  }

  /** The plugin sends the slot's value when it changes. */
  predicate Sending(x: S.Slot) { x.status == Valid && x.name != [] && S.Live(x) && !Mute(x.ty, |x.data|) }

  /** The application unlinks what is at rest, and nothing changes a value that is being unlinked. */
  ghost predicate Calm(s: State, step: Step) {
    && (step.AppUnlink? && step.name != [] ==>
          forall i :: 0 <= i < |s.client| && s.client[i].name == step.name ==> AtRest(s.conn.sim, At(s, i)))
    && (forall i: nat :: Gone(CAt(s, i)) && Sending(SAt(s, i)) ==>
          S.ReadSlot(Protocol.Next(s, step).conn.sim, SAt(s, i)) == S.ReadSlot(s.conn.sim, SAt(s, i)))
  }

  lemma HushedIsNoStray(s: State)
    requires Inv(s) && forall i: nat :: Hushed(s.conn.sim, At(s, i))
    ensures NoStray(s)
  {
    forall k | 0 <= k < |s.down|
      ensures !Stray(s.client, s.down[k])
    {
      var f := s.down[k];
      if f.Data? {
        DownFrameIsWellFormed(s, k);
        ProjHas(s.down, f, f.offset);
        assert InPhase(s, f.offset) && Hushed(s.conn.sim, At(s, f.offset));
        BusyMeansNamed(f.offset, At(s, f.offset));
      }
    }
  }

  lemma UnlinkHushes(i: nat, sim: Sim, l: Local)
    requires Phase(i, l.c, l.x, l.up, l.down) && l.c.status == Valid && AtRest(sim, l)
    ensures Hushed(sim, l.(c := C.UnlinkSlot(l.c)))
  {
    assert Established(i, l.c, l.x, l.up, l.down);
  }

  lemma ClientTurnHushed(i: nat, sim: Sim, l: Local, me: Name, left: nat)
    requires Phase(i, l.c, l.x, l.up, l.down) && Hushed(sim, l)
    ensures var (o, c) := C.SendSlot(l.c, me, i, left); Hushed(sim, l.(c := c, up := l.up + Opt(o)))
  {
  }

  lemma ServerTurnHushed(i: nat, sim: Sim, l: Local, left: nat)
    requires Phase(i, l.c, l.x, l.up, l.down) && Hushed(sim, l)
    ensures var (o, x) := S.SendSlot(sim, l.x, i, left); Hushed(sim, l.(x := x, down := l.down + Opt(o)))
  {
  }

  lemma HearingHushed(i: nat, sim: Sim, l: Local)
    requires Phase(i, l.c, l.x, l.up, l.down) && Hushed(sim, l) && l.down != []
    ensures Hushed(sim, l.(c := CStep(l.c, l.down[0]), down := l.down[1..]))
  {
  }

  lemma DataDeliveryHushed(i: nat, conn: S.Conn, l: Local)
    requires Phase(i, l.c, l.x, l.up, l.down) && Gone(l.c) && S.At(conn.table, i) == l.x
    requires Hushed(conn.sim, l) && l.up != [] && l.up[0].Data?
    ensures var c := S.Apply(conn, l.up[0]); Hushed(c.sim, l.(x := S.At(c.table, i), up := l.up[1..]))
  {
    if LeaveSent(i, l.c, l.x, l.up, l.down) {
      assert l.up[0] == l.up[..|l.up| - 1][0];
    }
    assert DataFor(i, l.x, l.up[0]) && Ready(l.x) && Mute(l.x.ty, |l.x.data|);
    StoreKeepsReady(i, conn, l.up[0]);
  }

  lemma RequestDeliveryHushed(i: nat, conn: S.Conn, l: Local)
    requires Phase(i, l.c, l.x, l.up, l.down) && C.WfSlot(l.c) && SafeSlot(l.c) && Gone(l.c) && S.At(conn.table, i) == l.x
    requires Hushed(conn.sim, l) && l.up != [] && l.up[0].Link?
    ensures var c := S.Apply(conn, l.up[0]); Hushed(c.sim, l.(x := S.At(c.table, i), up := l.up[1..]))
  {
    assert Requested(i, l.c, l.x, l.up, l.down);
    LinkRequestKeepsPhase(i, conn, l.c, l.up, l.down);
    assert S.Apply(conn, l.up[0]) == S.LinkRequest(conn, i, l.up[0].desc);
  }

  lemma DeliveryHushed(i: nat, conn: S.Conn, l: Local)
    requires Phase(i, l.c, l.x, l.up, l.down) && C.WfSlot(l.c) && SafeSlot(l.c)
    requires Hushed(conn.sim, l) && l.up != [] && S.At(conn.table, i) == l.x
    ensures var c := S.Apply(conn, l.up[0]); Hushed(c.sim, l.(x := S.At(c.table, i), up := l.up[1..]))
  {
    if Gone(l.c) {
      if l.up[0].Data? {
        DataDeliveryHushed(i, conn, l);
      } else if l.up[0].Link? {
        RequestDeliveryHushed(i, conn, l);
      }
    }
  }

  lemma SameReadingHushed(sim: Sim, sim': Sim, l: Local)
    requires Hushed(sim, l)
    requires Gone(l.c) && Sending(l.x) ==> S.ReadSlot(sim', l.x) == S.ReadSlot(sim, l.x)
    ensures Hushed(sim', l)
  {
  }

  lemma TurnHushes(s: State, step: Step, i: nat)
    requires Inv(s) && Hushed(s.conn.sim, At(s, i)) && (step.ClientSend? || step.ServerSend?)
    ensures Hushed(s.conn.sim, At(Protocol.Next(s, step), i))
  {
    var l := At(s, i);
    assert InPhase(s, i);
    match step
    case ClientSend(k, left) =>
      if k < |s.client| {
        ClientSendLocal(s, k, left, i);
        ClientTurnHushed(i, s.conn.sim, l, s.me, left);
      }
    case ServerSend(k, left) =>
      if k < |s.conn.table| {
        ServerSendLocal(s, k, left, i);
        ServerTurnHushed(i, s.conn.sim, l, left);
      }
  }

  lemma CallHushes(s: State, step: Step, i: nat)
    requires Inv(s) && Sane(s, step) && Calm(s, step) && Hushed(s.conn.sim, At(s, i))
    requires step.AppLink? || step.AppUnlink? || step.AppWrite?
    ensures Hushed(s.conn.sim, At(Protocol.Next(s, step), i))
  {
    var l, s' := At(s, i), Protocol.Next(s, step);
    assert InPhase(s, i) && C.WfSlot(l.c);
    assert At(s', i) == l.(c := CAt(s', i));
    match step
    case AppLink(d) => if WfDesc(d) { C.LinkWritesOneFreeSlot(s.client, d, i); }
    case AppUnlink(name) => if name != [] && l.c.name == name { UnlinkHushes(i, s.conn.sim, l); }
    case AppWrite(k, vals) =>
  }

  lemma ReceivingHushes(s: State, step: Step, i: nat)
    requires Inv(s) && Calm(s, step) && Hushed(s.conn.sim, At(s, i)) && (step.ClientReceive? || step.ServerReceive?)
    ensures Hushed(Protocol.Next(s, step).conn.sim, At(Protocol.Next(s, step), i))
  {
    var l := At(s, i);
    assert InPhase(s, i) && C.WfSlot(l.c) && SafeSlot(l.c);
    SameReadingHushed(s.conn.sim, Protocol.Next(s, step).conn.sim, l);
    match step
    case ClientReceive =>
      if s.down != [] {
        ClientReceiveLocal(s, i);
        if Addresses(s.down[0], i) { HearingHushed(i, s.conn.sim, l); }
      }
    case ServerReceive =>
      if s.up != [] {
        ServerReceiveLocal(s, i);
        if Addresses(s.up[0], i) { DeliveryHushed(i, s.conn, l); }
      }
  }

  lemma StepHushes(s: State, step: Step, i: nat)
    requires Inv(s) && Sane(s, step) && Calm(s, step) && Hushed(s.conn.sim, At(s, i))
    ensures Hushed(Protocol.Next(s, step).conn.sim, At(Protocol.Next(s, step), i))
  {
    match step
    case ClientSend(_, _) => TurnHushes(s, step, i);
    case ServerSend(_, _) => TurnHushes(s, step, i);
    case ClientReceive => ReceivingHushes(s, step, i);
    case ServerReceive => ReceivingHushes(s, step, i);
    case SimChange(sim) =>
      SameReadingHushed(s.conn.sim, Protocol.Next(s, step).conn.sim, At(s, i));
      assert At(Protocol.Next(s, step), i) == At(s, i);
    case Reconnect =>
    case _ => CallHushes(s, step, i);
  }

  ghost predicate CalmRun(s: State, steps: seq<Step>)
    decreases |steps|
  {
    steps != [] ==> Calm(s, steps[0]) && CalmRun(Protocol.Next(s, steps[0]), steps[1..])
  }

  /** Over every run that unlinks only what is at rest and then leaves it alone, framing is kept. */
  lemma {:induction false} CalmRunKeepsFraming(s: State, steps: seq<Step>)
    requires Inv(s) && SaneRun(s, steps) && CalmRun(s, steps) && forall i: nat :: Hushed(s.conn.sim, At(s, i))
    ensures NoStray(Run(s, steps)) && ClientFramed(Run(s, steps).client, Run(s, steps).down)
    decreases |steps|
  {
    if steps == [] {
      HushedIsNoStray(s);
      DownIsFramedUnlessStray(s);
    } else {
      var s' := Protocol.Next(s, steps[0]);
      NextKeepsInv(s, steps[0]);
      forall i: nat
        ensures Hushed(s'.conn.sim, At(s', i))
      {
        StepHushes(s, steps[0], i);
      }
      CalmRunKeepsFraming(s', steps[1..]);
    }
  }

  // ---------- runs that unlink only what is mute ----------

  /** Every slot of the name is mute: what a caller of unlink_dataref can see. */
  predicate UnlinksMute(s: State, step: Step) {
    step.AppUnlink? && step.name != [] ==>
      forall i :: 0 <= i < |s.client| && s.client[i].name == step.name ==> Mute(s.client[i].ty, |s.client[i].data|)
  }

  predicate MuteUnlinks(s: State, steps: seq<Step>)
    decreases |steps|
  {
    steps != [] ==> UnlinksMute(s, steps[0]) && MuteUnlinks(Protocol.Next(s, steps[0]), steps[1..])
  }

  /** Every value in flight once fitted the send buffer. */
  predicate Small(fs: seq<Frame>) {
    forall f :: f in fs && f.Data? ==> !Mute(f.ty, |f.vals|)
  }

  lemma StepKeepsSmall(s: State, step: Step)
    requires Small(s.down)
    ensures Small(Protocol.Next(s, step).down)
  {
  }

  lemma DownHasShape(i: nat, l: Local, f: Frame)
    requires Phase(i, l.c, l.x, l.up, l.down) && C.WfSlot(l.c) && Known(l.c.ty) && f in l.down && f.Data?
    ensures f.ty == l.c.ty && |f.vals| == |l.c.data|
  {
    if Confirmed(i, l.c, l.x, l.up, l.down) {
      assert l.down == [l.down[0]] + l.down[1..];
    }
  }

  lemma MuteHasNoData(i: nat, l: Local)
    requires Phase(i, l.c, l.x, l.up, l.down) && C.WfSlot(l.c) && Known(l.c.ty) && Mute(l.c.ty, |l.c.data|) && Small(l.down)
    ensures NoData(l.down)
  {
    forall k | 0 <= k < |l.down|
      ensures !l.down[k].Data?
    {
      if l.down[k].Data? { DownHasShape(i, l, l.down[k]); }
    }
  }

  lemma {:induction false} ProjIsSmall(ch: seq<Frame>, i: nat)
    requires Small(ch)
    ensures Small(Proj(ch, i))
    decreases |ch|
  {
    if ch != [] { ProjIsSmall(ch[1..], i); }
  }

  /** Unlinking what is mute is quiet at any time. */
  lemma UnlinkingMuteIsQuiet(s: State, name: Name)
    requires Inv(s) && Small(s.down) && Sane(s, AppUnlink(name)) && UnlinksMute(s, AppUnlink(name))
    ensures Quiet(s, AppUnlink(name))
  {
    forall k | 0 <= k < |s.down| && s.down[k].Data? && s.down[k].offset < |s.client| && name != []
      ensures s.client[s.down[k].offset].name != name
    {
      var f := s.down[k];
      if s.client[f.offset].name == name {
        ProjHas(s.down, f, f.offset);
        ProjIsSmall(s.down, f.offset);
        ValidMuteIsSilent(s, f.offset);
      }
    }
  }

  lemma ValidMuteIsSilent(s: State, i: nat)
    requires Inv(s) && Small(s.down) && CAt(s, i).status == Valid && CAt(s, i).name != [] && Mute(CAt(s, i).ty, |CAt(s, i).data|)
    ensures NoData(Proj(s.down, i)) && Mute(SAt(s, i).ty, |SAt(s, i).data|)
  {
    var l := At(s, i);
    assert InPhase(s, i) && C.WfSlot(l.c);
    assert Established(i, l.c, l.x, l.up, l.down);
    ProjIsSmall(s.down, i);
    MuteHasNoData(i, l);
  }

  /** A slot being unlinked is, or was, mute at the plugin. */
  predicate LeftMute(l: Local) {
    Gone(l.c) ==> l.x.name == [] || Mute(l.x.ty, |l.x.data|)
  }

  lemma TurnKeepsLeftMute(s: State, step: Step, i: nat)
    requires LeftMute(At(s, i)) && (step.ClientSend? || step.ServerSend?)
    ensures LeftMute(At(Protocol.Next(s, step), i))
  {
    match step
    case ClientSend(k, left) => if k < |s.client| { ClientSendLocal(s, k, left, i); }
    case ServerSend(k, left) => if k < |s.conn.table| { ServerSendLocal(s, k, left, i); }
  }

  lemma UnlinkKeepsLeftMute(s: State, name: Name, i: nat)
    requires Inv(s) && Small(s.down) && Sane(s, AppUnlink(name)) && UnlinksMute(s, AppUnlink(name)) && LeftMute(At(s, i))
    ensures LeftMute(At(Protocol.Next(s, AppUnlink(name)), i))
  {
    var l, s' := At(s, i), Protocol.Next(s, AppUnlink(name));
    if name != [] && l.c.name == name { ValidMuteIsSilent(s, i); }
    assert At(s', i) == l.(c := CAt(s', i));
  }

  lemma LinkKeepsLeftMute(s: State, d: Desc, i: nat)
    requires Inv(s) && LeftMute(At(s, i))
    ensures LeftMute(At(Protocol.Next(s, AppLink(d)), i))
  {
    var l, s' := At(s, i), Protocol.Next(s, AppLink(d));
    assert InPhase(s, i) && C.WfSlot(l.c);
    if WfDesc(d) { C.LinkWritesOneFreeSlot(s.client, d, i); }
    assert At(s', i) == l.(c := CAt(s', i));
  }

  lemma ReceivingKeepsLeftMute(s: State, step: Step, i: nat)
    requires Inv(s) && LeftMute(At(s, i)) && (step.ClientReceive? || step.ServerReceive?)
    ensures LeftMute(At(Protocol.Next(s, step), i))
  {
    var l := At(s, i);
    assert InPhase(s, i);
    match step
    case ClientReceive => if s.down != [] { ClientReceiveLocal(s, i); }
    case ServerReceive =>
      if s.up != [] {
        ServerReceiveLocal(s, i);
        if Addresses(s.up[0], i) { DeliveryKeepsLeftMute(i, s.conn, l); }
      }
  }

  lemma StepKeepsLeftMute(s: State, step: Step, i: nat)
    requires Inv(s) && Small(s.down) && Sane(s, step) && UnlinksMute(s, step) && LeftMute(At(s, i))
    ensures LeftMute(At(Protocol.Next(s, step), i))
  {
    var l, s' := At(s, i), Protocol.Next(s, step);
    match step
    case AppLink(d) => LinkKeepsLeftMute(s, d, i);
    case AppUnlink(name) => UnlinkKeepsLeftMute(s, name, i);
    case AppWrite(k, vals) => assert At(s', i) == l.(c := CAt(s', i));
    case ClientSend(_, _) => TurnKeepsLeftMute(s, step, i);
    case ServerSend(_, _) => TurnKeepsLeftMute(s, step, i);
    case ClientReceive => ReceivingKeepsLeftMute(s, step, i);
    case ServerReceive => ReceivingKeepsLeftMute(s, step, i);
    case SimChange(sim) => assert At(s', i) == l;
    case Reconnect =>
  }

  lemma RequestKeepsLeftMute(i: nat, conn: S.Conn, l: Local)
    requires Requested(i, l.c, S.At(conn.table, i), l.up, l.down) && Gone(l.c)
    ensures S.At(S.LinkRequest(conn, i, l.up[0].desc).table, i).name == []
  {
  }

  lemma DeliveryKeepsLeftMute(i: nat, conn: S.Conn, l: Local)
    requires Phase(i, l.c, l.x, l.up, l.down)
    requires LeftMute(l) && l.up != [] && S.At(conn.table, i) == l.x
    ensures LeftMute(l.(x := S.At(S.Apply(conn, l.up[0]).table, i), up := l.up[1..]))
  {
    if Gone(l.c) {
      if Requested(i, l.c, l.x, l.up, l.down) {
        RequestKeepsLeftMute(i, conn, l);
      } else if l.up[0].Data? {
        if LeaveSent(i, l.c, l.x, l.up, l.down) {
          assert l.up[0] == l.up[..|l.up| - 1][0];
        }
        assert Ready(l.x) && DataFor(i, l.x, l.up[0]);
        StoreKeepsReady(i, conn, l.up[0]);
      }
    }
  }

  /** All that was unlinked was mute. */
  ghost predicate OnlyMuteLeft(s: State) {
    Small(s.down) && forall i: nat :: LeftMute(At(s, i))
  }

  lemma StepKeepsOnlyMuteLeft(s: State, step: Step)
    requires Inv(s) && OnlyMuteLeft(s) && Sane(s, step) && UnlinksMute(s, step)
    ensures OnlyMuteLeft(Protocol.Next(s, step))
  {
    StepKeepsSmall(s, step);
    forall i: nat
      ensures LeftMute(At(Protocol.Next(s, step), i))
    {
      StepKeepsLeftMute(s, step, i);
    }
  }

  lemma MuteUnlinkIsQuiet(s: State, step: Step)
    requires Inv(s) && OnlyMuteLeft(s) && Sane(s, step) && UnlinksMute(s, step)
    ensures Quiet(s, step)
  {
    match step
    case AppUnlink(name) => UnlinkingMuteIsQuiet(s, name);
    case ServerSend(i, left) =>
      if i < |s.conn.table| && i < |s.client| && !Known(s.client[i].ty) && s.conn.table[i].name != [] {
        assert InPhase(s, i) && LeftMute(At(s, i));
        if Gone(CAt(s, i)) { QuietWhenUnchanged(s, i, left); }
      }
    case _ =>
  }

  lemma {:induction false} MuteUnlinksAreQuiet(s: State, steps: seq<Step>)
    requires Inv(s) && OnlyMuteLeft(s) && SaneRun(s, steps) && MuteUnlinks(s, steps)
    ensures QuietRun(s, steps) && OnlyMuteLeft(Run(s, steps))
    decreases |steps|
  {
    if steps != [] {
      MuteUnlinkIsQuiet(s, steps[0]);
      NextKeepsInv(s, steps[0]);
      StepKeepsOnlyMuteLeft(s, steps[0]);
      MuteUnlinksAreQuiet(Protocol.Next(s, steps[0]), steps[1..]);
    }
  }

  /** From empty tables, over every run of links, writes, traffic, simulator changes and reconnections that
      unlinks only commands, and arrays too large to be sent, the bytes in flight towards the client decode to
      the frames in flight. */
  lemma FramingWithMuteUnlinks(me: Name, sim: Sim, store: seq<S.Custom>, steps: seq<Step>)
    requires WfName(me) && WfSim(sim) && SaneRun(Init(me, sim, store), steps) && MuteUnlinks(Init(me, sim, store), steps)
    ensures var s := Run(Init(me, sim, store), steps);
      && NoStray(s) && WfFrames(s.down) && C.Receive(s.client, Transmission(s.down)) == C.ApplyAll(s.client, s.down)
      && OnlyMuteLeft(s)
  {
    var s := Init(me, sim, store);
    ReachableInv(me, sim, store, []);
    MuteUnlinksAreQuiet(s, steps);
    QuietRunKeepsFraming(s, steps);
    ReachableFraming(me, sim, store, steps);
  }

  lemma {:induction false} NoUnlinksAreMuteUnlinks(s: State, steps: seq<Step>)
    requires forall k :: 0 <= k < |steps| ==> !steps[k].AppUnlink?
    ensures MuteUnlinks(s, steps)
    decreases |steps|
  {
    if steps != [] {
      NoUnlinksAreMuteUnlinks(Protocol.Next(s, steps[0]), steps[1..]);
    }
  }

  /** In particular over every run without unlinking. */
  lemma FramingWithoutUnlinking(me: Name, sim: Sim, store: seq<S.Custom>, steps: seq<Step>)
    requires WfName(me) && WfSim(sim) && SaneRun(Init(me, sim, store), steps)
    requires forall k :: 0 <= k < |steps| ==> !steps[k].AppUnlink?
    ensures var s := Run(Init(me, sim, store), steps);
      NoStray(s) && WfFrames(s.down) && C.Receive(s.client, Transmission(s.down)) == C.ApplyAll(s.client, s.down)
  {
    NoUnlinksAreMuteUnlinks(Init(me, sim, store), steps);
    FramingWithMuteUnlinks(me, sim, store, steps);
  }
}
