/** One client and the plugin as a transition system: two tables, the simulator, and a FIFO channel
of frames in each direction. Steps visit one slot or deliver one frame at a time, so every
interleaving of the two programs' cycles is a run. */
module Protocol {
  import opened Wire
  import opened Dataref
  import opened Simulator
  import C = ClientTable
  import S = ServerTable

  /** sent and lost record every frame the client ever transmitted and those a reconnection dropped. */
  datatype State = State(me: Name, client: seq<C.Slot>, conn: S.Conn, up: seq<Frame>, down: seq<Frame>,
                         sent: seq<Frame>, lost: seq<Frame>)

  datatype Step =
    | AppLink(desc: Desc)
    | AppUnlink(name: Name)
    | AppWrite(i: nat, vals: seq<nat>)
    | ClientSend(i: nat, left: nat)
    | ServerSend(i: nat, left: nat)
    | ClientReceive
    | ServerReceive
      // the simulator, or another plugin, changes anything but the log of command calls
    | SimChange(sim: Sim)
      // the connection is dropped with everything in flight, and a new one is made
    | Reconnect

  function Init(me: Name, sim: Sim, store: seq<S.Custom>): State {
    State(me, [], S.Conn([], store, sim, true), [], [], [], [])
  }

  function Next(s: State, step: Step): State {
    match step
    case AppLink(d) =>
      if WfDesc(d) then s.(client := C.LinkDataref(s.client, d).1) else s
    case AppUnlink(name) =>
      if name == [] then s else s.(client := C.UnlinkDataref(s.client, name))
    case AppWrite(i, vals) =>
      if i < |s.client| && C.Live(s.client[i]) && WfVals(s.client[i].ty, |s.client[i].data|, vals) then
        s.(client := s.client[i := s.client[i].(data := vals)])
      else s
    case ClientSend(i, left) =>
      if i < |s.client| then
        var (o, c) := C.SendSlot(s.client[i], s.me, i, left);
        s.(client := s.client[i := c], up := s.up + Opt(o), sent := s.sent + Opt(o))
      else s
    case ServerSend(i, left) =>
      if i < |s.conn.table| then
        var (o, x) := S.SendSlot(s.conn.sim, s.conn.table[i], i, left);
        s.(conn := s.conn.(table := s.conn.table[i := x]), down := s.down + Opt(o))
      else s
    case ClientReceive =>
      if s.down == [] then s else s.(client := C.Apply(s.client, s.down[0]), down := s.down[1..])
    case ServerReceive =>
      if s.up == [] then s else s.(conn := S.Apply(s.conn, s.up[0]), up := s.up[1..])
    case SimChange(sim) =>
      if WfSim(sim) then s.(conn := s.conn.(sim := sim.(log := s.conn.sim.log))) else s
    case Reconnect =>
      s.(client := C.Reset(s.client), conn := s.conn.(table := [], connected := true),
         up := [], down := [], lost := s.lost + s.up)
  }

  function Run(s: State, steps: seq<Step>): State
    decreases |steps|
  {
    if steps == [] then s else Run(Next(s, steps[0]), steps[1..])
  }

  // ---------- what the application has to respect ----------

  /** The name is none of the texts with which the subscription can be refused. */
  ghost predicate SafeDesc(d: Desc) {
    Normalise(d).Some? && Known(d.ty) ==> !S.Refusal(Normalise(d).value, d.name)
  }

  ghost predicate SafeSlot(c: C.Slot) {
    C.Live(c) ==> !S.Refusal(C.DescOf(c), c.name)
  }

  ghost predicate Sane(s: State, step: Step) {
    match step
    case AppLink(d) => SafeDesc(d) && (WfDesc(d) ==> |C.LinkDataref(s.client, d).1| <= MAX_OFFSETS)
    case AppUnlink(name) => forall k :: 0 <= k < |s.client| && s.client[k].name == name ==> s.client[k].status == Valid
    case _ => true
  }

  ghost predicate SaneRun(s: State, steps: seq<Step>)
    decreases |steps|
  {
    steps != [] ==> Sane(s, steps[0]) && SaneRun(Next(s, steps[0]), steps[1..])
  }

  // ---------- one offset at a time ----------

  function CAt(s: State, i: nat): C.Slot {
    if i < |s.client| then s.client[i] else C.EMPTY
  }

  function SAt(s: State, i: nat): S.Slot { S.At(s.conn.table, i) }

  /** The frames of a channel that concern offset i. */
  function Proj(ch: seq<Frame>, i: nat): seq<Frame> {
    if ch == [] then [] else (if Addresses(ch[0], i) then [ch[0]] else []) + Proj(ch[1..], i)
  }

  lemma {:induction false} ProjAppend(ch: seq<Frame>, more: seq<Frame>, i: nat)
    ensures Proj(ch + more, i) == Proj(ch, i) + Proj(more, i)
  {
    if ch == [] {
      assert ch + more == more;
    } else {
      ProjAppend(ch[1..], more, i);
      assert (ch + more)[0] == ch[0] && (ch + more)[1..] == ch[1..] + more;
      Regroup(if Addresses(ch[0], i) then [ch[0]] else [], Proj(ch[1..], i), Proj(more, i));
    }
  }

  lemma {:induction false} ProjHas(ch: seq<Frame>, f: Frame, i: nat)
    requires f in ch && Addresses(f, i)
    ensures f in Proj(ch, i)
  {
    if ch[0] != f {
      ProjHas(ch[1..], f, i);
    }
  }

  /** All that concerns one offset. */
  datatype Local = Local(c: C.Slot, x: S.Slot, up: seq<Frame>, down: seq<Frame>)

  function At(s: State, i: nat): Local {
    Local(CAt(s, i), SAt(s, i), Proj(s.up, i), Proj(s.down, i))
  }

  // ---------- the phases of a subscription ----------

  predicate Idle(x: S.Slot) { x.name == [] }

  predicate Same(c: C.Slot, x: S.Slot) {
    C.DescOf(c) == S.DescOf(x) && C.Live(c) && S.Live(x)
  }

  predicate DataFor(i: nat, x: S.Slot, f: Frame) {
    f.Data? && f.offset == i && f.ty == x.ty && WfVals(f.ty, |x.data|, f.vals)
  }

  predicate AllData(i: nat, x: S.Slot, fs: seq<Frame>) {
    forall k :: 0 <= k < |fs| ==> DataFor(i, x, fs[k])
  }

  predicate NoData(fs: seq<Frame>) {
    forall k :: 0 <= k < |fs| ==> !fs[k].Data?
  }

  /** Data frames from the plugin: none for commands. */
  predicate AllDown(i: nat, x: S.Slot, fs: seq<Frame>) {
    AllData(i, x, fs) && (Command(x.ty) ==> fs == [])
  }

  predicate Ready(x: S.Slot) { x.status == Valid && x.bound && S.Live(x) && WfName(x.name) && x.name != [] }

  predicate Unsubscribed(c: C.Slot, x: S.Slot, up: seq<Frame>, down: seq<Frame>) {
    ((c.name == [] && c.status == Uninitialized) || c.status == Alloc) && Idle(x) && up == [] && down == []
  }

  predicate Requested(i: nat, c: C.Slot, x: S.Slot, up: seq<Frame>, down: seq<Frame>) {
    && c.status == Linking && c.name != [] && Idle(x)
    && |up| == 1 && up[0].Link? && up[0].offset == i && up[0].desc == C.DescOf(c) && WfName(up[0].client)
    && down == []
  }

  predicate Checked(c: C.Slot, x: S.Slot, up: seq<Frame>, down: seq<Frame>) {
    c.status == Linking && c.name != [] && x.status == Linking && x.bound && Same(c, x) && up == [] && down == []
  }

  predicate Rejected(c: C.Slot, x: S.Slot, up: seq<Frame>, down: seq<Frame>) {
    && c.status == Linking && c.name != [] && x.status == Linking && !x.bound
    && x.name != c.name && WfName(x.name) && x.name != [] && up == [] && down == []
  }

  /** The plugin will never answer, or has already refused. */
  predicate Silent(c: C.Slot, x: S.Slot, up: seq<Frame>, down: seq<Frame>) {
    c.status == Linking && c.name != [] && (Idle(x) || x.status == Alloc) && up == [] && down == []
  }

  predicate RefusalSent(i: nat, c: C.Slot, x: S.Slot, up: seq<Frame>, down: seq<Frame>) {
    && c.status == Linking && c.name != [] && Idle(x) && up == []
    && |down| == 1 && down[0].LinkReply? && down[0].offset == i && down[0].text != c.name && WfName(down[0].text)
  }

  predicate Confirmed(i: nat, c: C.Slot, x: S.Slot, up: seq<Frame>, down: seq<Frame>) {
    && c.status == Linking && c.name != [] && Ready(x) && Same(c, x) && up == []
    && |down| > 0 && down[0] == LinkReply(i, c.name) && AllDown(i, x, down[1..])
  }

  predicate Established(i: nat, c: C.Slot, x: S.Slot, up: seq<Frame>, down: seq<Frame>) {
    c.status == Valid && Ready(x) && Same(c, x) && AllData(i, x, up) && AllDown(i, x, down)
  }

  predicate Left(c: C.Slot) { C.Released(c) && c.name != [] }

  /** The slot is being unlinked by the application. */
  predicate Gone(c: C.Slot) { c.name != [] && !Known(c.ty) }

  predicate Leaving(i: nat, c: C.Slot, x: S.Slot, up: seq<Frame>, down: seq<Frame>) {
    && c.status == Dealloc && Left(c) && Ready(x) && x.name == c.name
    && AllData(i, x, up) && AllDown(i, x, down)
  }

  predicate LeaveSent(i: nat, c: C.Slot, x: S.Slot, up: seq<Frame>, down: seq<Frame>) {
    && c.status == Unlinking && Left(c) && Ready(x) && x.name == c.name
    && |up| > 0 && up[|up| - 1] == Unlink(i, c.name) && AllData(i, x, up[..|up| - 1]) && AllDown(i, x, down)
  }

  predicate LeaveSeen(i: nat, c: C.Slot, x: S.Slot, up: seq<Frame>, down: seq<Frame>) {
    && c.status == Unlinking && Left(c) && x.status == Unlinking && S.Live(x) && x.name == c.name
    && up == [] && AllDown(i, x, down)
  }

  predicate SomeData(i: nat, fs: seq<Frame>) {
    forall k :: 0 <= k < |fs| ==> fs[k].Data? && fs[k].offset == i && Known(fs[k].ty) && WfVals(fs[k].ty, |fs[k].vals|, fs[k].vals)
  }

  predicate LeaveConfirmed(i: nat, c: C.Slot, x: S.Slot, up: seq<Frame>, down: seq<Frame>) {
    && c.status == Unlinking && Left(c) && Idle(x) && up == []
    && |down| > 0 && down[|down| - 1] == Unlink(i, c.name) && SomeData(i, down[..|down| - 1])
  }

  predicate Phase(i: nat, c: C.Slot, x: S.Slot, up: seq<Frame>, down: seq<Frame>) {
    || Unsubscribed(c, x, up, down) || Requested(i, c, x, up, down) || Checked(c, x, up, down)
    || Rejected(c, x, up, down) || Silent(c, x, up, down) || RefusalSent(i, c, x, up, down)
    || Confirmed(i, c, x, up, down) || Established(i, c, x, up, down) || Leaving(i, c, x, up, down)
    || LeaveSent(i, c, x, up, down) || LeaveSeen(i, c, x, up, down) || LeaveConfirmed(i, c, x, up, down)
  }

  predicate InPhase(s: State, i: nat) {
    var l := At(s, i);
    Phase(i, l.c, l.x, l.up, l.down)
  }

  ghost predicate Inv(s: State) {
    && WfName(s.me)
    && C.WfTable(s.client)
    && WfSim(s.conn.sim)
    && (forall i :: 0 <= i < |s.client| ==> SafeSlot(s.client[i]))
    && (forall f :: f in s.up + s.down ==> f.Link? || f.LinkReply? || f.Unlink? || f.Data?)
    && (forall i: nat :: InPhase(s, i))
  }

  // ---------- each kind of step keeps the phase of the slot it touches ----------

  lemma ClientSendKeepsPhase(i: nat, me: Name, c: C.Slot, x: S.Slot, up: seq<Frame>, down: seq<Frame>, left: nat)
    requires Phase(i, c, x, up, down) && C.WfSlot(c) && WfName(me)
    ensures var (o, c') := C.SendSlot(c, me, i, left);
      Phase(i, c', x, up + Opt(o), down) && C.WfSlot(c') && c'.name == c.name
  {
    var (o, c') := C.SendSlot(c, me, i, left);
    assert up + [] == up;
    if o.Some? {
      if Unsubscribed(c, x, up, down) {
        assert Requested(i, c', x, up + Opt(o), down);
      } else if Established(i, c, x, up, down) {
        assert o.value.ty == x.ty;
        assert Established(i, c', x, up + Opt(o), down);
      } else if Leaving(i, c, x, up, down) {
        assert (up + Opt(o))[..|up|] == up;
        assert LeaveSent(i, c', x, up + Opt(o), down);
      }
    }
  }

  lemma ServerAnswerKeepsPhase(i: nat, sim: Sim, c: C.Slot, x: S.Slot, up: seq<Frame>, down: seq<Frame>, left: nat)
    requires Phase(i, c, x, up, down) && x.status == Linking
    ensures var (o, x') := S.SendSlot(sim, x, i, left); Phase(i, c, x', up, down + Opt(o))
  {
    var (o, x') := S.SendSlot(sim, x, i, left);
    assert down + [] == down;
    assert Checked(c, x, up, down) || Rejected(c, x, up, down) || Idle(x);
    if o.Some? && Checked(c, x, up, down) {
      assert Confirmed(i, c, x', up, down + Opt(o));
    } else if o.Some? {
      assert RefusalSent(i, c, x', up, down + Opt(o));
    }
  }

  lemma UnlinkingIsSeen(i: nat, c: C.Slot, x: S.Slot, up: seq<Frame>, down: seq<Frame>)
    requires Phase(i, c, x, up, down) && x.status == Unlinking && !Idle(x)
    ensures LeaveSeen(i, c, x, up, down)
  {
  }

  lemma AllDownIsSomeData(i: nat, x: S.Slot, fs: seq<Frame>)
    requires AllDown(i, x, fs) && Known(x.ty)
    ensures SomeData(i, fs)
  {
    forall k | 0 <= k < |fs|
      ensures fs[k].Data? && fs[k].offset == i && Known(fs[k].ty) && WfVals(fs[k].ty, |fs[k].vals|, fs[k].vals)
    {
      assert DataFor(i, x, fs[k]);
    }
  }

  lemma GoodbyeConfirms(i: nat, sim: Sim, c: C.Slot, x: S.Slot, up: seq<Frame>, down: seq<Frame>, left: nat)
    requires LeaveSeen(i, c, x, up, down) && left + 4 + NAME_SIZE <= TCPBUFSIZE
    ensures var (o, x') := S.SendSlot(sim, x, i, left); LeaveConfirmed(i, c, x', up, down + Opt(o))
  {
    AllDownIsSomeData(i, x, down);
    var (o, x') := S.SendSlot(sim, x, i, left);
    assert (down + Opt(o))[..|down|] == down;
  }

  lemma ServerGoodbyeKeepsPhase(i: nat, sim: Sim, c: C.Slot, x: S.Slot, up: seq<Frame>, down: seq<Frame>, left: nat)
    requires Phase(i, c, x, up, down) && x.status == Unlinking
    ensures var (o, x') := S.SendSlot(sim, x, i, left); Phase(i, c, x', up, down + Opt(o))
  {
    assert down + [] == down;
    if !Idle(x) && left + 4 + NAME_SIZE <= TCPBUFSIZE {
      UnlinkingIsSeen(i, c, x, up, down);
      GoodbyeConfirms(i, sim, c, x, up, down, left);
    }
  }

  lemma ServerDataKeepsPhase(i: nat, sim: Sim, c: C.Slot, x: S.Slot, up: seq<Frame>, down: seq<Frame>, left: nat)
    requires Phase(i, c, x, up, down) && C.WfSlot(c) && WfSim(sim) && x.status == Valid
    ensures var (o, x') := S.SendSlot(sim, x, i, left); Phase(i, c, x', up, down + Opt(o))
  {
    var (o, x') := S.SendSlot(sim, x, i, left);
    assert down + [] == down;
    if o.Some? {
      assert DataFor(i, x, o.value) && !Command(x.ty);
      if Confirmed(i, c, x, up, down) {
        assert (down + Opt(o))[1..] == down[1..] + Opt(o);
        assert Confirmed(i, c, x', up, down + Opt(o));
      } else if Established(i, c, x, up, down) {
        assert Established(i, c, x', up, down + Opt(o));
      } else if Leaving(i, c, x, up, down) {
        assert Leaving(i, c, x', up, down + Opt(o));
      } else {
        assert LeaveSent(i, c, x', up, down + Opt(o));
      }
    }
  }

  lemma ServerSendKeepsPhase(i: nat, sim: Sim, c: C.Slot, x: S.Slot, up: seq<Frame>, down: seq<Frame>, left: nat)
    requires Phase(i, c, x, up, down) && C.WfSlot(c) && WfSim(sim)
    ensures var (o, x') := S.SendSlot(sim, x, i, left); Phase(i, c, x', up, down + Opt(o))
  {
    if x.status == Valid {
      ServerDataKeepsPhase(i, sim, c, x, up, down, left);
    } else if x.status == Linking {
      ServerAnswerKeepsPhase(i, sim, c, x, up, down, left);
    } else if x.status == Unlinking {
      ServerGoodbyeKeepsPhase(i, sim, c, x, up, down, left);
    } else {
      assert down + [] == down;
    }
  }

  /** The client's slot after the frame f about it. */
  function CStep(c: C.Slot, f: Frame): C.Slot {
    match f
    case Data(_, _, vals) => C.Store(c, vals)
    case LinkReply(_, text) => C.Accept(c, text)
    case Unlink(_, text) => C.Forget(c, text)
    case _ => c
  }

  lemma ClientReceiveKeepsPhase(i: nat, c: C.Slot, x: S.Slot, up: seq<Frame>, down: seq<Frame>)
    requires Phase(i, c, x, up, down) && C.WfSlot(c) && down != []
    ensures Phase(i, CStep(c, down[0]), x, up, down[1..]) && C.WfSlot(CStep(c, down[0]))
    ensures SafeSlot(c) ==> SafeSlot(CStep(c, down[0]))
  {
    var c', rest := CStep(c, down[0]), down[1..];
    if RefusalSent(i, c, x, up, down) {
      assert Silent(c', x, up, rest);
    } else if Confirmed(i, c, x, up, down) {
      assert Established(i, c', x, up, rest);
    } else if Established(i, c, x, up, down) {
      assert DataFor(i, x, down[0]);
      assert Established(i, c', x, up, rest);
    } else if Leaving(i, c, x, up, down) {
      assert DataFor(i, x, down[0]);
      assert Leaving(i, c', x, up, rest);
    } else if LeaveSent(i, c, x, up, down) {
      assert DataFor(i, x, down[0]);
      assert LeaveSent(i, c', x, up, rest);
    } else if LeaveSeen(i, c, x, up, down) {
      assert DataFor(i, x, down[0]);
      assert LeaveSeen(i, c', x, up, rest);
    } else {
      assert LeaveConfirmed(i, c, x, up, down);
      if |down| == 1 {
        assert Unsubscribed(c', x, up, rest);
      } else {
        assert down[0] == down[..|down| - 1][0];
        assert rest[..|rest| - 1] == down[..|down| - 1][1..];
        assert LeaveConfirmed(i, c', x, up, rest);
      }
    }
  }

  lemma LinkRequestKeepsPhase(i: nat, conn: S.Conn, c: C.Slot, up: seq<Frame>, down: seq<Frame>)
    requires Requested(i, c, S.At(conn.table, i), up, down) && C.WfSlot(c) && SafeSlot(c)
    ensures Phase(i, c, S.At(S.LinkRequest(conn, i, up[0].desc).table, i), [], down)
  {
    var d := up[0].desc;
    var x := S.At(S.LinkRequest(conn, i, d).table, i);
    if C.Live(c) {
      var s := S.FreshSlot(d);
      S.SubscribeOutcome(conn.store, conn.sim, s, d);
      assert x == S.Subscribe(conn.store, conn.sim, s, d).0;
      assert Checked(c, x, [], down) || Rejected(c, x, [], down) || Silent(c, x, [], down);
    } else {
      assert Silent(c, x, [], down);
    }
  }

  /** A data frame changes nothing of a ready slot but its value. */
  lemma StoreKeepsReady(i: nat, conn: S.Conn, f: Frame)
    requires Ready(S.At(conn.table, i)) && DataFor(i, S.At(conn.table, i), f)
    ensures var x, x' := S.At(conn.table, i), S.At(S.Apply(conn, f).table, i);
      x' == x.(data := x'.data) && |x'.data| == |x.data| && Ready(x')
  {
  }

  lemma UnlinkSeenKeepsPhase(i: nat, conn: S.Conn, c: C.Slot, up: seq<Frame>, down: seq<Frame>)
    requires LeaveSent(i, c, S.At(conn.table, i), up, down)
    ensures Phase(i, c, S.At(S.Apply(conn, up[0]).table, i), up[1..], down)
  {
    var x, x' := S.At(conn.table, i), S.At(S.Apply(conn, up[0]).table, i);
    var rest := up[1..];
    if |up| == 1 {
      assert LeaveSeen(i, c, x', rest, down);
    } else {
      assert up[0] == up[..|up| - 1][0];
      StoreKeepsReady(i, conn, up[0]);
      assert rest[..|rest| - 1] == up[..|up| - 1][1..];
      assert LeaveSent(i, c, x', rest, down);
    }
  }

  lemma ServerReceiveKeepsPhase(i: nat, conn: S.Conn, c: C.Slot, up: seq<Frame>, down: seq<Frame>)
    requires Phase(i, c, S.At(conn.table, i), up, down) && C.WfSlot(c) && SafeSlot(c) && up != []
    ensures Phase(i, c, S.At(S.Apply(conn, up[0]).table, i), up[1..], down)
  {
    var x, x' := S.At(conn.table, i), S.At(S.Apply(conn, up[0]).table, i);
    if Requested(i, c, x, up, down) {
      LinkRequestKeepsPhase(i, conn, c, up, down);
      assert up[1..] == [];
    } else if LeaveSent(i, c, x, up, down) {
      UnlinkSeenKeepsPhase(i, conn, c, up, down);
    } else {
      assert DataFor(i, x, up[0]);
      StoreKeepsReady(i, conn, up[0]);
      assert Established(i, c, x', up[1..], down) || Leaving(i, c, x', up[1..], down);
    }
  }

  lemma UnlinkKeepsPhase(i: nat, c: C.Slot, x: S.Slot, up: seq<Frame>, down: seq<Frame>)
    requires Phase(i, c, x, up, down) && C.WfSlot(c) && c.name != [] && c.status == Valid
    ensures Phase(i, C.UnlinkSlot(c), x, up, down)
  {
    assert Leaving(i, C.UnlinkSlot(c), x, up, down);
  }

  lemma WriteKeepsPhase(i: nat, c: C.Slot, x: S.Slot, up: seq<Frame>, down: seq<Frame>, vals: seq<nat>)
    requires Phase(i, c, x, up, down) && C.Live(c) && WfVals(c.ty, |c.data|, vals)
    ensures Phase(i, c.(data := vals), x, up, down)
  {
    var c' := c.(data := vals);
    if Requested(i, c, x, up, down) { assert Requested(i, c', x, up, down); }
    else if Established(i, c, x, up, down) { assert Established(i, c', x, up, down); }
    else if Confirmed(i, c, x, up, down) { assert Confirmed(i, c', x, up, down); }
  }

  // ---------- every step keeps the invariant ----------

  lemma ProjOne(f: Frame, i: nat)
    ensures Proj([f], i) == if Addresses(f, i) then [f] else []
  {
    assert [f][1..] == [];
  }

  lemma ProjOpt(ch: seq<Frame>, o: Option<Frame>, i: nat, j: nat)
    requires o.Some? ==> Addresses(o.value, i)
    ensures Proj(ch + Opt(o), j) == Proj(ch, j) + (if j == i then Opt(o) else [])
  {
    ProjAppend(ch, Opt(o), j);
    if o.Some? {
      ProjOne(o.value, j);
      assert Proj(ch, j) + [] == Proj(ch, j);
    }
  }

  lemma ProjTail(ch: seq<Frame>, j: nat)
    requires ch != []
    ensures Proj(ch, j) == (if Addresses(ch[0], j) then [ch[0]] else []) + Proj(ch[1..], j)
    ensures Addresses(ch[0], j) ==> Proj(ch, j) != [] && Proj(ch, j)[0] == ch[0] && Proj(ch, j)[1..] == Proj(ch[1..], j)
    ensures !Addresses(ch[0], j) ==> Proj(ch, j) == Proj(ch[1..], j)
  {
  }

  lemma ClientSendLocal(s: State, i: nat, left: nat, j: nat)
    requires i < |s.client|
    ensures var l, (o, c) := At(s, j), C.SendSlot(s.client[i], s.me, i, left);
      At(Next(s, ClientSend(i, left)), j) == if j == i then l.(c := c, up := l.up + Opt(o)) else l
  {
    ProjOpt(s.up, C.SendSlot(s.client[i], s.me, i, left).0, i, j);
  }

  lemma ServerSendLocal(s: State, i: nat, left: nat, j: nat)
    requires i < |s.conn.table|
    ensures var l, (o, x) := At(s, j), S.SendSlot(s.conn.sim, s.conn.table[i], i, left);
      At(Next(s, ServerSend(i, left)), j) == if j == i then l.(x := x, down := l.down + Opt(o)) else l
  {
    ProjOpt(s.down, S.SendSlot(s.conn.sim, s.conn.table[i], i, left).0, i, j);
  }

  lemma ClientReceiveLocal(s: State, j: nat)
    requires s.down != []
    ensures Addresses(s.down[0], j) ==> At(s, j).down != [] && At(s, j).down[0] == s.down[0]
    ensures var l := At(s, j);
      At(Next(s, ClientReceive), j) ==
        if !Addresses(s.down[0], j) then l
        else l.(c := if j < |s.client| then CStep(l.c, l.down[0]) else l.c, down := l.down[1..])
  {
    ProjTail(s.down, j);
  }

  lemma ServerReceiveLocal(s: State, j: nat)
    requires s.up != []
    ensures Addresses(s.up[0], j) ==> At(s, j).up != [] && At(s, j).up[0] == s.up[0]
    ensures var l := At(s, j);
      At(Next(s, ServerReceive), j) ==
        if !Addresses(s.up[0], j) then l
        else l.(x := S.At(S.Apply(s.conn, l.up[0]).table, j), up := l.up[1..])
  {
    ProjTail(s.up, j);
    if !Addresses(s.up[0], j) {
      S.ApplyIsLocal(s.conn, s.up[0], j);
    }
  }

  lemma ClientSendAt(s: State, i: nat, left: nat, j: nat)
    requires Inv(s)
    ensures InPhase(Next(s, ClientSend(i, left)), j)
    ensures C.WfSlot(CAt(Next(s, ClientSend(i, left)), j)) && SafeSlot(CAt(Next(s, ClientSend(i, left)), j))
  {
    assert InPhase(s, j) && C.WfSlot(CAt(s, j)) && SafeSlot(CAt(s, j));
    if i < |s.client| {
      ClientSendLocal(s, i, left, j);
      if j == i {
        var l := At(s, i);
        ClientSendKeepsPhase(i, s.me, l.c, l.x, l.up, l.down, left);
        TurnKeepsDesc(l.c, s.me, i, left);
      }
    }
  }

  lemma TurnKeepsDesc(c: C.Slot, me: Name, i: nat, left: nat)
    ensures C.DescOf(C.SendSlot(c, me, i, left).1) == C.DescOf(c)
  {
  }

  lemma ClientSendKeepsInv(s: State, i: nat, left: nat)
    requires Inv(s)
    ensures Inv(Next(s, ClientSend(i, left)))
  {
    var s' := Next(s, ClientSend(i, left));
    forall j: nat
      ensures InPhase(s', j) && C.WfSlot(CAt(s', j)) && SafeSlot(CAt(s', j))
    {
      ClientSendAt(s, i, left, j);
    }
    assert forall j :: 0 <= j < |s'.client| ==> s'.client[j] == CAt(s', j);
    OnlyFrames(s, i, left);
  }

  lemma OnlyFrames(s: State, i: nat, left: nat)
    requires forall f :: f in s.up + s.down ==> f.Link? || f.LinkReply? || f.Unlink? || f.Data?
    ensures var s' := Next(s, ClientSend(i, left));
      forall f :: f in s'.up + s'.down ==> f.Link? || f.LinkReply? || f.Unlink? || f.Data?
    ensures var s' := Next(s, ServerSend(i, left));
      forall f :: f in s'.up + s'.down ==> f.Link? || f.LinkReply? || f.Unlink? || f.Data?
  {
  }

  lemma ServerSendAt(s: State, i: nat, left: nat, j: nat)
    requires Inv(s)
    ensures InPhase(Next(s, ServerSend(i, left)), j)
  {
    assert InPhase(s, j) && C.WfSlot(CAt(s, j));
    if i < |s.conn.table| {
      ServerSendLocal(s, i, left, j);
      if j == i {
        var l := At(s, i);
        ServerSendKeepsPhase(i, s.conn.sim, l.c, l.x, l.up, l.down, left);
      }
    }
  }

  lemma ServerSendKeepsInv(s: State, i: nat, left: nat)
    requires Inv(s)
    ensures Inv(Next(s, ServerSend(i, left)))
  {
    forall j: nat
      ensures InPhase(Next(s, ServerSend(i, left)), j)
    {
      ServerSendAt(s, i, left, j);
    }
    OnlyFrames(s, i, left);
  }

  lemma ClientReceiveAt(s: State, j: nat)
    requires Inv(s) && s.down != []
    ensures InPhase(Next(s, ClientReceive), j)
    ensures C.WfSlot(CAt(Next(s, ClientReceive), j))
    ensures SafeSlot(CAt(s, j)) ==> SafeSlot(CAt(Next(s, ClientReceive), j))
  {
    var l := At(s, j);
    assert InPhase(s, j) && C.WfSlot(l.c);
    ClientReceiveLocal(s, j);
    if Addresses(s.down[0], j) {
      ClientReceiveKeepsPhase(j, l.c, l.x, l.up, l.down);
    }
  }

  lemma ClientReceiveKeepsInv(s: State)
    requires Inv(s)
    ensures Inv(Next(s, ClientReceive))
  {
    var s' := Next(s, ClientReceive);
    if s.down != [] {
      forall j: nat
        ensures InPhase(s', j) && C.WfSlot(CAt(s', j)) && SafeSlot(CAt(s', j))
      {
        ClientReceiveAt(s, j);
      }
      assert forall j :: 0 <= j < |s'.client| ==> s'.client[j] == CAt(s', j);
      assert forall g :: g in s'.up + s'.down ==> g in s.up + s.down;
    }
  }

  lemma ServerReceiveAt(s: State, j: nat)
    requires Inv(s) && s.up != []
    ensures InPhase(Next(s, ServerReceive), j)
  {
    var l := At(s, j);
    assert InPhase(s, j) && C.WfSlot(l.c) && SafeSlot(l.c);
    ServerReceiveLocal(s, j);
    if Addresses(s.up[0], j) {
      ServerReceiveKeepsPhase(j, s.conn, l.c, l.up, l.down);
    }
  }

  lemma ServerReceiveKeepsInv(s: State)
    requires Inv(s)
    ensures Inv(Next(s, ServerReceive))
  {
    var s' := Next(s, ServerReceive);
    if s.up != [] {
      forall j: nat
        ensures InPhase(s', j)
      {
        ServerReceiveAt(s, j);
      }
      assert forall g :: g in s'.up + s'.down ==> g in s.up + s.down;
      if s.up[0].Data? { DataFitsItsSlot(s, s.up[0].offset); }
      S.ApplyKeepsSim(s.conn, s.up[0]);
    }
  }

  /** A data frame about to reach the plugin has the type of the slot it addresses. */
  lemma DataFitsItsSlot(s: State, i: nat)
    requires Inv(s) && s.up != [] && s.up[0].Data? && s.up[0].offset == i
    ensures i < |s.conn.table| && DataFor(i, s.conn.table[i], s.up[0]) && Ready(s.conn.table[i])
  {
    assert InPhase(s, i);
    ServerReceiveLocal(s, i);
    var l := At(s, i);
    if LeaveSent(i, l.c, l.x, l.up, l.down) {
      assert l.up[0] == l.up[..|l.up| - 1][0];
    }
  }

  lemma AppLinkKeepsInv(s: State, d: Desc)
    requires Inv(s) && Sane(s, AppLink(d))
    ensures Inv(Next(s, AppLink(d)))
  {
    if WfDesc(d) {
      var s' := Next(s, AppLink(d));
      forall j: nat
        ensures InPhase(s', j) && C.WfSlot(CAt(s', j)) && SafeSlot(CAt(s', j))
      {
        assert InPhase(s, j);
        C.LinkWritesOneFreeSlot(s.client, d, j);
        assert At(s', j) == At(s, j).(c := CAt(s', j));
      }
      assert forall j :: 0 <= j < |s'.client| ==> s'.client[j] == CAt(s', j);
    }
  }

  lemma AppUnlinkKeepsInv(s: State, name: Name)
    requires Inv(s) && Sane(s, AppUnlink(name))
    ensures Inv(Next(s, AppUnlink(name)))
  {
    if name != [] {
      var s' := Next(s, AppUnlink(name));
      forall j: nat
        ensures InPhase(s', j) && C.WfSlot(CAt(s', j)) && CAt(s', j).name == CAt(s, j).name
      {
        assert InPhase(s, j) && C.WfSlot(CAt(s, j));
        var l := At(s, j);
        assert At(s', j) == l.(c := CAt(s', j));
        if l.c.name == name {
          UnlinkKeepsPhase(j, l.c, l.x, l.up, l.down);
        }
      }
      assert forall j :: 0 <= j < |s'.client| ==> s'.client[j] == CAt(s', j);
    }
  }

  lemma AppWriteKeepsInv(s: State, i: nat, vals: seq<nat>)
    requires Inv(s)
    ensures Inv(Next(s, AppWrite(i, vals)))
  {
    var s' := Next(s, AppWrite(i, vals));
    if i < |s.client| && C.Live(s.client[i]) && WfVals(s.client[i].ty, |s.client[i].data|, vals) {
      forall j: nat
        ensures InPhase(s', j)
      {
        var l := At(s, j);
        assert InPhase(s, j);
        assert At(s', j) == l.(c := CAt(s', j));
        if j == i {
          WriteKeepsPhase(i, l.c, l.x, l.up, l.down, vals);
        }
      }
    }
  }

  lemma ReconnectKeepsInv(s: State)
    requires Inv(s)
    ensures Inv(Next(s, Reconnect))
  {
    var s' := Next(s, Reconnect);
    forall j: nat
      ensures InPhase(s', j)
    {
      assert InPhase(s, j);
      assert Unsubscribed(CAt(s', j), SAt(s', j), [], []);
    }
  }

  lemma SimChangeKeepsInv(s: State, sim: Sim)
    requires Inv(s)
    ensures Inv(Next(s, SimChange(sim)))
  {
    forall j: nat
      ensures InPhase(Next(s, SimChange(sim)), j)
    {
      assert InPhase(s, j);
      assert At(Next(s, SimChange(sim)), j) == At(s, j);
    }
  }

  lemma NextKeepsInv(s: State, step: Step)
    requires Inv(s) && Sane(s, step)
    ensures Inv(Next(s, step))
  {
    match step
    case AppLink(d) => AppLinkKeepsInv(s, d);
    case AppUnlink(name) => AppUnlinkKeepsInv(s, name);
    case AppWrite(i, vals) => AppWriteKeepsInv(s, i, vals);
    case ClientSend(i, left) => ClientSendKeepsInv(s, i, left);
    case ServerSend(i, left) => ServerSendKeepsInv(s, i, left);
    case ClientReceive => ClientReceiveKeepsInv(s);
    case ServerReceive => ServerReceiveKeepsInv(s);
    case SimChange(sim) => SimChangeKeepsInv(s, sim);
    case Reconnect => ReconnectKeepsInv(s);
  }

  lemma {:induction false} RunKeepsInv(s: State, steps: seq<Step>)
    requires Inv(s) && SaneRun(s, steps)
    ensures Inv(Run(s, steps))
    decreases |steps|
  {
    if steps != [] {
      NextKeepsInv(s, steps[0]);
      RunKeepsInv(Next(s, steps[0]), steps[1..]);
    }
  }

  /** Every state any sane run can reach satisfies the invariant. */
  lemma ReachableInv(me: Name, sim: Sim, store: seq<S.Custom>, steps: seq<Step>)
    requires WfName(me) && WfSim(sim) && SaneRun(Init(me, sim, store), steps)
    ensures Inv(Run(Init(me, sim, store), steps))
  {
    var s := Init(me, sim, store);
    forall i: nat
      ensures InPhase(s, i)
    {
      assert Unsubscribed(CAt(s, i), SAt(s, i), [], []);
    }
    RunKeepsInv(s, steps);
  }
}
