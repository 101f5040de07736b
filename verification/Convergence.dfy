/** Delta synchronisation: what is in flight, replayed on the reader's copy, gives the writer's
shadow, so quiet links have converged. */
module Convergence {
  import opened Wire
  import opened Dataref
  import opened Simulator
  import opened Protocol
  import C = ClientTable
  import S = ServerTable

  function ReplayOne(ty: int, data: seq<nat>, f: Frame): (r: seq<nat>)
    ensures |r| == |data|
  {
    if f.Data? && |f.vals| == |data| then Merge(ty, data, f.vals) else data
  }

  /** The reader's value once all frames have arrived. */
  function Replay(ty: int, data: seq<nat>, fs: seq<Frame>): (r: seq<nat>)
    ensures |r| == |data|
    decreases |fs|
  {
    if fs == [] then data else Replay(ty, ReplayOne(ty, data, fs[0]), fs[1..])
  }

  lemma {:induction false} ReplayAppend(ty: int, data: seq<nat>, fs: seq<Frame>, f: Frame)
    ensures Replay(ty, data, fs + [f]) == ReplayOne(ty, Replay(ty, data, fs), f)
    decreases |fs|
  {
    if fs == [] {
      assert (fs + [f])[1..] == [];
    } else {
      assert (fs + [f])[1..] == fs[1..] + [f];
      ReplayAppend(ty, ReplayOne(ty, data, fs[0]), fs[1..], f);
    }
  }

  lemma {:induction false} ReplayNothing(ty: int, data: seq<nat>, fs: seq<Frame>)
    requires NoData(fs)
    ensures Replay(ty, data, fs) == data
    decreases |fs|
  {
    if fs != [] {
      ReplayNothing(ty, data, fs[1..]);
    }
  }

  // ---------- from the plugin to the client ----------

  /** Both sides hold the subscription, though the client may still have to hear of it. */
  predicate Linked(l: Local) {
    (l.c.status == Linking || l.c.status == Valid) && Ready(l.x) && Same(l.c, l.x)
  }

  /** The application has written nothing that is still to reach the plugin. */
  predicate ClientQuiet(l: Local) {
    l.c.data == l.c.shadow && NoData(l.up)
  }

  predicate SyncedDown(l: Local) {
    Linked(l) && ClientQuiet(l) && Agree(l.x.ty, Replay(l.x.ty, l.c.data, l.down), l.x.data)
  }

  lemma UnchangedIsUnchanged(ty: int, precision: int, v: seq<nat>)
    ensures !Changed(ty, precision, v, v)
  {
  }

  /** What came from the plugin is never sent back: the received value is its own shadow. */
  lemma NoEchoToServer(i: nat, c: C.Slot, vals: seq<nat>, me: Name, left: nat)
    requires c.status == Valid && c.data == c.shadow && |vals| == |c.data|
    ensures C.SendSlot(C.Store(c, vals), me, i, left) == (None, C.Store(c, vals))
  {
    UnchangedIsUnchanged(c.ty, c.precision, C.Store(c, vals).data);
  }

  lemma QuietClientSendsNothing(i: nat, l: Local, me: Name, left: nat)
    requires Linked(l) && ClientQuiet(l)
    ensures C.SendSlot(l.c, me, i, left) == (None, l.c)
  {
    UnchangedIsUnchanged(l.c.ty, l.c.precision, l.c.data);
  }

  /** Any value the plugin sends brings the two sides together, whatever was lost before. */
  lemma SendingSyncsDown(i: nat, sim: Sim, l: Local, left: nat)
    requires Phase(i, l.c, l.x, l.up, l.down) && WfSim(sim) && Linked(l) && ClientQuiet(l)
    requires S.SendSlot(sim, l.x, i, left).0.Some?
    ensures var (o, x) := S.SendSlot(sim, l.x, i, left); SyncedDown(l.(x := x, down := l.down + Opt(o)))
  {
    var (o, x) := S.SendSlot(sim, l.x, i, left);
    ReplayAppend(x.ty, l.c.data, l.down, o.value);
  }

  lemma ReceiveStaysSyncedDown(i: nat, l: Local)
    requires Phase(i, l.c, l.x, l.up, l.down) && SyncedDown(l) && l.down != []
    ensures SyncedDown(l.(c := CStep(l.c, l.down[0]), down := l.down[1..]))
  {
    if Established(i, l.c, l.x, l.up, l.down) {
      assert DataFor(i, l.x, l.down[0]);
    } else {
      assert Confirmed(i, l.c, l.x, l.up, l.down);
    }
  }

  /** No step disturbs this but the application's own writing, unlinking and a reconnection. */
  predicate ReadsOnly(s: State, step: Step, i: nat) {
    match step
    case AppWrite(k, _) => k != i
    case AppUnlink(name) => name != CAt(s, i).name
    case Reconnect => false
    case _ => true
  }

  lemma CallStaysSyncedDown(s: State, step: Step, i: nat)
    requires Inv(s) && ReadsOnly(s, step, i) && SyncedDown(At(s, i)) && (step.AppLink? || step.AppUnlink? || step.AppWrite?)
    ensures At(Next(s, step), i) == At(s, i)
  {
    match step
    case AppLink(d) => if WfDesc(d) { C.LinkWritesOneFreeSlot(s.client, d, i); }
    case AppUnlink(name) =>
    case AppWrite(k, vals) =>
  }

  lemma ServerTurnSyncedDown(i: nat, sim: Sim, l: Local, left: nat)
    requires Phase(i, l.c, l.x, l.up, l.down) && WfSim(sim) && SyncedDown(l)
    ensures var (o, x) := S.SendSlot(sim, l.x, i, left); SyncedDown(l.(x := x, down := l.down + Opt(o)))
  {
    assert l.down + [] == l.down;
    if S.SendSlot(sim, l.x, i, left).0.Some? {
      SendingSyncsDown(i, sim, l, left);
    }
  }

  lemma TurnStaysSyncedDown(s: State, step: Step, i: nat)
    requires Inv(s) && SyncedDown(At(s, i)) && (step.ClientSend? || step.ServerSend?)
    ensures SyncedDown(At(Next(s, step), i))
  {
    var l := At(s, i);
    assert InPhase(s, i);
    match step
    case ClientSend(k, left) =>
      if k < |s.client| {
        ClientSendLocal(s, k, left, i);
        QuietClientSendsNothing(i, l, s.me, left);
        assert l.up + [] == l.up;
      }
    case ServerSend(k, left) =>
      if k < |s.conn.table| {
        ServerSendLocal(s, k, left, i);
        ServerTurnSyncedDown(i, s.conn.sim, l, left);
      }
  }

  lemma StaysSyncedDown(s: State, step: Step, i: nat)
    requires Inv(s) && Sane(s, step) && ReadsOnly(s, step, i) && SyncedDown(At(s, i))
    ensures SyncedDown(At(Next(s, step), i))
  {
    var l, s' := At(s, i), Next(s, step);
    assert InPhase(s, i);
    match step
    case ClientSend(_, _) => TurnStaysSyncedDown(s, step, i);
    case ServerSend(_, _) => TurnStaysSyncedDown(s, step, i);
    case ClientReceive =>
      if s.down != [] {
        ClientReceiveLocal(s, i);
        if Addresses(s.down[0], i) { ReceiveStaysSyncedDown(i, l); }
      }
    case ServerReceive =>
      if s.up != [] {
        ServerReceiveLocal(s, i);
        if Addresses(s.up[0], i) { NothingButData(i, l); }
      }
    case SimChange(sim) => assert At(s', i) == l;
    case _ => CallStaysSyncedDown(s, step, i);
  }

  lemma NothingButData(i: nat, l: Local)
    requires Phase(i, l.c, l.x, l.up, l.down) && Linked(l) && NoData(l.up)
    ensures l.up == []
  {
    assert l.up == [] || DataFor(i, l.x, l.up[0]);
  }

  predicate ReadsOnlyRun(s: State, steps: seq<Step>, i: nat)
    decreases |steps|
  {
    steps != [] ==> ReadsOnly(s, steps[0], i) && ReadsOnlyRun(Next(s, steps[0]), steps[1..], i)
  }

  lemma {:induction false} RunStaysSyncedDown(s: State, steps: seq<Step>, i: nat)
    requires Inv(s) && SaneRun(s, steps) && ReadsOnlyRun(s, steps, i) && SyncedDown(At(s, i))
    ensures SyncedDown(At(Run(s, steps), i))
    decreases |steps|
  {
    if steps != [] {
      StaysSyncedDown(s, steps[0], i);
      NextKeepsInv(s, steps[0]);
      RunStaysSyncedDown(Next(s, steps[0]), steps[1..], i);
    }
  }

  // ---------- from the start ----------

  /** The application neither writes slot i nor unlinks it. */
  predicate OnlyReads(s: State, step: Step, i: nat) {
    match step
    case AppWrite(k, _) => k != i
    case AppUnlink(name) => name != CAt(s, i).name
    case _ => true
  }

  predicate OnlyReadsRun(s: State, steps: seq<Step>, i: nat)
    decreases |steps|
  {
    steps != [] ==> OnlyReads(s, steps[0], i) && OnlyReadsRun(Next(s, steps[0]), steps[1..], i)
  }

  /** The plugin sends a value of slot i. */
  predicate SendsValue(s: State, step: Step, i: nat) {
    step.ServerSend? && step.i == i && i < |s.conn.table|
    && var o := S.SendSlot(s.conn.sim, s.conn.table[i], i, step.left).0; o.Some? && o.value.Data?
  }

  /** A value of slot i has been sent on the last connection; seen says whether one was at the start. */
  predicate ValueSent(s: State, steps: seq<Step>, i: nat, seen: bool)
    decreases |steps|
  {
    if steps == [] then seen
    else ValueSent(Next(s, steps[0]), steps[1..], i, !steps[0].Reconnect? && (seen || SendsValue(s, steps[0], i)))
  }

  /** The client has nothing of its own to say about the slot. */
  predicate Listens(l: Local) { ClientQuiet(l) && !Gone(l.c) }

  lemma FreshListens(c: C.Slot, l: Local)
    requires l.up == [] && c.data == c.shadow && !Gone(c)
    ensures Listens(l.(c := c))
  {
  }

  lemma DataNeedsLinked(i: nat, sim: Sim, l: Local, left: nat)
    requires Phase(i, l.c, l.x, l.up, l.down) && C.WfSlot(l.c) && Listens(l)
    requires var o := S.SendSlot(sim, l.x, i, left).0; o.Some? && o.value.Data?
    ensures Linked(l)
  {
    assert Established(i, l.c, l.x, l.up, l.down) || Confirmed(i, l.c, l.x, l.up, l.down) || Gone(l.c);
  }

  lemma CallListens(s: State, step: Step, i: nat)
    requires Inv(s) && OnlyReads(s, step, i) && Listens(At(s, i)) && (step.AppLink? || step.AppUnlink? || step.AppWrite?)
    ensures Listens(At(Next(s, step), i))
  {
    var l, s' := At(s, i), Next(s, step);
    assert InPhase(s, i);
    match step
    case AppLink(d) =>
      if WfDesc(d) {
        C.LinkWritesOneFreeSlot(s.client, d, i);
        assert At(s', i) == l.(c := CAt(s', i));
        if CAt(s', i) != l.c { FreshListens(CAt(s', i), l); }
      }
    case AppUnlink(name) => assert At(s', i) == l;
    case AppWrite(k, vals) => assert At(s', i) == l;
  }

  lemma ClientTurnListens(i: nat, l: Local, me: Name, left: nat)
    requires Phase(i, l.c, l.x, l.up, l.down) && C.WfSlot(l.c) && Listens(l)
    ensures var (o, c) := C.SendSlot(l.c, me, i, left); Listens(l.(c := c, up := l.up + Opt(o)))
  {
    UnchangedIsUnchanged(l.c.ty, l.c.precision, l.c.data);
  }

  lemma StepListens(s: State, step: Step, i: nat)
    requires Inv(s) && Sane(s, step) && OnlyReads(s, step, i) && Listens(At(s, i))
    ensures Listens(At(Next(s, step), i))
  {
    var l, s' := At(s, i), Next(s, step);
    assert InPhase(s, i) && C.WfSlot(l.c);
    match step
    case ClientSend(k, left) =>
      if k < |s.client| {
        ClientSendLocal(s, k, left, i);
        ClientTurnListens(i, l, s.me, left);
      }
    case ServerSend(k, left) => if k < |s.conn.table| { ServerSendLocal(s, k, left, i); }
    case ClientReceive => if s.down != [] { ClientReceiveLocal(s, i); }
    case ServerReceive => if s.up != [] { ServerReceiveLocal(s, i); }
    case SimChange(sim) => assert At(s', i) == l;
    case Reconnect =>
    case _ => CallListens(s, step, i);
  }

  lemma SendingStarts(s: State, step: Step, i: nat)
    requires Inv(s) && Listens(At(s, i)) && SendsValue(s, step, i)
    ensures SyncedDown(At(Next(s, step), i))
  {
    var l := At(s, i);
    assert InPhase(s, i) && C.WfSlot(l.c);
    DataNeedsLinked(i, s.conn.sim, l, step.left);
    SendingSyncsDown(i, s.conn.sim, l, step.left);
    ServerSendLocal(s, i, step.left, i);
  }

  lemma {:induction false} ValueSentSyncs(s: State, steps: seq<Step>, i: nat, seen: bool)
    requires Inv(s) && SaneRun(s, steps) && OnlyReadsRun(s, steps, i)
    requires Listens(At(s, i)) && (seen ==> SyncedDown(At(s, i)))
    ensures ValueSent(s, steps, i, seen) ==> SyncedDown(At(Run(s, steps), i))
    decreases |steps|
  {
    if steps != [] {
      var step := steps[0];
      NextKeepsInv(s, step);
      StepListens(s, step, i);
      if SendsValue(s, step, i) {
        SendingStarts(s, step, i);
      } else if seen && !step.Reconnect? {
        StaysSyncedDown(s, step, i);
      }
      ValueSentSyncs(Next(s, step), steps[1..], i, !step.Reconnect? && (seen || SendsValue(s, step, i)));
    }
  }

  /** From empty tables, in every state that a run without writes to slot i can reach after the first value
      on the current connection, the frames in flight replayed on the client's copy give the plugin's shadow,
      wherever that is not the missing value. */
  lemma ReplayFromTheStart(me: Name, sim: Sim, store: seq<S.Custom>, steps: seq<Step>, i: nat)
    requires WfName(me) && WfSim(sim) && SaneRun(Init(me, sim, store), steps) && OnlyReadsRun(Init(me, sim, store), steps, i)
    requires ValueSent(Init(me, sim, store), steps, i, false)
    ensures SyncedDown(At(Run(Init(me, sim, store), steps), i))
  {
    ReachableInv(me, sim, store, []);
    ValueSentSyncs(Init(me, sim, store), steps, i, false);
  }

  /** A quiet link has converged: element by element the client holds what the plugin last sent, and
      that is within the precision of the simulator's value. */
  lemma QuietLinkHasConverged(sim: Sim, l: Local, j: nat)
    requires SyncedDown(l) && NoData(l.down) && j < |l.x.data|
    requires !Changed(l.x.ty, l.x.precision, l.x.data, S.ReadSlot(sim, l.x))
    requires l.x.data[j] != MissCode(l.x.ty)
    ensures l.c.data[j] == l.x.data[j]
    ensures var now := S.ReadSlot(sim, l.x)[j];
      if !Floating(l.x.ty) then l.c.data[j] == now
      else if !HasPrecision(l.x.precision) then ValueOf(l.x.ty, l.c.data[j]) == ValueOf(l.x.ty, now)
      else FitsCast(l.x.precision, ValueOf(l.x.ty, now)) ==>
        Near(ValueOf(l.x.ty, l.c.data[j]), ValueOf(l.x.ty, now), Pow10(l.x.precision))
  {
    ReplayNothing(l.x.ty, l.c.data, l.down);
    var now := S.ReadSlot(sim, l.x)[j];
    assert !ElemChanged(l.x.ty, l.x.precision, l.x.data[j], now);
    SuppressionBoundExact(l.x.precision, ValueOf(l.x.ty, now));
  }

  // ---------- from the client to the plugin ----------

  /** The simulator's view is large enough for all elements of the slot. */
  predicate Room(sim: Sim, x: S.Slot) {
    && (x.name, x.ty) in sim.vals
    && (if x.index == -1 then x.nelements <= |View(sim, x.name, x.ty)| else x.index < |View(sim, x.name, x.ty)|)
  }

  /** The simulator holds, as far as the change test can tell, what the plugin's copy holds. */
  predicate ServerQuiet(sim: Sim, l: Local) {
    S.Live(l.x) && Room(sim, l.x) && NoData(l.down) && !Changed(l.x.ty, l.x.precision, l.x.data, S.ReadSlot(sim, l.x))
  }

  /** Both sides hold a writable subscription, and the plugin has nothing to say about it. */
  predicate WriterReady(sim: Sim, l: Local) {
    l.c.status == Valid && Ready(l.x) && Same(l.c, l.x) && !Command(l.x.ty) && l.x.write && ServerQuiet(sim, l)
  }

  /** Once the client has sent a value, moreover, the frames in flight lead the plugin's copy to the client's
      shadow. */
  predicate Writing(sim: Sim, l: Local, sent: bool) {
    WriterReady(sim, l) && (sent ==> Agree(l.x.ty, Replay(l.x.ty, l.x.data, l.up), l.c.shadow))
  }

  predicate SyncedUp(sim: Sim, l: Local) { Writing(sim, l, true) }

  /** Writing into the simulator and reading back gives the merged window. */
  lemma WindowMerges(v: seq<nat>, ty: int, index: int, nelements: int, vals: seq<nat>)
    requires Known(ty) && nelements >= 1 && -1 <= index < nelements
    requires |vals| == Count(index, nelements)
    requires if index == -1 then nelements <= |v| else index < |v|
    ensures ReadWindow(WriteWindow(v, ty, index, vals), ty, index, nelements)
         == Merge(ty, ReadWindow(v, ty, index, nelements), vals)
  {
    var w := WriteWindow(v, ty, index, vals);
    var a, b := ReadWindow(w, ty, index, nelements), Merge(ty, ReadWindow(v, ty, index, nelements), vals);
    forall j | 0 <= j < |a|
      ensures a[j] == b[j]
    {
    }
  }

  lemma MergeKeepsUnchanged(ty: int, precision: int, a: seq<nat>, b: seq<nat>, vals: seq<nat>)
    requires |a| == |b| == |vals| && !Changed(ty, precision, a, b)
    ensures !Changed(ty, precision, Merge(ty, a, vals), Merge(ty, b, vals))
  {
  }

  /** A value the plugin has taken from the client and passed to the simulator is not sent back. */
  lemma NoEchoToClient(conn: S.Conn, i: nat, vals: seq<nat>)
    requires i < |conn.table| && WfVals(conn.table[i].ty, |vals|, vals)
    requires var x := conn.table[i];
      && Ready(x) && !Command(x.ty) && x.write && |vals| == |x.data| && Room(conn.sim, x)
      && !Changed(x.ty, x.precision, x.data, S.ReadSlot(conn.sim, x))
    ensures var c := S.StoreData(conn, i, vals);
      && c.table[i] == conn.table[i].(data := Merge(conn.table[i].ty, conn.table[i].data, vals))
      && S.Live(c.table[i]) && Room(c.sim, c.table[i])
      && !Changed(c.table[i].ty, c.table[i].precision, c.table[i].data, S.ReadSlot(c.sim, c.table[i]))
  {
    var x := conn.table[i];
    var v := View(conn.sim, x.name, x.ty);
    WindowMerges(v, x.ty, x.index, x.nelements, vals);
    MergeKeepsUnchanged(x.ty, x.precision, x.data, S.ReadSlot(conn.sim, x), vals);
  }

  lemma QuietServerSendsNothing(i: nat, sim: Sim, l: Local, left: nat)
    requires Ready(l.x) && ServerQuiet(sim, l)
    ensures S.SendSlot(sim, l.x, i, left) == (None, l.x)
  {
  }

  /** Any value the client sends brings the two sides together, whatever was lost before. */
  lemma SendingSyncsUp(i: nat, sim: Sim, l: Local, me: Name, left: nat)
    requires WriterReady(sim, l) && C.SendSlot(l.c, me, i, left).0.Some?
    ensures var (o, c) := C.SendSlot(l.c, me, i, left); SyncedUp(sim, l.(c := c, up := l.up + Opt(o)))
  {
    var (o, c) := C.SendSlot(l.c, me, i, left);
    ReplayAppend(l.x.ty, l.x.data, l.up, o.value);
  }

  lemma DeliverStaysWriting(i: nat, conn: S.Conn, l: Local, sent: bool)
    requires Phase(i, l.c, l.x, l.up, l.down) && l.up != [] && i < |conn.table| && conn.table[i] == l.x
    requires Writing(conn.sim, l, sent)
    ensures var c := S.Apply(conn, l.up[0]); Writing(c.sim, l.(x := S.At(c.table, i), up := l.up[1..]), sent)
  {
    assert DataFor(i, l.x, l.up[0]);
    NoEchoToClient(conn, i, l.up[0].vals);
    StoreKeepsReady(i, conn, l.up[0]);
  }

  /** Nobody but the client writes this dataref: apart from the delivery of its own frames, no step
      changes the simulator's value; and the subscription is neither dropped nor reconnected. */
  predicate WritesOnly(s: State, step: Step, i: nat) {
    && !step.Reconnect?
    && (step.AppUnlink? ==> step.name != CAt(s, i).name)
    && ((step.ServerReceive? && s.up != [] && Addresses(s.up[0], i))
        || (var x := SAt(s, i);
            && View(Next(s, step).conn.sim, x.name, x.ty) == View(s.conn.sim, x.name, x.ty)
            && ((x.name, x.ty) in s.conn.sim.vals ==> (x.name, x.ty) in Next(s, step).conn.sim.vals)))
  }

  lemma SameViewWriting(sim: Sim, sim': Sim, l: Local, sent: bool)
    requires Writing(sim, l, sent) && View(sim', l.x.name, l.x.ty) == View(sim, l.x.name, l.x.ty)
    requires (l.x.name, l.x.ty) in sim'.vals
    ensures Writing(sim', l, sent)
  {
  }

  lemma QuietDown(i: nat, sim: Sim, l: Local)
    requires Phase(i, l.c, l.x, l.up, l.down) && WriterReady(sim, l)
    ensures l.down == []
  {
    assert l.down == [] || DataFor(i, l.x, l.down[0]);
  }

  lemma ClientTurnStaysWriting(s: State, k: nat, left: nat, i: nat, sent: bool)
    requires Inv(s) && Writing(s.conn.sim, At(s, i), sent) && k < |s.client|
    ensures Writing(s.conn.sim, At(Next(s, ClientSend(k, left)), i), sent)
  {
    var l := At(s, i);
    ClientSendLocal(s, k, left, i);
    assert l.up + [] == l.up;
    if k == i && C.SendSlot(l.c, s.me, i, left).0.Some? {
      SendingSyncsUp(i, s.conn.sim, l, s.me, left);
    }
  }

  lemma TurnStaysWriting(s: State, step: Step, i: nat, sent: bool)
    requires Inv(s) && Writing(s.conn.sim, At(s, i), sent) && (step.ClientSend? || step.ServerSend?)
    ensures Writing(s.conn.sim, At(Next(s, step), i), sent)
  {
    match step
    case ClientSend(k, left) => if k < |s.client| { ClientTurnStaysWriting(s, k, left, i, sent); }
    case ServerSend(k, left) =>
      if k < |s.conn.table| {
        ServerSendLocal(s, k, left, i);
        QuietServerSendsNothing(i, s.conn.sim, At(s, i), left);
        assert At(s, i).down + [] == At(s, i).down;
      }
  }

  lemma CallStaysWriting(s: State, step: Step, i: nat, sent: bool)
    requires Inv(s) && Writing(s.conn.sim, At(s, i), sent) && (step.AppLink? || step.AppUnlink? || step.AppWrite?)
    requires step.AppUnlink? ==> step.name != CAt(s, i).name
    ensures Writing(s.conn.sim, At(Next(s, step), i), sent)
  {
    var l, s' := At(s, i), Next(s, step);
    assert At(s', i) == l.(c := CAt(s', i));
    match step
    case AppLink(d) => if WfDesc(d) { C.LinkWritesOneFreeSlot(s.client, d, i); }
    case AppUnlink(name) =>
    case AppWrite(k, vals) =>
  }

  lemma DeliveryStaysWriting(s: State, i: nat, sent: bool)
    requires Inv(s) && s.up != [] && Writing(s.conn.sim, At(s, i), sent) && Addresses(s.up[0], i)
    ensures Writing(Next(s, ServerReceive).conn.sim, At(Next(s, ServerReceive), i), sent)
  {
    assert InPhase(s, i);
    ServerReceiveLocal(s, i);
    DeliverStaysWriting(i, s.conn, At(s, i), sent);
  }

  lemma HearingStaysWriting(s: State, i: nat, sent: bool)
    requires Inv(s) && Writing(s.conn.sim, At(s, i), sent)
    ensures Writing(s.conn.sim, At(Next(s, ClientReceive), i), sent)
  {
    if s.down != [] {
      assert InPhase(s, i);
      ClientReceiveLocal(s, i);
      QuietDown(i, s.conn.sim, At(s, i));
    }
  }

  lemma StaysWriting(s: State, step: Step, i: nat, sent: bool)
    requires Inv(s) && Sane(s, step) && WritesOnly(s, step, i) && Writing(s.conn.sim, At(s, i), sent)
    ensures Writing(Next(s, step).conn.sim, At(Next(s, step), i), sent)
  {
    if step.ServerReceive? && s.up != [] && Addresses(s.up[0], i) {
      DeliveryStaysWriting(s, i, sent);
    } else {
      SameViewWriting(s.conn.sim, Next(s, step).conn.sim, At(s, i), sent);
      match step
      case ClientSend(_, _) => TurnStaysWriting(s, step, i, sent);
      case ServerSend(_, _) => TurnStaysWriting(s, step, i, sent);
      case ClientReceive => HearingStaysWriting(s, i, sent);
      case ServerReceive => if s.up != [] { ServerReceiveLocal(s, i); }
      case SimChange(sim) => assert At(Next(s, step), i) == At(s, i);
      case _ => CallStaysWriting(s, step, i, sent);
    }
  }

  predicate WritesOnlyRun(s: State, steps: seq<Step>, i: nat)
    decreases |steps|
  {
    steps != [] ==> WritesOnly(s, steps[0], i) && WritesOnlyRun(Next(s, steps[0]), steps[1..], i)
  }

  /** As long as the client alone writes a writable dataref, the frames in flight lead the plugin's
      copy to the client's shadow, and the simulator follows the copy. */
  lemma {:induction false} RunStaysSyncedUp(s: State, steps: seq<Step>, i: nat)
    requires Inv(s) && SaneRun(s, steps) && WritesOnlyRun(s, steps, i) && SyncedUp(s.conn.sim, At(s, i))
    ensures SyncedUp(Run(s, steps).conn.sim, At(Run(s, steps), i))
    decreases |steps|
  {
    if steps != [] {
      StaysWriting(s, steps[0], i, true);
      NextKeepsInv(s, steps[0]);
      RunStaysSyncedUp(Next(s, steps[0]), steps[1..], i);
    }
  }

  // ---------- from the start ----------

  /** The client sends a value of slot i. */
  predicate SendsUp(s: State, step: Step, i: nat) {
    step.ClientSend? && step.i == i && i < |s.client| && C.SendSlot(s.client[i], s.me, i, step.left).0.Some?
  }

  predicate ValueWritten(s: State, steps: seq<Step>, i: nat, sent: bool)
    decreases |steps|
  {
    if steps == [] then sent else ValueWritten(Next(s, steps[0]), steps[1..], i, sent || SendsUp(s, steps[0], i))
  }

  lemma SendingStartsWriting(s: State, step: Step, i: nat)
    requires WriterReady(s.conn.sim, At(s, i)) && SendsUp(s, step, i)
    ensures SyncedUp(s.conn.sim, At(Next(s, step), i))
  {
    SendingSyncsUp(i, s.conn.sim, At(s, i), s.me, step.left);
    ClientSendLocal(s, i, step.left, i);
  }

  lemma {:induction false} ValueWrittenSyncs(s: State, steps: seq<Step>, i: nat, sent: bool)
    requires Inv(s) && SaneRun(s, steps) && WritesOnlyRun(s, steps, i) && Writing(s.conn.sim, At(s, i), sent)
    ensures Writing(Run(s, steps).conn.sim, At(Run(s, steps), i), ValueWritten(s, steps, i, sent))
    decreases |steps|
  {
    if steps != [] {
      var step := steps[0];
      NextKeepsInv(s, step);
      if SendsUp(s, step, i) {
        SendingStartsWriting(s, step, i);
      } else {
        StaysWriting(s, step, i, sent);
      }
      ValueWrittenSyncs(Next(s, step), steps[1..], i, sent || SendsUp(s, step, i));
    }
  }

  /** From empty tables: the client reads a writable dataref until the plugin's first value, and all that came
      after it, has arrived and nothing is due; then it alone writes. When it starts, it has what the plugin
      sent; and in every state from its first value on, the frames in flight lead the plugin's copy to the
      client's shadow, and the simulator follows the copy. */
  lemma WriterFromTheStart(me: Name, sim: Sim, store: seq<S.Custom>, before: seq<Step>, after: seq<Step>, i: nat)
    requires WfName(me) && WfSim(sim) && SaneRun(Init(me, sim, store), before) && OnlyReadsRun(Init(me, sim, store), before, i)
    requires ValueSent(Init(me, sim, store), before, i, false)
    requires var s := Run(Init(me, sim, store), before);
      && CAt(s, i).status == Valid && !Command(CAt(s, i).ty) && SAt(s, i).write && ServerQuiet(s.conn.sim, At(s, i))
      && SaneRun(s, after) && WritesOnlyRun(s, after, i)
    ensures var s := Run(Init(me, sim, store), before);
      && SyncedDown(At(s, i)) && Agree(CAt(s, i).ty, CAt(s, i).data, SAt(s, i).data)
      && (ValueWritten(s, after, i, false) ==> SyncedUp(Run(s, after).conn.sim, At(Run(s, after), i)))
  {
    var s := Run(Init(me, sim, store), before);
    ReachableInv(me, sim, store, before);
    ReplayFromTheStart(me, sim, store, before, i);
    ReplayNothing(SAt(s, i).ty, CAt(s, i).data, Proj(s.down, i));
    ValueWrittenSyncs(s, after, i, false);
  }

  /** A quiet writer has converged too: with nothing in flight and nothing due, the simulator holds what
      the application wrote, or a value within the precision of it. The two suppressed differences, at the
      client and at the plugin, do not add up. */
  lemma QuietWriterHasConverged(sim: Sim, l: Local, j: nat)
    requires SyncedUp(sim, l) && NoData(l.up) && j < |l.c.data|
    requires !Changed(l.c.ty, l.c.precision, l.c.shadow, l.c.data) && l.c.shadow[j] != MissCode(l.c.ty)
    ensures |S.ReadSlot(sim, l.x)| == |l.c.data|
    ensures var now := S.ReadSlot(sim, l.x)[j];
      if !Floating(l.c.ty) then now == l.c.data[j]
      else if !HasPrecision(l.c.precision) then ValueOf(l.c.ty, now) == ValueOf(l.c.ty, l.c.data[j])
      else FitsCast(l.c.precision, ValueOf(l.c.ty, now)) ==>
        Near(ValueOf(l.c.ty, l.c.data[j]), ValueOf(l.c.ty, now), Pow10(l.c.precision))
  {
    ReplayNothing(l.x.ty, l.x.data, l.up);
    var now := S.ReadSlot(sim, l.x)[j];
    assert l.x.data[j] == l.c.shadow[j];
    assert !ElemChanged(l.x.ty, l.x.precision, l.x.data[j], now);
    assert !ElemChanged(l.c.ty, l.c.precision, l.c.shadow[j], l.c.data[j]);
    SuppressionBoundExact(l.c.precision, ValueOf(l.c.ty, now));
  }
}
