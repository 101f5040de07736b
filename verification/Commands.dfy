/** One-shot commands travel as values of a slot and fire on 1: each request fires exactly once. */
module Commands {
  import opened Wire
  import opened Dataref
  import opened Simulator
  import opened Protocol
  import C = ClientTable
  import S = ServerTable

  /** The frame asks slot i to fire. */
  predicate Fires(f: Frame, i: nat) {
    f.Data? && f.offset == i && f.ty == XPTYPE_CMD_ONCE && f.vals == [1]
  }

  function Requests(fs: seq<Frame>, i: nat): nat {
    if fs == [] then 0 else Requests(fs[..|fs| - 1], i) + if Fires(fs[|fs| - 1], i) then 1 else 0
  }

  function Calls(log: seq<Event>, i: nat): nat {
    if log == [] then 0
    else Calls(log[..|log| - 1], i) + if log[|log| - 1].Once? && log[|log| - 1].offset == i then 1 else 0
  }

  lemma {:induction false} RequestsAppend(a: seq<Frame>, b: seq<Frame>, i: nat)
    ensures Requests(a + b, i) == Requests(a, i) + Requests(b, i)
  {
    if b == [] {
      assert a + b == a;
    } else {
      assert (a + b)[..|a + b| - 1] == a + b[..|b| - 1];
      RequestsAppend(a, b[..|b| - 1], i);
    }
  }

  lemma RequestsTail(fs: seq<Frame>, i: nat)
    requires fs != []
    ensures Requests(fs, i) == (if Fires(fs[0], i) then 1 else 0) + Requests(fs[1..], i)
  {
    assert fs == [fs[0]] + fs[1..];
    RequestsAppend([fs[0]], fs[1..], i);
    var one := [fs[0]];
    assert one[..0] == [];
  }

  lemma {:induction false} CallsAppend(a: seq<Event>, b: seq<Event>, i: nat)
    ensures Calls(a + b, i) == Calls(a, i) + Calls(b, i)
  {
    if b == [] {
      assert a + b == a;
    } else {
      assert (a + b)[..|a + b| - 1] == a + b[..|b| - 1];
      CallsAppend(a, b[..|b| - 1], i);
    }
  }

  /** Every transmitted request has fired once, is on its way, or went down with a connection. */
  predicate Accounted(s: State, i: nat) {
    Calls(s.conn.sim.log, i) + Requests(s.up, i) + Requests(s.lost, i) == Requests(s.sent, i)
  }

  /** The call a frame makes when it is delivered. */
  function CallOf(t: seq<S.Slot>, f: Frame): seq<Event> {
    if f.Data? && |f.vals| == 1 then
      var x := S.At(t, f.offset);
      if Command(x.ty) && f.vals[0] != MissCode(x.ty) then S.CommandEvent(x, f.offset, f.vals[0]) else []
    else []
  }

  /** The calls made when the head of the channel is delivered. */
  function Delivered(s: State): seq<Event>
    requires s.up != []
  {
    CallOf(s.conn.table, s.up[0])
  }

  lemma DeliveryExtendsLog(s: State)
    requires Inv(s) && s.up != []
    ensures Next(s, ServerReceive).conn.sim.log == s.conn.sim.log + Delivered(s)
  {
    if s.up[0].Data? {
      DataFitsItsSlot(s, s.up[0].offset);
    } else {
      S.ApplyKeepsSim(s.conn, s.up[0]);
    }
  }

  lemma OneCall(log: seq<Event>, more: seq<Event>, i: nat)
    requires |more| <= 1
    ensures Calls(log + more, i) == Calls(log, i) + if more != [] && more[0].Once? && more[0].offset == i then 1 else 0
  {
    CallsAppend(log, more, i);
    if more != [] { assert more[..0] == []; }
  }

  /** Delivering a frame calls the command once if the frame asks for it, and not otherwise. */
  lemma DeliveryFiresOnce(s: State, i: nat)
    requires Inv(s) && s.up != []
    ensures Calls(Next(s, ServerReceive).conn.sim.log, i)
         == Calls(s.conn.sim.log, i) + if Fires(s.up[0], i) then 1 else 0
  {
    var f, more := s.up[0], Delivered(s);
    DeliveryExtendsLog(s);
    OneCall(s.conn.sim.log, more, i);
    if f.Data? {
      DataFitsItsSlot(s, f.offset);
      assert |f.vals| == 1 ==> f.vals == [f.vals[0]];
    }
  }

  lemma StepAccounts(s: State, step: Step, i: nat)
    requires Inv(s) && Accounted(s, i)
    ensures Accounted(Next(s, step), i)
  {
    match step
    case ClientSend(k, left) =>
      if k < |s.client| {
        var o := Opt(C.SendSlot(s.client[k], s.me, k, left).0);
        RequestsAppend(s.up, o, i);
        RequestsAppend(s.sent, o, i);
      }
    case ServerReceive =>
      if s.up != [] {
        RequestsTail(s.up, i);
        DeliveryFiresOnce(s, i);
      }
    case Reconnect => RequestsAppend(s.lost, s.up, i);
    case _ =>
  }

  lemma {:induction false} RunAccounts(s: State, steps: seq<Step>, i: nat)
    requires Inv(s) && SaneRun(s, steps) && Accounted(s, i)
    ensures Accounted(Run(s, steps), i)
    decreases |steps|
  {
    if steps != [] {
      StepAccounts(s, steps[0], i);
      NextKeepsInv(s, steps[0]);
      RunAccounts(Next(s, steps[0]), steps[1..], i);
    }
  }

  /** Over a whole run, each request fires exactly once unless a reconnection drops it. */
  lemma ExactlyOnce(me: Name, sim: Sim, store: seq<S.Custom>, steps: seq<Step>, i: nat)
    requires WfName(me) && WfSim(sim) && SaneRun(Init(me, sim, store), steps) && sim.log == []
    ensures var s := Run(Init(me, sim, store), steps);
      Calls(s.conn.sim.log, i) + Requests(s.up, i) + Requests(s.lost, i) == Requests(s.sent, i)
  {
    ReachableInv(me, sim, store, []);
    RunAccounts(Init(me, sim, store), steps, i);
  }

  /** A pending 1 is due: one-shot slots never keep 1 as their shadow. */
  predicate OnceReady(c: C.Slot) {
    c.ty == XPTYPE_CMD_ONCE ==> c.shadow != [1]
  }

  /** The turn that finds a pending 1 transmits it if it fits, exactly once, and otherwise keeps it. */
  lemma PendingIsSentOnce(c: C.Slot, me: Name, i: nat, left: nat, later: nat)
    requires C.Live(c) && c.ty == XPTYPE_CMD_ONCE && c.status == Valid && c.data == [1] && OnceReady(c)
    ensures var (o, c') := C.SendSlot(c, me, i, left);
      if left + 12 <= TCPBUFSIZE then
        && o == Some(Data(i, XPTYPE_CMD_ONCE, [1])) && Fires(o.value, i) && OnceReady(c') && c'.data == c'.shadow == [0]
        && C.SendSlot(c', me, i, later) == (None, c')
      else o == None && c' == c
  {
    assert c.name != [];
    assert c.shadow == [c.shadow[0]];
    assert ElemChanged(c.ty, c.precision, c.shadow[0], c.data[0]);
  }

  /** The plugin sends no values for commands. */
  lemma NoDataForCommands(i: nat, l: Local)
    requires Phase(i, l.c, l.x, l.up, l.down) && C.WfSlot(l.c) && l.down != [] && l.down[0].Data?
    ensures !Command(l.c.ty)
  {
    if LeaveConfirmed(i, l.c, l.x, l.up, l.down) {
      assert C.Released(l.c);
    } else {
      assert l.x.ty == l.c.ty || C.Released(l.c);
    }
  }

  lemma OnceStaysReady(s: State, step: Step, i: nat)
    requires Inv(s) && Sane(s, step) && OnceReady(CAt(s, i))
    ensures OnceReady(CAt(Next(s, step), i))
  {
    var l := At(s, i);
    assert InPhase(s, i) && C.WfSlot(l.c);
    match step
    case AppLink(d) =>
      if WfDesc(d) {
        LinkedIsReady(s.client, d, i);
      }
    case ClientReceive =>
      if s.down != [] {
        ClientReceiveLocal(s, i);
        if Addresses(s.down[0], i) && s.down[0].Data? {
          NoDataForCommands(i, l);
        }
      }
    case _ =>
  }

  lemma LinkedIsReady(t: seq<C.Slot>, d: Desc, i: nat)
    requires WfDesc(d) && C.WfTable(t)
    requires i < |t| ==> OnceReady(t[i])
    ensures var r := C.LinkDataref(t, d).1; i < |r| ==> OnceReady(r[i])
  {
    if Normalise(d).Some? {
      var n := Normalise(d).value;
      NormaliseIsIdempotent(d);
      if n.ty == XPTYPE_CMD_ONCE {
        assert C.Fresh(n).shadow[0] == Absent(n.ty);
      }
    }
  }
}
