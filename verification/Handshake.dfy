/** When a subscription counts as established, and when it never will. */
module Handshake {
  import opened Wire
  import opened Dataref
  import opened Simulator
  import opened Protocol
  import C = ClientTable
  import S = ServerTable

  /** A slot the client holds valid is valid at the plugin too, bound to a checked dataref, and both
      describe it alike. */
  lemma ValidMeansAgreed(s: State, i: nat)
    requires Inv(s) && i < |s.client| && s.client[i].status == Valid
    ensures i < |s.conn.table|
    ensures s.conn.table[i].status == Valid && s.conn.table[i].bound
    ensures S.DescOf(s.conn.table[i]) == C.DescOf(s.client[i])
    ensures Normalise(C.DescOf(s.client[i])) == Some(C.DescOf(s.client[i]))
  {
    assert InPhase(s, i) && C.WfSlot(s.client[i]);
    var l := At(s, i);
    assert Established(i, l.c, l.x, l.up, l.down);
  }

  lemma ReachableHandshake(me: Name, sim: Sim, store: seq<S.Custom>, steps: seq<Step>, i: nat)
    requires WfName(me) && WfSim(sim) && SaneRun(Init(me, sim, store), steps)
    ensures var s := Run(Init(me, sim, store), steps);
      i < |s.client| && s.client[i].status == Valid ==>
        && i < |s.conn.table| && s.conn.table[i].status == Valid && s.conn.table[i].bound
        && S.DescOf(s.conn.table[i]) == C.DescOf(s.client[i])
  {
    ReachableInv(me, sim, store, steps);
    var s := Run(Init(me, sim, store), steps);
    if i < |s.client| && s.client[i].status == Valid {
      ValidMeansAgreed(s, i);
    }
  }

  // ---------- refusals are final ----------

  /** Refused, or never to be answered, on this connection. */
  predicate Out(i: nat, l: Local) {
    Rejected(l.c, l.x, l.up, l.down) || RefusalSent(i, l.c, l.x, l.up, l.down) || Silent(l.c, l.x, l.up, l.down)
  }

  lemma OutIsSilent(i: nat, l: Local, sim: Sim, me: Name, left: nat)
    requires Out(i, l)
    ensures C.SendSlot(l.c, me, i, left) == (None, l.c)
    ensures var (o, x) := S.SendSlot(sim, l.x, i, left); Out(i, l.(x := x, down := l.down + Opt(o)))
    ensures l.down != [] ==> Out(i, l.(c := CStep(l.c, l.down[0]), down := l.down[1..]))
    ensures l.up == []
  {
    assert l.down + [] == l.down;
  }

  lemma CallStaysOut(s: State, step: Step, i: nat)
    requires Inv(s) && Sane(s, step) && Out(i, At(s, i)) && (step.AppLink? || step.AppUnlink? || step.AppWrite?)
    ensures Out(i, At(Next(s, step), i))
  {
    var l, s' := At(s, i), Next(s, step);
    assert At(s', i) == l.(c := CAt(s', i));
    match step
    case AppLink(d) => if WfDesc(d) { C.LinkWritesOneFreeSlot(s.client, d, i); }
    case AppUnlink(name) =>
    case AppWrite(k, vals) =>
  }

  lemma StaysOut(s: State, step: Step, i: nat)
    requires Inv(s) && Sane(s, step) && Out(i, At(s, i)) && !step.Reconnect?
    ensures Out(i, At(Next(s, step), i))
  {
    var l, s' := At(s, i), Next(s, step);
    match step
    case ClientSend(k, left) =>
      if k < |s.client| {
        ClientSendLocal(s, k, left, i);
        OutIsSilent(i, l, s.conn.sim, s.me, left);
        assert l.up + [] == l.up;
      }
    case ServerSend(k, left) =>
      if k < |s.conn.table| {
        ServerSendLocal(s, k, left, i);
        OutIsSilent(i, l, s.conn.sim, s.me, left);
      }
    case ClientReceive =>
      if s.down != [] {
        ClientReceiveLocal(s, i);
        OutIsSilent(i, l, s.conn.sim, s.me, 0);
      }
    case ServerReceive =>
      if s.up != [] {
        ServerReceiveLocal(s, i);
        OutIsSilent(i, l, s.conn.sim, s.me, 0);
      }
    case SimChange(sim) => assert At(s', i) == l;
    case _ => CallStaysOut(s, step, i);
  }

  lemma FailedCheckIsOut(i: nat, conn: S.Conn, c: C.Slot, up: seq<Frame>, down: seq<Frame>)
    requires Requested(i, c, S.At(conn.table, i), up, down) && C.WfSlot(c) && SafeSlot(c)
    requires !S.At(S.LinkRequest(conn, i, up[0].desc).table, i).bound
    ensures Out(i, Local(c, S.At(S.LinkRequest(conn, i, up[0].desc).table, i), [], down))
  {
    LinkRequestKeepsPhase(i, conn, c, up, down);
  }

  lemma RequestIsRequested(i: nat, l: Local)
    requires Phase(i, l.c, l.x, l.up, l.down) && l.up != [] && l.up[0].Link?
    ensures Requested(i, l.c, l.x, l.up, l.down)
  {
  }

  /** A link request whose check fails puts the slot out. */
  lemma FailedCheckPutsOut(s: State, i: nat)
    requires Inv(s) && s.up != [] && s.up[0].Link? && s.up[0].offset == i
    requires !S.At(S.LinkRequest(s.conn, i, s.up[0].desc).table, i).bound
    ensures Out(i, At(Next(s, ServerReceive), i))
  {
    var l := At(s, i);
    assert InPhase(s, i) && C.WfSlot(l.c) && SafeSlot(l.c);
    ServerReceiveLocal(s, i);
    RequestIsRequested(i, l);
    FailedCheckIsOut(i, s.conn, l.c, l.up, l.down);
    assert l.up[1..] == [];
  }

  /** Once out, a slot does not become valid before the next connection. */
  lemma {:induction false} RefusedNeverValid(s: State, steps: seq<Step>, i: nat)
    requires Inv(s) && SaneRun(s, steps) && Out(i, At(s, i))
    requires forall k :: 0 <= k < |steps| ==> !steps[k].Reconnect?
    ensures CAt(Run(s, steps), i).status != Valid
    decreases |steps|
  {
    if steps != [] {
      StaysOut(s, steps[0], i);
      NextKeepsInv(s, steps[0]);
      RefusedNeverValid(Next(s, steps[0]), steps[1..], i);
    }
  }
}
