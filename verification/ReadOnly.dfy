/** A dataref that the simulator does not let anyone write is never written for a client. */
module ReadOnly {
  import opened Wire
  import opened Dataref
  import opened Simulator
  import opened Protocol
  import S = ServerTable

  /** The simulator's own dataref n can not be written. */
  predicate Locked(sim: Sim, n: Name) {
    n != [] && !S.IsCustom(n) && (n in sim.refs ==> !sim.refs[n].writable)
  }

  /** No slot bound to n may write it. */
  predicate MayNotWrite(x: S.Slot, n: Name) {
    x.name == n && x.bound && !Command(x.ty) ==> !x.write
  }

  predicate NoWriter(t: seq<S.Slot>, n: Name) {
    forall i :: 0 <= i < |t| ==> MayNotWrite(t[i], n)
  }

  lemma SubscribeLocked(store: seq<S.Custom>, sim: Sim, x: S.Slot, d: Desc, n: Name)
    requires Locked(sim, n) && MayNotWrite(x, n) && x.name == d.name
    ensures var (x', store', sim') := S.Subscribe(store, sim, x, d);
      && MayNotWrite(x', n) && Locked(sim', n)
      && forall ty :: (n, ty) in sim.vals || (n, ty) in sim'.vals ==>
           (n, ty) in sim.vals && (n, ty) in sim'.vals && sim'.vals[(n, ty)] == sim.vals[(n, ty)]
  {
  }

  /** The elements of n are what they were. */
  ghost predicate SameValues(sim: Sim, sim': Sim, n: Name) {
    forall ty: int :: View(sim', n, ty) == View(sim, n, ty)
  }

  lemma RequestLocked(c: S.Conn, i: nat, d: Desc, n: Name)
    requires Locked(c.sim, n) && NoWriter(c.table, n)
    ensures var c' := S.LinkRequest(c, i, d); Locked(c'.sim, n) && NoWriter(c'.table, n) && SameValues(c.sim, c'.sim, n)
  {
    S.LinkRequestAllocatesFirst(c, i, d);
    var (ok, t) := S.Allocate(c.table, i, d);
    AllocateLocked(c.table, i, d, n);
    if ok { SubscribeLocked(c.store, c.sim, t[i], d, n); }
  }

  lemma AllocateLocked(t: seq<S.Slot>, i: nat, d: Desc, n: Name)
    requires NoWriter(t, n)
    ensures NoWriter(S.Allocate(t, i, d).1, n)
  {
  }

  lemma ValueLocked(c: S.Conn, i: nat, vals: seq<nat>, n: Name)
    requires Locked(c.sim, n) && NoWriter(c.table, n) && i < |c.table| && (c.table[i].status == Valid ==> c.table[i].bound)
    ensures var c' := S.StoreData(c, i, vals); Locked(c'.sim, n) && NoWriter(c'.table, n) && SameValues(c.sim, c'.sim, n)
  {
    var x := c.table[i];
    assert MayNotWrite(x, n);
  }

  lemma DeliveryLocked(s: State, n: Name)
    requires Inv(s) && s.up != [] && Locked(s.conn.sim, n) && NoWriter(s.conn.table, n)
    ensures var c := S.Apply(s.conn, s.up[0]); Locked(c.sim, n) && NoWriter(c.table, n) && SameValues(s.conn.sim, c.sim, n)
  {
    var f := s.up[0];
    if f.Link? {
      RequestLocked(s.conn, f.offset, f.desc, n);
    } else if f.Data? {
      DataFitsItsSlot(s, f.offset);
      ValueLocked(s.conn, f.offset, f.vals, n);
    } else if f.Unlink? && f.offset < |s.conn.table| {
      assert MayNotWrite(s.conn.table[f.offset], n);
    }
  }

  lemma TurnLocked(sim: Sim, x: S.Slot, i: nat, left: nat, n: Name)
    requires n != [] && MayNotWrite(x, n)
    ensures MayNotWrite(S.SendSlot(sim, x, i, left).1, n)
  {
  }

  /** No step but the simulator's own changes the elements of n. */
  lemma StepLocked(s: State, step: Step, n: Name)
    requires Inv(s) && Locked(s.conn.sim, n) && NoWriter(s.conn.table, n)
    ensures var r := Next(s, step);
      && NoWriter(r.conn.table, n)
      && (!step.SimChange? ==> Locked(r.conn.sim, n) && SameValues(s.conn.sim, r.conn.sim, n))
  {
    match step
    case ServerReceive => if s.up != [] { DeliveryLocked(s, n); }
    case ServerSend(k, left) => if k < |s.conn.table| { TurnLocked(s.conn.sim, s.conn.table[k], k, left, n); }
    case _ =>
  }

  /** The simulator keeps n locked over the whole run. */
  predicate StaysLocked(s: State, steps: seq<Step>, n: Name)
    decreases |steps|
  {
    Locked(s.conn.sim, n) && (steps != [] ==> StaysLocked(Next(s, steps[0]), steps[1..], n))
  }

  lemma {:induction false} RunLocked(s: State, steps: seq<Step>, n: Name)
    requires Inv(s) && SaneRun(s, steps) && StaysLocked(s, steps, n) && NoWriter(s.conn.table, n)
    ensures var r := Run(s, steps); Inv(r) && Locked(r.conn.sim, n) && NoWriter(r.conn.table, n)
    decreases |steps|
  {
    if steps != [] {
      StepLocked(s, steps[0], n);
      NextKeepsInv(s, steps[0]);
      RunLocked(Next(s, steps[0]), steps[1..], n);
    }
  }

  /** From empty tables, in every state a run can reach while the simulator keeps n locked, no step but the
      simulator's own changes an element of n: whatever the client asks for, links and sends. */
  lemma NeverWritten(me: Name, sim: Sim, store: seq<S.Custom>, steps: seq<Step>, step: Step, n: Name)
    requires WfName(me) && WfSim(sim) && SaneRun(Init(me, sim, store), steps) && StaysLocked(Init(me, sim, store), steps, n)
    requires !step.SimChange?
    ensures var s := Run(Init(me, sim, store), steps); SameValues(s.conn.sim, Next(s, step).conn.sim, n)
  {
    ReachableInv(me, sim, store, []);
    RunLocked(Init(me, sim, store), steps, n);
    StepLocked(Run(Init(me, sim, store), steps), step, n);
  }
}
