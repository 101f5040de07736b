/** The converse of alternation over a connection: whoever leaves a held command, or writes the missing value
over its 1, begins it twice by going on. The plugin ends no call by itself. */
module Relink {
  import opened Wire
  import opened Dataref
  import opened Simulator
  import opened Protocol
  import opened Commands
  import opened Holds
  import opened Cycles
  import C = ClientTable
  import S = ServerTable

  function HoldDesc(name: Name): Desc { Desc(name, XPTYPE_CMD_HOLD, 1, 0, INT_MISS) }

  /** The command can be subscribed to as soon as the simulator has it, and no slot is. */
  ghost predicate Offered(s: State, name: Name) {
    && WfName(name) && name != [] && !S.IsCustom(name) && SafeDesc(HoldDesc(name))
    && forall k :: 0 <= k < |s.client| && s.client[k].name == name ==> !Known(s.client[k].ty)
  }

  /** A call is open from position start of the log on. */
  predicate Open(log: seq<Event>, start: nat, n: Name) { start <= |log| && Held(log[start..], n, false) }

  lemma {:induction false} SaneAppend(s: State, a: seq<Step>, b: seq<Step>)
    ensures SaneRun(s, a + b) <==> SaneRun(s, a) && SaneRun(Run(s, a), b)
    decreases |a|
  {
    if a == [] {
      assert a + b == b;
    } else {
      assert (a + b)[0] == a[0] && (a + b)[1..] == a[1..] + b;
      SaneAppend(Protocol.Next(s, a[0]), a[1..], b);
    }
  }

  lemma {:induction false} ReleasesAppend(s: State, a: seq<Step>, b: seq<Step>, n: Name)
    ensures ReleasesRun(s, a + b, n) <==> ReleasesRun(s, a, n) && ReleasesRun(Run(s, a), b, n)
    decreases |a|
  {
    if a == [] {
      assert a + b == b;
    } else {
      assert (a + b)[0] == a[0] && (a + b)[1..] == a[1..] + b;
      ReleasesAppend(Protocol.Next(s, a[0]), a[1..], b, n);
    }
  }

  /** The steps lead from s to r; they are sane, and respect what alternation of command n asks for. */
  ghost predicate Leads(n: Name, s: State, steps: seq<Step>, r: State) {
    SaneRun(s, steps) && ReleasesRun(s, steps, n) && Run(s, steps) == r
  }

  lemma Onwards(n: Name, s: State, a: seq<Step>, m: State, b: seq<Step>, r: State)
    requires Leads(n, s, a, m) && Leads(n, m, b, r)
    ensures Leads(n, s, a + b, r)
  {
    SaneAppend(s, a, b);
    ReleasesAppend(s, a, b, n);
    RunAppend(s, a, b);
  }

  lemma OneStep(n: Name, s: State, step: Step)
    requires Sane(s, step) && Releases(s, step, n)
    ensures Leads(n, s, [step], Protocol.Next(s, step))
  {
    RunOne(s, step);
    assert [step][1..] == [];
  }

  lemma Walk(n: Name, s: State, a: Step, b: Step, c: Step)
    requires Sane(s, a) && Sane(Protocol.Next(s, a), b) && Sane(Protocol.Next(Protocol.Next(s, a), b), c)
    requires Releases(s, a, n) && Releases(Protocol.Next(s, a), b, n)
    requires Releases(Protocol.Next(Protocol.Next(s, a), b), c, n)
    ensures Leads(n, s, [a, b, c], Protocol.Next(Protocol.Next(Protocol.Next(s, a), b), c))
  {
    var s1 := Protocol.Next(s, a);
    var s2 := Protocol.Next(s1, b);
    OneStep(n, s, a);
    OneStep(n, s1, b);
    OneStep(n, s2, c);
    Onwards(n, s, [a], s1, [b], s2);
    Onwards(n, s, [a] + [b], s2, [c], Protocol.Next(s2, c));
    assert [a] + [b] + [c] == [a, b, c];
  }

  // ---------- the frames in flight arrive ----------

  /** All frames on their way to the plugin can be delivered first. */
  lemma {:induction false} AllArrive(s: State, n: Name) returns (steps: seq<Step>, r: State)
    requires Inv(s)
    ensures Leads(n, s, steps, r) && Inv(r)
    ensures r == s.(conn := r.conn, up := []) && r.conn.sim.log == Future(s)
    decreases |s.up|
  {
    if s.up == [] {
      steps, r := [], s;
      assert s.conn.sim.log + [] == s.conn.sim.log;
    } else {
      var m := Protocol.Next(s, ServerReceive);
      ServerReceiveKeepsInv(s);
      ReceivingKeepsFuture(s);
      OneStep(n, s, ServerReceive);
      var more;
      more, r := AllArrive(m, n);
      Onwards(n, s, [ServerReceive], m, more, r);
      steps := [ServerReceive] + more;
    }
  }

  // ---------- both sides forget the slot ----------

  /** The application has left slot i with the command held, and the plugin has been told all but that. */
  ghost predicate LeftHeld(s: State, i: nat, name: Name, start: nat) {
    && Inv(s) && s.up == [] && Offered(s, name) && Open(s.conn.sim.log, start, name)
    && i < |s.client| && s.client[i].name == name && s.client[i].status == Dealloc
  }

  /** The plugin has forgotten the slot with the call open; the client has, or will. */
  ghost predicate Forgotten(s: State, i: nat, name: Name, start: nat) {
    && Inv(s) && s.up == [] && Offered(s, name) && Open(s.conn.sim.log, start, name)
    && i < |s.client| && SAt(s, i).name == [] && (s.client[i].name == [] || s.client[i].status == Unlinking)
  }

  lemma Asked(s: State, i: nat, name: Name, start: nat)
    requires LeftHeld(s, i, name, start)
    ensures var r := Protocol.Next(s, ClientSend(i, 0));
      && Inv(r) && r == s.(client := r.client, up := [Frame.Unlink(i, name)], sent := r.sent)
      && r.client == s.client[i := s.client[i].(status := Unlinking)] && Offered(r, name)
    ensures i < |s.conn.table| && s.conn.table[i].name == name
  {
    var l := At(s, i);
    assert InPhase(s, i);
    assert Leaving(i, l.c, l.x, l.up, l.down);
    ClientSendKeepsInv(s, i, 0);
  }

  lemma Dropped(s: State, i: nat, name: Name)
    requires Inv(s) && s.up == [Frame.Unlink(i, name)] && i < |s.conn.table| && s.conn.table[i].name == name && name != []
    ensures var r := Protocol.Next(Protocol.Next(s, ServerReceive), ServerSend(i, 0));
      && Inv(r) && r == s.(conn := r.conn, up := [], down := r.down) && r.conn == s.conn.(table := r.conn.table)
      && SAt(r, i).name == []
  {
    ServerReceiveKeepsInv(s);
    ServerSendKeepsInv(Protocol.Next(s, ServerReceive), i, 0);
  }

  lemma Depart(s: State, i: nat, name: Name, start: nat) returns (steps: seq<Step>, r: State)
    requires LeftHeld(s, i, name, start)
    ensures Leads(name, s, steps, r) && Forgotten(r, i, name, start)
  {
    Asked(s, i, name, start);
    var s1 := Protocol.Next(s, ClientSend(i, 0));
    Dropped(s1, i, name);
    var s2 := Protocol.Next(s1, ServerReceive);
    r := Protocol.Next(s2, ServerSend(i, 0));
    steps := [ClientSend(i, 0), ServerReceive, ServerSend(i, 0)];
    Walk(name, s, ClientSend(i, 0), ServerReceive, ServerSend(i, 0));
  }

  /** Only a slot waiting for the plugin's goodbye is freed by a frame. */
  lemma HearingFrees(i: nat, l: Local)
    requires Phase(i, l.c, l.x, l.up, l.down) && l.down != []
    ensures var c := CStep(l.c, l.down[0]);
      && (c.name == l.c.name || (c.name == [] && l.c.status == Unlinking)) && c.ty == l.c.ty
      && (c.status == l.c.status || (l.c.status == Linking && c.status == Valid) || c.name == [])
  {
    if LeaveConfirmed(i, l.c, l.x, l.up, l.down) && |l.down| > 1 {
      assert l.down[0] == l.down[..|l.down| - 1][0];
    }
  }

  lemma Hear(s: State, i: nat, name: Name, start: nat)
    requires Forgotten(s, i, name, start) && s.down != []
    ensures Forgotten(Protocol.Next(s, ClientReceive), i, name, start)
  {
    var s' := Protocol.Next(s, ClientReceive);
    ClientReceiveKeepsInv(s);
    forall k | 0 <= k < |s.client|
      ensures s'.client[k].name == s.client[k].name || s'.client[k].name == []
      ensures s'.client[k].ty == s.client[k].ty
      ensures s.client[k].status == Unlinking ==> s'.client[k].status == Unlinking || s'.client[k].name == []
    {
      assert InPhase(s, k);
      ClientReceiveLocal(s, k);
      if Addresses(s.down[0], k) { HearingFrees(k, At(s, k)); }
    }
  }

  lemma {:induction false} AllHeard(s: State, i: nat, name: Name, start: nat) returns (steps: seq<Step>, r: State)
    requires Forgotten(s, i, name, start)
    ensures Leads(name, s, steps, r) && Forgotten(r, i, name, start) && r.down == [] && r.client[i].name == []
    decreases |s.down|
  {
    if s.down == [] {
      steps, r := [], s;
      assert InPhase(s, i);
    } else {
      Hear(s, i, name, start);
      OneStep(name, s, ClientReceive);
      var more;
      more, r := AllHeard(Protocol.Next(s, ClientReceive), i, name, start);
      Onwards(name, s, [ClientReceive], Protocol.Next(s, ClientReceive), more, r);
      steps := [ClientReceive] + more;
    }
  }

  // ---------- and the command is subscribed and pressed again ----------

  /** Nothing is in flight, the simulator has the command, and slot j is the first free one: perhaps not the
      slot left. */
  ghost predicate Cleared(s: State, j: nat, name: Name) {
    && Inv(s) && s.up == [] && s.down == [] && Offered(s, name) && name in s.conn.sim.cmds
    && j < |s.client| && j == C.FindFree(s.client, 0)
  }

  lemma LinksAt(t: seq<C.Slot>, j: nat, name: Name)
    requires j < |t| && j == C.FindFree(t, 0) && WfName(name) && name != []
    requires forall k :: 0 <= k < |t| && t[k].name == name ==> !Known(t[k].ty)
    ensures Normalise(HoldDesc(name)) == Some(HoldDesc(name))
    ensures C.LinkDataref(t, HoldDesc(name)) == (Some(j), t[j := C.Fresh(HoldDesc(name))])
  {
  }

  /** Both sides hold the subscription, with the given values. */
  predicate Linked(s: State, i: nat, name: Name, cdata: nat, xdata: nat) {
    && WfName(name) && name != [] && i < |s.client| && i < |s.conn.table| && s.up == [] && s.down == []
    && s.client[i] == C.Fresh(HoldDesc(name)).(status := Valid, data := [cdata], shadow := [cdata])
    && s.conn.table[i] == S.FreshSlot(HoldDesc(name)).(status := Valid, bound := true, write := true, data := [xdata])
  }

  lemma Requested(s: State, i: nat, name: Name)
    requires Cleared(s, i, name)
    ensures Normalise(HoldDesc(name)) == Some(HoldDesc(name)) && WfDesc(HoldDesc(name))
    ensures var d := HoldDesc(name); var r := Protocol.Next(Protocol.Next(s, AppLink(d)), ClientSend(i, 0));
      && Sane(s, AppLink(d)) && r == s.(client := r.client, up := [Link(i, d, s.me)], sent := r.sent)
      && r.client == s.client[i := C.Fresh(d).(status := Linking)]
    ensures SAt(s, i).name == []
  {
    LinksAt(s.client, i, name);
    assert InPhase(s, i);
    var s1 := Protocol.Next(s, AppLink(HoldDesc(name)));
    assert s1.client == s.client[i := C.Fresh(HoldDesc(name))];
  }

  lemma Accepted(conn: S.Conn, i: nat, name: Name)
    requires WfName(name) && name != [] && name in conn.sim.cmds && !S.IsCustom(name) && S.At(conn.table, i).name == []
    requires Normalise(HoldDesc(name)) == Some(HoldDesc(name))
    ensures var x := S.FreshSlot(HoldDesc(name)).(status := Linking, bound := true, write := true);
      var c := S.LinkRequest(conn, i, HoldDesc(name));
      && c == conn.(table := c.table) && i < |c.table| && c.table[i] == x
  {
  }

  lemma Answered(s: State, i: nat)
    requires i < |s.client| && i < |s.conn.table| && s.up == [] && s.down == []
    requires var x := s.conn.table[i]; x.status == Linking && x.bound && s.client[i].name == x.name && x.name != []
    ensures Protocol.Next(Protocol.Next(s, ServerSend(i, 0)), ClientReceive)
         == s.(client := s.client[i := s.client[i].(status := Valid)],
               conn := s.conn.(table := s.conn.table[i := s.conn.table[i].(status := Valid)]))
  {
    assert Protocol.Next(s, ServerSend(i, 0)).down == [LinkReply(i, s.conn.table[i].name)];
  }

  lemma Subscribe(s: State, i: nat, name: Name) returns (steps: seq<Step>, r: State)
    requires Cleared(s, i, name)
    ensures Leads(name, s, steps, r) && Linked(r, i, name, MISS, MISS) && r.conn.sim == s.conn.sim
  {
    var d := HoldDesc(name);
    Requested(s, i, name);
    var s2 := Protocol.Next(Protocol.Next(s, AppLink(d)), ClientSend(i, 0));
    Accepted(s2.conn, i, name);
    var s3 := Protocol.Next(s2, ServerReceive);
    Walk(name, s, AppLink(d), ClientSend(i, 0), ServerReceive);
    FillOfOne(XPTYPE_CMD_HOLD);
    var more;
    more, r := BeAnswered(s3, i, name);
    Onwards(name, s, [AppLink(d), ClientSend(i, 0), ServerReceive], s3, more, r);
    steps := [AppLink(d), ClientSend(i, 0), ServerReceive] + more;
  }

  /** The plugin has accepted the request, and its answer can be delivered. */
  lemma BeAnswered(s: State, i: nat, name: Name) returns (steps: seq<Step>, r: State)
    requires i < |s.client| && i < |s.conn.table| && s.up == [] && s.down == []
    requires var x := s.conn.table[i]; x.status == Linking && x.bound && s.client[i].name == x.name && x.name != []
    ensures Leads(name, s, steps, r)
    ensures r == s.(client := s.client[i := s.client[i].(status := Valid)],
                    conn := s.conn.(table := s.conn.table[i := s.conn.table[i].(status := Valid)]))
  {
    Answered(s, i);
    var m := Protocol.Next(s, ServerSend(i, 0));
    r := Protocol.Next(m, ClientReceive);
    OneStep(name, s, ServerSend(i, 0));
    OneStep(name, m, ClientReceive);
    Onwards(name, s, [ServerSend(i, 0)], m, [ClientReceive], r);
    steps := [ServerSend(i, 0)] + [ClientReceive];
  }

  lemma Pressing(c: C.Slot, me: Name, i: nat)
    requires c.name != [] && c.status == Valid && c.ty == XPTYPE_CMD_HOLD && c.data == [1] && |c.shadow| == 1 && c.shadow != [1]
    ensures C.SendSlot(c, me, i, 0) == (Some(Data(i, XPTYPE_CMD_HOLD, [1])), c.(shadow := [1]))
  {
    assert c.shadow == [c.shadow[0]];
    assert ElemChanged(XPTYPE_CMD_HOLD, c.precision, c.shadow[0], c.data[0]);
  }

  lemma Pressed(conn: S.Conn, i: nat)
    requires i < |conn.table| && conn.table[i].status == Valid && S.Live(conn.table[i]) && conn.table[i].ty == XPTYPE_CMD_HOLD
    ensures S.Apply(conn, Data(i, XPTYPE_CMD_HOLD, [1])).sim.log == conn.sim.log + [Begin(i, conn.table[i].name)]
  {
    MissIsNoPress();
  }

  lemma Press(s: State, i: nat, name: Name) returns (steps: seq<Step>, r: State)
    requires Linked(s, i, name, MISS, MISS)
    ensures Leads(name, s, steps, r) && r.conn.sim.log == s.conn.sim.log + [Begin(i, name)]
  {
    Pow256Values();
    MissIsNoPress();
    steps := [AppWrite(i, [1]), ClientSend(i, 0), ServerReceive];
    Walk(name, s, AppWrite(i, [1]), ClientSend(i, 0), ServerReceive);
    var s1 := Protocol.Next(s, AppWrite(i, [1]));
    assert s1.client[i] == s.client[i].(data := [1]);
    Pressing(s1.client[i], s1.me, i);
    var s2 := Protocol.Next(s1, ClientSend(i, 0));
    assert s2.up == [Data(i, XPTYPE_CMD_HOLD, [1])];
    Pressed(s2.conn, i);
    r := Protocol.Next(s2, ServerReceive);
  }

  lemma SecondBegin(log: seq<Event>, start: nat, i: nat, name: Name)
    requires Open(log, start, name)
    ensures !NoDoubleBegin((log + [Begin(i, name)])[start..], name, false)
  {
    assert (log + [Begin(i, name)])[start..] == log[start..] + [Begin(i, name)];
    HeldJoin(log[start..], [Begin(i, name)], name, false);
    var one := [Begin(i, name)];
    assert one[1..] == [];
  }

  lemma ForgetAll(s: State, i: nat, name: Name, start: nat) returns (steps: seq<Step>, r: State)
    requires LeftHeld(s, i, name, start)
    ensures Leads(name, s, steps, r) && Cleared(r, C.FindFree(r.client, 0), name) && Open(r.conn.sim.log, start, name)
  {
    var b, m := Depart(s, i, name, start);
    var c, k := AllHeard(m, i, name, start);
    Onwards(name, s, b, m, c, k);
    var sim := k.conn.sim.(cmds := k.conn.sim.cmds + {name});
    SimChangeKeepsInv(k, sim);
    r := Protocol.Next(k, SimChange(sim));
    OneStep(name, k, SimChange(sim));
    Onwards(name, s, b + c, k, [SimChange(sim)], r);
    steps := b + c + [SimChange(sim)];
  }

  lemma BeginAgain(s: State, i: nat, name: Name, start: nat) returns (steps: seq<Step>, r: State)
    requires Cleared(s, i, name) && Open(s.conn.sim.log, start, name)
    ensures Leads(name, s, steps, r) && start <= |r.conn.sim.log| && !NoDoubleBegin(r.conn.sim.log[start..], name, false)
  {
    var a, m := Subscribe(s, i, name);
    var b;
    b, r := Press(m, i, name);
    Onwards(name, s, a, m, b, r);
    steps := a + b;
    SecondBegin(s.conn.sim.log, start, i, name);
  }

  lemma Leave(s: State, i: nat, start: nat) returns (steps: seq<Step>, r: State)
    requires Inv(s) && i < |s.client|
    requires var c := s.client[i];
      && c.status == Valid && c.ty == XPTYPE_CMD_HOLD && Open(Future(s), start, c.name)
      && !S.IsCustom(c.name) && Sane(s, AppUnlink(c.name))
    ensures var name := s.client[i].name;
      Leads(name, Protocol.Next(s, AppUnlink(name)), steps, r) && LeftHeld(r, i, name, start)
  {
    var c, l := s.client[i], At(s, i);
    assert InPhase(s, i) && C.WfSlot(c) && SafeSlot(c);
    assert Established(i, l.c, l.x, l.up, l.down);
    assert C.Live(c) && C.DescOf(c) == HoldDesc(c.name);
    AppUnlinkKeepsInv(s, c.name);
    steps, r := AllArrive(Protocol.Next(s, AppUnlink(c.name)), c.name);
  }

  // ---------- no command has the name of a shared dataref ----------

  /** No command is among the shared datarefs, so none with a name of theirs is ever bound. */
  predicate Plain(c: S.Conn) {
    && (forall k :: 0 <= k < |c.store| ==> !Command(c.store[k].ty))
    && forall i :: 0 <= i < |c.table| ==> PlainSlot(c.table[i])
  }

  predicate PlainSlot(x: S.Slot) {
    (Known(x.ty) || x.ty == XPTYPE_UNKNOWN) && (x.bound && Command(x.ty) ==> !S.IsCustom(x.name))
  }

  lemma TypesAreBits(a: int, b: int)
    requires (Known(a) || a == XPTYPE_UNKNOWN) && S.HasType(a, b) && b != XPTYPE_UNKNOWN
    ensures a == b
  {
  }

  lemma SubscribePlain(c: S.Conn, x: S.Slot, d: Desc)
    requires Plain(c) && x.name == d.name && x.ty == d.ty && PlainSlot(x)
    ensures var (x', store, sim) := S.Subscribe(c.store, c.sim, x, d);
      && (forall k :: 0 <= k < |store| ==> !Command(store[k].ty))
      && PlainSlot(x')
  {
  }

  lemma AllocatePlain(t: seq<S.Slot>, i: nat, d: Desc)
    requires (forall k :: 0 <= k < |t| ==> PlainSlot(t[k])) && d.ty != XPTYPE_UNKNOWN
    ensures var (ok, u) := S.Allocate(t, i, d);
      && (forall k :: 0 <= k < |u| ==> PlainSlot(u[k]))
      && (ok ==> i < |u| && u[i].name == d.name && u[i].ty == d.ty)
  {
    if i < |t| && S.HasType(t[i].ty, d.ty) { TypesAreBits(t[i].ty, d.ty); }
  }

  lemma RequestPlain(c: S.Conn, i: nat, d: Desc)
    requires Plain(c) && (d.ty == XPTYPE_UNKNOWN ==> d.nelements < 1)
    ensures Plain(S.LinkRequest(c, i, d))
  {
    if d.ty == XPTYPE_UNKNOWN { return; }
    S.LinkRequestAllocatesFirst(c, i, d);
    AllocatePlain(c.table, i, d);
    var (ok, t) := S.Allocate(c.table, i, d);
    if ok { SubscribePlain(c, t[i], d); }
  }

  lemma RequestInPhase(i: nat, l: Local)
    requires Phase(i, l.c, l.x, l.up, l.down) && C.WfSlot(l.c) && l.up != [] && l.up[0].Link?
    ensures l.up[0].desc.ty == XPTYPE_UNKNOWN ==> l.up[0].desc.nelements < 1
  {
  }

  lemma RequestFromClient(s: State)
    requires Inv(s) && s.up != [] && s.up[0].Link?
    ensures s.up[0].desc.ty == XPTYPE_UNKNOWN ==> s.up[0].desc.nelements < 1
  {
    var i := s.up[0].offset;
    assert InPhase(s, i) && C.WfSlot(CAt(s, i));
    ProjTail(s.up, i);
    RequestInPhase(i, At(s, i));
  }

  lemma StepPlain(s: State, step: Step)
    requires Inv(s) && Plain(s.conn)
    ensures Plain(Protocol.Next(s, step).conn)
  {
    match step
    case ServerReceive =>
      if s.up != [] && s.up[0].Link? {
        RequestFromClient(s);
        RequestPlain(s.conn, s.up[0].offset, s.up[0].desc);
      }
    case _ =>
  }

  lemma {:induction false} RunPlain(s: State, steps: seq<Step>)
    requires Inv(s) && SaneRun(s, steps) && Plain(s.conn)
    ensures Plain(Run(s, steps).conn)
    decreases |steps|
  {
    if steps != [] {
      StepPlain(s, steps[0]);
      NextKeepsInv(s, steps[0]);
      RunPlain(Protocol.Next(s, steps[0]), steps[1..]);
    }
  }

  lemma ValidIsEstablished(s: State, i: nat)
    requires Inv(s) && i < |s.client| && s.client[i].status == Valid
    ensures var l := At(s, i); Established(i, l.c, l.x, l.up, l.down) && i < |s.conn.table| && s.conn.table[i] == l.x
  {
    assert InPhase(s, i) && C.WfSlot(s.client[i]);
  }

  // ---------- unlinking a command that is held ----------

  /** Whenever the application unlinks a command that X-Plane holds, or will hold once the frames in flight
      have arrived, the connection can go on so that Begin follows Begin: for every state of the other slots
      and of both channels, whatever slot the command gets next. */
  lemma RelinkBeginsTwice(s: State, i: nat, start: nat) returns (steps: seq<Step>)
    requires Inv(s) && Plain(s.conn) && i < |s.client|
    requires var c := s.client[i];
      c.status == Valid && c.ty == XPTYPE_CMD_HOLD && Open(Future(s), start, c.name) && Sane(s, AppUnlink(c.name))
    ensures SaneRun(s, [AppUnlink(s.client[i].name)] + steps)
    ensures ReleasesRun(Protocol.Next(s, AppUnlink(s.client[i].name)), steps, s.client[i].name)
    ensures var log := Run(s, [AppUnlink(s.client[i].name)] + steps).conn.sim.log;
      start <= |log| && !NoDoubleBegin(log[start..], s.client[i].name, false)
  {
    var name := s.client[i].name;
    ValidIsEstablished(s, i);
    var s1 := Protocol.Next(s, AppUnlink(name));
    var a, m := Leave(s, i, start);
    var b, k := ForgetAll(m, i, name, start);
    var c, r := BeginAgain(k, C.FindFree(k.client, 0), name, start);
    Onwards(name, s1, a, m, b, k);
    Onwards(name, s1, a + b, k, c, r);
    steps := a + b + c;
    StepFirst(s, AppUnlink(name), steps);
  }

  // ---------- the missing value over a 1 ----------

  lemma Sends(s: State, i: nat, v: nat)
    requires Inv(s) && i < |s.client| && s.client[i].status == Valid && s.client[i].ty == XPTYPE_CMD_HOLD
    requires s.client[i].data == [v] && s.client[i].shadow != [v]
    ensures var r := Protocol.Next(s, ClientSend(i, 0)); var c := s.client[i];
      && Inv(r) && r.client == s.client[i := c.(shadow := [v])] && r.conn == s.conn
      && Future(r) == Future(s) + (if v == MISS then [] else if v == 1 then [Begin(i, c.name)] else [End(i, c.name)])
  {
    var c, l := s.client[i], At(s, i);
    assert InPhase(s, i) && C.WfSlot(c);
    assert Established(i, l.c, l.x, l.up, l.down);
    assert c.shadow == [c.shadow[0]];
    assert ElemChanged(XPTYPE_CMD_HOLD, c.precision, c.shadow[0], c.data[0]);
    assert C.SendSlot(c, s.me, i, 0) == (Some(Data(i, XPTYPE_CMD_HOLD, [v])), c.(shadow := [v]));
    ClientSendKeepsInv(s, i, 0);
    TurnAddsCall(s, i, 0);
  }

  /** The missing value and then 1 again, behind a 1 that has been sent. */
  lemma MissThenPress(s: State, i: nat) returns (steps: seq<Step>, r: State)
    requires Inv(s) && i < |s.client| && s.client[i].status == Valid && s.client[i].ty == XPTYPE_CMD_HOLD
    requires s.client[i].data == [MISS] && s.client[i].shadow == [1]
    ensures Leads(s.client[i].name, s, steps, r) && Inv(r) && Future(r) == Future(s) + [Begin(i, s.client[i].name)]
  {
    var n := s.client[i].name;
    Pow256Values();
    MissIsNoPress();
    steps := [ClientSend(i, 0), AppWrite(i, [1]), ClientSend(i, 0)];
    Sends(s, i, MISS);
    var s1 := Protocol.Next(s, ClientSend(i, 0));
    AppWriteKeepsInv(s1, i, [1]);
    var s2 := Protocol.Next(s1, AppWrite(i, [1]));
    assert C.WfSlot(s1.client[i]);
    assert s2.client[i] == s1.client[i].(data := [1]);
    Sends(s2, i, 1);
    Walk(n, s, ClientSend(i, 0), AppWrite(i, [1]), ClientSend(i, 0));
    r := Protocol.Next(s2, ClientSend(i, 0));
  }

  /** Writing the missing value over a 1 that holds the command lets it be begun again. */
  lemma MissBeginsTwice(s: State, i: nat, start: nat) returns (steps: seq<Step>)
    requires Inv(s) && i < |s.client|
    requires var c := s.client[i]; c.status == Valid && c.ty == XPTYPE_CMD_HOLD && c.shadow == [1] && Open(Future(s), start, c.name)
    requires start <= |s.conn.sim.log|
    ensures SaneRun(s, [AppWrite(i, [MISS])] + steps)
    ensures ReleasesRun(Protocol.Next(s, AppWrite(i, [MISS])), steps, s.client[i].name)
    ensures var log := Run(s, [AppWrite(i, [MISS])] + steps).conn.sim.log;
      start <= |log| && !NoDoubleBegin(log[start..], s.client[i].name, false)
  {
    var n := s.client[i].name;
    Pow256Values();
    MissIsNoPress();
    assert C.WfSlot(s.client[i]);
    AppWriteKeepsInv(s, i, [MISS]);
    var s1 := Protocol.Next(s, AppWrite(i, [MISS]));
    var a, m := MissThenPress(s1, i);
    var b, r := AllArrive(m, n);
    Onwards(n, s1, a, m, b, r);
    steps := a + b;
    StepFirst(s, AppWrite(i, [MISS]), steps);
    SecondBegin(Future(s), start, i, n);
  }

  // ---------- the exact conditions ----------

  /** However a run goes on after this step, as long as it respects what alternation asks for from then on,
      calls of the command alternate. */
  ghost predicate StaysSafe(s: State, n: Name, start: nat, step: Step) {
    forall more: seq<Step> :: SaneRun(s, [step] + more) && ReleasesRun(Protocol.Next(s, step), more, n) ==>
      var log := Run(s, [step] + more).conn.sim.log; start <= |log| && NoDoubleBegin(log[start..], n, false)
  }

  lemma ReleasedIsSafe(s: State, n: Name, start: nat, first: bool, step: Step)
    requires Inv(s) && HoldInv(s, n, start, first) && Releases(s, step, n)
    ensures StaysSafe(s, n, start, step)
  {
    forall more: seq<Step> | SaneRun(s, [step] + more) && ReleasesRun(Protocol.Next(s, step), more, n)
      ensures var log := Run(s, [step] + more).conn.sim.log; start <= |log| && NoDoubleBegin(log[start..], n, false)
    {
      var all := [step] + more;
      assert all[0] == step && all[1..] == more;
      RunHolds(s, all, n, start, first);
      HoldInvAlternates(Run(s, all), n, start, first);
    }
  }

  /** A state of the first connection that respected what alternation of command n asks for. */
  ghost predicate Reached(me: Name, sim: Sim, store: seq<S.Custom>, steps: seq<Step>, n: Name, s: State) {
    && WfName(me) && WfSim(sim) && SaneRun(Init(me, sim, store), steps) && ReleasesRun(Init(me, sim, store), steps, n)
    && s == Run(Init(me, sim, store), steps)
  }

  lemma ReachedHolds(me: Name, sim: Sim, store: seq<S.Custom>, steps: seq<Step>, n: Name, s: State, i: nat)
    requires Reached(me, sim, store, steps, n, s) && i < |s.client| && OfHold(s.client[i], n)
    ensures Inv(s) && HoldInv(s, n, |sim.log|, true)
    ensures Open(Future(s), |sim.log|, n) <==> s.client[i].shadow == [1]
    ensures s.client[i].shadow == [1] ==> s.client[i].status == Valid
  {
    ReachableInv(me, sim, store, steps);
    FirstConnectionHolds(me, sim, store, steps, n);
    assert s.client[i] == CAt(s, i) && HoldLocal(At(s, i), n, true);
  }

  /** From empty tables the two sides of the condition meet: after a run that has left no command held,
      unlinking the command is safe, however the run goes on, exactly if the last value sent was not 1. */
  lemma UnlinkIsSafeIffReleased(me: Name, sim: Sim, store: seq<S.Custom>, steps: seq<Step>, n: Name, s: State, i: nat)
    requires Reached(me, sim, store, steps, n, s) && i < |s.client| && OfHold(s.client[i], n) && Sane(s, AppUnlink(n))
    requires forall k :: 0 <= k < |store| ==> !Command(store[k].ty)
    ensures StaysSafe(s, n, |sim.log|, AppUnlink(n)) <==> s.client[i].shadow != [1]
  {
    ReachedHolds(me, sim, store, steps, n, s, i);
    if s.client[i].shadow != [1] {
      assert forall k :: 0 <= k < |s.client| && OfHold(s.client[k], n) ==> k == i;
      ReleasedIsSafe(s, n, |sim.log|, true, AppUnlink(n));
    } else {
      ReachableInv(me, sim, store, []);
      RunPlain(Init(me, sim, store), steps);
      var more := RelinkBeginsTwice(s, i, |sim.log|);
    }
  }

  /** So it is with writing the missing value: safe, however the run goes on, exactly if the last value sent
      was not 1. */
  lemma MissIsSafeIffReleased(me: Name, sim: Sim, store: seq<S.Custom>, steps: seq<Step>, n: Name, s: State, i: nat)
    requires Reached(me, sim, store, steps, n, s) && i < |s.client| && OfHold(s.client[i], n)
    ensures StaysSafe(s, n, |sim.log|, AppWrite(i, [MISS])) <==> s.client[i].shadow != [1]
  {
    ReachedHolds(me, sim, store, steps, n, s, i);
    if s.client[i].shadow != [1] {
      ReleasedIsSafe(s, n, |sim.log|, true, AppWrite(i, [MISS]));
    } else {
      var more := MissBeginsTwice(s, i, |sim.log|);
    }
  }
}
