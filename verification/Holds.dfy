/** Held commands travel as values of a slot: one begins on 1 and ends on anything else. X-Plane sees the
command and not the slot. Over a whole connection, and all subscriptions of a command, Begin never follows
Begin without an End in between, exactly as long as the application leaves no command held. */
module Holds {
  import opened Wire
  import opened Dataref
  import opened Simulator
  import opened Protocol
  import opened Commands
  import C = ClientTable
  import S = ServerTable

  const MISS: int := MissCode(XPTYPE_CMD_HOLD)

  // ---------- the calls of one command ----------

  /** No Begin of command n follows another one without an End in between; held says whether one is
      open at the start. */
  predicate NoDoubleBegin(log: seq<Event>, n: Name, held: bool)
    decreases |log|
  {
    if log == [] then true
    else if log[0].Begin? && log[0].name == n then !held && NoDoubleBegin(log[1..], n, true)
    else if log[0].End? && log[0].name == n then NoDoubleBegin(log[1..], n, false)
    else NoDoubleBegin(log[1..], n, held)
  }

  function Held(log: seq<Event>, n: Name, held: bool): bool
    decreases |log|
  {
    if log == [] then held
    else if log[0].Begin? && log[0].name == n then Held(log[1..], n, true)
    else if log[0].End? && log[0].name == n then Held(log[1..], n, false)
    else Held(log[1..], n, held)
  }

  lemma {:induction false} HeldJoin(a: seq<Event>, b: seq<Event>, n: Name, held: bool)
    ensures Held(a + b, n, held) == Held(b, n, Held(a, n, held))
    ensures NoDoubleBegin(a + b, n, held) == (NoDoubleBegin(a, n, held) && NoDoubleBegin(b, n, Held(a, n, held)))
    decreases |a|
  {
    if a == [] {
      assert a + b == b;
    } else {
      assert (a + b)[0] == a[0] && (a + b)[1..] == a[1..] + b;
      HeldJoin(a[1..], b, n, true);
      HeldJoin(a[1..], b, n, false);
    }
  }

  /** The slot on whose behalf the command was begun last, if it is still held. */
  function After(e: Event, n: Name, who: Option<nat>): Option<nat> {
    if e.Begin? && e.name == n then Some(e.offset) else if e.End? && e.name == n then None else who
  }

  function Holder(log: seq<Event>, n: Name, who: Option<nat>): Option<nat>
    decreases |log|
  {
    if log == [] then who else Holder(log[1..], n, After(log[0], n, who))
  }

  /** The command is begun only while nobody holds it, and ended by nobody but its holder. */
  predicate Allowed(e: Event, n: Name, who: Option<nat>) {
    && (e.Begin? && e.name == n ==> who == None)
    && (e.End? && e.name == n ==> who == None || who == Some(e.offset))
  }

  predicate Paired(log: seq<Event>, n: Name, who: Option<nat>)
    decreases |log|
  {
    log != [] ==> Allowed(log[0], n, who) && Paired(log[1..], n, After(log[0], n, who))
  }

  lemma {:induction false} PairedAlternates(log: seq<Event>, n: Name, who: Option<nat>)
    ensures Paired(log, n, who) ==> NoDoubleBegin(log, n, who.Some?)
    ensures Held(log, n, who.Some?) <==> Holder(log, n, who).Some?
    decreases |log|
  {
    if log != [] { PairedAlternates(log[1..], n, After(log[0], n, who)); }
  }

  lemma {:induction false} PairedJoin(a: seq<Event>, b: seq<Event>, n: Name, who: Option<nat>)
    ensures Holder(a + b, n, who) == Holder(b, n, Holder(a, n, who))
    ensures Paired(a + b, n, who) <==> Paired(a, n, who) && Paired(b, n, Holder(a, n, who))
    decreases |a|
  {
    if a == [] {
      assert a + b == b;
    } else {
      assert (a + b)[0] == a[0] && (a + b)[1..] == a[1..] + b;
      PairedJoin(a[1..], b, n, After(a[0], n, who));
    }
  }

  lemma PairedOne(e: Event, n: Name, who: Option<nat>)
    ensures Holder([e], n, who) == After(e, n, who) && (Paired([e], n, who) <==> Allowed(e, n, who))
  {
    assert [e][1..] == [];
  }

  // ---------- the calls to come ----------

  /** The calls the frames in flight will make. */
  function Ahead(t: seq<S.Slot>, fs: seq<Frame>): seq<Event>
    decreases |fs|
  {
    if fs == [] then [] else CallOf(t, fs[0]) + Ahead(t, fs[1..])
  }

  /** The log once all frames in flight have arrived. */
  function Future(s: State): seq<Event> {
    s.conn.sim.log + Ahead(s.conn.table, s.up)
  }

  lemma {:induction false} AheadAppend(t: seq<S.Slot>, fs: seq<Frame>, f: Frame)
    ensures Ahead(t, fs + [f]) == Ahead(t, fs) + CallOf(t, f)
    decreases |fs|
  {
    if fs == [] {
      assert fs + [f] == [f] && [f][1..] == [];
      assert CallOf(t, f) + [] == CallOf(t, f);
    } else {
      assert (fs + [f])[0] == fs[0] && (fs + [f])[1..] == fs[1..] + [f];
      AheadAppend(t, fs[1..], f);
      assert CallOf(t, fs[0]) + (Ahead(t, fs[1..]) + CallOf(t, f)) == CallOf(t, fs[0]) + Ahead(t, fs[1..]) + CallOf(t, f);
    }
  }

  lemma {:induction false} AheadSame(t: seq<S.Slot>, u: seq<S.Slot>, fs: seq<Frame>)
    requires forall f :: f in fs ==> CallOf(t, f) == CallOf(u, f)
    ensures Ahead(t, fs) == Ahead(u, fs)
    decreases |fs|
  {
    if fs != [] {
      assert fs[0] in fs;
      AheadSame(t, u, fs[1..]);
    }
  }

  lemma DataMeansReady(i: nat, l: Local, f: Frame)
    requires Phase(i, l.c, l.x, l.up, l.down) && f in l.up && f.Data?
    ensures Ready(l.x) && DataFor(i, l.x, f)
    ensures Established(i, l.c, l.x, l.up, l.down) || BeingLeft(l.c)
  {
    if LeaveSent(i, l.c, l.x, l.up, l.down) {
      assert l.up == l.up[..|l.up| - 1] + [l.up[|l.up| - 1]];
    }
  }

  lemma DataInFlight(s: State, f: Frame)
    requires Inv(s) && f in s.up && f.Data?
    ensures Ready(SAt(s, f.offset)) && DataFor(f.offset, SAt(s, f.offset), f)
  {
    assert InPhase(s, f.offset);
    ProjHas(s.up, f, f.offset);
    DataMeansReady(f.offset, At(s, f.offset), f);
  }

  /** A turn of the plugin does not change what the frames in flight will do. */
  lemma SendingKeepsFuture(s: State, k: nat, left: nat)
    requires Inv(s)
    ensures Future(Next(s, ServerSend(k, left))) == Future(s)
  {
    var s' := Next(s, ServerSend(k, left));
    forall f | f in s.up
      ensures CallOf(s.conn.table, f) == CallOf(s'.conn.table, f)
    {
      if f.Data? { DataInFlight(s, f); }
    }
    AheadSame(s.conn.table, s'.conn.table, s.up);
  }

  lemma HeadKeepsSlot(i: nat, conn: S.Conn, l: Local, f: Frame)
    requires Phase(i, l.c, l.x, l.up, l.down) && l.x == S.At(conn.table, i)
    requires l.up != [] && f in l.up[1..] && f.Data?
    ensures var x := S.At(S.Apply(conn, l.up[0]).table, i); x.name == l.x.name && x.ty == l.x.ty
  {
    DataMeansReady(i, l, f);
    if l.up[0].Data? {
      DataMeansReady(i, l, l.up[0]);
      StoreKeepsReady(i, conn, l.up[0]);
    }
  }

  lemma HeadKeepsSlotAt(s: State, f: Frame)
    requires Inv(s) && s.up != [] && f in s.up[1..] && f.Data? && Addresses(s.up[0], f.offset)
    ensures var x := S.At(S.Apply(s.conn, s.up[0]).table, f.offset);
      x.name == SAt(s, f.offset).name && x.ty == SAt(s, f.offset).ty
  {
    var i := f.offset;
    assert InPhase(s, i);
    ProjTail(s.up, i);
    ProjHas(s.up[1..], f, i);
    HeadKeepsSlot(i, s.conn, At(s, i), f);
  }

  /** Nor does the delivery of one of them change what the others will do. */
  lemma DeliveryKeepsCall(s: State, f: Frame)
    requires Inv(s) && s.up != [] && f in s.up[1..]
    ensures CallOf(s.conn.table, f) == CallOf(Next(s, ServerReceive).conn.table, f)
  {
    if f.Data? {
      if Addresses(s.up[0], f.offset) { HeadKeepsSlotAt(s, f); } else { S.ApplyIsLocal(s.conn, s.up[0], f.offset); }
    }
  }

  lemma ReceivingKeepsFuture(s: State)
    requires Inv(s) && s.up != []
    ensures Future(Next(s, ServerReceive)) == Future(s)
  {
    var s' := Next(s, ServerReceive);
    forall f | f in s.up[1..]
      ensures CallOf(s.conn.table, f) == CallOf(s'.conn.table, f)
    {
      DeliveryKeepsCall(s, f);
    }
    AheadSame(s.conn.table, s'.conn.table, s.up[1..]);
    DeliveryExtendsLog(s);
    assert Ahead(s.conn.table, s.up) == Delivered(s) + Ahead(s.conn.table, s.up[1..]);
  }

  /** A turn of the client adds the call of the frame it sends. */
  lemma TurnAddsCall(s: State, k: nat, left: nat)
    requires k < |s.client|
    ensures var o := C.SendSlot(s.client[k], s.me, k, left).0;
      Future(Next(s, ClientSend(k, left))) == Future(s) + if o.Some? then CallOf(s.conn.table, o.value) else []
  {
    var o := C.SendSlot(s.client[k], s.me, k, left).0;
    if o.Some? {
      AheadAppend(s.conn.table, s.up, o.value);
    } else {
      assert s.up + [] == s.up;
    }
  }

  /** Nothing else changes the log to come, as long as the connection lasts. */
  lemma FutureStays(s: State, step: Step)
    requires Inv(s) && !step.ClientSend? && !step.Reconnect?
    ensures Future(Next(s, step)) == Future(s)
  {
    match step
    case ServerSend(k, left) => SendingKeepsFuture(s, k, left);
    case ServerReceive => if s.up != [] { ReceivingKeepsFuture(s); }
    case _ =>
  }

  // ---------- one slot over a connection ----------

  predicate HoldSlot(x: S.Slot) { x.ty == XPTYPE_CMD_HOLD && x.name != [] && |x.data| == 1 }

  /** The value of a held command at the plugin, 0 where there is none. */
  function HoldValue(x: S.Slot): nat {
    if HoldSlot(x) then x.data[0] else 0
  }

  /** The plugin holds command n for the slot. */
  predicate HoldsNow(x: S.Slot, n: Name) { HoldSlot(x) && x.name == n && x.data[0] == 1 }

  /** The value left when all frames have arrived: a missing one changes nothing. */
  function Last(prev: nat, fs: seq<Frame>): nat
    decreases |fs|
  {
    if fs == [] then prev
    else Last(if fs[0].Data? && |fs[0].vals| == 1 && fs[0].vals[0] != MISS then fs[0].vals[0] else prev, fs[1..])
  }

  lemma {:induction false} LastAppend(prev: nat, fs: seq<Frame>, f: Frame)
    ensures Last(prev, fs + [f]) == if f.Data? && |f.vals| == 1 && f.vals[0] != MISS then f.vals[0] else Last(prev, fs)
    decreases |fs|
  {
    if fs == [] {
      assert fs + [f] == [f] && [f][1..] == [];
    } else {
      assert (fs + [f])[0] == fs[0] && (fs + [f])[1..] == fs[1..] + [f];
      LastAppend(if fs[0].Data? && |fs[0].vals| == 1 && fs[0].vals[0] != MISS then fs[0].vals[0] else prev, fs[1..], f);
    }
  }

  /** The value the plugin will have. */
  function Latest(l: Local): nat { Last(HoldValue(l.x), l.up) }

  /** The client's subscription to the held command n. */
  predicate OfHold(c: C.Slot, n: Name) { c.name == n && n != [] && c.ty == XPTYPE_CMD_HOLD }

  /** The missing value does not wait behind a 1. */
  predicate HoldClient(c: C.Slot, n: Name) {
    OfHold(c, n) && c.shadow == [1] ==> c.data != [MISS]
  }

  /** What will be held was sent; and on a connection from empty tables, what was sent will be held. */
  predicate HoldSent(l: Local, n: Name, first: bool) {
    OfHold(l.c, n) ==>
      if l.c.status == Valid then
        (Latest(l) == 1 ==> l.c.shadow == [1]) && (first && l.c.shadow == [1] ==> Latest(l) == 1)
      else first ==> l.c.shadow != [1]
  }

  predicate BeingLeft(c: C.Slot) { c.status == Dealloc || c.status == Unlinking }

  /** The plugin holds nothing for a slot not yet valid, and will not for one being left. */
  predicate HoldLeft(l: Local, n: Name) {
    && (l.c.status != Valid && !BeingLeft(l.c) ==> !HoldsNow(l.x, n))
    && (BeingLeft(l.c) && l.c.name == n && HoldSlot(l.x) ==> Latest(l) != 1)
  }

  predicate HoldLocal(l: Local, n: Name, first: bool) {
    HoldClient(l.c, n) && HoldSent(l, n, first) && HoldLeft(l, n)
  }

  /** What the application has to respect, on one connection: it unlinks the command only after it has sent
      something else than 1, and does not write the missing value over a 1 it has sent. */
  predicate Releases(s: State, step: Step, n: Name) {
    match step
    case AppWrite(k, vals) => OfHold(CAt(s, k), n) && CAt(s, k).shadow == [1] ==> vals != [MISS]
    case AppUnlink(name) =>
      name == n ==> forall k :: 0 <= k < |s.client| && OfHold(s.client[k], n) ==> s.client[k].shadow != [1]
    case Reconnect => false
    case _ => true
  }

  lemma MissIsNoPress()
    ensures MISS > 1
  {
  }

  lemma FillOfOne(ty: int)
    requires Known(ty)
    ensures Fill(ty, 1) == [Absent(ty)]
  {
  }

  // ---------- every step keeps this for every slot ----------

  lemma BusyNamed(i: nat, l: Local)
    requires Phase(i, l.c, l.x, l.up, l.down) && l.c.name == []
    ensures Unsubscribed(l.c, l.x, l.up, l.down)
  {
  }

  lemma LinkHolds(i: nat, l: Local, c: C.Slot, n: Name, first: bool)
    requires Phase(i, l.c, l.x, l.up, l.down) && HoldLocal(l, n, first) && l.c.name == []
    requires if C.Live(c) then c == C.Fresh(C.DescOf(c)) else C.Released(c) && c.name == [] && c.status == Uninitialized
    ensures HoldLocal(l.(c := c), n, first)
  {
    BusyNamed(i, l);
    MissIsNoPress();
    if c.ty == XPTYPE_CMD_HOLD { FillOfOne(c.ty); }
  }

  lemma UnlinkHolds(i: nat, l: Local, n: Name, first: bool)
    requires Phase(i, l.c, l.x, l.up, l.down) && HoldLocal(l, n, first) && l.c.status == Valid && l.c.name != []
    requires OfHold(l.c, n) ==> l.c.shadow != [1]
    ensures HoldLocal(l.(c := C.UnlinkSlot(l.c)), n, first)
  {
    assert Established(i, l.c, l.x, l.up, l.down);
  }

  lemma LinkCallHolds(s: State, d: Desc, i: nat, n: Name, first: bool)
    requires Inv(s) && WfDesc(d) && HoldLocal(At(s, i), n, first)
    ensures HoldLocal(At(s, i).(c := CAt(Next(s, AppLink(d)), i)), n, first)
  {
    assert InPhase(s, i);
    C.LinkWritesOneFreeSlot(s.client, d, i);
    var c := CAt(Next(s, AppLink(d)), i);
    if c != CAt(s, i) { LinkHolds(i, At(s, i), c, n, first); }
  }

  lemma UnlinkCallHolds(s: State, name: Name, i: nat, n: Name, first: bool)
    requires Inv(s) && name != [] && Sane(s, AppUnlink(name)) && Releases(s, AppUnlink(name), n) && HoldLocal(At(s, i), n, first)
    ensures HoldLocal(At(s, i).(c := CAt(Next(s, AppUnlink(name)), i)), n, first)
  {
    assert InPhase(s, i);
    assert i < |s.client| ==> s.client[i] == CAt(s, i);
    if CAt(s, i).name == name { UnlinkHolds(i, At(s, i), n, first); }
  }

  lemma CallHolds(s: State, step: Step, i: nat, n: Name, first: bool)
    requires Inv(s) && Sane(s, step) && Releases(s, step, n) && HoldLocal(At(s, i), n, first)
    requires step.AppLink? || step.AppUnlink? || step.AppWrite?
    ensures HoldLocal(At(Next(s, step), i), n, first)
  {
    assert At(Next(s, step), i) == At(s, i).(c := CAt(Next(s, step), i));
    match step
    case AppLink(d) => if WfDesc(d) { LinkCallHolds(s, d, i, n, first); }
    case AppUnlink(name) => if name != [] { UnlinkCallHolds(s, name, i, n, first); }
    case AppWrite(k, vals) =>
  }

  lemma SendingHolds(i: nat, l: Local, me: Name, left: nat, n: Name, first: bool)
    requires Phase(i, l.c, l.x, l.up, l.down) && C.WfSlot(l.c) && HoldLocal(l, n, first) && l.c.status == Valid
    requires C.SendSlot(l.c, me, i, left).0.Some?
    ensures var (o, c) := C.SendSlot(l.c, me, i, left); HoldLocal(l.(c := c, up := l.up + Opt(o)), n, first)
  {
    var (o, c) := C.SendSlot(l.c, me, i, left);
    LastAppend(HoldValue(l.x), l.up, o.value);
    if OfHold(l.c, n) {
      assert l.c.data == [l.c.data[0]];
    }
  }

  lemma ClientTurnHolds(i: nat, l: Local, me: Name, left: nat, n: Name, first: bool)
    requires Phase(i, l.c, l.x, l.up, l.down) && C.WfSlot(l.c) && HoldLocal(l, n, first)
    ensures var (o, c) := C.SendSlot(l.c, me, i, left); HoldLocal(l.(c := c, up := l.up + Opt(o)), n, first)
  {
    var (o, c) := C.SendSlot(l.c, me, i, left);
    assert l.up + [] == l.up;
    if o.Some? {
      if l.c.status == Valid { SendingHolds(i, l, me, left, n, first); } else { LastAppend(HoldValue(l.x), l.up, o.value); }
    }
  }

  /** A turn of the plugin ends no call and begins none: it only forgets a command that is not held. */
  predicate KeepsValue(l: Local, x: S.Slot, n: Name) {
    || (HoldValue(x) == HoldValue(l.x) && HoldSlot(x) == HoldSlot(l.x) && x.name == l.x.name)
    || (!HoldSlot(x) && l.up == [] && l.c.status != Valid && !HoldsNow(l.x, n))
  }

  lemma AnswerKeepsValue(i: nat, l: Local, sim: Sim, left: nat, n: Name)
    requires Phase(i, l.c, l.x, l.up, l.down) && HoldLeft(l, n) && l.x.name != [] && l.x.status == Linking
    ensures KeepsValue(l, S.SendSlot(sim, l.x, i, left).1, n)
  {
    assert Checked(l.c, l.x, l.up, l.down) || Rejected(l.c, l.x, l.up, l.down);
  }

  lemma GoodbyeKeepsValue(i: nat, l: Local, sim: Sim, left: nat, n: Name)
    requires Phase(i, l.c, l.x, l.up, l.down) && HoldLeft(l, n) && l.x.name != [] && l.x.status == Unlinking
    ensures KeepsValue(l, S.SendSlot(sim, l.x, i, left).1, n)
  {
    UnlinkingIsSeen(i, l.c, l.x, l.up, l.down);
  }

  lemma PluginTurnKeepsValue(i: nat, l: Local, sim: Sim, left: nat, n: Name)
    requires Phase(i, l.c, l.x, l.up, l.down) && HoldLeft(l, n)
    ensures KeepsValue(l, S.SendSlot(sim, l.x, i, left).1, n)
  {
    if l.x.name != [] && l.x.status == Unlinking {
      GoodbyeKeepsValue(i, l, sim, left, n);
    } else if l.x.name != [] && l.x.status == Linking {
      AnswerKeepsValue(i, l, sim, left, n);
    }
  }

  lemma ServerTurnHolds(i: nat, l: Local, sim: Sim, left: nat, n: Name, first: bool)
    requires Phase(i, l.c, l.x, l.up, l.down) && HoldLocal(l, n, first)
    ensures var (o, x) := S.SendSlot(sim, l.x, i, left); HoldLocal(l.(x := x, down := l.down + Opt(o)), n, first)
  {
    PluginTurnKeepsValue(i, l, sim, left, n);
  }

  lemma HearingHolds(i: nat, l: Local, n: Name, first: bool)
    requires Phase(i, l.c, l.x, l.up, l.down) && C.WfSlot(l.c) && HoldLocal(l, n, first) && l.down != []
    ensures HoldLocal(l.(c := CStep(l.c, l.down[0]), down := l.down[1..]), n, first)
  {
    if l.down[0].Data? {
      NoDataForCommands(i, l);
    } else if !Confirmed(i, l.c, l.x, l.up, l.down) {
      assert RefusalSent(i, l.c, l.x, l.up, l.down) || LeaveConfirmed(i, l.c, l.x, l.up, l.down);
    }
  }

  lemma RequestHolds(i: nat, conn: S.Conn, l: Local)
    requires Requested(i, l.c, S.At(conn.table, i), l.up, l.down) && C.WfSlot(l.c)
    ensures HoldValue(S.At(S.LinkRequest(conn, i, l.up[0].desc).table, i)) != 1
  {
    MissIsNoPress();
    var d := l.up[0].desc;
    if C.Live(l.c) {
      S.SubscribeOutcome(conn.store, conn.sim, S.FreshSlot(d), d);
      FillOfOne(d.ty);
    }
  }

  /** A delivered value is the plugin's, unless it is the missing one. */
  lemma StoredValue(i: nat, conn: S.Conn, f: Frame)
    requires Ready(S.At(conn.table, i)) && DataFor(i, S.At(conn.table, i), f)
    ensures var x, x' := S.At(conn.table, i), S.At(S.Apply(conn, f).table, i);
      && x' == x.(data := x'.data) && |x'.data| == |x.data| && HoldSlot(x') == HoldSlot(x)
      && HoldValue(x') == (if HoldSlot(x) && f.vals[0] != MISS then f.vals[0] else HoldValue(x))
      && (HoldSlot(x) ==> |f.vals| == 1)
  {
    StoreKeepsReady(i, conn, f);
  }

  lemma DeliveryHolds(i: nat, conn: S.Conn, l: Local, n: Name, first: bool)
    requires Phase(i, l.c, l.x, l.up, l.down) && C.WfSlot(l.c) && HoldLocal(l, n, first)
    requires l.up != [] && l.x == S.At(conn.table, i)
    ensures HoldLocal(l.(x := S.At(S.Apply(conn, l.up[0]).table, i), up := l.up[1..]), n, first)
  {
    if l.up[0].Link? {
      RequestHolds(i, conn, l);
    } else if l.up[0].Data? {
      DataMeansReady(i, l, l.up[0]);
      StoredValue(i, conn, l.up[0]);
    }
  }

  lemma ReceivingHolds(s: State, step: Step, i: nat, n: Name, first: bool)
    requires Inv(s) && HoldLocal(At(s, i), n, first) && (step.ServerReceive? || step.ClientReceive?)
    ensures HoldLocal(At(Next(s, step), i), n, first)
  {
    var l := At(s, i);
    assert InPhase(s, i) && C.WfSlot(l.c);
    match step
    case ServerReceive =>
      if s.up != [] {
        ServerReceiveLocal(s, i);
        if Addresses(s.up[0], i) { DeliveryHolds(i, s.conn, l, n, first); }
      }
    case ClientReceive =>
      if s.down != [] {
        ClientReceiveLocal(s, i);
        if Addresses(s.down[0], i) { HearingHolds(i, l, n, first); }
      }
  }

  lemma TurnHolds(s: State, step: Step, i: nat, n: Name, first: bool)
    requires Inv(s) && HoldLocal(At(s, i), n, first) && (step.ServerSend? || step.ClientSend?)
    ensures HoldLocal(At(Next(s, step), i), n, first)
  {
    var l := At(s, i);
    assert InPhase(s, i) && C.WfSlot(l.c);
    match step
    case ServerSend(k, left) =>
      if k < |s.conn.table| {
        ServerSendLocal(s, k, left, i);
        ServerTurnHolds(i, l, s.conn.sim, left, n, first);
      }
    case ClientSend(k, left) =>
      if k < |s.client| {
        ClientSendLocal(s, k, left, i);
        ClientTurnHolds(i, l, s.me, left, n, first);
      }
  }

  lemma StepHoldsLocally(s: State, step: Step, i: nat, n: Name, first: bool)
    requires Inv(s) && Sane(s, step) && Releases(s, step, n) && HoldLocal(At(s, i), n, first)
    ensures HoldLocal(At(Next(s, step), i), n, first)
  {
    match step
    case ServerReceive => ReceivingHolds(s, step, i, n, first);
    case ClientReceive => ReceivingHolds(s, step, i, n, first);
    case ClientSend(_, _) => TurnHolds(s, step, i, n, first);
    case ServerSend(_, _) => TurnHolds(s, step, i, n, first);
    case SimChange(sim) => assert At(Next(s, step), i) == At(s, i);
    case _ => CallHolds(s, step, i, n, first);
  }

  // ---------- one subscription a command ----------

  /** The client has at most one subscription to the held command. */
  predicate OneSlot(t: seq<C.Slot>, n: Name) {
    forall i, j :: 0 <= i < j < |t| ==> !(OfHold(t[i], n) && OfHold(t[j], n))
  }

  lemma LinkingKeepsOneSlot(t: seq<C.Slot>, d: Desc, n: Name)
    requires C.WfTable(t) && WfDesc(d) && OneSlot(t, n)
    ensures OneSlot(C.LinkDataref(t, d).1, n)
  {
    if Normalise(d).Some? {
      NormaliseIsIdempotent(d);
      var e := Normalise(d).value;
      if OfHold(C.Slot(e.name, e.ty, 0, 0, 0, Alloc, [], []), n) && C.Find(t, e, 0) == |t| {
        forall k | 0 <= k < |t|
          ensures !OfHold(t[k], n)
        {
          assert C.WfSlot(t[k]) && !C.Matches(t[k], e);
        }
      }
    }
  }

  lemma FewerOfHold(t: seq<C.Slot>, u: seq<C.Slot>, n: Name)
    requires |t| == |u| && OneSlot(t, n) && forall i :: 0 <= i < |t| && OfHold(u[i], n) ==> OfHold(t[i], n)
    ensures OneSlot(u, n)
  {
  }

  lemma StepKeepsOneSlot(s: State, step: Step, n: Name)
    requires Inv(s) && OneSlot(s.client, n)
    ensures OneSlot(Next(s, step).client, n)
  {
    var s' := Next(s, step);
    if step.AppLink? {
      if WfDesc(step.desc) { LinkingKeepsOneSlot(s.client, step.desc, n); }
    } else {
      FewerOfHold(s.client, s'.client, n);
    }
  }

  // ---------- the log to come ----------

  /** The subscription the command will be held by. */
  predicate WillHold(l: Local, n: Name) { OfHold(l.c, n) && l.c.status == Valid && Latest(l) == 1 }

  /** Calls to come alternate from position start of the log on, and the client can tell who will hold the
      command. */
  ghost predicate FutureHolds(s: State, n: Name, start: nat) {
    && start <= |s.conn.sim.log|
    && Paired(Future(s)[start..], n, None)
    && forall i: nat :: Holder(Future(s)[start..], n, None) == Some(i) <==> WillHold(At(s, i), n)
  }

  lemma CallKeepsWill(s: State, step: Step, i: nat, n: Name, first: bool)
    requires Inv(s) && Sane(s, step) && Releases(s, step, n) && HoldLocal(At(s, i), n, first)
    requires step.AppLink? || step.AppUnlink? || step.AppWrite?
    ensures WillHold(At(Next(s, step), i), n) == WillHold(At(s, i), n)
  {
    var l, s' := At(s, i), Next(s, step);
    assert At(s', i) == l.(c := CAt(s', i));
    if step.AppLink? && WfDesc(step.desc) {
      assert InPhase(s, i);
      C.LinkWritesOneFreeSlot(s.client, step.desc, i);
      if CAt(s', i) != l.c { BusyNamed(i, l); }
    }
  }

  lemma ReceivingKeepsWill(s: State, step: Step, i: nat, n: Name, first: bool)
    requires Inv(s) && HoldLocal(At(s, i), n, first) && (step.ServerReceive? || step.ClientReceive?)
    ensures WillHold(At(Next(s, step), i), n) == WillHold(At(s, i), n)
  {
    var l := At(s, i);
    assert InPhase(s, i) && C.WfSlot(l.c);
    match step
    case ServerReceive =>
      if s.up != [] {
        ServerReceiveLocal(s, i);
        if Addresses(s.up[0], i) && l.c.status == Valid && OfHold(l.c, n) {
          assert DataFor(i, l.x, l.up[0]);
          StoredValue(i, s.conn, l.up[0]);
        }
      }
    case ClientReceive =>
      if s.down != [] {
        ClientReceiveLocal(s, i);
        if Addresses(s.down[0], i) { HearingKeepsWill(i, l, n, first); }
      }
  }

  lemma HearingKeepsWill(i: nat, l: Local, n: Name, first: bool)
    requires Phase(i, l.c, l.x, l.up, l.down) && C.WfSlot(l.c) && HoldLocal(l, n, first) && l.down != []
    ensures WillHold(l.(c := CStep(l.c, l.down[0]), down := l.down[1..]), n) == WillHold(l, n)
  {
    if l.down[0].Data? {
      NoDataForCommands(i, l);
    } else if !Confirmed(i, l.c, l.x, l.up, l.down) {
      assert RefusalSent(i, l.c, l.x, l.up, l.down) || LeaveConfirmed(i, l.c, l.x, l.up, l.down);
    }
  }

  lemma StepKeepsWill(s: State, step: Step, i: nat, n: Name, first: bool)
    requires Inv(s) && Sane(s, step) && Releases(s, step, n) && HoldLocal(At(s, i), n, first) && !step.ClientSend?
    ensures WillHold(At(Next(s, step), i), n) == WillHold(At(s, i), n)
  {
    match step
    case ServerReceive => ReceivingKeepsWill(s, step, i, n, first);
    case ClientReceive => ReceivingKeepsWill(s, step, i, n, first);
    case ServerSend(k, left) =>
      if k < |s.conn.table| {
        assert InPhase(s, i);
        ServerSendLocal(s, k, left, i);
        PluginTurnKeepsValue(i, At(s, i), s.conn.sim, left, n);
      }
    case SimChange(sim) => assert At(Next(s, step), i) == At(s, i);
    case _ => CallKeepsWill(s, step, i, n, first);
  }

  /** What the turn of a held command adds to the log, and to who will hold it. */
  lemma TurnKeepsWill(i: nat, t: seq<S.Slot>, l: Local, me: Name, left: nat, n: Name, first: bool)
    requires Phase(i, l.c, l.x, l.up, l.down) && C.WfSlot(l.c) && HoldLocal(l, n, first) && S.At(t, i) == l.x
    ensures var (o, c) := C.SendSlot(l.c, me, i, left);
      var l', more := l.(c := c, up := l.up + Opt(o)), if o.Some? then CallOf(t, o.value) else [];
      if OfHold(l.c, n) && more != [] then
        && |more| == 1 && l.c.status == Valid
        && (if WillHold(l', n) then more[0] == Begin(i, n) && !WillHold(l, n) else more[0] == End(i, n))
      else
        && WillHold(l', n) == WillHold(l, n) && |more| <= 1
        && (more != [] ==> !(more[0].Begin? && more[0].name == n) && !(more[0].End? && more[0].name == n))
  {
    var (o, c) := C.SendSlot(l.c, me, i, left);
    assert l.up + [] == l.up;
    if o.Some? {
      LastAppend(HoldValue(l.x), l.up, o.value);
      if l.c.status == Valid {
        assert Established(i, l.c, l.x, l.up, l.down);
        if OfHold(l.c, n) { assert l.c.data == [l.c.data[0]] && l.c.shadow == [l.c.shadow[0]]; }
      }
    }
  }

  lemma OthersDoNotHold(s: State, i: nat, n: Name)
    requires OneSlot(s.client, n) && i < |s.client| && OfHold(s.client[i], n)
    ensures forall j: nat :: j != i ==> !WillHold(At(s, j), n)
  {
    forall j: nat | j != i
      ensures !WillHold(At(s, j), n)
    {
      assert j < |s.client| ==> s.client[j] == CAt(s, j);
      assert n == [] ==> !OfHold(C.EMPTY, n);
    }
  }

  /** The log is one call longer, and slot k alone may hold the command now. */
  lemma FutureGrows(s: State, s': State, n: Name, start: nat, k: nat, more: seq<Event>)
    requires FutureHolds(s, n, start) && Future(s') == Future(s) + more && |more| <= 1 && s'.conn.sim.log == s.conn.sim.log
    requires forall j: nat :: j != k ==> WillHold(At(s', j), n) == WillHold(At(s, j), n)
    requires
      if more == [Begin(k, n)] || more == [End(k, n)] then
        && (WillHold(At(s', k), n) <==> more[0].Begin?) && (WillHold(At(s', k), n) ==> !WillHold(At(s, k), n))
        && forall j: nat :: j != k ==> !WillHold(At(s, j), n)
      else
        && WillHold(At(s', k), n) == WillHold(At(s, k), n)
        && (more != [] ==> !(more[0].Begin? && more[0].name == n) && !(more[0].End? && more[0].name == n))
    ensures FutureHolds(s', n, start)
  {
    assert Future(s')[start..] == Future(s)[start..] + more;
    PairedJoin(Future(s)[start..], more, n, None);
    if more != [] {
      assert more == [more[0]];
      PairedOne(more[0], n, Holder(Future(s)[start..], n, None));
    }
  }

  lemma TurnFuture(s: State, k: nat, left: nat, n: Name, start: nat, first: bool)
    requires Inv(s) && OneSlot(s.client, n) && FutureHolds(s, n, start) && k < |s.client| && HoldLocal(At(s, k), n, first)
    ensures FutureHolds(Next(s, ClientSend(k, left)), n, start)
  {
    var s', l := Next(s, ClientSend(k, left)), At(s, k);
    var o := C.SendSlot(s.client[k], s.me, k, left).0;
    var more := if o.Some? then CallOf(s.conn.table, o.value) else [];
    assert InPhase(s, k) && C.WfSlot(l.c);
    TurnKeepsWill(k, s.conn.table, l, s.me, left, n, first);
    TurnAddsCall(s, k, left);
    forall j: nat
      ensures At(s', j) == if j == k then l.(c := s'.client[k], up := l.up + Opt(o)) else At(s, j)
    {
      ClientSendLocal(s, k, left, j);
    }
    if OfHold(l.c, n) { OthersDoNotHold(s, k, n); }
    FutureGrows(s, s', n, start, k, more);
  }

  lemma StepFuture(s: State, step: Step, n: Name, start: nat, first: bool)
    requires Inv(s) && Sane(s, step) && Releases(s, step, n) && OneSlot(s.client, n) && FutureHolds(s, n, start)
    requires forall i: nat :: HoldLocal(At(s, i), n, first)
    ensures FutureHolds(Next(s, step), n, start)
  {
    if step.ClientSend? {
      if step.i < |s.client| { TurnFuture(s, step.i, step.left, n, start, first); }
    } else {
      FutureStays(s, step);
      forall i: nat
        ensures WillHold(At(Next(s, step), i), n) == WillHold(At(s, i), n)
      {
        StepKeepsWill(s, step, i, n, first);
      }
      LogGrows(s, step);
    }
  }

  lemma LogGrows(s: State, step: Step)
    requires Inv(s)
    ensures s.conn.sim.log <= Next(s, step).conn.sim.log
    ensures !step.ServerReceive? ==> s.conn.sim.log == Next(s, step).conn.sim.log
  {
    if step.ServerReceive? && s.up != [] { DeliveryExtendsLog(s); }
  }

  // ---------- the log so far ----------

  /** The plugin's values tell who holds the command. */
  ghost predicate NowHolds(s: State, n: Name, start: nat) {
    && start <= |s.conn.sim.log|
    && forall i: nat :: Holder(s.conn.sim.log[start..], n, None) == Some(i) <==> HoldsNow(SAt(s, i), n)
  }

  /** Delivering a frame makes the call that the plugin's value then shows. */
  predicate ShowsCall(more: seq<Event>, i: nat, n: Name, before: bool, now: bool) {
    if more == [Begin(i, n)] then now else if more == [End(i, n)] then !now else now == before
  }

  lemma DeliveredNow(i: nat, conn: S.Conn, l: Local, n: Name)
    requires Phase(i, l.c, l.x, l.up, l.down) && C.WfSlot(l.c) && l.up != [] && l.x == S.At(conn.table, i) && Addresses(l.up[0], i)
    ensures ShowsCall(CallOf(conn.table, l.up[0]), i, n, HoldsNow(l.x, n), HoldsNow(S.At(S.Apply(conn, l.up[0]).table, i), n))
  {
    if l.up[0].Link? {
      RequestHolds(i, conn, l);
    } else if l.up[0].Data? {
      DataMeansReady(i, l, l.up[0]);
      StoredValue(i, conn, l.up[0]);
    }
  }

  lemma DeliveryNow(s: State, i: nat, n: Name)
    requires Inv(s) && s.up != []
    ensures ShowsCall(Delivered(s), i, n, HoldsNow(SAt(s, i), n), HoldsNow(SAt(Next(s, ServerReceive), i), n))
  {
    assert InPhase(s, i) && C.WfSlot(CAt(s, i));
    ServerReceiveLocal(s, i);
    if Addresses(s.up[0], i) { DeliveredNow(i, s.conn, At(s, i), n); }
  }

  lemma DeliveryCalls(s: State)
    requires s.up != []
    ensures |Delivered(s)| <= 1
  {
  }

  lemma ReceivingNow(s: State, n: Name, start: nat)
    requires Inv(s) && s.up != [] && NowHolds(s, n, start) && Paired(Future(s)[start..], n, None)
    ensures NowHolds(Next(s, ServerReceive), n, start)
  {
    var s', log, more := Next(s, ServerReceive), s.conn.sim.log, Delivered(s);
    DeliveryExtendsLog(s);
    DeliveryCalls(s);
    assert (log + more)[start..] == log[start..] + more;
    PairedJoin(log[start..], more, n, None);
    assert Future(s)[start..] == log[start..] + (more + Ahead(s.conn.table, s.up[1..]));
    PairedJoin(log[start..], more + Ahead(s.conn.table, s.up[1..]), n, None);
    PairedJoin(more, Ahead(s.conn.table, s.up[1..]), n, Holder(log[start..], n, None));
    if more != [] {
      assert more == [more[0]];
      PairedOne(more[0], n, Holder(log[start..], n, None));
    }
    forall i: nat
      ensures Holder(s'.conn.sim.log[start..], n, None) == Some(i) <==> HoldsNow(SAt(s', i), n)
    {
      DeliveryNow(s, i, n);
    }
  }

  lemma TurnNow(s: State, k: nat, left: nat, i: nat, n: Name)
    requires Inv(s) && HoldLeft(At(s, i), n)
    ensures HoldsNow(SAt(Next(s, ServerSend(k, left)), i), n) == HoldsNow(SAt(s, i), n)
  {
    if k < |s.conn.table| {
      assert InPhase(s, i);
      ServerSendLocal(s, k, left, i);
      PluginTurnKeepsValue(i, At(s, i), s.conn.sim, left, n);
    }
  }

  lemma StepNow(s: State, step: Step, n: Name, start: nat, first: bool)
    requires Inv(s) && Releases(s, step, n) && NowHolds(s, n, start) && FutureHolds(s, n, start)
    requires forall i: nat :: HoldLocal(At(s, i), n, first)
    ensures NowHolds(Next(s, step), n, start)
  {
    if step.ServerReceive? {
      if s.up != [] { ReceivingNow(s, n, start); }
    } else {
      LogGrows(s, step);
      forall i: nat
        ensures HoldsNow(SAt(Next(s, step), i), n) == HoldsNow(SAt(s, i), n)
      {
        if step.ServerSend? {
          assert HoldLocal(At(s, i), n, first);
          TurnNow(s, step.i, step.left, i, n);
        }
      }
    }
  }

  // ---------- whole runs ----------

  ghost predicate HoldInv(s: State, n: Name, start: nat, first: bool) {
    && OneSlot(s.client, n) && FutureHolds(s, n, start) && NowHolds(s, n, start)
    && forall i: nat :: HoldLocal(At(s, i), n, first)
  }

  lemma StepHolds(s: State, step: Step, n: Name, start: nat, first: bool)
    requires Inv(s) && Sane(s, step) && Releases(s, step, n) && HoldInv(s, n, start, first)
    ensures HoldInv(Next(s, step), n, start, first)
  {
    StepKeepsOneSlot(s, step, n);
    StepFuture(s, step, n, start, first);
    StepNow(s, step, n, start, first);
    forall i: nat
      ensures HoldLocal(At(Next(s, step), i), n, first)
    {
      StepHoldsLocally(s, step, i, n, first);
    }
  }

  predicate ReleasesRun(s: State, steps: seq<Step>, n: Name)
    decreases |steps|
  {
    steps != [] ==> Releases(s, steps[0], n) && ReleasesRun(Next(s, steps[0]), steps[1..], n)
  }

  lemma {:induction false} RunHolds(s: State, steps: seq<Step>, n: Name, start: nat, first: bool)
    requires Inv(s) && SaneRun(s, steps) && ReleasesRun(s, steps, n) && HoldInv(s, n, start, first)
    ensures HoldInv(Run(s, steps), n, start, first)
    decreases |steps|
  {
    if steps != [] {
      StepHolds(s, steps[0], n, start, first);
      NextKeepsInv(s, steps[0]);
      RunHolds(Next(s, steps[0]), steps[1..], n, start, first);
    }
  }

  /** Calls alternate, and the plugin's values tell whether one is open. */
  ghost predicate Alternating(s: State, n: Name, start: nat) {
    && start <= |s.conn.sim.log| && NoDoubleBegin(s.conn.sim.log[start..], n, false)
    && (Held(s.conn.sim.log[start..], n, false) <==> exists i: nat :: HoldsNow(SAt(s, i), n))
  }

  lemma HoldInvAlternates(s: State, n: Name, start: nat, first: bool)
    requires HoldInv(s, n, start, first)
    ensures Alternating(s, n, start)
  {
    var log := s.conn.sim.log[start..];
    assert Future(s)[start..] == log + Ahead(s.conn.table, s.up);
    PairedJoin(log, Ahead(s.conn.table, s.up), n, None);
    PairedAlternates(log, n, None);
    if Held(log, n, false) {
      var i := Holder(log, n, None).value;
      assert HoldsNow(SAt(s, i), n);
    }
  }

  /** Nothing has travelled on this connection yet. */
  predicate Untouched(s: State) { s.conn.table == [] && s.up == [] && s.down == [] }

  lemma UntouchedHolds(s: State, n: Name, first: bool)
    requires Inv(s) && Untouched(s) && OneSlot(s.client, n)
    requires forall i :: 0 <= i < |s.client| ==> HoldClient(s.client[i], n) && (first ==> !OfHold(s.client[i], n))
    ensures HoldInv(s, n, |s.conn.sim.log|, first)
  {
    var log := s.conn.sim.log;
    assert log + [] == log && log[|log|..] == [];
    forall i: nat
      ensures HoldLocal(At(s, i), n, first) && !WillHold(At(s, i), n) && !HoldsNow(SAt(s, i), n)
    {
      assert InPhase(s, i);
      assert i < |s.client| ==> s.client[i] == CAt(s, i);
    }
  }

  /** On a connection on which the application unlinks command n only after something else than 1 was the last
      value sent, and writes no missing value over a 1 that was, no Begin of the command ever follows a Begin
      without an End in between: over all its subscriptions, however many, and whatever slots they use. The
      plugin's values tell whether a call is open. */
  lemma ConnectionHolds(s: State, steps: seq<Step>, n: Name)
    requires Inv(s) && Untouched(s) && OneSlot(s.client, n) && SaneRun(s, steps) && ReleasesRun(s, steps, n)
    requires forall i :: 0 <= i < |s.client| ==> HoldClient(s.client[i], n)
    ensures Alternating(Run(s, steps), n, |s.conn.sim.log|)
  {
    UntouchedHolds(s, n, false);
    RunHolds(s, steps, n, |s.conn.sim.log|, false);
    HoldInvAlternates(Run(s, steps), n, |s.conn.sim.log|, false);
  }

  /** Who will hold the command, in the client's own terms. */
  lemma ShadowTells(s: State, n: Name, start: nat, i: nat)
    requires HoldInv(s, n, start, true) && i < |s.client| && OfHold(s.client[i], n)
    ensures Held(Future(s)[start..], n, false) <==> s.client[i].shadow == [1]
  {
    var log := Future(s)[start..];
    PairedAlternates(log, n, None);
    assert s.client[i] == CAt(s, i) && HoldLocal(At(s, i), n, true);
    OthersDoNotHold(s, i, n);
    if Held(log, n, false) {
      var j := Holder(log, n, None).value;
      assert WillHold(At(s, j), n);
    } else {
      assert !WillHold(At(s, i), n);
    }
  }

  lemma {:induction false} InitHolds(me: Name, sim: Sim, store: seq<S.Custom>, n: Name)
    requires WfName(me) && WfSim(sim)
    ensures Inv(Init(me, sim, store)) && HoldInv(Init(me, sim, store), n, |sim.log|, true)
  {
    ReachableInv(me, sim, store, []);
    UntouchedHolds(Init(me, sim, store), n, true);
  }

  /** From empty tables, moreover, the client's shadow tells whether the command will be held when all has
      arrived. */
  lemma FirstConnectionHolds(me: Name, sim: Sim, store: seq<S.Custom>, steps: seq<Step>, n: Name)
    requires WfName(me) && WfSim(sim) && SaneRun(Init(me, sim, store), steps) && ReleasesRun(Init(me, sim, store), steps, n)
    ensures var r := Run(Init(me, sim, store), steps);
      && HoldInv(r, n, |sim.log|, true) && Alternating(r, n, |sim.log|)
      && forall i :: 0 <= i < |r.client| && OfHold(r.client[i], n) ==>
           (Held(Future(r)[|sim.log|..], n, false) <==> r.client[i].shadow == [1])
  {
    InitHolds(me, sim, store, n);
    var r := Run(Init(me, sim, store), steps);
    RunHolds(Init(me, sim, store), steps, n, |sim.log|, true);
    HoldInvAlternates(r, n, |sim.log|, true);
    forall i | 0 <= i < |r.client| && OfHold(r.client[i], n)
      ensures Held(Future(r)[|sim.log|..], n, false) <==> r.client[i].shadow == [1]
    {
      ShadowTells(r, n, |sim.log|, i);
    }
  }

  // ---------- from an acceptance on ----------

  lemma AcceptedIsChecked(i: nat, conn: S.Conn, c: C.Slot, up: seq<Frame>, down: seq<Frame>)
    requires Requested(i, c, S.At(conn.table, i), up, down) && C.WfSlot(c) && SafeSlot(c)
    requires var x := S.At(S.LinkRequest(conn, i, up[0].desc).table, i);
      x.bound && x.ty == XPTYPE_CMD_HOLD && x.name != []
    ensures var x := S.At(S.LinkRequest(conn, i, up[0].desc).table, i); Checked(c, x, [], down) && x.data == [MISS]
  {
    var d := up[0].desc;
    if C.Live(c) {
      S.SubscribeOutcome(conn.store, conn.sim, S.FreshSlot(d), d);
      FillOfOne(d.ty);
    }
  }

  /** Accepting a held command leaves a checked slot with the missing value. */
  lemma AcceptanceStartsAChain(s: State, i: nat)
    requires Inv(s) && s.up != [] && s.up[0].Link? && s.up[0].offset == i
    requires S.At(S.LinkRequest(s.conn, i, s.up[0].desc).table, i).bound
    requires SAt(Next(s, ServerReceive), i).ty == XPTYPE_CMD_HOLD && SAt(Next(s, ServerReceive), i).name != []
    ensures var s' := Next(s, ServerReceive);
      && Checked(CAt(s', i), SAt(s', i), Proj(s'.up, i), Proj(s'.down, i))
      && SAt(s', i).data == [MISS]
  {
    var l := At(s, i);
    assert InPhase(s, i) && C.WfSlot(l.c) && SafeSlot(l.c);
    ServerReceiveLocal(s, i);
    assert Requested(i, l.c, l.x, l.up, l.down);
    assert l.up[1..] == [];
    AcceptedIsChecked(i, s.conn, l.c, l.up, l.down);
  }

  lemma {:induction false} OthersAhead(t: seq<S.Slot>, fs: seq<Frame>, n: Name)
    requires forall f :: f in fs && f.Data? ==> S.At(t, f.offset).name != n
    ensures Paired(Ahead(t, fs), n, None) && Holder(Ahead(t, fs), n, None) == None
    decreases |fs|
  {
    if fs != [] {
      var one := CallOf(t, fs[0]);
      assert fs[0] in fs;
      OthersAhead(t, fs[1..], n);
      PairedJoin(one, Ahead(t, fs[1..]), n, None);
      if one != [] {
        assert one == [one[0]];
        PairedOne(one[0], n, None);
      }
    }
  }

  /** Slot i has just been accepted, and no other slot of either side carries the name of its command. */
  predicate JustAccepted(i: nat, l: Local) {
    Checked(l.c, l.x, l.up, l.down) && l.x.ty == XPTYPE_CMD_HOLD && l.x.data == [MISS] && HoldClient(l.c, l.x.name)
  }

  lemma AcceptedHolds(s: State, i: nat)
    requires Inv(s) && JustAccepted(i, At(s, i))
    requires forall k: nat :: k != i ==> CAt(s, k).name != SAt(s, i).name && SAt(s, k).name != SAt(s, i).name
    ensures HoldInv(s, SAt(s, i).name, |s.conn.sim.log|, false)
  {
    var n, log := SAt(s, i).name, s.conn.sim.log;
    MissIsNoPress();
    forall f | f in s.up && f.Data?
      ensures SAt(s, f.offset).name != n
    {
      if f.offset == i { ProjHas(s.up, f, i); }
    }
    OthersAhead(s.conn.table, s.up, n);
    assert Future(s)[|log|..] == Ahead(s.conn.table, s.up) && log[|log|..] == [];
    assert forall k :: 0 <= k < |s.client| ==> s.client[k] == CAt(s, k);
    forall k: nat
      ensures HoldLocal(At(s, k), n, false) && !WillHold(At(s, k), n) && !HoldsNow(SAt(s, k), n)
    {
    }
  }

  lemma AlternatingBefore(s: State, n: Name, start: nat, mid: nat)
    requires start <= mid && Alternating(s, n, mid)
    requires var log := s.conn.sim.log[start..mid]; NoDoubleBegin(log, n, false) && !Held(log, n, false)
    ensures Alternating(s, n, start)
  {
    var log := s.conn.sim.log;
    assert log[start..] == log[start..mid] + log[mid..];
    HeldJoin(log[start..mid], log[mid..], n, false);
  }

  /** From such an acceptance on, a log without a second Begin and without an open call stays one without a
      second Begin, and again the plugin's values tell whether a call is open. */
  lemma NoSecondBegin(s: State, steps: seq<Step>, i: nat, start: nat)
    requires Inv(s) && JustAccepted(i, At(s, i)) && SaneRun(s, steps) && ReleasesRun(s, steps, SAt(s, i).name)
    requires forall k: nat :: k != i ==> CAt(s, k).name != SAt(s, i).name && SAt(s, k).name != SAt(s, i).name
    requires start <= |s.conn.sim.log|
    requires var n, log := SAt(s, i).name, s.conn.sim.log[start..]; NoDoubleBegin(log, n, false) && !Held(log, n, false)
    ensures Alternating(Run(s, steps), SAt(s, i).name, start)
  {
    AcceptedHolds(s, i);
    AlternatesOn(s, steps, SAt(s, i).name, start);
  }

  lemma AlternatesOn(s: State, steps: seq<Step>, n: Name, start: nat)
    requires Inv(s) && HoldInv(s, n, |s.conn.sim.log|, false) && SaneRun(s, steps) && ReleasesRun(s, steps, n)
    requires start <= |s.conn.sim.log| && NoDoubleBegin(s.conn.sim.log[start..], n, false) && !Held(s.conn.sim.log[start..], n, false)
    ensures Alternating(Run(s, steps), n, start)
  {
    var log, r := s.conn.sim.log, Run(s, steps);
    RunHolds(s, steps, n, |log|, false);
    HoldInvAlternates(r, n, |log|, false);
    LogGrowsOverRun(s, steps);
    assert r.conn.sim.log[start..|log|] == log[start..];
    AlternatingBefore(r, n, start, |log|);
  }

  lemma {:induction false} LogGrowsOverRun(s: State, steps: seq<Step>)
    requires Inv(s) && SaneRun(s, steps)
    ensures s.conn.sim.log <= Run(s, steps).conn.sim.log
    decreases |steps|
  {
    if steps != [] {
      LogGrows(s, steps[0]);
      NextKeepsInv(s, steps[0]);
      LogGrowsOverRun(Next(s, steps[0]), steps[1..]);
    }
  }
}
