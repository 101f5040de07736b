/** Where the promises end: for each condition the protocol rests on, an input without it that breaks
the promise. */
module Limits {
  import opened Wire
  import opened Dataref
  import opened Simulator
  import opened Protocol
  import opened Framing
  import C = ClientTable
  import S = ServerTable
  import H = Handshake

  // ---------- names that read like refusals ----------

  /** Position k repeats what stands eight before it, the head of the text at the start. */
  predicate Periodic(head: Name, name: Name, k: nat)
    requires k < |name| && |head| == 8
  {
    name[k] == if k < 8 then head[k] else name[k - 8]
  }

  lemma {:induction false} PeriodicAt(head: Name, name: Name, k: nat)
    requires k < |name| && |head| == 8 && forall j :: 0 <= j < |name| ==> Periodic(head, name, j)
    ensures name[k] == head[k % 8]
    decreases k
  {
    assert Periodic(head, name, k);
    if k >= 8 {
      PeriodicAt(head, name, k - 8);
      assert (k - 8) % 8 == k % 8;
    }
  }

  lemma PrintedBehind(head: Name, name: Name, k: nat)
    requires |head| == 8 && |name| == NAME_SIZE - 1 && k < |name|
    ensures var text := S.Print(head + (name + S.NOT_FOUND));
      |text| == |name| && text[k] == if k < 8 then head[k] else name[k - 8]
  {
  }

  /** The two refusals for what X-Plane does not know, of a command and of a dataref, are the wanted name
      itself exactly for the one name that repeats the first word to the end of the field. */
  lemma OwnRefusal(head: Name, name: Name)
    requires WfName(name) && |head| == 8
    ensures S.Print(head + (name + S.NOT_FOUND)) == name
       <==> |name| == NAME_SIZE - 1 && forall k :: 0 <= k < |name| ==> name[k] == head[k % 8]
  {
    var text := S.Print(head + (name + S.NOT_FOUND));
    if text == name {
      forall k | 0 <= k < |name|
        ensures Periodic(head, name, k)
      {
        PrintedBehind(head, name, k);
      }
      forall k | 0 <= k < |name|
        ensures name[k] == head[k % 8]
      {
        PeriodicAt(head, name, k);
      }
    }
    if |name| == NAME_SIZE - 1 && forall k :: 0 <= k < |name| ==> name[k] == head[k % 8] {
      forall k | 0 <= k < |name|
        ensures text[k] == name[k]
      {
        PrintedBehind(head, name, k);
        assert k >= 8 ==> (k - 8) % 8 == k % 8;
      }
      PrintedBehind(head, name, 0);
      assert text == name;
    }
  }

  lemma Five(s: State, a: Step, b: Step, c: Step, d: Step, e: Step)
    ensures Run(s, [a, b, c, d, e])
         == Protocol.Next(Protocol.Next(Protocol.Next(Protocol.Next(Protocol.Next(s, a), b), c), d), e)
  {
    assert [a, b, c, d, e][1..] == [b, c, d, e] && [b, c, d, e][1..] == [c, d, e];
    assert [c, d, e][1..] == [d, e] && [d, e][1..] == [e] && [e][1..] == [];
    var s1 := Protocol.Next(s, a);
    var s2 := Protocol.Next(s1, b);
    var s3 := Protocol.Next(s2, c);
    assert Run(s, [a, b, c, d, e]) == Run(s1, [b, c, d, e]) == Run(s2, [c, d, e]);
    assert Run(s2, [c, d, e]) == Run(s3, [d, e]) == Run(Protocol.Next(s3, d), [e]);
  }

  /** The client's slot and the request in flight. */
  lemma Requesting(d: Desc, me: Name, sim: Sim) returns (s: State, c: C.Slot)
    requires Known(d.ty) && WfDesc(d) && Normalise(d) == Some(d) && WfName(me)
    ensures s == Protocol.Next(Protocol.Next(Init(me, sim, []), AppLink(d)), ClientSend(0, 0))
    ensures c == C.Fresh(d).(status := Linking)
    ensures s.client == [c] && s.up == [Link(0, d, me)] && s.down == [] && s.conn == S.Conn([], [], sim, true)
  {
    s := Protocol.Next(Protocol.Next(Init(me, sim, []), AppLink(d)), ClientSend(0, 0));
    c := s.client[0];
  }

  /** Link, request, check, answer, and what the client makes of it. */
  function Handshake(d: Desc): seq<Step> {
    [AppLink(d), ClientSend(0, 0), ServerReceive, ServerSend(0, 0), ClientReceive]
  }

  /** A description as the client's own checks leave it. */
  predicate Checked(d: Desc) {
    Known(d.ty) && WfDesc(d) && Normalise(d) == Some(d)
  }

  lemma Refusing(d: Desc, sim: Sim)
    requires Checked(d) && !S.IsCustom(d.name) && S.Check(sim, S.FreshSlot(d)) == S.Bad(d.name)
    ensures S.LinkRequest(S.Conn([], [], sim, true), 0, d)
         == S.Conn([S.FreshSlot(d).(status := Linking, bound := false)], [], sim, true)
  {
  }

  /** If the plugin's check refuses a subscription with the wanted name itself, the client takes the refusal
      for a confirmation. */
  lemma RefusalTakenForConfirmation(d: Desc, me: Name, sim: Sim)
    requires Checked(d) && WfName(me) && !S.IsCustom(d.name) && S.Check(sim, S.FreshSlot(d)) == S.Bad(d.name)
    ensures var s := Run(Init(me, sim, []), Handshake(d));
      |s.client| == |s.conn.table| == 1 && s.client[0].status == Valid && s.conn.table[0].status == Dealloc
  {
    var s, c := Requesting(d, me, sim);
    Five(Init(me, sim, []), AppLink(d), ClientSend(0, 0), ServerReceive, ServerSend(0, 0), ClientReceive);
    Refusing(d, sim);
    var s4 := Protocol.Next(Protocol.Next(s, ServerReceive), ServerSend(0, 0));
    assert s4.down == [LinkReply(0, d.name)];
  }

  lemma CustomIsNoRefusal(d: Desc)
    requires S.IsCustom(d.name)
    ensures !S.Refusal(d, d.name)
  {
    assert d.name[0] == d.name[..|S.PACKAGE_NAME|][0] == 120;
    assert S.CommandNotFound(d.name)[0] == 67 && S.DatarefNotFound(d.name)[0] == 68;
    assert S.CustomDiffers(d.nelements, d.ty)[0] == 67;
    assert forall t: nat :: S.TypeDiffers(d.ty, t)[0] == 68;
    assert forall t: nat :: S.CountDiffers(d.nelements, t)[0] == 68;
  }

  lemma UnknownRefuses(d: Desc)
    requires Checked(d) && d.name == if Command(d.ty) then S.CommandNotFound(d.name) else S.DatarefNotFound(d.name)
    ensures S.Check(Sim(map[], {}, map[], []), S.FreshSlot(d)) == S.Bad(d.name)
  {
  }

  lemma TypeRefuses(d: Desc, types: nat) returns (sim: Sim)
    requires Checked(d) && !Command(d.ty) && !S.HasType(types, d.ty) && d.name == S.TypeDiffers(d.ty, types)
    ensures WfSim(sim) && S.Check(sim, S.FreshSlot(d)) == S.Bad(d.name)
  {
    sim := Sim(map[d.name := RefInfo(types, true)], {}, map[], []);
  }

  lemma CountRefuses(d: Desc, n: nat) returns (sim: Sim)
    requires Checked(d) && d.nelements > 1 && (d.ty == XPTYPE_FLT_ARR || d.ty == XPTYPE_INT_ARR)
    requires n != d.nelements && d.name == S.CountDiffers(d.nelements, n)
    ensures WfSim(sim) && S.Check(sim, S.FreshSlot(d)) == S.Bad(d.name)
  {
    var view: seq<nat> := seq(n, _ => 0);
    sim := Sim(map[d.name := RefInfo(d.ty, true)], {}, map[(d.name, d.ty) := view], []);
    Pow256Values();
    assert View(sim, d.name, d.ty) == view;
  }

  /** Each of these texts, if it is the name, is what the check of some simulator answers. */
  lemma SomeoneRefuses(d: Desc) returns (sim: Sim)
    requires Checked(d) && S.Refusal(d, d.name) && !S.IsCustom(d.name)
    ensures WfSim(sim) && S.Check(sim, S.FreshSlot(d)) == S.Bad(d.name)
  {
    if d.name == if Command(d.ty) then S.CommandNotFound(d.name) else S.DatarefNotFound(d.name) {
      sim := Sim(map[], {}, map[], []);
      UnknownRefuses(d);
    } else if types: nat :| !S.HasType(types, d.ty) && d.name == S.TypeDiffers(d.ty, types) {
      sim := TypeRefuses(d, types);
    } else {
      var n: nat :| n != d.nelements && d.name == S.CountDiffers(d.nelements, n);
      sim := CountRefuses(d, n);
    }
  }

  /** So the condition under which the handshake is safe is exact: some simulator makes the client accept
      what the plugin has refused if and only if the name is one of the texts that can refuse it. */
  lemma HandshakeFailsIffOwnRefusal(d: Desc, me: Name)
    requires Checked(d) && WfName(me)
    ensures S.Refusal(d, d.name) <==>
      exists sim: Sim :: WfSim(sim) && Misled(Run(Init(me, sim, []), Handshake(d)))
  {
    if S.Refusal(d, d.name) {
      if S.IsCustom(d.name) { CustomIsNoRefusal(d); }
      var sim := SomeoneRefuses(d);
      RefusalTakenForConfirmation(d, me, sim);
      assert WfSim(sim) && Misled(Run(Init(me, sim, []), Handshake(d)));
    } else {
      forall sim: Sim | WfSim(sim)
        ensures !Misled(Run(Init(me, sim, []), Handshake(d)))
      {
        HandshakeIsSane(d, me, sim);
        H.ReachableHandshake(me, sim, [], Handshake(d), 0);
      }
    }
  }

  /** The client holds slot 0 valid, and the plugin does not. */
  predicate Misled(s: State) {
    |s.client| > 0 && s.client[0].status == Valid && SAt(s, 0).status != Valid
  }

  lemma {:induction false} TrafficIsSane(s: State, steps: seq<Step>)
    requires forall k :: 0 <= k < |steps| ==> !steps[k].AppLink? && !steps[k].AppUnlink?
    ensures SaneRun(s, steps)
    decreases |steps|
  {
    if steps != [] {
      TrafficIsSane(Protocol.Next(s, steps[0]), steps[1..]);
    }
  }

  lemma HandshakeIsSane(d: Desc, me: Name, sim: Sim)
    requires Checked(d) && !S.Refusal(d, d.name)
    ensures SaneRun(Init(me, sim, []), Handshake(d))
  {
    TrafficIsSane(Protocol.Next(Init(me, sim, []), AppLink(d)), Handshake(d)[1..]);
  }

  /** The name repeats the word to the end of the field. */
  predicate Repeats(head: Name, name: Name) {
    |head| == 8 && |name| == NAME_SIZE - 1 && forall k :: 0 <= k < |name| ==> name[k] == head[k % 8]
  }

  /** Such names exist: one for commands, one for datarefs nobody has, ... */
  lemma RepeatedCommand(name: Name)
    requires Repeats(S.COMMAND, name)
    ensures WfName(name) && S.Refusal(Desc(name, XPTYPE_CMD_ONCE, 1, 0, INT_MISS), name)
  {
    NoZeroes(S.COMMAND, name);
    OwnRefusal(S.COMMAND, name);
  }

  lemma RepeatedDataref(name: Name)
    requires Repeats(S.DATAREF, name)
    ensures WfName(name) && S.Refusal(Desc(name, XPTYPE_INT, 1, 0, INT_MISS), name)
  {
    NoZeroes(S.DATAREF, name);
    OwnRefusal(S.DATAREF, name);
  }

  /** ... and every text that reports a wrong type or a wrong number of elements. */
  lemma ReportsAsNames(types: nat, n: nat)
    requires !S.HasType(types, XPTYPE_INT) && n != 2
    ensures var text := S.TypeDiffers(XPTYPE_INT, types); S.Refusal(Desc(text, XPTYPE_INT, 1, 0, INT_MISS), text)
    ensures var text := S.CountDiffers(2, n); S.Refusal(Desc(text, XPTYPE_INT_ARR, 2, -1, INT_MISS), text)
  {
  }

  lemma NoZeroes(head: Name, name: Name)
    requires |head| == 8 && 0 !in head && |name| < NAME_SIZE && forall k :: 0 <= k < |name| ==> name[k] == head[k % 8]
    ensures WfName(name)
  {
    forall k | 0 <= k < |name|
      ensures name[k] != 0
    {
      assert name[k] == head[k % 8] && head[k % 8] in head;
    }
  }

  // ---------- unlinking with a value in flight ----------

  function IntDesc(name: Name): Desc { Desc(name, XPTYPE_INT, 1, 0, INT_MISS) }

  /** An int of the simulator a client can subscribe to. */
  predicate Offers(sim: Sim, name: Name, v: nat) {
    && WfSim(sim) && WfName(name) && name != [] && name !in sim.cmds
    && !S.IsCustom(name)
    && name in sim.refs && sim.refs[name] == RefInfo(XPTYPE_INT, true)
    && (name, XPTYPE_INT) in sim.vals && sim.vals[(name, XPTYPE_INT)] == [v]
  }

  /** The plugin confirms, and the client hears of it. */
  lemma Confirming(s: State, c: C.Slot, x: S.Slot)
    requires s.client == [c] && s.conn.table == [x] && s.up == [] && s.down == []
    requires x.status == Linking && x.bound && c.name == x.name && x.name != []
    ensures Protocol.Next(Protocol.Next(s, ServerSend(0, 0)), ClientReceive)
         == s.(client := [c.(status := Valid)], conn := s.conn.(table := [x.(status := Valid)]))
  {
    assert Protocol.Next(s, ServerSend(0, 0)).down == [LinkReply(0, x.name)];
  }

  lemma IntAccepted(name: Name, sim: Sim, v: nat)
    requires Offers(sim, name, v)
    ensures Normalise(IntDesc(name)) == Some(IntDesc(name))
    ensures var x := S.FreshSlot(IntDesc(name)).(status := Linking, bound := true, write := true);
      S.LinkRequest(S.Conn([], [], sim, true), 0, IntDesc(name)) == S.Conn([x], [], sim, true)
  {
  }

  lemma Subscribed(name: Name, me: Name, sim: Sim, v: nat) returns (s: State)
    requires Offers(sim, name, v) && WfName(me)
    ensures var d := IntDesc(name); Normalise(d) == Some(d)
    ensures s == Run(Init(me, sim, []), Handshake(IntDesc(name)))
    ensures s.client == [C.Fresh(IntDesc(name)).(status := Valid)]
    ensures s.conn == S.Conn([S.FreshSlot(IntDesc(name)).(status := Valid, bound := true, write := true)], [], sim, true)
    ensures s.up == [] && s.down == []
  {
    var d := IntDesc(name);
    IntAccepted(name, sim, v);
    var s2, c := Requesting(d, me, sim);
    Five(Init(me, sim, []), AppLink(d), ClientSend(0, 0), ServerReceive, ServerSend(0, 0), ClientReceive);
    var x := S.FreshSlot(d).(status := Linking, bound := true, write := true);
    var s3 := Protocol.Next(s2, ServerReceive);
    Confirming(s3, c, x);
    s := Protocol.Next(Protocol.Next(s3, ServerSend(0, 0)), ClientReceive);
  }

  /** Unlinking while a value is on its way leaves bytes in flight that the client no longer knows the
      length of. */
  lemma UnlinkLosesFraming(name: Name, me: Name, sim: Sim, v: nat) returns (s: State)
    requires Offers(sim, name, v) && WfName(me) && v != MissCode(XPTYPE_INT)
    ensures s == Run(Init(me, sim, []), Handshake(IntDesc(name)))
    ensures var t := Protocol.Next(Protocol.Next(s, ServerSend(0, 0)), AppUnlink(name));
      && Sane(Protocol.Next(s, ServerSend(0, 0)), AppUnlink(name))
      && t.down == [Data(0, XPTYPE_INT, [v])] && !NoStray(t)
  {
    s := Subscribed(name, me, sim, v);
    var x := s.conn.table[0];
    var vals := S.ReadSlot(sim, x);
    assert vals == [v] && x.data[0] == Absent(XPTYPE_INT);
    assert ElemChanged(x.ty, x.precision, x.data[0], vals[0]);
    var t := Protocol.Next(Protocol.Next(s, ServerSend(0, 0)), AppUnlink(name));
    assert t.down == [Data(0, XPTYPE_INT, [v])];
    assert Stray(t.client, t.down[0]);
  }

  /** The payload of a value for an unlinked slot is read as frames of its own. */
  lemma StrayPayloadIsRead(t: seq<C.Slot>, i: nat, payload: seq<byte>, tail: seq<byte>)
    requires i < |t| && i < MAX_OFFSETS && !Known(t[i].ty)
    ensures C.Decode(t, false, (Word(MARK_DATA + i) + payload) + tail)
         == C.Decode(C.Apply(t, Data(i, XPTYPE_UNKNOWN, [])), false, payload + tail)
  {
    NextOfWord(ClientSide, C.Shapes(t), MARK_DATA + i, payload, tail);
  }

  lemma DisconnectIsRead(t: seq<C.Slot>, tail: seq<byte>)
    ensures C.Decode(t, false, Word(MARK_DISCONNECT) + tail).1
  {
    NextOfWord(ClientSide, C.Shapes(t), MARK_DISCONNECT, [], tail);
    assert Word(MARK_DISCONNECT) + [] == Word(MARK_DISCONNECT) && [] + tail == tail;
    GoneStays(t, tail);
  }

  lemma DisconnectPayload()
    ensures EncodeVals([MARK_DISCONNECT], 4) == Word(MARK_DISCONNECT)
  {
    assert EncodeVals([], 4) == [];
  }

  /** This stray value ends the connection. */
  lemma {:induction false} StrayValueDisconnects(t: seq<C.Slot>, i: nat)
    requires i < |t| && i < MAX_OFFSETS && !Known(t[i].ty)
    ensures var f := Data(i, XPTYPE_INT, [MARK_DISCONNECT]);
      WfFrame(f) && C.Decode(t, false, Transmission([f])).1
  {
    var f := Data(i, XPTYPE_INT, [MARK_DISCONNECT]);
    Pow256Values();
    assert EncodeAll([f]) == Bytes(f) by { assert [f][1..] == []; }
    DisconnectPayload();
    StrayPayloadIsRead(t, i, Word(MARK_DISCONNECT), Word(MARK_EOT));
    DisconnectIsRead(C.Apply(t, Data(i, XPTYPE_UNKNOWN, [])), Word(MARK_EOT));
  }

  lemma {:induction false} GoneStays(t: seq<C.Slot>, s: seq<byte>)
    ensures C.Decode(t, true, s).1
    decreases |s|
  {
    if s != [] {
      var (f, rest) := NextFrame(ClientSide, C.Shapes(t), s);
      GoneStays(C.Apply(t, f), rest);
    }
  }

  // ---------- offsets beyond the marker ranges ----------

  /** Decoding undoes encoding for a data frame exactly if its offset is below a million, on either side and
      for every table that knows the payload's shape. */
  lemma DataMarkerRange(side: Side, shapes: seq<Shape>, i: nat, ty: int, vals: seq<nat>, tail: seq<byte>)
    requires IsInt32(MARK_DATA + i) && WfVals(ty, |vals|, vals) && Known(ty)
    requires i < |shapes| && shapes[i] == Shape(ty, |vals|)
    ensures NextFrame(side, shapes, (Word(MARK_DATA + i) + EncodeVals(vals, Width(ty))) + tail) == (Data(i, ty, vals), tail)
       <==> i < MAX_OFFSETS
  {
    if i < MAX_OFFSETS {
      NextOfBytes(side, shapes, Data(i, ty, vals), tail);
    } else {
      BeyondIsNoData(side, shapes, MARK_DATA + i, EncodeVals(vals, Width(ty)), tail);
    }
  }

  lemma BeyondIsNoData(side: Side, shapes: seq<Shape>, first: int, body: seq<byte>, tail: seq<byte>)
    requires first >= MARK_LINK && IsInt32(first)
    ensures !NextFrame(side, shapes, (Word(first) + body) + tail).0.Data?
  {
    NextOfWord(side, shapes, first, body, tail);
  }

  // ---------- unlinking while disconnected ----------

  /** An unlink still pending when the connection is lost becomes a subscription without a type, which
      the plugin never answers. */
  lemma PendingUnlinkIsNeverAnswered(c: C.Slot, me: Name, i: nat, conn: S.Conn)
    requires c.name != []
    ensures var reset := C.Reset([C.UnlinkSlot(c)])[0];
      var (o, sent) := C.SendSlot(reset, me, i, 0);
      && o.Some? && o.value.Link? && sent.status == Linking
      && S.Apply(conn, o.value) == conn
  {
  }

  // ---------- the missing value of a held command ----------

  lemma MissIsNoElement()
    ensures MissCode(XPTYPE_CMD_HOLD) != 1 && MissCode(XPTYPE_CMD_HOLD) > 1
  {
  }

  /** Writing 1, the missing value, and 1 again begins the command twice. */
  lemma MissingValueBeginsTwice(c: C.Slot, me: Name, i: nat, conn: S.Conn)
    requires c.name != [] && c.status == Valid && c.ty == XPTYPE_CMD_HOLD && c.data == c.shadow == [1]
    requires i < |conn.table| && conn.table[i].status == Valid && conn.table[i].ty == XPTYPE_CMD_HOLD && S.Live(conn.table[i])
    ensures var miss := MissCode(XPTYPE_CMD_HOLD);
      var (o, c1) := C.SendSlot(c.(data := [miss]), me, i, 0);
      var (p, c2) := C.SendSlot(c1.(data := [1]), me, i, 0);
      && o == Some(Data(i, XPTYPE_CMD_HOLD, [miss])) && p == Some(Data(i, XPTYPE_CMD_HOLD, [1]))
      && var d := S.Apply(S.Apply(S.Apply(conn, p.value), o.value), p.value);
         d.sim.log == conn.sim.log + [Begin(i, conn.table[i].name)] + [Begin(i, conn.table[i].name)]
  {
    var miss := MissCode(XPTYPE_CMD_HOLD);
    assert ElemChanged(c.ty, c.precision, c.shadow[0], [miss][0]);
    var c1 := C.SendSlot(c.(data := [miss]), me, i, 0).1;
    assert ElemChanged(c1.ty, c1.precision, c1.shadow[0], [1 as nat][0]);
    MissIsNoElement();
    Pow256Values();
  }

  // ---------- crossing writes ----------

  lemma ClientWriteArrives(x: S.Slot, sim: Sim, a: nat)
    requires x.status == Valid && S.Live(x) && x.ty == XPTYPE_INT && x.write && x.name != []
    requires (x.name, XPTYPE_INT) in sim.vals && |sim.vals[(x.name, XPTYPE_INT)]| == 1 && a != MissCode(XPTYPE_INT)
    ensures var d := S.Apply(S.Conn([x], [], sim, true), Data(0, XPTYPE_INT, [a]));
      d.table == [x.(data := [a])] && d.sim == sim.(vals := sim.vals[(x.name, XPTYPE_INT) := [a]])
  {
    assert WriteWindow(sim.vals[(x.name, XPTYPE_INT)], XPTYPE_INT, 0, [a]) == [a];
    assert Merge(XPTYPE_INT, x.data, [a]) == [a];
  }

  lemma ServerSendsInt(x: S.Slot, sim: Sim, b: nat)
    requires x.status == Valid && S.Live(x) && x.ty == XPTYPE_INT && x.name != []
    requires (x.name, XPTYPE_INT) in sim.vals && sim.vals[(x.name, XPTYPE_INT)] == [b]
    ensures S.SendSlot(sim, x, 0, 0) == if x.data == [b] then (None, x) else (Some(Data(0, XPTYPE_INT, [b])), x.(data := [b]))
  {
    assert x.data == [x.data[0]];
    var vals := S.ReadSlot(sim, x);
    assert vals == [b];
    if x.data != [b] {
      assert ElemChanged(x.ty, x.precision, x.data[0], vals[0]);
    }
  }

  /** When both sides change a value in the same cycle, each ends with the other's, and neither has
      anything left to send. */
  lemma CrossingWritesDiverge(c: C.Slot, x: S.Slot, me: Name, sim: Sim, a: nat, b: nat)
    requires c.ty == XPTYPE_INT && c.status == Valid && C.Live(c)
    requires x.status == Valid && S.Live(x) && x.write && S.DescOf(x) == C.DescOf(c)
    requires WfSim(sim) && (x.name, XPTYPE_INT) in sim.vals && sim.vals[(x.name, XPTYPE_INT)] == [b]
    requires a != b && c.data == [a] && c.shadow != [a] && x.data != [b] && MissCode(XPTYPE_INT) !in [a, b]
    ensures var (o, c1) := C.SendSlot(c, me, 0, 0);
      var (p, x1) := S.SendSlot(sim, x, 0, 0);
      && o == Some(Data(0, XPTYPE_INT, [a])) && p == Some(Data(0, XPTYPE_INT, [b]))
      && var d, c2 := S.Apply(S.Conn([x1], [], sim, true), o.value), C.Store(c1, p.value.vals);
         && c2.data == [b] && d.sim.vals == sim.vals[(x.name, XPTYPE_INT) := [a]] && |d.table| == 1
         && C.SendSlot(c2, me, 0, 0).0.None? && S.SendSlot(d.sim, d.table[0], 0, 0).0.None?
  {
    assert c.shadow == [c.shadow[0]];
    assert ElemChanged(c.ty, c.precision, c.shadow[0], c.data[0]);
    assert WfVals(XPTYPE_INT, |sim.vals[(x.name, XPTYPE_INT)]|, sim.vals[(x.name, XPTYPE_INT)]);
    assert WfVals(XPTYPE_INT, 1, [a]) && WfVals(XPTYPE_INT, 1, [b]);
    ServerSendsInt(x, sim, b);
    var x1 := x.(data := [b]);
    ClientWriteArrives(x1, sim, a);
    ServerSendsInt(x1.(data := [a]), sim.(vals := sim.vals[(x.name, XPTYPE_INT) := [a]]), a);
    assert Merge(XPTYPE_INT, [a], [b]) == [b];
  }
}
