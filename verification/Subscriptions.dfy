/** Which subscriptions succeed: the plugin accepts exactly the datarefs that offer what is asked of them. */
module Subscriptions {
  import opened Wire
  import opened Dataref
  import opened Simulator
  import opened Protocol
  import C = ClientTable
  import S = ServerTable
  import L = Limits
  import Floats

  // ---------- sets of types ----------

  /** Different types, each of them known. */
  predicate TypeSet(codes: seq<int>) {
    (forall i :: 0 <= i < |codes| ==> Known(codes[i])) && forall i, j :: 0 <= i < j < |codes| ==> codes[i] != codes[j]
  }

  /** The type set of a dataref that has all these views. */
  function SumOf(codes: seq<int>): int { if codes == [] then 0 else codes[0] + SumOf(codes[1..]) }

  function Has(code: int, codes: seq<int>): (r: nat)
    ensures r <= 1
  {
    if code in codes then 1 else 0
  }

  function Bits(a: nat, b: nat, c: nat, d: nat, e: nat, f: nat, g: nat, h: nat): nat {
    a + 2 * b + 4 * c + 8 * d + 16 * e + 32 * f + 64 * g + 128 * h
  }

  function AllBits(codes: seq<int>): int {
    Bits(Has(1, codes), Has(2, codes), Has(4, codes), Has(8, codes),
         Has(16, codes), Has(32, codes), Has(64, codes), Has(128, codes))
  }

  lemma OneMoreCode(code: int, first: int, rest: seq<int>)
    requires first !in rest
    ensures Has(code, [first] + rest) == (if code == first then 1 else 0) + Has(code, rest)
  {
  }

  lemma OneMoreType(first: int, rest: seq<int>)
    requires Known(first) && first !in rest
    ensures AllBits([first] + rest) == first + AllBits(rest)
  {
    OneMoreCode(1, first, rest);
    OneMoreCode(2, first, rest);
    OneMoreCode(4, first, rest);
    OneMoreCode(8, first, rest);
    OneMoreCode(16, first, rest);
    OneMoreCode(32, first, rest);
    OneMoreCode(64, first, rest);
    OneMoreCode(128, first, rest);
  }

  lemma RestIsTypeSet(codes: seq<int>)
    requires TypeSet(codes) && codes != []
    ensures Known(codes[0]) && codes[0] !in codes[1..] && TypeSet(codes[1..]) && codes == [codes[0]] + codes[1..]
  {
  }

  lemma SumOfOneMore(first: int, rest: seq<int>)
    ensures SumOf([first] + rest) == first + SumOf(rest)
  {
    assert ([first] + rest)[1..] == rest;
  }

  lemma OneMoreSummand(first: int, rest: seq<int>, sum: int, bits: int)
    requires Known(first) && first !in rest && SumOf(rest) == sum == AllBits(rest)
    requires bits == AllBits([first] + rest)
    ensures SumOf([first] + rest) == bits
  {
    SumOfOneMore(first, rest);
    OneMoreType(first, rest);
  }

  lemma {:induction false} SumIsBits(codes: seq<int>)
    requires TypeSet(codes)
    ensures SumOf(codes) == AllBits(codes)
  {
    if codes != [] {
      RestIsTypeSet(codes);
      SumIsBits(codes[1..]);
      OneMoreSummand(codes[0], codes[1..], SumOf(codes[1..]), AllBits([codes[0]] + codes[1..]));
    }
  }

  /** The number of units in a sum tells in its last bit whether the unit itself is in it. */
  lemma LastBit(low: nat, bit: nat, high: nat, unit: nat, sum: nat)
    requires low < unit && bit <= 1 && sum == low + unit * (bit + 2 * high)
    ensures (sum / unit) % 2 == bit
  {
    Floats.Divided(sum, unit, bit + 2 * high, low);
  }

  /** A sum of these bits has each of them at its place. */
  lemma LowBits(a: nat, b: nat, c: nat, d: nat, e: nat, f: nat, g: nat, h: nat)
    requires a <= 1 && b <= 1 && c <= 1 && d <= 1 && e <= 1 && f <= 1 && g <= 1 && h <= 1
    ensures var sum := Bits(a, b, c, d, e, f, g, h);
      (sum / 1) % 2 == a && (sum / 2) % 2 == b && (sum / 4) % 2 == c && (sum / 8) % 2 == d
  {
    var sum := Bits(a, b, c, d, e, f, g, h);
    LastBit(0, a, b + 2 * c + 4 * d + 8 * e + 16 * f + 32 * g + 64 * h, 1, sum);
    LastBit(a, b, c + 2 * d + 4 * e + 8 * f + 16 * g + 32 * h, 2, sum);
    LastBit(a + 2 * b, c, d + 2 * e + 4 * f + 8 * g + 16 * h, 4, sum);
    LastBit(a + 2 * b + 4 * c, d, e + 2 * f + 4 * g + 8 * h, 8, sum);
  }

  lemma HighBits(a: nat, b: nat, c: nat, d: nat, e: nat, f: nat, g: nat, h: nat)
    requires a <= 1 && b <= 1 && c <= 1 && d <= 1 && e <= 1 && f <= 1 && g <= 1 && h <= 1
    ensures var sum := Bits(a, b, c, d, e, f, g, h);
      (sum / 16) % 2 == e && (sum / 32) % 2 == f && (sum / 64) % 2 == g && (sum / 128) % 2 == h
  {
    var sum, low := Bits(a, b, c, d, e, f, g, h), a + 2 * b + 4 * c + 8 * d;
    LastBit(low, e, f + 2 * g + 4 * h, 16, sum);
    LastBit(low + 16 * e, f, g + 2 * h, 32, sum);
    LastBit(low + 16 * e + 32 * f, g, h, 64, sum);
    LastBit(low + 16 * e + 32 * f + 64 * g, h, 0, 128, sum);
  }

  /** A dataref offers a view exactly if that is in its type set. */
  lemma HasTypeIffInSet(codes: seq<int>, ty: int)
    requires TypeSet(codes) && Known(ty)
    ensures S.HasType(SumOf(codes), ty) <==> ty in codes
  {
    SumIsBits(codes);
    LowBits(Has(1, codes), Has(2, codes), Has(4, codes), Has(8, codes),
            Has(16, codes), Has(32, codes), Has(64, codes), Has(128, codes));
    HighBits(Has(1, codes), Has(2, codes), Has(4, codes), Has(8, codes),
             Has(16, codes), Has(32, codes), Has(64, codes), Has(128, codes));
  }

  // ---------- the plugin accepts ----------

  /** The simulator has the command, or a dataref with this view, of the right size if it is an array whose size is
      fixed. */
  predicate Offers(sim: Sim, d: Desc, codes: seq<int>) {
    if d.ty == XPTYPE_CMD_ONCE || d.ty == XPTYPE_CMD_HOLD then d.name in sim.cmds
    else
      && d.name in sim.refs && sim.refs[d.name].types == SumOf(codes) && d.ty in codes
      && TypeSet(codes)
      && (d.nelements > 1 && (d.ty == XPTYPE_INT_ARR || d.ty == XPTYPE_FLT_ARR) ==> |View(sim, d.name, d.ty)| == d.nelements)
  }

  predicate Writable(sim: Sim, d: Desc) {
    d.ty == XPTYPE_CMD_ONCE || d.ty == XPTYPE_CMD_HOLD || (d.name in sim.refs && sim.refs[d.name].writable)
  }

  lemma OfferedIsGood(sim: Sim, d: Desc, codes: seq<int>)
    requires L.Checked(d) && Offers(sim, d, codes)
    ensures S.Check(sim, S.FreshSlot(d)) == S.Good(Writable(sim, d))
  {
    if !Command(d.ty) { HasTypeIffInSet(codes, d.ty); }
  }

  /** The plugin's slot for an accepted subscription. */
  function AcceptedSlot(d: Desc, write: bool): S.Slot
    requires Known(d.ty) && Normalise(d) == Some(d)
  {
    S.FreshSlot(d).(status := Linking, bound := true, write := write)
  }

  lemma Requested(d: Desc, me: Name, sim: Sim, store: seq<S.Custom>)
    requires L.Checked(d)
    ensures var s := Protocol.Next(Protocol.Next(Init(me, sim, store), AppLink(d)), ClientSend(0, 0));
      && s.client == [C.Fresh(d).(status := Linking)] && s.up == [Frame.Link(0, d, me)] && s.down == []
      && s.conn == S.Conn([], store, sim, true)
  {
    var s := Protocol.Next(Init(me, sim, store), AppLink(d));
    assert s.client == [C.Fresh(d)];
  }

  /** A handshake in which the plugin accepts the request ends valid on both sides. */
  lemma AcceptanceIsHeard(d: Desc, me: Name, sim: Sim, store: seq<S.Custom>, store': seq<S.Custom>, sim': Sim, write: bool)
    requires L.Checked(d) && WfName(me)
    requires S.LinkRequest(S.Conn([], store, sim, true), 0, d) == S.Conn([AcceptedSlot(d, write)], store', sim', true)
    ensures var s := Run(Init(me, sim, store), L.Handshake(d));
      && s.client == [C.Fresh(d).(status := Valid)] && s.up == [] && s.down == []
      && s.conn == S.Conn([AcceptedSlot(d, write).(status := Valid)], store', sim', true)
  {
    var s := Init(me, sim, store);
    Requested(d, me, sim, store);
    var s3 := Protocol.Next(Protocol.Next(Protocol.Next(s, AppLink(d)), ClientSend(0, 0)), ServerReceive);
    L.Confirming(s3, C.Fresh(d).(status := Linking), AcceptedSlot(d, write));
    L.Five(s, AppLink(d), ClientSend(0, 0), ServerReceive, ServerSend(0, 0), ClientReceive);
  }

  lemma Refusing(s: State, x: S.Slot)
    requires s.conn.table == [x] && x.status == Linking && !x.bound && x.name != []
    ensures var r := Protocol.Next(Protocol.Next(s, ServerSend(0, 0)), ClientReceive);
      |r.client| == |s.client| && r.conn.table == [S.Deallocated(x)]
  {
  }

  lemma RefusalIsHeard(d: Desc, me: Name, sim: Sim, store: seq<S.Custom>, text: Name)
    requires L.Checked(d) && WfName(me) && text != []
    requires S.LinkRequest(S.Conn([], store, sim, true), 0, d)
          == S.Conn([S.FreshSlot(d).(status := Linking, name := text)], store, sim, true)
    ensures var s := Run(Init(me, sim, store), L.Handshake(d));
      |s.client| == |s.conn.table| == 1 && s.conn.table[0].status == Dealloc
  {
    var s := Init(me, sim, store);
    Requested(d, me, sim, store);
    var s3 := Protocol.Next(Protocol.Next(Protocol.Next(s, AppLink(d)), ClientSend(0, 0)), ServerReceive);
    Refusing(s3, S.FreshSlot(d).(status := Linking, name := text));
    L.Five(s, AppLink(d), ClientSend(0, 0), ServerReceive, ServerSend(0, 0), ClientReceive);
  }

  lemma BadUnlessOffered(sim: Sim, d: Desc, codes: seq<int>)
    requires L.Checked(d) && TypeSet(codes) && (d.name in sim.refs ==> sim.refs[d.name].types == SumOf(codes))
    requires !Offers(sim, d, codes)
    ensures S.Check(sim, S.FreshSlot(d)).Bad? && S.Check(sim, S.FreshSlot(d)).text != []
  {
    HasTypeIffInSet(codes, d.ty);
    S.CheckError(sim, S.FreshSlot(d));
  }

  /** From empty tables, whatever the type: the handshake ends valid on both sides exactly if the simulator offers
      the dataref, and then with the description asked for, bound, and writable if the simulator says so. */
  lemma AcceptedIffOffered(d: Desc, me: Name, sim: Sim, store: seq<S.Custom>, codes: seq<int>)
    requires L.Checked(d) && WfName(me) && !S.IsCustom(d.name)
    requires TypeSet(codes) && (d.name in sim.refs ==> sim.refs[d.name].types == SumOf(codes))
    ensures var s := Run(Init(me, sim, store), L.Handshake(d));
      && |s.client| == |s.conn.table| == 1
      && (s.client[0].status == Valid && s.conn.table[0].status == Valid <==> Offers(sim, d, codes))
      && (Offers(sim, d, codes) ==>
            && C.DescOf(s.client[0]) == d && S.DescOf(s.conn.table[0]) == d
            && s.conn.table[0].bound && s.conn.table[0].write == Writable(sim, d)
            && s.conn.sim == sim && s.conn.store == store)
  {
    if Offers(sim, d, codes) {
      OfferedIsGood(sim, d, codes);
      AcceptanceIsHeard(d, me, sim, store, store, sim, Writable(sim, d));
    } else {
      BadUnlessOffered(sim, d, codes);
      RefusalIsHeard(d, me, sim, store, S.Check(sim, S.FreshSlot(d)).text);
    }
  }

  // ---------- shared datarefs ----------

  lemma Registration(d: Desc, sim: Sim, store: seq<S.Custom>)
    requires L.Checked(d) && !Command(d.ty) && |store| < 150 && forall k :: 0 <= k < |store| ==> store[k].name != d.name
    ensures var sim' := sim.(refs := sim.refs[d.name := RefInfo(d.ty, true)],
                             vals := sim.vals[(d.name, d.ty) := Fill(d.ty, d.nelements)]);
      && S.AllocateCustom(store, sim, d.ty, d.nelements, d.name) == (0, store + [S.Custom(d.name, d.ty, d.nelements)], sim')
      && S.Check(sim', S.FreshSlot(d)) == S.Good(true)
  {
    HasTypeIffInSet([d.ty], d.ty);
  }

  /** A shared dataref that nobody has subscribed to yet is made: writable, of the size asked for, and with all its
      elements missing (zero for bytes). */
  lemma SharedIsMade(d: Desc, me: Name, sim: Sim, store: seq<S.Custom>)
    requires L.Checked(d) && WfName(me) && S.IsCustom(d.name) && !Command(d.ty)
    requires |store| < 150 && forall k :: 0 <= k < |store| ==> store[k].name != d.name
    ensures var s := Run(Init(me, sim, store), L.Handshake(d));
      && |s.client| == |s.conn.table| == 1
      && s.client[0].status == Valid && s.conn.table[0].status == Valid && S.DescOf(s.conn.table[0]) == d
      && s.conn.table[0].write && s.conn.store == store + [S.Custom(d.name, d.ty, d.nelements)]
      && var v := View(s.conn.sim, d.name, d.ty);
         |v| == d.nelements && forall k :: 0 <= k < |v| ==> v[k] == if d.ty == XPTYPE_BYTE_ARR then 0 else MissCode(d.ty)
  {
    Registration(d, sim, store);
    var sim' := sim.(refs := sim.refs[d.name := RefInfo(d.ty, true)],
                     vals := sim.vals[(d.name, d.ty) := Fill(d.ty, d.nelements)]);
    AcceptanceIsHeard(d, me, sim, store, store + [S.Custom(d.name, d.ty, d.nelements)], sim', true);
  }

  /** Whoever subscribes to it later has to ask for the same type and size, and is told so otherwise. */
  lemma SharedIsAgreed(conn: S.Conn, i: nat, d: Desc, k: nat)
    requires L.Checked(d) && S.IsCustom(d.name) && S.At(conn.table, i).name != d.name
    requires k < |conn.store| && conn.store[k].name == d.name
    requires forall j :: 0 <= j < k ==> conn.store[j].name != d.name
    ensures var c := S.LinkRequest(conn, i, d);
      && c.store == conn.store && c.sim == conn.sim && i < |c.table|
      && if conn.store[k].ty == d.ty && conn.store[k].nelements == d.nelements then
           c.table[i] == S.Settle(S.FreshSlot(d), S.Check(conn.sim, S.FreshSlot(d)))
         else c.table[i] == S.FreshSlot(d).(status := Linking, name := S.CustomDiffers(d.nelements, d.ty))
  {
    S.LinkRequestAllocatesFirst(conn, i, d);
    FirstEntry(conn.store, d.name, k, 0);
  }

  lemma {:induction false} FirstEntry(store: seq<S.Custom>, name: Name, k: nat, i: nat)
    requires i <= k < |store| && store[k].name == name && forall j :: i <= j < k ==> store[j].name != name
    ensures S.FindCustom(store, name, i) == k
  {
  }

  lemma {:induction false} NoEntry(store: seq<S.Custom>, name: Name, i: nat)
    requires i <= |store| && forall j :: i <= j < |store| ==> store[j].name != name
    ensures S.FindCustom(store, name, i) == |store|
    decreases |store| - i
  {
    if i < |store| { NoEntry(store, name, i + 1); }
  }

  /** With all its 150 entries taken the plugin makes no further one, and does not answer. */
  lemma NoMoreShared(conn: S.Conn, i: nat, d: Desc)
    requires L.Checked(d) && S.IsCustom(d.name) && S.At(conn.table, i).name != d.name
    requires |conn.store| >= 150 && forall j :: 0 <= j < |conn.store| ==> conn.store[j].name != d.name
    ensures var c := S.LinkRequest(conn, i, d);
      c.store == conn.store && c.sim == conn.sim && i < |c.table| && c.table[i] == S.FreshSlot(d)
  {
    S.LinkRequestAllocatesFirst(conn, i, d);
    NoEntry(conn.store, d.name, 0);
  }

  // ---------- asking again ----------

  /** A request for a slot that already carries this name and index is checked again if it is the same request, and
      otherwise ignored. */
  lemma AskingAgain(conn: S.Conn, i: nat, d: Desc)
    requires L.Checked(d) && i < |conn.table| && Known(conn.table[i].ty)
    requires conn.table[i].name == d.name && conn.table[i].index == d.index
    ensures S.LinkRequest(conn, i, d) ==
      if S.DescOf(conn.table[i]) == d then
        var (x, store, sim) := S.Subscribe(conn.store, conn.sim, conn.table[i], d);
        conn.(table := conn.table[i := x], store := store, sim := sim)
      else conn
  {
    HasTypeIffInSet([conn.table[i].ty], d.ty);
    assert SumOf([conn.table[i].ty]) == conn.table[i].ty;
  }
}
