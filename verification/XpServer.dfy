/** The plugin's flight loop (xpserver.c): up to twenty clients, each served by the same globals in
turn, all reading and writing one simulator. */
module XpServer {
  import opened Wire
  import opened Dataref
  import opened Buffers
  import opened Simulator
  import opened XpConnection
  import S = ServerTable

  const MAXCONNECT := 20

  /** What the socket of one client gives in one callback. */
  datatype Arrival = Nothing | Bytes(data: seq<byte>) | Lost

  /** The arrays of the server with what all clients share. */
  datatype World = World(socks: seq<int>, tables: seq<seq<S.Slot>>, store: seq<S.Custom>, sim: Sim)

  function Occupied(socks: seq<int>): nat {
    if socks == [] then 0 else Occupied(socks[..|socks| - 1]) + if socks[|socks| - 1] >= 0 then 1 else 0
  }

  lemma {:induction false} OccupiedUpdate(socks: seq<int>, i: nat, v: int)
    requires i < |socks|
    ensures Occupied(socks[i := v]) == Occupied(socks) - (if socks[i] >= 0 then 1 else 0) + (if v >= 0 then 1 else 0)
  {
    var n := |socks| - 1;
    if i == n {
      assert socks[i := v][..n] == socks[..n];
    } else {
      OccupiedUpdate(socks[..n], i, v);
      assert socks[i := v][..n] == socks[..n][i := v];
    }
  }

  /** With fewer connections than slots, one slot is free. */
  lemma {:induction false} SomeSlotIsFree(socks: seq<int>) returns (i: nat)
    requires Occupied(socks) < |socks|
    ensures i < |socks| && socks[i] < 0
  {
    var n := |socks| - 1;
    if socks[n] < 0 {
      i := n;
    } else {
      i := SomeSlotIsFree(socks[..n]);
    }
  }

  // ---------- what one turn does ----------

  function Received(c: S.Conn, a: Arrival): S.Conn {
    match a
    case Nothing => c
    case Bytes(data) => S.Decode(c, data)
    case Lost => c.(connected := false)
  }

  /** The connection after receiving and sending, and the frames sent. */
  function Exchange(c: S.Conn, a: Arrival): (S.Conn, seq<Frame>) {
    var d := Received(c, a);
    if d.connected then
      var (fs, t) := S.SendUpTo(d.sim, d.table, |d.table|);
      (d.(table := t), fs)
    else (d, [])
  }

  /** The frames client slot j is sent in its turn. */
  function FramesOf(w: World, j: nat, a: Arrival): seq<Frame>
    requires j < |w.socks| == |w.tables|
  {
    if w.socks[j] < 0 then [] else Exchange(S.Conn(w.tables[j], w.store, w.sim, true), a).1
  }

  /** The turn of client slot j; failed says that its socket refused what was sent. */
  function TurnOf(w: World, j: nat, a: Arrival, failed: bool): World
    requires j < |w.socks| == |w.tables|
  {
    if w.socks[j] < 0 then w
    else Served(w, j, failed, Exchange(S.Conn(w.tables[j], w.store, w.sim, true), a).0)
  }

  /** The exchange of c gives d and fs. The quantifier keeps it folded where this is only passed on. */
  predicate Exchanged(c: S.Conn, a: Arrival, d: S.Conn, fs: seq<Frame>) {
    forall b: S.Conn :: b == c ==> Exchange(b, a) == (d, fs)
  }

  /** The world when the exchange with client slot j has ended in d. */
  function Served(w: World, j: nat, failed: bool, d: S.Conn): World
    requires j < |w.socks| == |w.tables|
  {
    if d.connected && !failed then World(w.socks, w.tables[j := d.table], d.store, d.sim)
    else World(w.socks[j := -1], w.tables[j := []], d.store, d.sim)
  }

  lemma TurnServes(w: World, j: nat, a: Arrival, failed: bool, d: S.Conn, fs: seq<Frame>)
    requires j < |w.socks| == |w.tables| && w.socks[j] >= 0
    requires Exchanged(S.Conn(w.tables[j], w.store, w.sim, true), a, d, fs)
    ensures TurnOf(w, j, a, failed) == Served(w, j, failed, d) && FramesOf(w, j, a) == fs
  {
    assert Exchange(S.Conn(w.tables[j], w.store, w.sim, true), a) == (d, fs);
  }

  function TurnsUpTo(w: World, arrivals: seq<Arrival>, failed: seq<bool>, k: nat): (r: World)
    requires |w.socks| == |w.tables| == |arrivals| == |failed| && k <= |arrivals|
    ensures |r.socks| == |r.tables| == |w.socks|
    ensures forall j :: k <= j < |w.socks| ==> r.socks[j] == w.socks[j] && r.tables[j] == w.tables[j]
  {
    if k == 0 then w
    else TurnOf(TurnsUpTo(w, arrivals, failed, k - 1), k - 1, arrivals[k - 1], failed[k - 1])
  }

  /** A new connection goes to the first free slot. */
  function FirstFree(socks: seq<int>, i: nat): (r: nat)
    requires i <= |socks|
    ensures i <= r <= |socks| && (r < |socks| ==> socks[r] < 0)
    ensures forall k :: i <= k < r ==> socks[k] >= 0
    decreases |socks| - i
  {
    if i == |socks| || socks[i] < 0 then i else FirstFree(socks, i + 1)
  }

  function Accepted(w: World, sock: Option<nat>): World {
    var i := FirstFree(w.socks, 0);
    if sock.Some? && i < |w.socks| then w.(socks := w.socks[i := sock.value]) else w
  }

  /** Every table is sound, and free slots have none. */
  predicate WfSlots(socks: seq<int>, tables: seq<seq<S.Slot>>) {
    && |socks| == |tables|
    && forall j :: 0 <= j < |socks| ==>
         SoundTable(tables[j]) && |tables[j]| <= MAX_OFFSETS && (socks[j] < 0 ==> tables[j] == [])
  }

  lemma ServedKeepsSlots(w: World, j: nat, failed: bool, d: S.Conn)
    requires j < |w.socks| == |w.tables| && WfSlots(w.socks, w.tables) && w.socks[j] >= 0
    requires SoundTable(d.table) && |d.table| <= MAX_OFFSETS
    ensures WfSlots(Served(w, j, failed, d).socks, Served(w, j, failed, d).tables)
  {
  }

  // ---------- the callback ----------

  class Server {
    const g: Connection
    const socks: array<int>
    const tables: array<seq<S.Slot>>
    var nConnect: nat

    ghost predicate Valid()
      reads this, g, socks, tables
    {
      && socks.Length == tables.Length == MAXCONNECT
      && WfSim(g.sim)
      && nConnect == Occupied(socks[..])
      && WfSlots(socks[..], tables[..])
    }

    ghost function TheWorld(): World
      reads this, g, socks, tables
    {
      World(socks[..], tables[..], g.store, g.sim)
    }

    constructor (sim: Sim)
      requires WfSim(sim)
      ensures Valid() && nConnect == 0 && fresh(g) && fresh(socks) && fresh(tables)
      ensures TheWorld() == World(seq(MAXCONNECT, _ => -1), seq(MAXCONNECT, _ => []), [], sim)
    {
      g := new Connection(sim, []);
      socks := new int[MAXCONNECT](_ => -1);
      tables := new seq<S.Slot>[MAXCONNECT](_ => []);
      nConnect := 0;
      new;
      assert socks[..] == seq(MAXCONNECT, _ => -1) && tables[..] == seq(MAXCONNECT, _ => []);
      NoneOccupied(socks[..]);
    }

    /** The search for a free slot never runs off the end. */
    method Accept(sock: nat)
      requires Valid()
      modifies this`nConnect, socks
      ensures Valid()
      ensures if old(nConnect) < MAXCONNECT then
          TheWorld() == Accepted(old(TheWorld()), Some(sock)) && nConnect == old(nConnect) + 1
        else TheWorld() == old(TheWorld())
    {
      if nConnect < MAXCONNECT {
        ghost var free := SomeSlotIsFree(socks[..]);
        var i := 0;
        while i < MAXCONNECT && socks[i] >= 0
          invariant i <= free && FirstFree(socks[..], 0) == FirstFree(socks[..], i)
          decreases MAXCONNECT - i
        {
          i := i + 1;
        }
        OccupiedUpdate(socks[..], i, sock);
        ghost var before := socks[..];
        socks[i] := sock;
        assert socks[..] == before[i := sock as int];
        nConnect := nConnect + 1;
      }
    }

    /** receive_client with its buffer filled by the socket. */
    method Receive(a: Arrival)
      requires g.Valid() && (a.Bytes? ==> |a.data| <= TCPBUFSIZE)
      modifies g
      ensures g.Valid() && g.Conn() == Received(old(g.Conn()), a)
    {
      match a
      case Nothing =>
      case Lost => g.connected := false;
      case Bytes(data) =>
        var buf := new byte[TCPBUFSIZE];
        var n := Put(buf, 0, data);
        assert buf[..n] == data;
        g.ReceiveClient(buf, n);
    }

    /** The exchange with the client whose data the globals hold. */
    method ExchangeData(a: Arrival) returns (sent: seq<byte>)
      requires g.Valid() && (a.Bytes? ==> |a.data| <= TCPBUFSIZE)
      modifies g
      ensures g.Valid()
      ensures var (d, fs) := Exchange(old(g.Conn()), a); g.Conn() == d && WfFrames(fs) && sent == Buffered(fs)
    {
      Receive(a);
      var buf := new byte[TCPBUFSIZE];
      var n, overrun := g.SendClient(buf);
      sent := buf[..n];
    }

    /** The client of slot j is gone. */
    method Drop(j: nat)
      requires socks.Length == MAXCONNECT && j < MAXCONNECT && socks[j] >= 0 && nConnect == Occupied(socks[..])
      modifies this`nConnect, g`table, socks
      ensures nConnect == Occupied(socks[..]) && socks[..] == old(socks[..])[j := -1] && g.table == []
    {
      OccupiedUpdate(socks[..], j, -1);
      OccupiedPositive(socks[..], j);
      socks[j] := -1;
      assert socks[..] == old(socks[..])[j := -1];
      nConnect := nConnect - 1;
      g.table := [];
    }

    /** Behind the exchange: a client that is gone is dropped, and the globals go back to its slot. */
    method WriteBack(j: nat, failed: bool)
      requires socks.Length == tables.Length == MAXCONNECT && j < MAXCONNECT && socks[j] >= 0
      requires nConnect == Occupied(socks[..])
      modifies this`nConnect, g`table, socks, tables
      ensures nConnect == Occupied(socks[..])
      ensures var stays := g.connected && !failed;
        && socks[..] == (if stays then old(socks[..]) else old(socks[..])[j := -1])
        && g.table == (if stays then old(g.table) else [])
        && tables[..] == old(tables[..])[j := g.table]
    {
      if !g.connected || failed {
        Drop(j);
      }
      tables[j] := g.table;
      assert tables[..] == old(tables[..])[j := g.table];
    }

    /** The turn of an occupied slot: d and fs are what the exchange gives. */
    method Serve(j: nat, a: Arrival, failed: bool) returns (sent: seq<byte>, ghost d: S.Conn, ghost fs: seq<Frame>)
      requires Valid() && j < MAXCONNECT && socks[j] >= 0 && (a.Bytes? ==> |a.data| <= TCPBUFSIZE)
      modifies this`nConnect, g, socks, tables
      ensures Valid() && Exchanged(S.Conn(old(tables[j]), old(g.store), old(g.sim), true), a, d, fs)
      ensures TheWorld() == Served(old(TheWorld()), j, failed, d)
      ensures WfFrames(fs) && sent == Buffered(fs)
    {
      ghost var w := TheWorld();
      assert SoundTable(w.tables[j]) && |w.tables[j]| <= MAX_OFFSETS;
      g.table, g.connected := tables[j], true;
      ghost var c := g.Conn();
      sent := ExchangeData(a);
      d, fs := g.Conn(), Exchange(c, a).1;
      ServedKeepsSlots(w, j, failed, d);
      WriteBack(j, failed);
      assert TheWorld() == Served(w, j, failed, d);
    }

    /** The turn of client slot j. No other slot of the arrays changes. */
    method Turn(j: nat, a: Arrival, failed: bool) returns (sent: seq<byte>)
      requires Valid() && j < MAXCONNECT && (a.Bytes? ==> |a.data| <= TCPBUFSIZE)
      modifies this`nConnect, g, socks, tables
      ensures Valid() && TheWorld() == TurnOf(old(TheWorld()), j, a, failed)
      ensures var fs := FramesOf(old(TheWorld()), j, a); WfFrames(fs) && sent == Buffered(fs)
    {
      sent := [];
      if socks[j] >= 0 {
        ghost var w := TheWorld();
        ghost var d, fs;
        sent, d, fs := Serve(j, a, failed);
        TurnServes(w, j, a, failed, d, fs);
      }
    }

    /** xpserverLoopCallback. */
    method Callback(sock: nat, arriving: bool, arrivals: seq<Arrival>, failed: seq<bool>)
      requires Valid() && |arrivals| == |failed| == MAXCONNECT
      requires forall j :: 0 <= j < MAXCONNECT && arrivals[j].Bytes? ==> |arrivals[j].data| <= TCPBUFSIZE
      modifies this`nConnect, g, socks, tables
      ensures Valid()
      ensures var start := Accepted(old(TheWorld()), if arriving && old(nConnect) < MAXCONNECT then Some(sock) else None);
        TheWorld() == TurnsUpTo(start, arrivals, failed, MAXCONNECT)
    {
      if arriving {
        Accept(sock);
      }
      ghost var start := TheWorld();
      var j := 0;
      while j < MAXCONNECT
        invariant j <= MAXCONNECT && Valid()
        invariant TheWorld() == TurnsUpTo(start, arrivals, failed, j)
      {
        var sent := Turn(j, arrivals[j], failed[j]);
        j := j + 1;
      }
    }
  }

  lemma {:induction false} OccupiedPositive(socks: seq<int>, j: nat)
    requires j < |socks| && socks[j] >= 0
    ensures Occupied(socks) > 0
  {
    if j < |socks| - 1 {
      OccupiedPositive(socks[..|socks| - 1], j);
    }
  }

  lemma {:induction false} NoneOccupied(socks: seq<int>)
    requires forall j :: 0 <= j < |socks| ==> socks[j] < 0
    ensures Occupied(socks) == 0
  {
    if socks != [] {
      NoneOccupied(socks[..|socks| - 1]);
    }
  }
}
