/** What the flight loop guarantees across clients: turns do not disturb each other, a quiet callback
brings every client up to the simulator's values, and shared datarefs keep their place and shape. */
module FanOut {
  import opened Wire
  import opened Dataref
  import opened Simulator
  import opened XpServer
  import S = ServerTable

  // ---------- one client at a time ----------

  lemma OthersStay(w: World, j: nat, a: Arrival, failed: bool, i: nat)
    requires j < |w.socks| == |w.tables| && i < |w.socks| && i != j
    ensures TurnOf(w, j, a, failed).tables[i] == w.tables[i] && TurnOf(w, j, a, failed).socks[i] == w.socks[i]
  {
  }

  lemma {:induction false} LaterTurns(w: World, arrivals: seq<Arrival>, failed: seq<bool>, j: nat, k: nat)
    requires |w.socks| == |w.tables| == |arrivals| == |failed| && j < k <= |arrivals|
    ensures TurnsUpTo(w, arrivals, failed, k).tables[j] == TurnsUpTo(w, arrivals, failed, j + 1).tables[j]
    ensures TurnsUpTo(w, arrivals, failed, k).socks[j] == TurnsUpTo(w, arrivals, failed, j + 1).socks[j]
  {
    if k > j + 1 {
      LaterTurns(w, arrivals, failed, j, k - 1);
      OthersStay(TurnsUpTo(w, arrivals, failed, k - 1), k - 1, arrivals[k - 1], failed[k - 1], j);
    }
  }

  /** A client's slot and table change in its own turn and in no other. */
  lemma OwnTurnOnly(w: World, arrivals: seq<Arrival>, failed: seq<bool>, j: nat, k: nat)
    requires |w.socks| == |w.tables| == |arrivals| == |failed| && j < k <= |arrivals|
    ensures var mine := TurnOf(TurnsUpTo(w, arrivals, failed, j), j, arrivals[j], failed[j]);
      && TurnsUpTo(w, arrivals, failed, k).tables[j] == mine.tables[j]
      && TurnsUpTo(w, arrivals, failed, k).socks[j] == mine.socks[j]
    ensures TurnsUpTo(w, arrivals, failed, j).tables[j] == w.tables[j]
  {
    LaterTurns(w, arrivals, failed, j, k);
  }

  // ---------- coming and going ----------

  /** A client that is lost, or does not take what it is sent, is forgotten with all its subscriptions; any other
      stays connected. */
  lemma LostIsForgotten(w: World, j: nat, a: Arrival, failed: bool)
    requires j < |w.socks| == |w.tables| && w.socks[j] >= 0
    ensures var r := TurnOf(w, j, a, failed);
      if a.Lost? || failed then r.socks[j] < 0 && r.tables[j] == []
      else a.Nothing? ==> r.socks[j] == w.socks[j] && |r.tables[j]| == |w.tables[j]|
  {
  }

  /** Without a client nothing happens in a turn. */
  lemma NobodyIsServed(w: World, j: nat, a: Arrival, failed: bool)
    requires j < |w.socks| == |w.tables| && w.socks[j] < 0
    ensures TurnOf(w, j, a, failed) == w && FramesOf(w, j, a) == []
  {
  }

  // ---------- a quiet callback ----------

  predicate AllQuiet(arrivals: seq<Arrival>) {
    forall j :: 0 <= j < |arrivals| ==> arrivals[j].Nothing?
  }

  lemma {:induction false} QuietKeepsSim(w: World, arrivals: seq<Arrival>, failed: seq<bool>, k: nat)
    requires |w.socks| == |w.tables| == |arrivals| == |failed| && k <= |arrivals| && AllQuiet(arrivals)
    ensures TurnsUpTo(w, arrivals, failed, k).sim == w.sim && TurnsUpTo(w, arrivals, failed, k).store == w.store
  {
    if k > 0 {
      QuietKeepsSim(w, arrivals, failed, k - 1);
    }
  }

  /** A value that is sent whenever it differs. */
  predicate Watched(s: S.Slot) {
    s.name != [] && s.status == Valid && S.Live(s) && Integral(s.ty) && !Command(s.ty)
  }

  /** The frame for slot i does not fit behind those of the slots before it. */
  predicate TooFull(sim: Sim, t: seq<S.Slot>, i: nat)
    requires i < |t|
  {
    SizeAll(S.SendUpTo(sim, t, i).0) + 2 * 4 + |t[i].data| * Width(t[i].ty) > TCPBUFSIZE
  }

  lemma WatchedTurn(sim: Sim, s: S.Slot, i: nat, left: nat)
    requires Watched(s)
    ensures var s' := S.SendSlot(sim, s, i, left).1;
      s' == if left + 2 * 4 + |s.data| * Width(s.ty) > TCPBUFSIZE then s else s.(data := S.ReadSlot(sim, s))
  {
    var vals := S.ReadSlot(sim, s);
    if !Changed(s.ty, s.precision, s.data, vals) {
      assert forall j :: 0 <= j < |vals| ==> !ElemChanged(s.ty, s.precision, s.data[j], vals[j]);
      assert s.data == vals;
    }
  }

  lemma OtherTurn(sim: Sim, t: seq<S.Slot>, i: nat, k: nat)
    requires i < k < |t|
    ensures S.SendUpTo(sim, t, k + 1).1[i] == S.SendUpTo(sim, t, k).1[i]
  {
  }

  lemma OwnTurn(sim: Sim, t: seq<S.Slot>, i: nat)
    requires i < |t|
    ensures S.SendUpTo(sim, t, i + 1).1[i] == S.SendSlot(sim, t[i], i, SizeAll(S.SendUpTo(sim, t, i).0)).1
  {
  }

  lemma {:induction false} Constant<T>(f: nat -> T, lo: nat, hi: nat)
    requires lo <= hi && forall k: nat :: lo <= k < hi ==> f(k + 1) == f(k)
    ensures f(hi) == f(lo)
  {
    if lo < hi {
      Constant(f, lo, hi - 1);
    }
  }

  /** Slot i is as its own turn left it. */
  lemma SentSlot(sim: Sim, t: seq<S.Slot>, i: nat)
    requires i < |t|
    ensures S.SendUpTo(sim, t, |t|).1[i] == S.SendUpTo(sim, t, i + 1).1[i]
  {
    var at := (k: nat) => if k <= |t| then S.SendUpTo(sim, t, k).1[i] else t[i];
    forall k: nat | i + 1 <= k < |t|
      ensures at(k + 1) == at(k)
    {
      OtherTurn(sim, t, i, k);
    }
    Constant(at, i + 1, |t|);
  }

  /** After a callback that received nothing, every watched value of every client whose frame fitted is
      the simulator's. */
  lemma QuietCallbackSyncs(w: World, arrivals: seq<Arrival>, failed: seq<bool>, j: nat, i: nat)
    requires |w.socks| == |w.tables| == |arrivals| == |failed| && AllQuiet(arrivals)
    requires j < |w.socks| && w.socks[j] >= 0 && !failed[j]
    requires i < |w.tables[j]| && Watched(w.tables[j][i])
    ensures var t, r := w.tables[j], TurnsUpTo(w, arrivals, failed, |arrivals|);
      && r.sim == w.sim && |r.tables[j]| == |t|
      && r.tables[j][i] == if TooFull(w.sim, t, i) then t[i] else t[i].(data := S.ReadSlot(w.sim, t[i]))
  {
    var t := w.tables[j];
    OwnTurnOnly(w, arrivals, failed, j, |arrivals|);
    QuietKeepsSim(w, arrivals, failed, j);
    QuietKeepsSim(w, arrivals, failed, |arrivals|);
    SentSlot(w.sim, t, i);
    OwnTurn(w.sim, t, i);
    WatchedTurn(w.sim, t[i], i, SizeAll(S.SendUpTo(w.sim, t, i).0));
  }

  /** Two clients watching the same elements of one dataref hold the same values. */
  lemma QuietCallbackFansOut(w: World, arrivals: seq<Arrival>, failed: seq<bool>, j: nat, i: nat, j': nat, i': nat)
    requires |w.socks| == |w.tables| == |arrivals| == |failed| && AllQuiet(arrivals)
    requires j < |w.socks| && w.socks[j] >= 0 && !failed[j] && j' < |w.socks| && w.socks[j'] >= 0 && !failed[j']
    requires i < |w.tables[j]| && Watched(w.tables[j][i]) && !TooFull(w.sim, w.tables[j], i)
    requires i' < |w.tables[j']| && Watched(w.tables[j'][i']) && !TooFull(w.sim, w.tables[j'], i')
    requires S.DescOf(w.tables[j][i]) == S.DescOf(w.tables[j'][i'])
    ensures var r := TurnsUpTo(w, arrivals, failed, |arrivals|);
      && |r.tables[j]| == |w.tables[j]| && |r.tables[j']| == |w.tables[j']|
      && r.tables[j][i].data == r.tables[j'][i'].data
  {
    QuietCallbackSyncs(w, arrivals, failed, j, i);
    QuietCallbackSyncs(w, arrivals, failed, j', i');
  }

  // ---------- shared datarefs ----------

  /** Every custom dataref is registered once, with as many elements as its store entry says. */
  predicate Registered(store: seq<S.Custom>, sim: Sim) {
    && (forall k :: 0 <= k < |store| ==>
          var key := (store[k].name, store[k].ty); key in sim.vals && |sim.vals[key]| == store[k].nelements)
    && (forall k, l :: 0 <= k < l < |store| ==> store[k].name != store[l].name)
  }

  /** Store entries stay where they are, as they are. */
  predicate Kept(c: S.Conn, d: S.Conn) {
    c.store <= d.store && Registered(d.store, d.sim)
  }

  lemma AllocateKeeps(c: S.Conn, ty: int, raw: int, name: Name)
    requires Registered(c.store, c.sim)
    ensures var (code, store, sim) := S.AllocateCustom(c.store, c.sim, ty, raw, name);
      c.store <= store && Registered(store, sim)
  {
  }

  lemma SetSimKeeps(store: seq<S.Custom>, sim: Sim, s: S.Slot, vals: seq<nat>)
    requires Registered(store, sim) && -1 <= s.index && (s.index == -1 || |vals| == 1)
    ensures Registered(store, S.SetSim(sim, s, vals))
  {
  }

  lemma LinkKeeps(c: S.Conn, i: nat, d: Desc)
    requires Registered(c.store, c.sim)
    ensures Kept(c, S.LinkRequest(c, i, d))
  {
    S.LinkRequestAllocatesFirst(c, i, d);
    AllocateKeeps(c, d.ty, d.nelements, d.name);
  }

  lemma ApplyKeeps(c: S.Conn, f: Frame)
    requires Registered(c.store, c.sim)
    ensures Kept(c, S.Apply(c, f))
  {
    if f.Link? {
      LinkKeeps(c, f.offset, f.desc);
    } else if f.Data? && f.offset < |c.table| {
      var s := c.table[f.offset];
      if S.Live(s) && |f.vals| == |s.data| {
        SetSimKeeps(c.store, c.sim, s, f.vals);
      }
    }
  }

  lemma {:induction false} DecodeKeeps(c: S.Conn, s: seq<byte>)
    requires Registered(c.store, c.sim)
    ensures Kept(c, S.Decode(c, s))
    decreases |s|
  {
    if s != [] {
      var (f, rest) := NextFrame(ServerSide, S.Shapes(c.table), s);
      ApplyKeeps(c, f);
      DecodeKeeps(S.Apply(c, f), rest);
    }
  }

  lemma TurnKeeps(w: World, j: nat, a: Arrival, failed: bool)
    requires j < |w.socks| == |w.tables| && Registered(w.store, w.sim)
    ensures var r := TurnOf(w, j, a, failed); w.store <= r.store && Registered(r.store, r.sim)
  {
    if a.Bytes? {
      DecodeKeeps(S.Conn(w.tables[j], w.store, w.sim, true), a.data);
    }
  }

  /** r keeps what w has registered. */
  predicate KeptBy(w: World, r: World) {
    w.store <= r.store && Registered(r.store, r.sim)
  }

  lemma OneTurnMore(w: World, m: World, j: nat, a: Arrival, failed: bool)
    requires j < |m.socks| == |m.tables| && KeptBy(w, m)
    ensures KeptBy(w, TurnOf(m, j, a, failed))
  {
    TurnKeeps(m, j, a, failed);
  }

  lemma NextTurnKeeps(w: World, arrivals: seq<Arrival>, failed: seq<bool>, n: nat)
    requires |w.socks| == |w.tables| == |arrivals| == |failed| && n < |arrivals| && KeptBy(w, TurnsUpTo(w, arrivals, failed, n))
    ensures KeptBy(w, TurnsUpTo(w, arrivals, failed, n + 1))
  {
    OneTurnMore(w, TurnsUpTo(w, arrivals, failed, n), n, arrivals[n], failed[n]);
  }

  lemma {:induction false} AllKept(w: World, worlds: nat -> World, k: nat)
    requires KeptBy(w, worlds(0)) && forall n: nat :: n < k && KeptBy(w, worlds(n)) ==> KeptBy(w, worlds(n + 1))
    ensures KeptBy(w, worlds(k))
  {
    if k > 0 { AllKept(w, worlds, k - 1); }
  }

  /** Whatever the clients send in one callback, a shared dataref keeps its store slot and its shape from its
      first subscription on. */
  lemma SharedStaysPut(w: World, arrivals: seq<Arrival>, failed: seq<bool>, k: nat)
    requires |w.socks| == |w.tables| == |arrivals| == |failed| && k <= |arrivals| && Registered(w.store, w.sim)
    ensures KeptBy(w, TurnsUpTo(w, arrivals, failed, k))
  {
    var worlds := (n: nat) => if n <= |arrivals| then TurnsUpTo(w, arrivals, failed, n) else w;
    forall n: nat | n < k && KeptBy(w, worlds(n))
      ensures KeptBy(w, worlds(n + 1))
    {
      NextTurnKeeps(w, arrivals, failed, n);
    }
    AllKept(w, worlds, k);
  }

  /** What one callback gets: what the simulator and other plugins have made of the datarefs since the last one,
      a new connection perhaps, and what each socket gives and refuses. */
  datatype Tick = Tick(sim: Sim, sock: Option<nat>, arrivals: seq<Arrival>, failed: seq<bool>)

  predicate WfTick(w: World, tick: Tick) {
    |w.socks| == |w.tables| == |tick.arrivals| == |tick.failed|
  }

  /** The simulator changes anything, but no size of a shared dataref. */
  predicate KeepsSizes(w: World, sim: Sim) {
    forall k :: 0 <= k < |w.store| ==>
      var key := (w.store[k].name, w.store[k].ty);
      key in w.sim.vals ==> key in sim.vals && |sim.vals[key]| == |w.sim.vals[key]|
  }

  function AfterTick(w: World, tick: Tick): (r: World)
    requires WfTick(w, tick)
    ensures |r.socks| == |r.tables| == |w.socks|
  {
    TurnsUpTo(Accepted(w.(sim := tick.sim), tick.sock), tick.arrivals, tick.failed, |tick.arrivals|)
  }

  function AfterTicks(w: World, ticks: seq<Tick>): (r: World)
    requires |w.socks| == |w.tables| && forall k :: 0 <= k < |ticks| ==> WfTick(w, ticks[k])
    ensures |r.socks| == |r.tables| == |w.socks|
  {
    if ticks == [] then w
    else
      var last := ticks[|ticks| - 1];
      assert WfTick(w, last);
      AfterTick(AfterTicks(w, ticks[..|ticks| - 1]), last)
  }

  lemma TickKeeps(w: World, m: World, tick: Tick)
    requires WfTick(m, tick) && KeptBy(w, m) && KeepsSizes(m, tick.sim)
    ensures KeptBy(w, AfterTick(m, tick))
  {
    SharedStaysPut(Accepted(m.(sim := tick.sim), tick.sock), tick.arrivals, tick.failed, |tick.arrivals|);
  }

  /** Before each callback the simulator leaves the sizes of the shared datarefs alone. */
  predicate SizesKept(w: World, ticks: seq<Tick>)
    requires |w.socks| == |w.tables| && forall k :: 0 <= k < |ticks| ==> WfTick(w, ticks[k])
  {
    ticks != [] ==>
      && KeepsSizes(AfterTicks(w, ticks[..|ticks| - 1]), ticks[|ticks| - 1].sim)
      && SizesKept(w, ticks[..|ticks| - 1])
  }

  /** Over any number of callbacks, with the clients they accept and lose, and with whatever the simulator and
      other plugins write in between, every shared dataref keeps its place and its shape. */
  lemma {:induction false} SharedStaysForever(w: World, ticks: seq<Tick>)
    requires |w.socks| == |w.tables| && (forall k :: 0 <= k < |ticks| ==> WfTick(w, ticks[k])) && Registered(w.store, w.sim)
    requires SizesKept(w, ticks)
    ensures KeptBy(w, AfterTicks(w, ticks))
  {
    if ticks != [] {
      SharedStaysForever(w, ticks[..|ticks| - 1]);
      TickKeeps(w, AfterTicks(w, ticks[..|ticks| - 1]), ticks[|ticks| - 1]);
    }
  }
}
