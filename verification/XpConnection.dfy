/** The plugin's side of one connection as it runs: the globals of clientdata.c, customdata.c and
handleclient.c, and their send and receive loops over byte buffers. Every method is tied to the
functions of ServerTable, about which the protocol is proved. */
module XpConnection {
  import opened Wire
  import opened Dataref
  import opened Buffers
  import opened Simulator
  import S = ServerTable
  import F = Floats

  // ---------- what no byte stream can break ----------

  predicate Sound(s: S.Slot) {
    && WfName(s.name)
    && (Known(s.ty) ==>
          && s.nelements >= 1 && -1 <= s.index < s.nelements
          && (Scalar(s.ty) ==> s.index == 0 && s.nelements == 1))
    && (s.data == [] || (Known(s.ty) && WfVals(s.ty, Count(s.index, s.nelements), s.data)))
  }

  predicate SoundTable(t: seq<S.Slot>) {
    forall i :: 0 <= i < |t| ==> Sound(t[i])
  }

  lemma AllocateKeepsSound(t: seq<S.Slot>, i: nat, raw: Desc)
    requires SoundTable(t) && WfName(raw.name)
    ensures SoundTable(S.Allocate(t, i, raw).1)
  {
    if Normalise(raw).Some? {
      NormaliseIsIdempotent(raw);
    }
  }

  lemma SubscribeKeepsSound(store: seq<S.Custom>, sim: Sim, s: S.Slot, d: Desc)
    requires Sound(s) && s.name == d.name
    ensures Sound(S.Subscribe(store, sim, s, d).0)
  {
    S.SubscribeOutcome(store, sim, s, d);
  }

  /** The simulator after one element of slot s is set. */
  function SetOne(sim: Sim, s: S.Slot, j: nat, v: nat): Sim
    requires -1 <= s.index
  {
    var key, at := (s.name, s.ty), if s.index == -1 then j else s.index;
    if key in sim.vals && at < |sim.vals[key]| then
      var view: seq<nat> := sim.vals[key][at := v];
      sim.(vals := sim.vals[key := view])
    else sim
  }

  /** sim is before with the first j elements written. */
  predicate SetUpTo(before: Sim, s: S.Slot, vals: seq<nat>, j: nat, sim: Sim)
    requires -1 <= s.index && (s.index == -1 || |vals| == 1)
  {
    var key := (s.name, s.ty);
    if key in before.vals then
      && key in sim.vals && |sim.vals[key]| == |before.vals[key]|
      && sim == before.(vals := before.vals[key := sim.vals[key]])
      && forall k :: 0 <= k < |before.vals[key]| ==>
           sim.vals[key][k] == if 0 <= Source(s, k) < j && Source(s, k) < |vals| && vals[Source(s, k)] != MissCode(s.ty)
                               then vals[Source(s, k)] else before.vals[key][k]
    else sim == before
  }

  /** The received element that goes to the simulator's element k, -1 if none does. */
  function Source(s: S.Slot, k: nat): int {
    if s.index == -1 then k else if s.index == k then 0 else -1
  }

  /** The elements read for slot s when the simulator has the elements v. */
  predicate Fetched(v: seq<nat>, s: S.Slot, vals: seq<nat>) {
    if s.index == -1 then
      && |vals| == s.nelements
      && forall j :: 0 <= j < |vals| ==>
           vals[j] == if j < |v| then v[j] else if s.ty == XPTYPE_BYTE_ARR then 0 else MissCode(s.ty)
    else |vals| == 1 && vals[0] == if 0 <= s.index < |v| then v[s.index] else 0
  }

  /** What the elements received for slot s have done to the simulator: to the array of its name and type,
      position by position, and to nothing else. */
  predicate Delivered(before: Sim, s: S.Slot, vals: seq<nat>, after: Sim) {
    && after == before.(vals := after.vals) && after.vals.Keys == before.vals.Keys
    && (forall key :: key in before.vals && key != (s.name, s.ty) ==> after.vals[key] == before.vals[key])
    && var key := (s.name, s.ty);
       key in before.vals ==>
         && |after.vals[key]| == |before.vals[key]|
         && forall k :: 0 <= k < |before.vals[key]| ==>
              after.vals[key][k] ==
                if s.index == -1 && k < |vals| && vals[k] != MissCode(s.ty) then vals[k]
                else if s.index == k && |vals| == 1 && vals[0] != MissCode(s.ty) then vals[0]
                else before.vals[key][k]
  }

  lemma SetAllDelivers(before: Sim, s: S.Slot, vals: seq<nat>, sim: Sim)
    requires -1 <= s.index && (s.index == -1 || |vals| == 1)
    requires SetUpTo(before, s, vals, |vals|, sim)
    ensures Delivered(before, s, vals, sim)
  {
  }

  lemma SetMore(before: Sim, s: S.Slot, vals: seq<nat>, j: nat, sim: Sim)
    requires -1 <= s.index && (s.index == -1 || |vals| == 1) && j < |vals|
    requires SetUpTo(before, s, vals, j, sim)
    ensures SetUpTo(before, s, vals, j + 1, if vals[j] != MissCode(s.ty) then SetOne(sim, s, j, vals[j]) else sim)
  {
  }

  /** data is the slot's with the first j elements stored. */
  predicate StoredUpTo(s: S.Slot, vals: seq<nat>, j: nat, data: seq<nat>) {
    && |data| == |s.data| == |vals|
    && forall k :: 0 <= k < |vals| ==> data[k] == if k < j && vals[k] != MissCode(s.ty) then vals[k] else s.data[k]
  }

  lemma StoredAll(s: S.Slot, vals: seq<nat>, data: seq<nat>)
    requires StoredUpTo(s, vals, |vals|, data)
    ensures data == Merge(s.ty, s.data, vals)
  {
  }

  lemma SetAll(before: Sim, s: S.Slot, vals: seq<nat>, sim: Sim)
    requires -1 <= s.index && (s.index == -1 || |vals| == 1)
    requires SetUpTo(before, s, vals, |vals|, sim)
    ensures sim == S.SetSim(before, s, vals)
  {
    var key := (s.name, s.ty);
    if key in before.vals {
      assert sim.vals[key] == WriteWindow(before.vals[key], s.ty, s.index, vals);
    }
  }

  /** Behind the first word w, s takes the connection from c to d and leaves tail. The quantifier keeps
      Dispatch and Apply folded where this is only passed on. */
  predicate Steps(c: S.Conn, w: int, s: seq<byte>, d: S.Conn, tail: seq<byte>) {
    forall v: int :: v == w ==>
      var (f, rest) := Dispatch(ServerSide, S.Shapes(c.table), v, s); d == S.Apply(c, f) && tail == rest
  }

  lemma DataIgnored(c: S.Conn, i: nat, s: seq<byte>)
    requires SoundTable(c.table) && i < MAX_OFFSETS && (i < |c.table| ==> !Known(c.table[i].ty))
    ensures Steps(c, MARK_DATA + i, s, c, s)
  {
    if i < |c.table| {
      assert S.StoreData(c, i, []) == c;
    }
  }

  lemma DataCutShort(c: S.Conn, i: nat, s: seq<byte>)
    requires SoundTable(c.table) && i < |c.table| && i < MAX_OFFSETS && Known(c.table[i].ty)
    requires |s| < Count(c.table[i].index, c.table[i].nelements) * Width(c.table[i].ty)
    ensures Steps(c, MARK_DATA + i, s, c, [])
  {
  }

  lemma DataStored(c: S.Conn, i: nat, s: seq<byte>, n: nat, w: nat, vals: seq<nat>)
    requires SoundTable(c.table) && i < |c.table| && i < MAX_OFFSETS && Known(c.table[i].ty)
    requires n == Count(c.table[i].index, c.table[i].nelements) && w == Width(c.table[i].ty)
    requires n * w <= |s| && vals == DecodeVals(s[..n * w], n, w)
    ensures WfVals(c.table[i].ty, n, vals)
    ensures Steps(c, MARK_DATA + i, s, S.StoreData(c, i, vals), s[n * w..])
  {
    DecodedFit(s[..n * w], n, w);
  }

  lemma LinkSteps(c: S.Conn, i: nat, s: seq<byte>)
    requires i < MAX_OFFSETS
    ensures |s| < 216 ==> Steps(c, MARK_LINK + i, s, c, [])
    ensures |s| >= 216 ==> Steps(c, MARK_LINK + i, s, S.LinkRequest(c, i, LinkDesc(s)), s[216..])
  {
  }

  /** The description in a link request. */
  function LinkDesc(s: seq<byte>): (d: Desc)
    requires |s| >= 216
    ensures WfName(d.name)
  {
    Desc(NameField(s[16..116]), ReadWord(s[0..4]), ReadWord(s[4..8]), ReadWord(s[8..12]), ReadWord(s[12..16]))
  }

  lemma UnlinkSteps(c: S.Conn, i: nat, s: seq<byte>)
    requires i < MAX_OFFSETS
    ensures |s| < 104 ==> Steps(c, MARK_UNLINK + i, s, c, [])
    ensures |s| >= 104 ==> Steps(c, MARK_UNLINK + i, s, S.Apply(c, Frame.Unlink(i, [])), s[NAME_SIZE..])
  {
  }

  lemma OtherSteps(c: S.Conn, w: int, s: seq<byte>)
    requires !(MARK_DATA <= w < MARK_EOT)
    ensures Steps(c, w, s, if w == MARK_DISCONNECT then c.(connected := false) else c, s)
  {
  }

  /** The decoder as a parameter, so that methods that only pass its result on do not look into it. */
  type Decoder = (S.Conn, seq<byte>) -> S.Conn

  ghost predicate Decodes(dec: Decoder) {
    forall c: S.Conn, s: seq<byte> {:trigger S.Decode(c, s)} :: dec(c, s) == S.Decode(c, s)
  }

  lemma DecodeOne(dec: Decoder, c: S.Conn, s: seq<byte>, w: int, body: seq<byte>, d: S.Conn, tail: seq<byte>)
    requires Decodes(dec) && |s| >= 4 && w == ReadWord(s[..4]) && body == s[4..] && Steps(c, w, body, d, tail)
    ensures dec(c, s) == dec(d, tail)
  {
    assert tail == NextFrame(ServerSide, S.Shapes(c.table), s).1;
    assert S.Decode(c, s) == S.Decode(d, tail);
  }

  lemma DecodeFragment(dec: Decoder, c: S.Conn, s: seq<byte>)
    requires Decodes(dec) && 0 < |s| < 4
    ensures dec(c, s) == dec(c, [])
  {
    assert S.Decode(c, s) == S.Decode(c, []);
  }

  /** The turn of slot i of send_client, with left bytes written before it. */
  predicate Turned(sim: Sim, t: seq<S.Slot>, i: nat, left: nat, u: seq<S.Slot>, added: seq<byte>)
    requires i < |t|
  {
    var (o, s) := S.SendSlot(sim, t[i], i, left);
    (o.Some? ==> WfFrame(o.value)) && u == t[i := s] && added == Added(o)
  }

  /** The first k turns turned t into u and filled the buffer with bytes, folded as Steps is. */
  predicate Filled(sim: Sim, t: seq<S.Slot>, k: nat, u: seq<S.Slot>, bytes: seq<byte>)
    requires k <= |t|
  {
    forall n: nat :: n == k ==>
      var (fs, v) := S.SendUpTo(sim, t, n);
      u == v && WfFrames(fs) && |bytes| == SizeAll(fs) && bytes == EncodeAll(fs)
  }

  lemma FilledMore(sim: Sim, t: seq<S.Slot>, k: nat, u: seq<S.Slot>, bytes: seq<byte>, u': seq<S.Slot>, added: seq<byte>)
    requires k < |t| == |u| && Filled(sim, t, k, u, bytes) && Turned(sim, u, k, |bytes|, u', added)
    ensures Filled(sim, t, k + 1, u', bytes + added)
  {
    AppendTurn(S.SendUpTo(sim, t, k).0, S.SendSlot(sim, u[k], k, |bytes|).0);
  }

  lemma Close(sim: Sim, t: seq<S.Slot>, u: seq<S.Slot>, bytes: seq<byte>)
    requires Filled(sim, t, |t|, u, bytes)
    ensures var fs := S.SendUpTo(sim, t, |t|).0;
      && WfFrames(fs) && |bytes| == SizeAll(fs) && bytes == EncodeAll(fs)
      && Sent(fs) == if bytes == [] then [] else bytes + Word(MARK_EOT)
  {
  }

  class Connection {
    var table: seq<S.Slot>
    var store: seq<S.Custom>
    var sim: Sim
    var connected: bool

    ghost predicate Valid()
      reads this
    {
      SoundTable(table) && |table| <= MAX_OFFSETS && WfSim(sim)
    }

    ghost function Conn(): S.Conn
      reads this
    {
      S.Conn(table, store, sim, connected)
    }

    constructor (sim: Sim, store: seq<S.Custom>)
      requires WfSim(sim)
      ensures Valid() && Conn() == S.Conn([], store, sim, true)
    {
      table, this.store, this.sim, connected := [], store, sim, true;
    }

    // ---------- subscriptions ----------

    /** allocate_clientdata. */
    method AllocateClientdata(i: nat, raw: Desc) returns (ok: bool)
      requires Valid() && WfName(raw.name) && i < MAX_OFFSETS
      modifies `table
      ensures Valid() && (ok, table) == S.Allocate(old(table), i, raw)
    {
      AllocateKeepsSound(table, i, raw);
      var nelements, index, precision := raw.nelements, raw.index, raw.precision;
      if Scalar(raw.ty) {
        nelements, index := 1, 0;
      }
      if nelements < 1 || index < -1 || index >= nelements || raw.name == [] {
        return false;
      }
      if Integral(raw.ty) || precision > 10 || precision < -10 {
        precision := INT_MISS;
      }
      var d := Desc(raw.name, raw.ty, nelements, index, precision);
      NormaliseIsIdempotent(raw);
      if i < |table| && table[i].name == raw.name && table[i].index == index {
        ok := S.HasType(table[i].ty, raw.ty) && nelements == table[i].nelements && precision == table[i].precision;
      } else {
        while |table| <= i
          invariant table == S.Grow(old(table), |table|) && |old(table)| <= |table|
          invariant |table| > i + 1 ==> table == old(table)
        {
          table := table + [S.EMPTY];
        }
        if !Known(raw.ty) {
          table := table[i := table[i].(status := Uninitialized, data := [])];
          ok := false;
        } else {
          table := table[i := S.FreshSlot(d)];
          ok := true;
        }
      }
    }

    /** check_clientdata: 0, or 2 with the error text in place of the name. */
    method CheckClientdata(i: nat) returns (code: int)
      requires Valid() && i < |table|
      modifies `table
      ensures |table| == |old(table)| && code == (if S.Check(sim, old(table[i])).Good? then 0 else 2)
      ensures table == old(table)[i := table[i]]
      ensures match S.Check(sim, old(table[i]))
        case Good(write) => table[i] == old(table[i]).(bound := true, write := write)
        case Bad(text) => table[i] == old(table[i]).(name := text)
    {
      var s := table[i];
      code := 2;
      if Command(s.ty) {
        if s.name in sim.cmds {
          table := table[i := s.(bound := true, write := true)];
          code := 0;
        } else {
          table := table[i := s.(name := S.CommandNotFound(s.name))];
        }
      } else if s.name in sim.refs {
        var info := sim.refs[s.name];
        var n := |View(sim, s.name, s.ty)|;
        if !S.HasType(info.types, s.ty) {
          table := table[i := s.(name := S.TypeDiffers(s.ty, info.types))];
        } else if s.nelements > 1 && (s.ty == XPTYPE_FLT_ARR || s.ty == XPTYPE_INT_ARR) && s.nelements != n {
          table := table[i := s.(name := S.CountDiffers(s.nelements, n))];
        } else {
          table := table[i := s.(bound := true, write := info.writable)];
          code := 0;
        }
      } else {
        table := table[i := s.(name := S.DatarefNotFound(s.name))];
      }
    }

    /** allocate_customdata: 0 accepted, 2 differs from the first subscription, -1 refused. */
    method AllocateCustomdata(ty: int, raw: int, name: Name) returns (code: int)
      requires Valid()
      modifies `store, `sim
      ensures Valid() && (code, store, sim) == S.AllocateCustom(old(store), old(sim), ty, raw, name)
    {
      S.AllocateCustomKeepsSim(store, sim, ty, raw, name);
      var nelements := raw;
      if Scalar(ty) {
        nelements := 1;
      }
      if nelements < 1 || name == [] {
        return -1;
      }
      var k := 0;
      while k < |store|
        invariant k <= |store| && S.FindCustom(store, name, 0) == S.FindCustom(store, name, k)
      {
        if store[k].name == name {
          code := if ty != store[k].ty || nelements != store[k].nelements then 2 else 0;
          return;
        }
        k := k + 1;
      }
      if |store| >= S.MAXCUSTOMALLOC || !Known(ty) || Command(ty) {
        return -1;
      }
      store := store + [S.Custom(name, ty, nelements)];
      sim := sim.(refs := sim.refs[name := RefInfo(ty, true)],
                  vals := sim.vals[(name, ty) := Fill(ty, nelements)]);
      code := 0;
    }

    /** A checked or refused slot is to be answered; code is that of the checks. */
    method Settle(i: nat, code: int)
      requires i < |table|
      modifies `table
      ensures var s := old(table[i]);
        table == old(table)[i := if code == 2 then s.(bound := false, status := Linking)
                                 else if code == 0 then s.(status := Linking) else s]
    {
      if code == 2 {
        table := table[i := table[i].(bound := false, status := Linking)];
      }
      if code == 0 {
        table := table[i := table[i].(status := Linking)];
      }
    }

    method CheckAndSettle(i: nat)
      requires Valid() && i < |table|
      modifies `table
      ensures table == old(table)[i := S.Settle(old(table[i]), S.Check(sim, old(table[i])))]
    {
      var code := CheckClientdata(i);
      Settle(i, code);
    }

    /** The part of a link request behind a successful allocation. */
    method SubscribeSlot(i: nat, raw: Desc)
      requires Valid() && i < |table| && table[i].name == raw.name
      modifies `table, `store, `sim
      ensures Valid()
      ensures var (s, store', sim') := S.Subscribe(old(store), old(sim), old(table[i]), raw);
        table == old(table)[i := s] && store == store' && sim == sim'
    {
      SubscribeKeepsSound(store, sim, table[i], raw);
      if S.IsCustom(raw.name) {
        var code := AllocateCustomdata(raw.ty, raw.nelements, raw.name);
        if code == 2 {
          table := table[i := table[i].(name := S.CustomDiffers(table[i].nelements, table[i].ty))];
          Settle(i, code);
        } else if code == 0 {
          CheckAndSettle(i);
        }
      } else {
        CheckAndSettle(i);
      }
    }

    method LinkRequested(i: nat, raw: Desc)
      requires Valid() && WfName(raw.name) && i < MAX_OFFSETS
      modifies `table, `store, `sim
      ensures Valid() && Conn() == S.LinkRequest(old(Conn()), i, raw)
    {
      S.LinkRequestAllocatesFirst(Conn(), i, raw);
      var ok := AllocateClientdata(i, raw);
      if ok {
        SubscribeSlot(i, raw);
      }
    }

    // ---------- receive_client ----------

    /** One received element: the simulator's and the copy. */
    method SetElement(i: nat, j: nat, v: nat)
      requires Valid() && i < |table| && S.Live(table[i]) && j < |table[i].data| && v < Pow256(Width(table[i].ty))
      modifies `table, `sim
      ensures table == old(table)[i := old(table[i]).(data := old(table[i].data)[j := v])]
      ensures sim == SetOne(old(sim), old(table[i]), j, v)
      ensures Valid() && S.Live(table[i])
    {
      var s := table[i];
      var key, at := (s.name, s.ty), if s.index == -1 then j else s.index;
      if key in sim.vals && at < |sim.vals[key]| {
        assert WfVals(s.ty, |sim.vals[key]|, sim.vals[key]);
        var view: seq<nat> := sim.vals[key][at := v];
        assert WfVals(s.ty, |view|, view);
        sim := sim.(vals := sim.vals[key := view]);
      }
      table := table[i := s.(data := s.data[j := v])];
    }

    /** Received element j, unless it is missing. */
    method StoreElement(ghost s: S.Slot, ghost before: Sim, i: nat, vals: seq<nat>, j: nat)
      requires Valid() && i < |table| && S.Live(table[i]) && table[i] == s.(data := table[i].data)
      requires WfVals(s.ty, |s.data|, vals) && -1 <= s.index && (s.index == -1 || |vals| == 1) && j < |vals|
      requires StoredUpTo(s, vals, j, table[i].data) && SetUpTo(before, s, vals, j, sim)
      modifies `table, `sim
      ensures Valid() && |table| == |old(table)| && table == old(table)[i := s.(data := table[i].data)] && S.Live(table[i])
      ensures StoredUpTo(s, vals, j + 1, table[i].data) && SetUpTo(before, s, vals, j + 1, sim)
    {
      SetMore(before, s, vals, j, sim);
      if vals[j] != MissCode(table[i].ty) {
        SetElement(i, j, vals[j]);
      }
    }

    /** The elements of a data frame for a writable dataref. */
    method StoreElements(i: nat, vals: seq<nat>)
      requires Valid() && i < |table| && S.Live(table[i]) && WfVals(table[i].ty, |table[i].data|, vals)
      modifies `table, `sim
      ensures WfSim(sim)
      ensures table == old(table)[i := old(table[i]).(data := Merge(old(table[i].ty), old(table[i].data), vals))]
      ensures sim == S.SetSim(old(sim), old(table[i]), vals)
      ensures Delivered(old(sim), old(table[i]), vals, sim)
    {
      var s := table[i];
      ghost var t, before := table, sim;
      var j := 0;
      while j < |vals|
        invariant j <= |vals| && Valid() && i < |table| == |t|
        invariant S.Live(table[i]) && table == t[i := s.(data := table[i].data)]
        invariant StoredUpTo(s, vals, j, table[i].data) && SetUpTo(before, s, vals, j, sim)
      {
        StoreElement(s, before, i, vals, j);
        j := j + 1;
      }
      SetAll(before, s, vals, sim);
      SetAllDelivers(before, s, vals, sim);
      StoredAll(s, vals, table[i].data);
    }

    /** The payload of a data frame. */
    method StoreFrame(i: nat, vals: seq<nat>)
      requires Valid() && i < |table| && Known(table[i].ty)
      requires WfVals(table[i].ty, Count(table[i].index, table[i].nelements), vals)
      modifies `table, `sim
      ensures Valid() && Conn() == S.StoreData(old(Conn()), i, vals)
    {
      S.StoreDataKeepsSim(Conn(), i, vals);
      var s := table[i];
      if s.status == Status.Valid && s.data != [] {
        if Command(s.ty) {
          if vals[0] != MissCode(s.ty) {
            assert vals == [vals[0]];
            table := table[i := s.(data := vals)];
            if s.ty == XPTYPE_CMD_ONCE {
              if vals[0] == 1 {
                sim := sim.(log := sim.log + [Once(i, s.name)]);
              }
            } else if vals[0] == 1 {
              sim := sim.(log := sim.log + [Begin(i, s.name)]);
            } else {
              sim := sim.(log := sim.log + [End(i, s.name)]);
            }
          }
        } else if s.write {
          StoreElements(i, vals);
        }
      }
    }

    /** The payload of a data frame for a slot with a type. */
    method ReceiveElements(i: nat, buf: array<byte>, n: nat, left: nat, nelements: nat, w: nat, size: nat)
      requires Valid() && left <= n <= buf.Length && i < MAX_OFFSETS && i < |table| && Known(table[i].ty)
      requires nelements == Count(table[i].index, table[i].nelements) && w == Width(table[i].ty) && size == nelements * w <= left
      modifies `table, `sim
      ensures Valid()
      ensures Steps(old(Conn()), MARK_DATA + i, buf[n - left..n], Conn(), buf[n - left..n][size..])
    {
      ghost var s := buf[n - left..n];
      var vals := ReadVals(buf, n - left, nelements, w);
      SubSlice(buf[..], n - left, n, 0, size);
      DataStored(Conn(), i, s, nelements, w, vals);
      StoreFrame(i, vals);
    }

    method ReceiveData(i: nat, buf: array<byte>, n: nat, left: nat) returns (rest: nat)
      requires Valid() && left <= n <= buf.Length && i < MAX_OFFSETS
      modifies `table, `sim
      ensures Valid() && rest <= left
      ensures Steps(old(Conn()), MARK_DATA + i, buf[n - left..n], Conn(), buf[n - rest..n])
    {
      ghost var s := buf[n - left..n];
      rest := left;
      if i < |table| && Known(table[i].ty) {
        var nelements, w := Count(table[i].index, table[i].nelements), Width(table[i].ty);
        var size := nelements * w;
        if left >= size {
          ReceiveElements(i, buf, n, left, nelements, w, size);
          rest := left - size;
          assert s[size..] == buf[n - rest..n];
        } else {
          DataCutShort(Conn(), i, s);
          rest := 0;
          assert buf[n..n] == [];
        }
      } else {
        DataIgnored(Conn(), i, s);
      }
    }

    /** The fields of a link request. */
    method ReadLink(buf: array<byte>, n: nat, left: nat) returns (d: Desc)
      requires 216 <= left <= n <= buf.Length
      ensures d == LinkDesc(buf[n - left..n])
    {
      var at := n - left;
      ghost var b := buf[..];
      var ty := ReadWord(buf[at..at + 4]);
      var nelements := ReadWord(buf[at + 4..at + 8]);
      var index := ReadWord(buf[at + 8..at + 12]);
      var precision := ReadWord(buf[at + 12..at + 16]);
      var name := NameField(buf[at + 16..at + 116]);
      d := Desc(name, ty, nelements, index, precision);
      SubSlice(b, at, n, 0, 4);
      SubSlice(b, at, n, 4, 8);
      SubSlice(b, at, n, 8, 12);
      SubSlice(b, at, n, 12, 16);
      SubSlice(b, at, n, 16, 116);
    }

    method ReceiveLink(i: nat, buf: array<byte>, n: nat, left: nat) returns (rest: nat)
      requires Valid() && left <= n <= buf.Length && i < MAX_OFFSETS
      modifies `table, `store, `sim
      ensures Valid() && rest <= left
      ensures Steps(old(Conn()), MARK_LINK + i, buf[n - left..n], Conn(), buf[n - rest..n])
    {
      LinkSteps(Conn(), i, buf[n - left..n]);
      rest := 0;
      assert buf[n..n] == [];
      if left >= 4 * 4 + NAME_SIZE + NAME_SIZE {
        var d := ReadLink(buf, n, left);
        rest := left - 216;
        SubSlice(buf[..], n - left, n, 216, left);
        LinkRequested(i, d);
      }
    }

    /** The plugin asks for one word more behind the name. */
    method ReceiveUnlink(i: nat, buf: array<byte>, n: nat, left: nat) returns (rest: nat)
      requires Valid() && left <= n <= buf.Length && i < MAX_OFFSETS
      modifies `table
      ensures Valid() && rest <= left
      ensures Steps(old(Conn()), MARK_UNLINK + i, buf[n - left..n], Conn(), buf[n - rest..n])
    {
      UnlinkSteps(Conn(), i, buf[n - left..n]);
      rest := 0;
      assert buf[n..n] == [];
      if left >= 4 + NAME_SIZE {
        rest := left - NAME_SIZE;
        SubSlice(buf[..], n - left, n, NAME_SIZE, left);
        if i < |table| {
          table := table[i := table[i].(status := Unlinking)];
        }
      }
    }

    /** The frame behind its first word. */
    method ReceiveBody(first: int, buf: array<byte>, n: nat, left: nat) returns (rest: nat)
      requires Valid() && left <= n <= buf.Length
      modifies `table, `store, `sim, `connected
      ensures Valid() && rest <= left
      ensures Steps(old(Conn()), first, buf[n - left..n], Conn(), buf[n - rest..n])
    {
      rest := left;
      if MARK_DATA <= first < MARK_LINK {
        rest := ReceiveData(first - MARK_DATA, buf, n, left);
      } else if MARK_LINK <= first < MARK_UNLINK {
        rest := ReceiveLink(first - MARK_LINK, buf, n, left);
      } else if MARK_UNLINK <= first < MARK_EOT {
        rest := ReceiveUnlink(first - MARK_UNLINK, buf, n, left);
      } else {
        OtherSteps(Conn(), first, buf[n - left..n]);
        if first == MARK_DISCONNECT {
          connected := false;
        }
      }
    }

    /** The first word of a frame. */
    method ReadMark(buf: array<byte>, n: nat, left: nat) returns (first: int)
      requires 4 <= left <= n <= buf.Length
      ensures var s := buf[n - left..n]; first == ReadWord(s[..4]) && buf[n - (left - 4)..n] == s[4..]
    {
      ghost var s := buf[n - left..n];
      assert s[..4] == buf[n - left..n - left + 4] && s[4..] == buf[n - (left - 4)..n];
      first := ReadWord(buf[n - left..n - left + 4]);
    }

    /** One frame, with left bytes to go. */
    method ReceiveFrame(ghost dec: Decoder, buf: array<byte>, n: nat, left: nat) returns (rest: nat)
      requires Valid() && 4 <= left <= n <= buf.Length && Decodes(dec)
      modifies `table, `store, `sim, `connected
      ensures Valid() && rest < left
      ensures dec(old(Conn()), buf[n - left..n]) == dec(Conn(), buf[n - rest..n])
    {
      ghost var c, s := Conn(), buf[n - left..n];
      var first := ReadMark(buf, n, left);
      ghost var body := buf[n - (left - 4)..n];
      rest := ReceiveBody(first, buf, n, left - 4);
      DecodeOne(dec, c, s, first, body, Conn(), buf[n - rest..n]);
    }

    /** One turn of the decoding loop: a frame, or the end if not even a word is left. */
    method ReceiveTurn(ghost dec: Decoder, buf: array<byte>, n: nat, left: nat) returns (rest: nat)
      requires Valid() && 0 < left <= n <= buf.Length && Decodes(dec)
      modifies `table, `store, `sim, `connected
      ensures Valid() && rest < left
      ensures dec(old(Conn()), buf[n - left..n]) == dec(Conn(), buf[n - rest..n])
    {
      if left >= 4 {
        rest := ReceiveFrame(dec, buf, n, left);
      } else {
        DecodeFragment(dec, Conn(), buf[n - left..n]);
        rest := 0;
        assert buf[n..n] == [];
      }
    }

    /** receive_client behind its reassembly: n bytes of the buffer hold what came in. Whatever the
        bytes are, the connection stays valid. */
    method ReceiveClient(buf: array<byte>, n: nat)
      requires Valid() && n <= buf.Length
      modifies `table, `store, `sim, `connected
      ensures Valid() && Conn() == S.Decode(old(Conn()), buf[..n])
    {
      ghost var dec: Decoder, c, s := (d, t) => S.Decode(d, t), Conn(), buf[..n];
      var left := n;
      assert buf[n - left..n] == s;
      while left > 0
        invariant 0 <= left <= n && Valid()
        invariant dec(c, s) == dec(Conn(), buf[n - left..n])
      {
        left := ReceiveTurn(dec, buf, n, left);
      }
      assert buf[n - left..n] == [];
    }

    // ---------- send_client ----------

    /** The simulator's elements for slot i; those it does not have read as missing. */
    method GetElements(i: nat) returns (vals: seq<nat>)
      requires Valid() && i < |table| && S.Live(table[i])
      ensures vals == S.ReadSlot(sim, table[i])
      ensures Fetched(View(sim, table[i].name, table[i].ty), table[i], vals)
    {
      var s := table[i];
      var v := View(sim, s.name, s.ty);
      if s.index == -1 {
        vals := if |v| <= s.nelements then v else v[..s.nelements];
        while |vals| < s.nelements
          invariant |vals| <= s.nelements
          invariant forall j :: 0 <= j < |vals| ==> vals[j] == ElemOr(v, j, Absent(s.ty))
        {
          vals := vals + [Absent(s.ty)];
        }
      } else {
        vals := [ElemOr(v, s.index, 0)];
      }
    }

    /** Some element has moved by enough. */
    method IsChanged(i: nat, vals: seq<nat>) returns (changed: bool)
      requires i < |table| && |vals| == |table[i].data|
      ensures changed == Changed(table[i].ty, table[i].precision, table[i].data, vals)
      ensures F.Found(table[i].ty, table[i].precision, table[i].data, vals, changed)
    {
      var s := table[i];
      changed := false;
      var j := 0;
      while j < |vals|
        invariant j <= |vals|
        invariant changed == exists k :: 0 <= k < j && ElemChanged(s.ty, s.precision, s.data[k], vals[k])
      {
        if ElemChanged(s.ty, s.precision, s.data[j], vals[j]) {
          changed := true;
        }
        j := j + 1;
      }
      F.ChangedIsFound(s.ty, s.precision, s.data, vals);
    }

    method DeallocateClientdata(i: nat)
      requires Valid() && i < |table|
      modifies `table
      ensures Valid() && table == old(table)[i := S.Deallocated(old(table[i]))]
    {
      table := table[i := S.Deallocated(table[i])];
    }

    /** The answer to a link or unlink request. */
    method SendAnswer(buf: array<byte>, left: nat, i: nat) returns (end: nat, ghost added: seq<byte>)
      requires Valid() && i < |table| && left <= TCPBUFSIZE <= buf.Length
      requires table[i].name != [] && (table[i].status == Linking || table[i].status == Unlinking)
      modifies `table, buf
      ensures Valid() && end == left + |added| <= TCPBUFSIZE && buf[..end] == old(buf[..left]) + added
      ensures Turned(sim, old(table), i, left, table, added)
    {
      var s := table[i];
      end, added := left, [];
      if left + 4 + NAME_SIZE <= TCPBUFSIZE {
        var mark := if s.status == Linking then MARK_LINK + i else MARK_UNLINK + i;
        end := PutText(buf, left, mark, s.name);
        added := Word(mark) + Pad(s.name);
        if s.status == Linking && s.bound {
          table := table[i := s.(status := Status.Valid)];
        } else {
          DeallocateClientdata(i);
        }
      }
    }

    method SendValid(buf: array<byte>, left: nat, i: nat) returns (end: nat, ghost added: seq<byte>)
      requires Valid() && i < |table| && left <= TCPBUFSIZE <= buf.Length
      requires table[i].name != [] && table[i].status == Status.Valid
      modifies `table, buf
      ensures Valid() && end == left + |added| <= TCPBUFSIZE && buf[..end] == old(buf[..left]) + added
      ensures Turned(sim, old(table), i, left, table, added)
    {
      var s := table[i];
      end, added := left, [];
      if Known(s.ty) && !Command(s.ty) && s.data != [] {
        var vals := GetElements(i);
        var changed := IsChanged(i, vals);
        if changed && left + 2 * 4 + |vals| * Width(s.ty) <= TCPBUFSIZE {
          end := PutData(buf, left, i, s.ty, vals);
          added := Bytes(Data(i, s.ty, vals));
          table := table[i := s.(data := vals)];
        }
      }
    }

    method FillTurn(ghost t: seq<S.Slot>, buf: array<byte>, n: nat, i: nat) returns (end: nat)
      requires Valid() && i < |t| == |table| && n <= TCPBUFSIZE <= buf.Length
      requires Filled(sim, t, i, table, buf[..n])
      modifies `table, buf
      ensures Valid() && |table| == |t| && end <= TCPBUFSIZE
      ensures Filled(sim, t, i + 1, table, buf[..end])
    {
      ghost var u, bytes := table, buf[..n];
      ghost var added := [];
      end := n;
      if table[i].name == [] {
      } else if table[i].status == Linking || table[i].status == Unlinking {
        end, added := SendAnswer(buf, n, i);
      } else if table[i].status == Status.Valid {
        end, added := SendValid(buf, n, i);
      }
      FilledMore(sim, t, i, u, bytes, table, added);
    }

    /** The loop of send_client over the table. */
    method FillBuffer(buf: array<byte>) returns (n: nat)
      requires Valid() && TCPBUFSIZE <= buf.Length
      modifies `table, buf
      ensures Valid() && n <= TCPBUFSIZE && |table| == |old(table)|
      ensures Filled(sim, old(table), |old(table)|, table, buf[..n])
    {
      ghost var t := table;
      var i := 0;
      n := 0;
      while i < |table|
        invariant i <= |table| == |t| && Valid()
        invariant n <= TCPBUFSIZE && Filled(sim, t, i, table, buf[..n])
      {
        n := FillTurn(t, buf, n, i);
        i := i + 1;
      }
    }

    /** send_client: the first n bytes of the buffer are what goes to the socket. If the end word does not
        fit the buffer behind the frames it is missing here, where the C code writes beyond the buffer. */
    method SendClient(buf: array<byte>) returns (n: nat, overrun: bool)
      requires Valid() && buf.Length == TCPBUFSIZE
      modifies `table, buf
      ensures Valid() && n <= buf.Length
      ensures var (fs, t) := if connected then S.SendUpTo(sim, old(table), |old(table)|) else ([], old(table));
        table == t && WfFrames(fs) && (overrun <==> !EndFits(fs)) && buf[..n] == Buffered(fs)
    {
      ghost var t := table;
      n, overrun := 0, false;
      if connected {
        n := FillBuffer(buf);
        Close(sim, t, table, buf[..n]);
        overrun := n + 4 > TCPBUFSIZE;
        if 0 < n && !overrun {
          n := PutWord(buf, n, MARK_EOT);
        }
      }
    }
  }
}
