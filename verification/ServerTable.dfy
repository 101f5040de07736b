/** X-Plane as seen through its plugin interface: datarefs with typed views, commands, and the log
of the command calls made so far. */
module Simulator {
  import opened Wire
  import opened Dataref

  /** types is a bit set of XPTYPE codes: one dataref can have several views. */
  datatype RefInfo = RefInfo(types: nat, writable: bool)

  /** offset is the slot of the connection on whose behalf the command was called. */
  datatype Event = Once(offset: nat, name: Name) | Begin(offset: nat, name: Name) | End(offset: nat, name: Name)

  datatype Sim = Sim(refs: map<Name, RefInfo>, cmds: set<Name>, vals: map<(Name, int), seq<nat>>, log: seq<Event>)

  predicate WfSim(sim: Sim) {
    forall k :: k in sim.vals ==> WfVals(k.1, |sim.vals[k]|, sim.vals[k])
  }

  function View(sim: Sim, name: Name, ty: int): (v: seq<nat>)
    ensures WfSim(sim) ==> WfVals(ty, |v|, v)
  {
    if (name, ty) in sim.vals then sim.vals[(name, ty)] else []
  }

  function ElemOr(v: seq<nat>, j: nat, other: nat): nat {
    if j < |v| then v[j] else other
  }

  /** The elements a slot transfers. Elements the simulator does not have read as missing, or zero
      for bytes. */
  function ReadWindow(v: seq<nat>, ty: int, index: int, nelements: int): (r: seq<nat>)
    requires Known(ty) && nelements >= 1 && -1 <= index
    ensures |r| == Count(index, nelements)
    ensures WfVals(ty, |v|, v) ==> WfVals(ty, |r|, r)
  {
    Pow256Values();
    if index == -1 then
      seq(nelements, j requires 0 <= j < nelements => ElemOr(v, j, Absent(ty)))
    else [ElemOr(v, index, 0)]
  }

  /** Setting the elements that are not missing; what lies beyond the simulator's array is lost. */
  function WriteWindow(v: seq<nat>, ty: int, index: int, vals: seq<nat>): (r: seq<nat>)
    requires index == -1 || |vals| == 1
    requires -1 <= index
    ensures |r| == |v|
  {
    if index == -1 then
      seq(|v|, j requires 0 <= j < |v| => if j < |vals| && vals[j] != MissCode(ty) then vals[j] else v[j])
    else if index < |v| && vals[0] != MissCode(ty) then v[index := vals[0]]
    else v
  }
}

/** The plugin's table of one client's datarefs (clientdata.c), the shared store of custom datarefs
(customdata.c), and what sending and receiving do to them (handleclient.c). */
module ServerTable {
  import opened Wire
  import opened Dataref
  import opened Simulator

  /** data is both the copy received from the client and the shadow of what was last sent to it;
      bound says that the dataref pointer is set. */
  datatype Slot = Slot(name: Name, ty: int, nelements: int, index: int, precision: int,
                       status: Status, data: seq<nat>, bound: bool, write: bool)

  const EMPTY := Slot([], XPTYPE_UNKNOWN, INT_MISS, INT_MISS, INT_MISS, Dealloc, [], false, false)

  datatype Custom = Custom(name: Name, ty: int, nelements: int)

  const MAXCUSTOMALLOC := 150

  datatype Conn = Conn(table: seq<Slot>, store: seq<Custom>, sim: Sim, connected: bool)

  function DescOf(s: Slot): Desc {
    Desc(s.name, s.ty, s.nelements, s.index, s.precision)
  }

  function ShapeOf(s: Slot): Shape {
    Shape(s.ty, Count(s.index, s.nelements))
  }

  function Shapes(t: seq<Slot>): (r: seq<Shape>)
    ensures |r| == |t|
    ensures forall i :: 0 <= i < |t| ==> r[i] == ShapeOf(t[i])
  {
    seq(|t|, i requires 0 <= i < |t| => ShapeOf(t[i]))
  }

  predicate Live(s: Slot) {
    && Known(s.ty)
    && s.nelements >= 1 && -1 <= s.index < s.nelements
    && (Scalar(s.ty) ==> s.index == 0 && s.nelements == 1)
    && WfVals(s.ty, Count(s.index, s.nelements), s.data)
  }

  // ---------- error texts ----------

  function Digits(n: nat): (r: Name)
    ensures 0 !in r
  {
    if n < 10 then [48 + n] else Digits(n / 10) + [48 + n % 10]
  }

  /** %i */
  function Decimal(v: int): (r: Name)
    ensures 0 !in r
  {
    if v < 0 then [45] + Digits(-v) else Digits(v)
  }

  /** The number that digits denote. */
  function Number(digits: Name): int
    requires forall k :: 0 <= k < |digits| ==> 48 <= digits[k] <= 57
  {
    if digits == [] then 0 else 10 * Number(digits[..|digits| - 1]) + digits[|digits| - 1] as int - 48
  }

  /** Decimal digits denote the number printed, and do not start with a zero for nothing. */
  lemma {:induction false} DigitsDenote(n: nat)
    ensures var r := Digits(n);
      && r != [] && (forall k :: 0 <= k < |r| ==> 48 <= r[k] <= 57) && Number(r) == n && (r[0] == 48 ==> n == 0)
  {
    if n >= 10 {
      DigitsDenote(n / 10);
      var r := Digits(n);
      assert r[..|r| - 1] == Digits(n / 10);
    } else {
      assert Digits(n)[..0] == [];
    }
  }

  /** The characters of a C string literal. */
  function Ascii(s: string): (r: Name)
    ensures |r| == |s| && 0 !in r
  {
    seq(|s|, k requires 0 <= k < |s| => if 0 < s[k] as int < 128 then s[k] as int else 63)
  }

  const COMMAND := Ascii("Command ")
  const DATAREF := Ascii("Dataref ")
  const CUSTOM := Ascii("Custom Dataref ")
  const NOT_FOUND := Ascii(" not found in X-Plane")
  const IN_TYPE := Ascii("differs in type: ")
  const IN_ELEMENTS := Ascii("differs in # elements: ")
  const VERSUS := Ascii(" (client) vs. ")
  const XPLANE := Ascii(" (X-Plane)")
  const IN_CUSTOM_ELEMENTS := Ascii("differs in # elements ")
  const OR_TYPE := Ascii(" or Type ")
  const FROM_CUSTOM := Ascii(" from already allocated Custom Dataref")
  const PACKAGE_NAME := Ascii("xpserver")

  /** snprintf into a char[100]. */
  function Print(text: Name): (r: Name)
    ensures |r| < NAME_SIZE && r <= text
  {
    if |text| < NAME_SIZE then text else text[..NAME_SIZE - 1]
  }

  function CommandNotFound(name: Name): Name {
    Print(COMMAND + (name + NOT_FOUND))
  }

  function DatarefNotFound(name: Name): Name {
    Print(DATAREF + (name + NOT_FOUND))
  }

  function TypeDiffers(client: int, xplane: int): Name {
    Print(DATAREF + (IN_TYPE + Decimal(client) + VERSUS + Decimal(xplane) + XPLANE))
  }

  function CountDiffers(client: int, xplane: int): Name {
    Print(DATAREF + (IN_ELEMENTS + Decimal(client) + VERSUS + Decimal(xplane) + XPLANE))
  }

  function CustomDiffers(nelements: int, ty: int): Name {
    Print(CUSTOM + (IN_CUSTOM_ELEMENTS + Decimal(nelements) + OR_TYPE + Decimal(ty) + FROM_CUSTOM))
  }

  /** Every refusal starts with one of three words, is never empty, and fits the name field. */
  predicate ErrorText(text: Name) {
    && WfName(text)
    && |text| >= |COMMAND|
    && (text[..|COMMAND|] == COMMAND || text[..|DATAREF|] == DATAREF
        || text[..|COMMAND|] == CUSTOM[..|COMMAND|])
  }

  lemma PrintedError(head: Name, rest: Name)
    requires 0 !in head && 0 !in rest && |COMMAND| <= |head| < NAME_SIZE - 1
    requires head == COMMAND || head == DATAREF || head == CUSTOM
    ensures ErrorText(Print(head + rest))
  {
    var text := Print(head + rest);
    assert text[..|COMMAND|] == head[..|COMMAND|];
    assert head[..|COMMAND|] == if |head| == |COMMAND| then head else head[..|COMMAND|];
  }

  // ---------- custom datarefs ----------

  function FindCustom(store: seq<Custom>, name: Name, i: nat): (r: nat)
    requires i <= |store|
    ensures i <= r <= |store|
    ensures forall k :: i <= k < r ==> store[k].name != name
    ensures r < |store| ==> store[r].name == name
    decreases |store| - i
  {
    if i == |store| || store[i].name == name then i else FindCustom(store, name, i + 1)
  }

  /** allocate_customdata: 0 accepted, 2 differs from the first subscription, -1 refused. */
  function AllocateCustom(store: seq<Custom>, sim: Sim, ty: int, raw: int, name: Name): (r: (int, seq<Custom>, Sim)) {
    var nelements := if Scalar(ty) then 1 else raw;
    if nelements < 1 || name == [] then (-1, store, sim)
    else
      var i := FindCustom(store, name, 0);
      if i < |store| then
        (if store[i].ty != ty || store[i].nelements != nelements then 2 else 0, store, sim)
      else if |store| >= MAXCUSTOMALLOC || !Known(ty) || Command(ty) then (-1, store, sim)
      else
        (0, store + [Custom(name, ty, nelements)],
         sim.(refs := sim.refs[name := RefInfo(ty, true)],
              vals := sim.vals[(name, ty) := Fill(ty, nelements)]))
  }

  // ---------- subscriptions ----------

  /** All bits of ty are in types. Of a type that is none of those known this is asked for a single type only. */
  predicate HasType(types: int, ty: int) {
    if Known(ty) then (types / ty) % 2 == 1 else ty == XPTYPE_UNKNOWN || types == ty
  }

  datatype Verdict = Good(write: bool) | Bad(text: Name)

  /** check_clientdata. */
  function Check(sim: Sim, s: Slot): Verdict {
    if Command(s.ty) then
      if s.name in sim.cmds then Good(true) else Bad(CommandNotFound(s.name))
    else if s.name !in sim.refs then Bad(DatarefNotFound(s.name))
    else
      var info := sim.refs[s.name];
      var n := |View(sim, s.name, s.ty)|;
      if !HasType(info.types, s.ty) then Bad(TypeDiffers(s.ty, info.types))
      else if s.nelements > 1 && (s.ty == XPTYPE_FLT_ARR || s.ty == XPTYPE_INT_ARR) && s.nelements != n then
        Bad(CountDiffers(s.nelements, n))
      else Good(info.writable)
  }

  lemma ErrorTexts(name: Name, m: int, n: int)
    requires 0 !in name
    ensures ErrorText(CommandNotFound(name)) && ErrorText(DatarefNotFound(name))
    ensures ErrorText(TypeDiffers(m, n)) && ErrorText(CountDiffers(m, n)) && ErrorText(CustomDiffers(m, n))
  {
    PrintedError(COMMAND, name + NOT_FOUND);
    PrintedError(DATAREF, name + NOT_FOUND);
    PrintedError(DATAREF, IN_TYPE + Decimal(m) + VERSUS + Decimal(n) + XPLANE);
    PrintedError(DATAREF, IN_ELEMENTS + Decimal(m) + VERSUS + Decimal(n) + XPLANE);
    PrintedError(CUSTOM, IN_CUSTOM_ELEMENTS + Decimal(m) + OR_TYPE + Decimal(n) + FROM_CUSTOM);
  }

  lemma CheckError(sim: Sim, s: Slot)
    requires 0 !in s.name && Check(sim, s).Bad?
    ensures ErrorText(Check(sim, s).text) && Refusal(DescOf(s), Check(sim, s).text)
  {
    ErrorTexts(s.name, 0, 0);
    if s.name in sim.refs {
      ErrorTexts(s.name, s.ty, sim.refs[s.name].types);
      ErrorTexts(s.name, s.nelements, |View(sim, s.name, s.ty)|);
    }
  }

  /** The name belongs to the datarefs shared through the plugin. */
  predicate IsCustom(name: Name) {
    |name| >= |PACKAGE_NAME| && name[..|PACKAGE_NAME|] == PACKAGE_NAME
  }

  /** The texts with which a subscription to d can be refused. */
  ghost predicate Refusal(d: Desc, text: Name) {
    || (IsCustom(d.name) && text == CustomDiffers(d.nelements, d.ty))
    || if Command(d.ty) then text == CommandNotFound(d.name)
       else
         || text == DatarefNotFound(d.name)
         || (exists types: nat :: !HasType(types, d.ty) && text == TypeDiffers(d.ty, types))
         || (d.nelements > 1 && (d.ty == XPTYPE_FLT_ARR || d.ty == XPTYPE_INT_ARR)
             && exists n: nat :: n != d.nelements && text == CountDiffers(d.nelements, n))
  }

  function Settle(s: Slot, v: Verdict): Slot {
    match v
    case Good(write) => s.(status := Linking, bound := true, write := write)
    case Bad(text) => s.(status := Linking, bound := false, name := text)
  }

  /** What follows a successful allocation of slot s. */
  function Subscribe(store: seq<Custom>, sim: Sim, s: Slot, d: Desc): (Slot, seq<Custom>, Sim) {
    if IsCustom(d.name) then
      var (code, store', sim') := AllocateCustom(store, sim, d.ty, d.nelements, d.name);
      if code == 0 then (Settle(s, Check(sim', s)), store', sim')
      else if code == 2 then (Settle(s, Bad(CustomDiffers(s.nelements, s.ty))), store', sim')
      else (s, store', sim')
    else
      (Settle(s, Check(sim, s)), store, sim)
  }

  /** The three ends of a subscription: no answer at all, confirmation, or an error text in place of
      the name. */
  ghost predicate Outcome(s: Slot, r: Slot) {
    || r == s
    || r == s.(status := Linking, bound := true, write := r.write)
    || (ErrorText(r.name) && Refusal(DescOf(s), r.name) && r == s.(status := Linking, bound := false, name := r.name))
  }

  lemma SettleOutcome(sim: Sim, s: Slot)
    requires 0 !in s.name
    ensures Outcome(s, Settle(s, Check(sim, s)))
  {
    if Check(sim, s).Bad? { CheckError(sim, s); }
  }

  lemma SubscribeOutcome(store: seq<Custom>, sim: Sim, s: Slot, d: Desc)
    requires 0 !in s.name && s.name == d.name
    ensures Outcome(s, Subscribe(store, sim, s, d).0)
  {
    SettleOutcome(sim, s);
    SettleOutcome(AllocateCustom(store, sim, d.ty, d.nelements, d.name).2, s);
    ErrorTexts([], s.nelements, s.ty);
  }

  function Grow(t: seq<Slot>, n: nat): (r: seq<Slot>)
    ensures |r| == (if n < |t| then |t| else n)
    ensures forall i :: 0 <= i < |r| ==> r[i] == if i < |t| then t[i] else EMPTY
  {
    if n <= |t| then t else t + seq(n - |t|, _ => EMPTY)
  }

  function FreshSlot(d: Desc): (s: Slot)
    requires Known(d.ty) && Normalise(d) == Some(d)
    ensures Live(s) && DescOf(s) == d && s.status == Alloc
  {
    Slot(d.name, d.ty, d.nelements, d.index, d.precision, Alloc, Fill(d.ty, Count(d.index, d.nelements)), false, false)
  }

  predicate SameEntry(s: Slot, d: Desc) {
    HasType(s.ty, d.ty) && d.nelements == s.nelements && d.index == s.index && d.precision == s.precision
  }

  /** A link request for slot i: allocate_clientdata and what receive_client does with its result. */
  function LinkRequest(c: Conn, i: nat, raw: Desc): Conn {
    match Normalise(raw)
    case None => c
    case Some(d) =>
      NormaliseIsIdempotent(raw);
      if i < |c.table| && c.table[i].name == d.name && c.table[i].index == d.index then
        if SameEntry(c.table[i], d) then
          var (s, store, sim) := Subscribe(c.store, c.sim, c.table[i], raw);
          c.(table := c.table[i := s], store := store, sim := sim)
        else c
      else
        var t := Grow(c.table, i + 1);
        if !Known(d.ty) then
          c.(table := t[i := t[i].(status := Uninitialized, data := [])])
        else
          var (s, store, sim) := Subscribe(c.store, c.sim, FreshSlot(d), raw);
          c.(table := t[i := s], store := store, sim := sim)
  }

  /** allocate_clientdata alone: whether it succeeds, and the table. */
  function Allocate(t: seq<Slot>, i: nat, raw: Desc): (bool, seq<Slot>) {
    match Normalise(raw)
    case None => (false, t)
    case Some(d) =>
      NormaliseIsIdempotent(raw);
      if i < |t| && t[i].name == d.name && t[i].index == d.index then (SameEntry(t[i], d), t)
      else
        var u := Grow(t, i + 1);
        if !Known(d.ty) then (false, u[i := u[i].(status := Uninitialized, data := [])])
        else (true, u[i := FreshSlot(d)])
  }

  lemma LinkRequestAllocatesFirst(c: Conn, i: nat, raw: Desc)
    ensures var (ok, t) := Allocate(c.table, i, raw);
      (ok ==> i < |t| && t[i].name == raw.name)
      && LinkRequest(c, i, raw) ==
        if ok then
          var (s, store, sim) := Subscribe(c.store, c.sim, t[i], raw);
          c.(table := t[i := s], store := store, sim := sim)
        else c.(table := t)
  {
    if Normalise(raw).Some? {
      NormaliseIsIdempotent(raw);
    }
  }

  function Deallocated(s: Slot): Slot {
    s.(name := [], ty := XPTYPE_UNKNOWN, nelements := INT_MISS, index := INT_MISS, precision := INT_MISS,
       status := Dealloc, data := [])
  }

  // ---------- receiving ----------

  function CommandEvent(s: Slot, i: nat, v: nat): seq<Event> {
    if s.ty == XPTYPE_CMD_ONCE then (if v == 1 then [Once(i, s.name)] else [])
    else [if v == 1 then Begin(i, s.name) else End(i, s.name)]
  }

  function SetSim(sim: Sim, s: Slot, vals: seq<nat>): Sim
    requires -1 <= s.index && (s.index == -1 || |vals| == 1)
  {
    if (s.name, s.ty) in sim.vals then
      sim.(vals := sim.vals[(s.name, s.ty) := WriteWindow(sim.vals[(s.name, s.ty)], s.ty, s.index, vals)])
    else sim
  }

  /** A data frame with its elements, for a slot of the table. */
  function StoreData(c: Conn, i: nat, vals: seq<nat>): Conn
    requires i < |c.table|
  {
    var s := c.table[i];
    if s.status != Valid || !Live(s) || |vals| != |s.data| then c
    else if Command(s.ty) then
      if vals[0] == MissCode(s.ty) then c
      else c.(table := c.table[i := s.(data := vals)],
              sim := c.sim.(log := c.sim.log + CommandEvent(s, i, vals[0])))
    else if s.write then
      c.(table := c.table[i := s.(data := Merge(s.ty, s.data, vals))], sim := SetSim(c.sim, s, vals))
    else c
  }

  function Apply(c: Conn, f: Frame): Conn {
    match f
    case Link(i, d, _) => LinkRequest(c, i, d)
    case Unlink(i, _) => if i < |c.table| then c.(table := c.table[i := c.table[i].(status := Unlinking)]) else c
    case Data(i, _, vals) => if i < |c.table| then StoreData(c, i, vals) else c
    case Disconnect => c.(connected := false)
    case _ => c
  }

  function ApplyAll(c: Conn, fs: seq<Frame>): Conn
    decreases |fs|
  {
    if fs == [] then c else ApplyAll(Apply(c, fs[0]), fs[1..])
  }

  /** The decoding loop of receive_client over the bytes still to be read. */
  function Decode(c: Conn, s: seq<byte>): Conn
    decreases |s|
  {
    if s == [] then c
    else
      var (f, rest) := NextFrame(ServerSide, Shapes(c.table), s);
      Decode(Apply(c, f), rest)
  }

  /** The slot at an offset the table may not have reached yet. */
  function At(t: seq<Slot>, i: nat): Slot {
    if i < |t| then t[i] else EMPTY
  }

  /** A frame changes no slot but its own. */
  lemma ApplyIsLocal(c: Conn, f: Frame, k: nat)
    requires !Addresses(f, k)
    ensures At(Apply(c, f).table, k) == At(c.table, k)
  {
  }

  lemma AllocateCustomKeepsSim(store: seq<Custom>, sim: Sim, ty: int, raw: int, name: Name)
    requires WfSim(sim)
    ensures WfSim(AllocateCustom(store, sim, ty, raw, name).2)
    ensures AllocateCustom(store, sim, ty, raw, name).2.log == sim.log
  {
  }

  lemma SetSimKeepsSim(sim: Sim, s: Slot, vals: seq<nat>)
    requires WfSim(sim) && -1 <= s.index && (s.index == -1 || |vals| == 1)
    requires WfVals(s.ty, |vals|, vals)
    ensures WfSim(SetSim(sim, s, vals)) && SetSim(sim, s, vals).log == sim.log
  {
    var key := (s.name, s.ty);
    if key in sim.vals {
      var v := sim.vals[key];
      assert WfVals(s.ty, |v|, v);
      var w := WriteWindow(v, s.ty, s.index, vals);
      assert WfVals(s.ty, |w|, w);
    }
  }

  lemma StoreDataKeepsSim(c: Conn, i: nat, vals: seq<nat>)
    requires WfSim(c.sim) && i < |c.table| && WfVals(c.table[i].ty, |vals|, vals)
    ensures WfSim(StoreData(c, i, vals).sim)
  {
    var s := c.table[i];
    if Live(s) && |vals| == |s.data| {
      SetSimKeepsSim(c.sim, s, vals);
    }
  }

  lemma LinkRequestKeepsSim(c: Conn, i: nat, raw: Desc)
    requires WfSim(c.sim)
    ensures WfSim(LinkRequest(c, i, raw).sim) && LinkRequest(c, i, raw).sim.log == c.sim.log
  {
    AllocateCustomKeepsSim(c.store, c.sim, raw.ty, raw.nelements, raw.name);
  }

  /** The simulator's values stay well formed, and only data frames for commands add to the log. */
  lemma ApplyKeepsSim(c: Conn, f: Frame)
    requires WfSim(c.sim)
    requires f.Data? && f.offset < |c.table| ==> WfVals(c.table[f.offset].ty, |f.vals|, f.vals)
    ensures WfSim(Apply(c, f).sim)
    ensures !f.Data? ==> Apply(c, f).sim.log == c.sim.log
  {
    if f.Link? {
      LinkRequestKeepsSim(c, f.offset, f.desc);
    } else if f.Data? && f.offset < |c.table| {
      StoreDataKeepsSim(c, f.offset, f.vals);
    }
  }

  // ---------- sending ----------

  function ReadSlot(sim: Sim, s: Slot): (r: seq<nat>)
    requires Live(s)
    ensures |r| == |s.data|
    ensures WfSim(sim) ==> WfVals(s.ty, |r|, r)
  {
    ReadWindow(View(sim, s.name, s.ty), s.ty, s.index, s.nelements)
  }

  /** One turn of the loop in send_client. */
  function SendSlot(sim: Sim, s: Slot, i: nat, left: nat): (r: (Option<Frame>, Slot))
    ensures r.0.Some? ==> Addresses(r.0.value, i)
  {
    if s.name == [] then (None, s)
    else if s.status == Linking then
      if left + 4 + NAME_SIZE <= TCPBUFSIZE then
        (Some(LinkReply(i, s.name)), if s.bound then s.(status := Valid) else Deallocated(s))
      else (None, s)
    else if s.status == Unlinking then
      if left + 4 + NAME_SIZE <= TCPBUFSIZE then (Some(Unlink(i, s.name)), Deallocated(s)) else (None, s)
    else if s.status == Valid && Live(s) && !Command(s.ty) then
      var vals := ReadSlot(sim, s);
      if Changed(s.ty, s.precision, s.data, vals) && left + 2 * 4 + |vals| * Width(s.ty) <= TCPBUFSIZE then
        (Some(Data(i, s.ty, vals)), s.(data := vals))
      else (None, s)
    else (None, s)
  }

  /** The first k turns of that loop. */
  function SendUpTo(sim: Sim, t: seq<Slot>, k: nat): (r: (seq<Frame>, seq<Slot>))
    requires k <= |t|
    ensures |r.1| == |t|
    ensures forall i :: k <= i < |t| ==> r.1[i] == t[i]
  {
    if k == 0 then ([], t)
    else
      var (fs, u) := SendUpTo(sim, t, k - 1);
      var (o, s) := SendSlot(sim, u[k - 1], k - 1, SizeAll(fs));
      (fs + Opt(o), u[k - 1 := s])
  }
}
