/** The client library's table of datarefs (serverdata.c) and what sending and receiving do to it
(handleserver.c). */
module ClientTable {
  import opened Wire
  import opened Dataref

  /** shadow is data_old, the value last exchanged with the server. */
  datatype Slot = Slot(name: Name, ty: int, nelements: int, index: int, precision: int,
                       status: Status, data: seq<nat>, shadow: seq<nat>)

  const EMPTY := Slot([], XPTYPE_UNKNOWN, INT_MISS, INT_MISS, INT_MISS, Uninitialized, [], [])

  function DescOf(c: Slot): Desc {
    Desc(c.name, c.ty, c.nelements, c.index, c.precision)
  }

  function ShapeOf(c: Slot): Shape {
    Shape(c.ty, Count(c.index, c.nelements))
  }

  function Shapes(t: seq<Slot>): (r: seq<Shape>)
    ensures |r| == |t|
    ensures forall i :: 0 <= i < |t| ==> r[i] == ShapeOf(t[i])
  {
    seq(|t|, i requires 0 <= i < |t| => ShapeOf(t[i]))
  }

  /** The slot of a live subscription: normalised description and memory of the right size. */
  predicate Live(c: Slot) {
    && Known(c.ty)
    && WfDesc(DescOf(c))
    && Normalise(DescOf(c)) == Some(DescOf(c))
    && WfVals(c.ty, Count(c.index, c.nelements), c.data)
    && WfVals(c.ty, Count(c.index, c.nelements), c.shadow)
  }

  /** Memory released, by unlink_dataref or before first use. */
  predicate Released(c: Slot) {
    && c.ty == XPTYPE_UNKNOWN && c.nelements == INT_MISS && c.index == INT_MISS && c.precision == INT_MISS
    && c.data == [] && c.shadow == [] && WfName(c.name)
  }

  predicate WfSlot(c: Slot) { Live(c) || Released(c) }

  /** What no byte stream can break: fields that fit the wire, memory that fits the type. Only a free slot
      can have a type and no memory. */
  predicate Shaped(c: Slot) {
    && WfDesc(DescOf(c))
    && (if Known(c.ty) then
          && c.nelements >= 1 && -1 <= c.index < c.nelements
          && ((c.name == [] && c.data == [] && c.shadow == [])
              || (WfVals(c.ty, Count(c.index, c.nelements), c.data) && WfVals(c.ty, Count(c.index, c.nelements), c.shadow)))
        else c.nelements == INT_MISS && c.data == [] && c.shadow == [])
  }

  predicate ShapedTable(t: seq<Slot>) {
    forall i :: 0 <= i < |t| ==> Shaped(t[i])
  }

  predicate WfTable(t: seq<Slot>) {
    && |t| <= MAX_OFFSETS
    && forall i :: 0 <= i < |t| ==> WfSlot(t[i])
  }

  // ---------- subscriptions ----------

  function Fresh(d: Desc): (c: Slot)
    requires Known(d.ty) && WfDesc(d) && Normalise(d) == Some(d)
    ensures Live(c) && c.status == Alloc && c.data == c.shadow && DescOf(c) == d
  {
    var mem := Fill(d.ty, Count(d.index, d.nelements));
    Slot(d.name, d.ty, d.nelements, d.index, d.precision, Alloc, mem, mem)
  }

  predicate Matches(c: Slot, d: Desc) {
    c.name == d.name && c.ty == d.ty && c.index == d.index && c.nelements == d.nelements
  }

  /** The first slot from position i on whose entry equals the wanted one, |t| if there is none. */
  function Find(t: seq<Slot>, d: Desc, i: nat): (r: nat)
    requires i <= |t|
    ensures i <= r <= |t|
    ensures forall k :: i <= k < r ==> !Matches(t[k], d)
    ensures r < |t| ==> Matches(t[r], d)
    decreases |t| - i
  {
    if i == |t| || Matches(t[i], d) then i else Find(t, d, i + 1)
  }

  function FindFree(t: seq<Slot>, i: nat): (r: nat)
    requires i <= |t|
    ensures i <= r <= |t|
    ensures forall k :: i <= k < r ==> t[k].name != []
    ensures r < |t| ==> t[r].name == []
    decreases |t| - i
  {
    if i == |t| || t[i].name == [] then i else FindFree(t, i + 1)
  }

  /** The slot taken for a new dataref. A type nobody knows gets no storage, and the slot stays free. */
  function Taken(t: seq<Slot>, k: nat, d: Desc): (c: Slot)
    requires WfDesc(d) && Normalise(d) == Some(d)
  {
    if Known(d.ty) then Fresh(d)
    else if k < |t| then t[k].(status := Uninitialized, data := [], shadow := [])
    else EMPTY
  }

  /** link_dataref without its predictor: the slot that answers the call, if any, and the table. */
  function LinkDataref(t: seq<Slot>, raw: Desc): (r: (Option<nat>, seq<Slot>))
    requires WfDesc(raw)
  {
    match Normalise(raw)
    case None => (None, t)
    case Some(d) =>
      NormaliseIsIdempotent(raw);
      var i := Find(t, d, 0);
      if i < |t| then (Some(i), t)
      else
        var k := FindFree(t, 0);
        (if Known(d.ty) then Some(k) else None,
         if k < |t| then t[k := Taken(t, k, d)] else t + [Taken(t, k, d)])
  }

  /** Linking a dataref writes at most one slot, and that one was free; if the type is unknown it stays so. */
  lemma LinkWritesOneFreeSlot(t: seq<Slot>, raw: Desc, i: nat)
    requires WfDesc(raw) && WfTable(t)
    ensures var r := LinkDataref(t, raw).1; |t| <= |r| <= |t| + 1
    ensures var r := LinkDataref(t, raw).1;
      i < |r| && (i >= |t| || r[i] != t[i]) ==>
        && (i < |t| ==> t[i].name == [])
        && (if Known(raw.ty) then
              && Live(r[i]) && r[i].status == Alloc && r[i].data == r[i].shadow
              && Normalise(raw) == Some(DescOf(r[i]))
            else Released(r[i]) && r[i].status == Uninitialized && r[i].name == [])
  {
    if Normalise(raw).Some? {
      NormaliseIsIdempotent(raw);
    }
  }

  function UnlinkSlot(c: Slot): Slot {
    Slot(c.name, XPTYPE_UNKNOWN, INT_MISS, INT_MISS, INT_MISS, Dealloc, [], [])
  }

  /** unlink_dataref: every slot carrying the name is released and announced as such. */
  function UnlinkDataref(t: seq<Slot>, name: Name): (r: seq<Slot>)
    ensures |r| == |t|
    ensures forall i :: 0 <= i < |t| ==> r[i] == if t[i].name == name then UnlinkSlot(t[i]) else t[i]
  {
    seq(|t|, i requires 0 <= i < |t| => if t[i].name == name then UnlinkSlot(t[i]) else t[i])
  }

  // ---------- receiving ----------

  function Store(c: Slot, vals: seq<nat>): Slot {
    if c.status == Valid && |vals| == |c.data| == |c.shadow| then
      c.(data := Merge(c.ty, c.data, vals), shadow := Merge(c.ty, c.shadow, vals))
    else c
  }

  function Accept(c: Slot, text: Name): Slot {
    if c.name == text then c.(status := Valid) else c
  }

  function Forget(c: Slot, text: Name): Slot {
    if c.name == text then c.(name := [], status := Uninitialized) else c
  }

  function Apply(t: seq<Slot>, f: Frame): (r: seq<Slot>)
    ensures |r| == |t|
  {
    match f
    case Data(i, _, vals) => if i < |t| then t[i := Store(t[i], vals)] else t
    case LinkReply(i, text) => if i < |t| then t[i := Accept(t[i], text)] else t
    case Unlink(i, text) => if i < |t| then t[i := Forget(t[i], text)] else t
    case _ => t
  }

  function ApplyAll(t: seq<Slot>, fs: seq<Frame>): (r: seq<Slot>)
    ensures |r| == |t|
    decreases |fs|
  {
    if fs == [] then t else ApplyAll(Apply(t, fs[0]), fs[1..])
  }

  /** The decoding loop of receive_xpserver over the bytes still to be read. */
  function Decode(t: seq<Slot>, gone: bool, s: seq<byte>): (r: (seq<Slot>, bool))
    ensures |r.0| == |t|
    decreases |s|
  {
    if s == [] then (t, gone)
    else
      var (f, rest) := NextFrame(ClientSide, Shapes(t), s);
      Decode(Apply(t, f), gone || f.Disconnect?, rest)
  }

  /** After a lost connection every named slot is to be subscribed again. */
  function Reset(t: seq<Slot>): (r: seq<Slot>)
    ensures |r| == |t|
    ensures forall i :: 0 <= i < |t| ==> r[i] == if t[i].name == [] then t[i] else t[i].(status := Alloc)
  {
    seq(|t|, i requires 0 <= i < |t| => if t[i].name == [] then t[i] else t[i].(status := Alloc))
  }

  /** receive_xpserver on one complete transmission. */
  function Receive(t: seq<Slot>, s: seq<byte>): (r: seq<Slot>)
    ensures |r| == |t|
  {
    var (u, gone) := Decode(t, false, s);
    if gone then Reset(u) else u
  }

  // ---------- sending ----------

  /** One turn of the loop in send_xpserver: the frame written for slot i when left bytes are in the
      buffer already, and the slot afterwards. */
  function SendSlot(c: Slot, client: Name, i: nat, left: nat): (r: (Option<Frame>, Slot))
    ensures r.0.Some? ==> Addresses(r.0.value, i)
    ensures r.1.name == c.name
  {
    if c.name == [] then (None, c)
    else if c.status == Alloc then
      if left + 6 * 4 + NAME_SIZE + NAME_SIZE <= TCPBUFSIZE then
        (Some(Link(i, DescOf(c), client)), c.(status := Linking))
      else (None, c)
    else if c.status == Dealloc then
      if left + 4 + NAME_SIZE <= TCPBUFSIZE then (Some(Unlink(i, c.name)), c.(status := Unlinking))
      else (None, c)
    else if c.status == Valid && |c.data| == |c.shadow| && Changed(c.ty, c.precision, c.shadow, c.data)
            && left + 2 * 4 + |c.data| * Width(c.ty) <= TCPBUFSIZE then
      var kept := if c.ty == XPTYPE_CMD_ONCE then seq(|c.data|, _ => 0) else c.data;
      (Some(Data(i, c.ty, c.data)), c.(data := kept, shadow := kept))
    else (None, c)
  }

  /** The first k turns of that loop. */
  function SendUpTo(t: seq<Slot>, client: Name, k: nat): (r: (seq<Frame>, seq<Slot>))
    requires k <= |t|
    ensures |r.1| == |t|
    ensures forall i :: k <= i < |t| ==> r.1[i] == t[i]
  {
    if k == 0 then ([], t)
    else
      var (fs, u) := SendUpTo(t, client, k - 1);
      var (o, c) := SendSlot(u[k - 1], client, k - 1, SizeAll(fs));
      (fs + Opt(o), u[k - 1 := c])
  }
}
