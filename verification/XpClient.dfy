/** The client library as it runs: the global table and its send and receive loops over byte
buffers (serverdata.c, handleserver.c). Every method is tied to the functions of ClientTable and
Predictor, about which the protocol is proved. */
module XpClient {
  import opened Wire
  import opened Dataref
  import opened Buffers
  import opened ClientTable
  import opened Predictor
  import L = Lookup
  import F = Floats

  lemma StoreKeepsShape(c: Slot, vals: seq<nat>)
    requires Shaped(c) && (|vals| == |c.data| ==> WfVals(c.ty, |vals|, vals))
    ensures Shaped(Store(c, vals))
  {
  }

  lemma SlotTaken(t: seq<Slot>, d: Desc, k: nat)
    requires ShapedTable(t) && KeysUnique(t) && WfDesc(d) && Normalise(d) == Some(d)
    requires k <= |t| && (k < |t| ==> t[k].name == []) && forall i :: 0 <= i < |t| ==> !Matches(t[i], d)
    ensures var u := if k < |t| then t[k := Taken(t, k, d)] else t + [Taken(t, k, d)]; ShapedTable(u) && KeysUnique(u)
  {
    TakingKeepsKeys(t, d, k);
  }

  lemma TurnKeepsShape(c: Slot, me: Name, i: nat, left: nat)
    requires Shaped(c)
    ensures Shaped(SendSlot(c, me, i, left).1)
  {
  }

  /** The slots among the first k that carry the name. */
  function Named(t: seq<Slot>, name: Name, k: nat): nat
    requires k <= |t|
  {
    if k == 0 then 0 else Named(t, name, k - 1) + if t[k - 1].name == name then 1 else 0
  }

  /** u and next are t and its remembered successors with the first i slots of the name released. */
  predicate UnlinkedUpTo(t: seq<Slot>, p: Cache, name: Name, i: nat, u: seq<Slot>, next: seq<int>) {
    && |u| == |t| == |next| == |p.next|
    && (forall k :: 0 <= k < |t| ==> u[k] == if k < i && t[k].name == name then UnlinkSlot(t[k]) else t[k])
    && (forall k :: 0 <= k < |t| ==> next[k] == if k < i && t[k].name == name then INT_MISS else p.next[k])
  }

  lemma UnlinkedMore(t: seq<Slot>, p: Cache, name: Name, i: nat, u: seq<Slot>, next: seq<int>)
    requires UnlinkedUpTo(t, p, name, i, u, next) && i < |t|
    ensures u[i] == t[i]
    ensures if t[i].name == name then UnlinkedUpTo(t, p, name, i + 1, u[i := UnlinkSlot(t[i])], next[i := INT_MISS])
      else UnlinkedUpTo(t, p, name, i + 1, u, next)
  {
  }

  lemma Unlinked(t: seq<Slot>, p: Cache, name: Name, u: seq<Slot>, next: seq<int>)
    requires ShapedTable(t) && KeysUnique(t) && WfCache(t, p) && UnlinkedUpTo(t, p, name, |t|, u, next)
    ensures u == UnlinkDataref(t, name) && Cache(p.last, next) == ClearNext(t, p, name)
    ensures ShapedTable(u) && KeysUnique(u) && WfCache(u, Cache(p.last, next))
  {
    assert u == UnlinkDataref(t, name) && next == ClearNext(t, p, name).next;
    CachedIsPlain(t, p, Op.Unlink(name));
  }

  /** The turn of slot i, with left bytes written before it: u is the table after it and added is
      what it wrote. */
  predicate Turned(t: seq<Slot>, me: Name, i: nat, left: nat, u: seq<Slot>, added: seq<byte>)
    requires i < |t|
  {
    var (o, c) := SendSlot(t[i], me, i, left);
    (o.Some? ==> WfFrame(o.value)) && u == t[i := c] && added == Added(o)
  }

  /** The first k turns turned t into u and filled the buffer with bytes. The quantifier keeps the turns
      folded where this is only passed on. */
  predicate Filled(t: seq<Slot>, me: Name, k: nat, u: seq<Slot>, bytes: seq<byte>)
    requires k <= |t|
  {
    forall n: nat :: n == k ==>
      var (fs, v) := SendUpTo(t, me, n);
      u == v && WfFrames(fs) && |bytes| == SizeAll(fs) && bytes == EncodeAll(fs)
  }

  lemma FilledMore(t: seq<Slot>, me: Name, k: nat, u: seq<Slot>, bytes: seq<byte>, u': seq<Slot>, added: seq<byte>)
    requires k < |t| == |u| && Filled(t, me, k, u, bytes) && Turned(u, me, k, |bytes|, u', added)
    ensures Filled(t, me, k + 1, u', bytes + added)
  {
    AppendTurn(SendUpTo(t, me, k).0, SendSlot(u[k], me, k, |bytes|).0);
  }

  lemma Close(t: seq<Slot>, me: Name, u: seq<Slot>, bytes: seq<byte>)
    requires Filled(t, me, |t|, u, bytes)
    ensures var fs := SendUpTo(t, me, |t|).0;
      && WfFrames(fs) && |bytes| == SizeAll(fs) && bytes == EncodeAll(fs)
      && Sent(fs) == if bytes == [] then [] else bytes + Word(MARK_EOT)
  {
  }

  /** No frame a decoder can produce breaks the table. */
  lemma FrameKeepsTable(t: seq<Slot>, p: Cache, s: seq<byte>)
    requires ShapedTable(t) && KeysUnique(t) && WfCache(t, p) && s != []
    ensures var u := Apply(t, NextFrame(ClientSide, Shapes(t), s).0); ShapedTable(u) && KeysUnique(u) && WfCache(u, p)
  {
    var f := NextFrame(ClientSide, Shapes(t), s).0;
    CachedIsPlain(t, p, Incoming(f));
    if f.Data? && f.offset < |t| && Known(t[f.offset].ty) {
      var c := t[f.offset];
      var size := |f.vals| * Width(c.ty);
      DecodedFit(s[4..][..size], |f.vals|, Width(c.ty));
      StoreKeepsShape(c, f.vals);
    }
  }

  /** u and tail are what one turn of the decoding loop leaves of t and s. */
  predicate Decoded(t: seq<Slot>, s: seq<byte>, u: seq<Slot>, tail: seq<byte>, gone: bool)
    requires s != []
  {
    var (f, rest) := NextFrame(ClientSide, Shapes(t), s);
    u == Apply(t, f) && tail == rest && gone == f.Disconnect?
  }

  predicate DecodedBody(t: seq<Slot>, first: int, s: seq<byte>, u: seq<Slot>, tail: seq<byte>) {
    var (f, rest) := Dispatch(ClientSide, Shapes(t), first, s);
    u == Apply(t, f) && tail == rest && (first == MARK_DISCONNECT <==> f.Disconnect?)
  }

  lemma BodyDecoded(t: seq<Slot>, p: Cache, s: seq<byte>, u: seq<Slot>, tail: seq<byte>)
    requires ShapedTable(t) && KeysUnique(t) && WfCache(t, p)
    requires |s| >= 4 && DecodedBody(t, ReadWord(s[..4]), s[4..], u, tail)
    ensures Decoded(t, s, u, tail, ReadWord(s[..4]) == MARK_DISCONNECT)
    ensures ShapedTable(u) && KeysUnique(u) && WfCache(u, p)
  {
    FrameKeepsTable(t, p, s);
  }

  lemma AfterReset(t: seq<Slot>, p: Cache, u: seq<Slot>)
    requires ShapedTable(t) && KeysUnique(t) && WfCache(t, p) && |u| == |t|
    requires forall k :: 0 <= k < |t| ==> u[k] == if t[k].name != [] then t[k].(status := Alloc) else t[k]
    ensures u == Reset(t) && ShapedTable(u) && KeysUnique(u)
  {
    CachedIsPlain(t, p, Dropped);
    assert u == Reset(t);
  }

  lemma DataAtHead(t: seq<Slot>, i: nat, s: seq<byte>, vals: seq<nat>)
    requires ShapedTable(t) && i < |t| && Known(t[i].ty)
    requires var n := Count(t[i].index, t[i].nelements);
      n * Width(t[i].ty) <= |s| && vals == DecodeVals(s[..n * Width(t[i].ty)], n, Width(t[i].ty))
    ensures WfVals(t[i].ty, Count(t[i].index, t[i].nelements), vals)
    ensures NextData(Shapes(t), i, s) == (Data(i, t[i].ty, vals), s[Count(t[i].index, t[i].nelements) * Width(t[i].ty)..])
  {
    var n := Count(t[i].index, t[i].nelements);
    DecodedFit(s[..n * Width(t[i].ty)], n, Width(t[i].ty));
  }

  lemma LinkInPieces(b: seq<byte>, i: nat, d: Desc, me: Name)
    requires WfFrame(Frame.Link(i, d, me))
    ensures b + Word(MARK_LINK + i) + Word(d.ty) + Word(d.nelements) + Word(d.index) + Word(d.precision) + Pad(d.name) + Pad(me)
         == b + Bytes(Frame.Link(i, d, me))
  {
    var names := Pad(d.name) + Pad(me);
    Regroup(b + Word(MARK_LINK + i) + Word(d.ty) + Word(d.nelements) + Word(d.index) + Word(d.precision), Pad(d.name), Pad(me));
    Regroup(b + Word(MARK_LINK + i) + Word(d.ty) + Word(d.nelements) + Word(d.index), Word(d.precision), names);
    Regroup(b + Word(MARK_LINK + i) + Word(d.ty) + Word(d.nelements), Word(d.index), Word(d.precision) + names);
    Regroup(b + Word(MARK_LINK + i) + Word(d.ty), Word(d.nelements), Word(d.index) + (Word(d.precision) + names));
    Regroup(b + Word(MARK_LINK + i), Word(d.ty), Word(d.nelements) + (Word(d.index) + (Word(d.precision) + names)));
    Regroup(b, Word(MARK_LINK + i), DescBytes(d, me));
  }

  class Client {
    var table: seq<Slot>
    var next: seq<int>
    var last: int
    const me: Name

    ghost predicate Valid()
      reads this
    {
      ShapedTable(table) && KeysUnique(table) && WfCache(table, Cache(last, next)) && WfName(me)
    }

    ghost function Memory(): Cache
      reads this
    {
      Cache(last, next)
    }

    constructor (me: Name)
      requires WfName(me)
      ensures Valid() && table == [] && this.me == me
    {
      this.me := me;
      table, next, last := [], [], 0;
    }

    // ---------- serverdata.c ----------

    predicate Hit(i: nat, d: Desc)
      requires i < |table|
      reads `table
    {
      && d.name == table[i].name && d.ty == table[i].ty
      && d.index == table[i].index && d.nelements == table[i].nelements
    }

    /** The search of link_dataref: first the predicted slot, then all of them. */
    method Search(d: Desc) returns (found: bool, i: nat)
      requires Valid()
      modifies `next, `last
      ensures Valid() && found == (i < |table|)
      ensures var guess := Predicted(table, old(Memory()), d);
        if guess.Some? then i == guess.value && Memory() == old(Memory()).(last := i)
        else i == Find(table, d, 0) && Memory() == if found then Remember(table, old(Memory()), i) else old(Memory())
    {
      if last < |table| && next[last] != INT_MISS {
        i := next[last];
        if Hit(i, d) {
          last := i;
          return true, i;
        }
      }
      i := 0;
      while i < |table|
        invariant i <= |table| && Valid() && Memory() == old(Memory())
        invariant Find(table, d, 0) == Find(table, d, i)
      {
        if Hit(i, d) {
          if last < |table| {
            next := next[last := i];
          }
          last := i;
          return true, i;
        }
        i := i + 1;
      }
      return false, i;
    }

    method FindFreeSlot() returns (i: nat)
      ensures i == FindFree(table, 0)
    {
      i := 0;
      while i < |table| && table[i].name != []
        invariant i <= |table| && FindFree(table, 0) == FindFree(table, i)
      {
        i := i + 1;
      }
    }

    /** Storage for a new dataref, in the first free slot or behind the last one. */
    method Create(d: Desc) returns (i: nat)
      requires Valid() && WfDesc(d) && Normalise(d) == Some(d)
      requires forall k :: 0 <= k < |table| ==> !Matches(table[k], d)
      modifies `table, `next, `last
      ensures Valid() && i == FindFree(old(table), 0) && last == 0
      ensures var c := Taken(old(table), i, d); table == if i < |old(table)| then old(table)[i := c] else old(table) + [c]
      ensures next == if i == |old(table)| then old(next) + [INT_MISS]
        else if Known(d.ty) then old(next)[i := INT_MISS] else old(next)
    {
      i := FindFreeSlot();
      last := 0;
      ghost var t := table;
      SlotTaken(t, d, i);
      if i == |table| {
        table, next := table + [EMPTY], next + [INT_MISS];
      }
      if Known(d.ty) {
        table, next := table[i := Fresh(d)], next[i := INT_MISS];
      } else {
        table := table[i := table[i].(status := Uninitialized, data := [], shadow := [])];
      }
      assert table == if i < |t| then t[i := Taken(t, i, d)] else t + [Taken(t, i, d)];
    }

    /** link_dataref answers and stores what the plain search would. */
    method Link(raw: Desc) returns (slot: Option<nat>)
      requires Valid() && WfDesc(raw)
      modifies `table, `next, `last
      ensures Valid() && (slot, table) == LinkDataref(old(table), raw)
      ensures (slot, table, Memory()) == LinkPredicted(old(table), old(Memory()), raw)
      ensures slot.Some? <==> L.Answerable(raw)
      ensures slot.Some? ==> slot.value < |table| && L.Carries(table[slot.value], raw)
    {
      PredictionIsFaithful(table, Memory(), raw);
      L.LinkAnswers(table, raw);
      var d := Normalise(raw);
      if d.None? {
        return None;
      }
      NormaliseIsIdempotent(raw);
      var found, i := Search(d.value);
      if !found {
        i := Create(d.value);
      }
      slot := if found || Known(d.value.ty) then Some(i) else None;
    }

    /** unlink_dataref: the number of slots released. */
    method Unlink(name: Name) returns (found: nat)
      requires Valid() && WfName(name)
      modifies `table, `next
      ensures Valid() && table == UnlinkDataref(old(table), name)
      ensures Memory() == ClearNext(old(table), old(Memory()), name)
      ensures found == Named(old(table), name, |old(table)|)
    {
      ghost var t, p := table, Memory();
      var i := 0;
      found := 0;
      while i < |table|
        invariant 0 <= i <= |table| == |t| && last == p.last
        invariant UnlinkedUpTo(t, p, name, i, table, next) && found == Named(t, name, i)
      {
        UnlinkedMore(t, p, name, i, table, next);
        if table[i].name == name {
          found := found + 1;
          table, next := table[i := UnlinkSlot(table[i])], next[i := INT_MISS];
        }
        i := i + 1;
      }
      Unlinked(t, p, name, table, next);
    }

    // ---------- send_xpserver ----------

    method WriteLink(buf: array<byte>, left: nat, i: nat) returns (end: nat)
      requires Valid() && i < |table| <= MAX_OFFSETS && left + 220 <= buf.Length
      modifies buf
      ensures WfFrame(Frame.Link(i, DescOf(table[i]), me)) && end == left + 220
      ensures buf[..end] == old(buf[..left]) + Bytes(Frame.Link(i, DescOf(table[i]), me))
    {
      var c := table[i];
      end := PutWord(buf, left, MARK_LINK + i);
      end := PutWord(buf, end, c.ty);
      end := PutWord(buf, end, c.nelements);
      end := PutWord(buf, end, c.index);
      end := PutWord(buf, end, c.precision);
      end := Put(buf, end, Pad(c.name));
      end := Put(buf, end, Pad(me));
      LinkInPieces(old(buf[..left]), i, DescOf(c), me);
    }

    /** Some element has moved by enough. */
    method IsChanged(i: nat) returns (changed: bool)
      requires Valid() && i < |table| && Known(table[i].ty)
      ensures changed == Changed(table[i].ty, table[i].precision, table[i].shadow, table[i].data)
      ensures F.Found(table[i].ty, table[i].precision, table[i].shadow, table[i].data, changed)
    {
      var c := table[i];
      changed := false;
      var j := 0;
      while j < |c.data|
        invariant j <= |c.data|
        invariant changed == exists k :: 0 <= k < j && ElemChanged(c.ty, c.precision, c.shadow[k], c.data[k])
      {
        if ElemChanged(c.ty, c.precision, c.shadow[j], c.data[j]) {
          changed := true;
        }
        j := j + 1;
      }
      F.ChangedIsFound(c.ty, c.precision, c.shadow, c.data);
    }

    method SendValid(buf: array<byte>, left: nat, i: nat) returns (end: nat, ghost added: seq<byte>)
      requires Valid() && i < |table| <= MAX_OFFSETS && left <= TCPBUFSIZE <= buf.Length
      requires table[i].name != [] && table[i].status == Status.Valid
      modifies `table, buf
      ensures end == left + |added| <= TCPBUFSIZE && buf[..end] == old(buf[..left]) + added
      ensures Turned(old(table), me, i, left, table, added)
    {
      var c := table[i];
      end, added := left, [];
      if Known(c.ty) {
        var changed := IsChanged(i);
        if changed && left + 2 * 4 + |c.data| * Width(c.ty) <= TCPBUFSIZE {
          end := PutData(buf, left, i, c.ty, c.data);
          added := Bytes(Data(i, c.ty, c.data));
          var kept := if c.ty == XPTYPE_CMD_ONCE then seq(|c.data|, _ => 0) else c.data;
          table := table[i := c.(data := kept, shadow := kept)];
        }
      }
    }

    /** The request for a slot that is to be subscribed or to be left. */
    method SendRequest(buf: array<byte>, left: nat, i: nat) returns (end: nat, ghost added: seq<byte>)
      requires Valid() && i < |table| <= MAX_OFFSETS && left <= TCPBUFSIZE <= buf.Length
      requires table[i].name != [] && (table[i].status == Alloc || table[i].status == Dealloc)
      modifies `table, buf
      ensures end == left + |added| <= TCPBUFSIZE && buf[..end] == old(buf[..left]) + added
      ensures Turned(old(table), me, i, left, table, added)
    {
      var c := table[i];
      end, added := left, [];
      if c.status == Alloc {
        if left + 6 * 4 + NAME_SIZE + NAME_SIZE <= TCPBUFSIZE {
          end := WriteLink(buf, left, i);
          added := Bytes(Frame.Link(i, DescOf(c), me));
          table := table[i := c.(status := Linking)];
        }
      } else if left + 4 + NAME_SIZE <= TCPBUFSIZE {
        end := PutText(buf, left, MARK_UNLINK + i, c.name);
        added := Bytes(Frame.Unlink(i, c.name));
        table := table[i := c.(status := Unlinking)];
      }
    }

    /** The turn of slot i. */
    method SendTurn(buf: array<byte>, left: nat, i: nat) returns (end: nat, ghost added: seq<byte>)
      requires Valid() && i < |table| <= MAX_OFFSETS && left <= TCPBUFSIZE <= buf.Length
      modifies `table, buf
      ensures Valid() && |table| == |old(table)|
      ensures end == left + |added| <= TCPBUFSIZE && buf[..end] == old(buf[..left]) + added
      ensures Turned(old(table), me, i, left, table, added)
    {
      CachedIsPlain(table, Memory(), Outgoing(i, me, left));
      TurnKeepsShape(table[i], me, i, left);
      end, added := left, [];
      if table[i].name == [] {
      } else if table[i].status == Alloc || table[i].status == Dealloc {
        end, added := SendRequest(buf, left, i);
      } else if table[i].status == Status.Valid {
        end, added := SendValid(buf, left, i);
      }
    }

    method FillTurn(ghost t: seq<Slot>, buf: array<byte>, n: nat, i: nat) returns (end: nat)
      requires Valid() && i < |t| == |table| <= MAX_OFFSETS && n <= TCPBUFSIZE <= buf.Length
      requires Filled(t, me, i, table, buf[..n])
      modifies `table, buf
      ensures Valid() && |table| == |t| && end <= TCPBUFSIZE
      ensures Filled(t, me, i + 1, table, buf[..end])
    {
      ghost var u, bytes := table, buf[..n];
      ghost var added;
      end, added := SendTurn(buf, n, i);
      FilledMore(t, me, i, u, bytes, table, added);
    }

    /** The loop of send_xpserver over the table. */
    method FillBuffer(buf: array<byte>) returns (n: nat)
      requires Valid() && |table| <= MAX_OFFSETS && TCPBUFSIZE <= buf.Length
      modifies `table, buf
      ensures Valid() && n <= TCPBUFSIZE && |table| == |old(table)|
      ensures Filled(old(table), me, |old(table)|, table, buf[..n])
    {
      ghost var t := table;
      var i := 0;
      n := 0;
      while i < |table|
        invariant i <= |table| == |t| <= MAX_OFFSETS && Valid()
        invariant n <= TCPBUFSIZE && Filled(t, me, i, table, buf[..n])
      {
        n := FillTurn(t, buf, n, i);
        i := i + 1;
      }
    }

    /** send_xpserver: the first n bytes of the buffer are what goes to the socket. If the end word does not
        fit the buffer behind the frames it is missing here, where the C code writes beyond the buffer. */
    method SendXpserver(buf: array<byte>) returns (n: nat, overrun: bool)
      requires Valid() && |table| <= MAX_OFFSETS && buf.Length == TCPBUFSIZE
      modifies `table, buf
      ensures Valid() && n <= buf.Length
      ensures var (fs, t) := SendUpTo(old(table), me, |old(table)|);
        table == t && WfFrames(fs) && (overrun <==> !EndFits(fs)) && buf[..n] == Buffered(fs)
    {
      ghost var t := table;
      n := FillBuffer(buf);
      Close(t, me, table, buf[..n]);
      overrun := n + 4 > TCPBUFSIZE;
      if 0 < n && !overrun {
        n := PutWord(buf, n, MARK_EOT);
      }
    }

    // ---------- receive_xpserver ----------

    /** The elements received, unless the slot is not ready for them. */
    method StoreElements(i: nat, vals: seq<nat>)
      requires Valid() && i < |table| && Known(table[i].ty)
      requires WfVals(table[i].ty, Count(table[i].index, table[i].nelements), vals)
      modifies `table
      ensures table == old(table)[i := Store(old(table[i]), vals)]
    {
      var c := table[i];
      if c.status == Status.Valid && c.data != [] {
        var j, data, shadow := 0, c.data, c.shadow;
        while j < |vals|
          invariant j <= |vals| == |data| == |shadow| == |c.data| == |c.shadow|
          invariant forall k :: 0 <= k < |vals| ==> data[k] == if k < j && vals[k] != MissCode(c.ty) then vals[k] else c.data[k]
          invariant forall k :: 0 <= k < |vals| ==> shadow[k] == if k < j && vals[k] != MissCode(c.ty) then vals[k] else c.shadow[k]
        {
          if vals[j] != MissCode(c.ty) {
            data, shadow := data[j := vals[j]], shadow[j := vals[j]];
          }
          j := j + 1;
        }
        assert data == Merge(c.ty, c.data, vals) && shadow == Merge(c.ty, c.shadow, vals);
        table := table[i := c.(data := data, shadow := shadow)];
      }
    }

    /** The payload of a data frame for a slot with a type. */
    method ReceiveElements(i: nat, buf: array<byte>, n: nat, left: nat, nelements: nat, w: nat, size: nat)
      requires Valid() && left <= n <= buf.Length && i < |table| && Known(table[i].ty)
      requires nelements == Count(table[i].index, table[i].nelements) && w == Width(table[i].ty) && size == nelements * w <= left
      modifies `table
      ensures var (f, tail) := NextData(Shapes(old(table)), i, buf[n - left..n]);
        table == Apply(old(table), f) && tail == buf[n - left..n][size..]
    {
      ghost var s := buf[n - left..n];
      var vals := ReadVals(buf, n - left, nelements, w);
      SubSlice(buf[..], n - left, n, 0, size);
      DataAtHead(table, i, s, vals);
      StoreElements(i, vals);
    }

    method ReceiveData(i: nat, buf: array<byte>, n: nat, left: nat) returns (rest: nat)
      requires Valid() && left <= n <= buf.Length
      modifies `table
      ensures rest <= left
      ensures var (f, tail) := NextData(Shapes(old(table)), i, buf[n - left..n]);
        table == Apply(old(table), f) && tail == buf[n - rest..n]
    {
      rest := left;
      if i < |table| && Known(table[i].ty) {
        var nelements, w := Count(table[i].index, table[i].nelements), Width(table[i].ty);
        var size := nelements * w;
        if left >= size {
          ReceiveElements(i, buf, n, left, nelements, w, size);
          rest := left - size;
          assert buf[n - left..n][size..] == buf[n - rest..n];
        } else {
          rest := 0;
        }
      }
    }

    /** A confirmation, of a subscription or of its end. */
    method ReceiveText(unlinked: bool, i: nat, buf: array<byte>, n: nat, left: nat) returns (rest: nat)
      requires Valid() && left <= n <= buf.Length
      modifies `table
      ensures rest <= left
      ensures |table| == |old(table)|
      ensures if left < NAME_SIZE then rest == 0 && table == old(table)
        else
          && rest == left - NAME_SIZE
          && var text := CStr(buf[n - left..n][..NAME_SIZE]);
             table == Apply(old(table), if unlinked then Frame.Unlink(i, text) else LinkReply(i, text))
    {
      rest := 0;
      if left >= NAME_SIZE {
        rest := left - NAME_SIZE;
        var text := CStr(buf[n - left..n - left + NAME_SIZE]);
        assert buf[n - left..n][..NAME_SIZE] == buf[n - left..n - left + NAME_SIZE];
        if i < |table| && table[i].name == text {
          if unlinked {
            table := table[i := table[i].(name := [], status := Uninitialized)];
          } else {
            table := table[i := table[i].(status := Status.Valid)];
          }
        }
      }
    }

    /** The frame behind its first word. */
    method ReceiveBody(first: int, buf: array<byte>, n: nat, left: nat) returns (rest: nat)
      requires Valid() && left <= n <= buf.Length
      modifies `table
      ensures rest <= left
      ensures DecodedBody(old(table), first, buf[n - left..n], table, buf[n - rest..n])
    {
      rest := left;
      if MARK_DATA <= first < MARK_LINK {
        rest := ReceiveData(first - MARK_DATA, buf, n, left);
      } else if MARK_LINK <= first < MARK_UNLINK {
        rest := ReceiveText(false, first - MARK_LINK, buf, n, left);
      } else if MARK_UNLINK <= first < MARK_EOT {
        rest := ReceiveText(true, first - MARK_UNLINK, buf, n, left);
      }
    }

    /** The first of the bytes left. */
    method ReadFirst(buf: array<byte>, n: nat, left: nat) returns (first: int)
      requires 4 <= left <= n <= buf.Length
      ensures var s := buf[n - left..n]; first == ReadWord(s[..4]) && s[4..] == buf[n - (left - 4)..n]
    {
      first := ReadWord(buf[n - left..n - left + 4]);
      assert buf[n - left..n][..4] == buf[n - left..n - left + 4];
    }

    /** One turn of the decoding loop, with left bytes to go. */
    method ReceiveTurn(buf: array<byte>, n: nat, left: nat) returns (rest: nat, gone: bool)
      requires Valid() && 0 < left <= n <= buf.Length
      modifies `table
      ensures Valid() && rest < left
      ensures Decoded(old(table), buf[n - left..n], table, buf[n - rest..n], gone)
    {
      ghost var t, s := table, buf[n - left..n];
      rest, gone := 0, false;
      if left >= 4 {
        var first := ReadFirst(buf, n, left);
        rest := ReceiveBody(first, buf, n, left - 4);
        BodyDecoded(t, Memory(), s, table, buf[n - rest..n]);
        gone := first == MARK_DISCONNECT;
      }
    }

    /** After a lost connection. */
    method ResetAll()
      requires Valid()
      modifies `table
      ensures Valid() && table == Reset(old(table))
    {
      ghost var t := table;
      var i := 0;
      while i < |table|
        invariant i <= |table| == |t|
        invariant forall k :: 0 <= k < |t| ==> table[k] == if k < i && t[k].name != [] then t[k].(status := Alloc) else t[k]
      {
        if table[i].name != [] {
          table := table[i := table[i].(status := Alloc)];
        }
        i := i + 1;
      }
      AfterReset(t, Memory(), table);
    }

    /** receive_xpserver behind its reassembly: n bytes of the buffer hold what came in. Whatever the
        bytes are, the table stays valid. */
    method ReceiveXpserver(buf: array<byte>, n: nat)
      requires Valid() && n <= buf.Length
      modifies `table
      ensures Valid() && table == Receive(old(table), buf[..n])
    {
      ghost var all := Decode(table, false, buf[..n]);
      var left, gone := n, false;
      assert buf[n - left..n] == buf[..n];
      while left > 0
        invariant 0 <= left <= n && Valid()
        invariant Decode(table, gone, buf[n - left..n]) == all
      {
        var rest, bye := ReceiveTurn(buf, n, left);
        left, gone := rest, gone || bye;
      }
      assert buf[n - left..n] == [];
      if gone {
        ResetAll();
      }
    }
  }
}
