/** The successor prediction in link_dataref: each slot remembers which slot was asked for after it.
The answers are those of the plain search. */
module Predictor {
  import opened Wire
  import opened Dataref
  import opened ClientTable

  /** last is the slot answered last, next the remembered successors, INT_MISS where there is none. */
  datatype Cache = Cache(last: int, next: seq<int>)

  /** (name, type, index, nelements) identifies a live slot; no call asks for a slot without a type. */
  predicate KeysUnique(t: seq<Slot>) {
    && (forall i :: 0 <= i < |t| && !Known(t[i].ty) ==> t[i].nelements < 1)
    && forall i, j :: 0 <= i < j < |t| && t[i].name != [] && Known(t[i].ty) ==> !Matches(t[i], DescOf(t[j]))
  }

  /** Remembered successors are missing or in range. */
  predicate WfCache(t: seq<Slot>, p: Cache) {
    && |p.next| == |t| && 0 <= p.last
    && forall i :: 0 <= i < |t| ==> p.next[i] == INT_MISS || 0 <= p.next[i] < |t|
  }

  function Predicted(t: seq<Slot>, p: Cache, d: Desc): Option<nat>
    requires WfCache(t, p)
  {
    if p.last < |t| && p.next[p.last] != INT_MISS && Matches(t[p.next[p.last]], d) then Some(p.next[p.last]) else None
  }

  function Remember(t: seq<Slot>, p: Cache, i: nat): Cache
    requires WfCache(t, p)
  {
    Cache(i, if p.last < |t| then p.next[p.last := i] else p.next)
  }

  /** link_dataref with its predictor. */
  function LinkPredicted(t: seq<Slot>, p: Cache, raw: Desc): (r: (Option<nat>, seq<Slot>, Cache))
    requires WfCache(t, p) && WfDesc(raw)
  {
    match Normalise(raw)
    case None => (None, t, p)
    case Some(d) =>
      NormaliseIsIdempotent(raw);
      var guess := Predicted(t, p, d);
      var i := Find(t, d, 0);
      if guess.Some? then (guess, t, p.(last := guess.value))
      else if i < |t| then (Some(i), t, Remember(t, p, i))
      else
        var k := FindFree(t, 0);
        var slot := if Known(d.ty) then Some(k) else None;
        if k < |t| then
          (slot, t[k := Taken(t, k, d)], Cache(0, if Known(d.ty) then p.next[k := INT_MISS] else p.next))
        else (slot, t + [Taken(t, k, d)], Cache(0, p.next + [INT_MISS]))
  }

  lemma MatchIsFound(t: seq<Slot>, d: Desc, i: nat)
    requires KeysUnique(t) && i < |t| && Matches(t[i], d) && d.name != [] && d.nelements >= 1
    ensures Find(t, d, 0) == i
  {
    var r := Find(t, d, 0);
    if r < i {
      assert Matches(t[r], DescOf(t[i]));
    }
  }

  /** One call: the predictor changes neither the answer nor the table, and keeps what it rests on. */
  lemma PredictionIsFaithful(t: seq<Slot>, p: Cache, raw: Desc)
    requires WfCache(t, p) && KeysUnique(t) && WfDesc(raw)
    ensures var (slot, u, q) := LinkPredicted(t, p, raw);
      (slot, u) == LinkDataref(t, raw) && WfCache(u, q) && KeysUnique(u)
  {
    if Normalise(raw).Some? {
      var d := Normalise(raw).value;
      NormaliseIsIdempotent(raw);
      var guess := Predicted(t, p, d);
      if guess.Some? {
        MatchIsFound(t, d, guess.value);
      } else if Find(t, d, 0) == |t| {
        TakingKeepsKeys(t, d, FindFree(t, 0));
      }
    }
  }

  /** Taking slot k, or growing the table by it, for a key no slot has. */
  lemma TakingKeepsKeys(t: seq<Slot>, d: Desc, k: nat)
    requires KeysUnique(t) && WfDesc(d) && Normalise(d) == Some(d) && k <= |t| && (k < |t| ==> t[k].name == [])
    requires forall i :: 0 <= i < |t| ==> !Matches(t[i], d)
    ensures KeysUnique(if k < |t| then t[k := Taken(t, k, d)] else t + [Taken(t, k, d)])
  {
    var u := if k < |t| then t[k := Taken(t, k, d)] else t + [Taken(t, k, d)];
    forall i, j | 0 <= i < j < |u| && u[i].name != [] && Known(u[i].ty)
      ensures !Matches(u[i], DescOf(u[j]))
    {
      if j == k {
        assert !Matches(t[i], d);
      } else if i == k {
        assert !Matches(t[j], d);
      }
    }
  }

  // ---------- every call history ----------

  /** All that happens to the table between and including calls of link_dataref. */
  datatype Op =
    | Link(raw: Desc)
    | Unlink(name: Name)
    | Incoming(f: Frame)
    | Outgoing(i: nat, me: Name, left: nat)
    | Written(i: nat, vals: seq<nat>)
    | Dropped

  /** unlink_dataref clears the remembered successor of each slot it releases. */
  function ClearNext(t: seq<Slot>, p: Cache, name: Name): Cache
    requires WfCache(t, p)
  {
    p.(next := seq(|t|, i requires 0 <= i < |t| => if t[i].name == name then INT_MISS else p.next[i]))
  }

  function Plain(t: seq<Slot>, op: Op): (Option<nat>, seq<Slot>) {
    match op
    case Link(raw) => if WfDesc(raw) then LinkDataref(t, raw) else (None, t)
    case Unlink(name) => (None, UnlinkDataref(t, name))
    case Incoming(f) => (None, Apply(t, f))
    case Outgoing(i, me, left) => (None, if i < |t| then t[i := SendSlot(t[i], me, i, left).1] else t)
    case Written(i, vals) => (None, if i < |t| then t[i := t[i].(data := vals)] else t)
    case Dropped => (None, Reset(t))
  }

  function Cached(t: seq<Slot>, p: Cache, op: Op): (Option<nat>, seq<Slot>, Cache)
    requires WfCache(t, p)
  {
    match op
    case Link(raw) => if WfDesc(raw) then LinkPredicted(t, p, raw) else (None, t, p)
    case Unlink(name) => (None, UnlinkDataref(t, name), ClearNext(t, p, name))
    case _ => (None, Plain(t, op).1, p)
  }

  /** The answers of the link calls of a history. */
  function PlainAnswers(t: seq<Slot>, ops: seq<Op>): seq<Option<nat>>
    decreases |ops|
  {
    if ops == [] then [] else var (a, u) := Plain(t, ops[0]); [a] + PlainAnswers(u, ops[1..])
  }

  function CachedAnswers(t: seq<Slot>, p: Cache, ops: seq<Op>): seq<Option<nat>>
    requires WfCache(t, p) && KeysUnique(t)
    decreases |ops|
  {
    if ops == [] then []
    else
      CachedIsPlain(t, p, ops[0]);
      var (a, u, q) := Cached(t, p, ops[0]); [a] + CachedAnswers(u, q, ops[1..])
  }

  lemma SameKeysStayUnique(t: seq<Slot>, u: seq<Slot>)
    requires KeysUnique(t) && |u| == |t|
    requires forall i :: 0 <= i < |t| ==>
      || DescOf(u[i]) == DescOf(t[i])
      || (if Known(u[i].ty) then u[i].name == [] && u[i].ty == t[i].ty else u[i].nelements < 1)
    ensures KeysUnique(u)
  {
    forall i, j | 0 <= i < j < |u| && u[i].name != [] && Known(u[i].ty)
      ensures !Matches(u[i], DescOf(u[j]))
    {
      assert !Matches(t[i], DescOf(t[j]));
    }
  }

  lemma CachedIsPlain(t: seq<Slot>, p: Cache, op: Op)
    requires WfCache(t, p) && KeysUnique(t)
    ensures var (a, u, q) := Cached(t, p, op); (a, u) == Plain(t, op) && WfCache(u, q) && KeysUnique(u)
  {
    if op.Link? {
      if WfDesc(op.raw) {
        PredictionIsFaithful(t, p, op.raw);
      }
    } else {
      SameKeysStayUnique(t, Plain(t, op).1);
    }
  }

  /** For every call history the predictor changes no answer. */
  lemma {:induction false} PredictorChangesNoAnswer(t: seq<Slot>, p: Cache, ops: seq<Op>)
    requires WfCache(t, p) && KeysUnique(t)
    ensures CachedAnswers(t, p, ops) == PlainAnswers(t, ops)
    decreases |ops|
  {
    if ops != [] {
      CachedIsPlain(t, p, ops[0]);
      var (a, u, q) := Cached(t, p, ops[0]);
      PredictorChangesNoAnswer(u, q, ops[1..]);
    }
  }
}
