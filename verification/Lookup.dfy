/** What link_dataref is for: it answers the slot of the dataref asked for. */
module Lookup {
  import opened Wire
  import opened Dataref
  import opened Predictor
  import C = ClientTable

  // ---------- the request ----------

  /** A request that can be answered: a name, and for an array an element of it, or -1 for all. */
  predicate Answerable(raw: Desc) {
    && raw.name != [] && Known(raw.ty)
    && (Array(raw.ty) ==> raw.nelements >= 1 && -1 <= raw.index < raw.nelements)
  }

  predicate Array(ty: int) { ty == XPTYPE_INT_ARR || ty == XPTYPE_FLT_ARR || ty == XPTYPE_BYTE_ARR }

  /** The slot carries what was asked for; of a scalar there is only one element. */
  predicate Carries(c: C.Slot, raw: Desc) {
    && c.name == raw.name && c.ty == raw.ty
    && c.nelements == (if Array(raw.ty) then raw.nelements else 1)
    && c.index == (if Array(raw.ty) then raw.index else 0)
  }

  /** The checks let through what can be answered, and leave a precision only to floating point types. */
  lemma ChecksPass(raw: Desc)
    requires Known(raw.ty)
    ensures Normalise(raw).Some? <==> Answerable(raw)
    ensures Answerable(raw) ==>
      var d := Normalise(raw).value;
      && d.name == raw.name && d.ty == raw.ty
      && d.nelements == (if Array(raw.ty) then raw.nelements else 1) && d.index == (if Array(raw.ty) then raw.index else 0)
      && d.precision == if Floating(raw.ty) && -10 <= raw.precision <= 10 then raw.precision else INT_MISS
  {
  }

  // ---------- link_dataref ----------

  lemma NoSlotWithoutType(t: seq<C.Slot>, raw: Desc)
    requires KeysUnique(t) && WfDesc(raw) && !Known(raw.ty)
    ensures C.LinkDataref(t, raw).0 == None
  {
    if Normalise(raw).Some? { NormaliseIsIdempotent(raw); }
  }

  /** A call is answered exactly if it can be, and then with a slot that carries what was asked for. */
  lemma LinkAnswers(t: seq<C.Slot>, raw: Desc)
    requires KeysUnique(t) && WfDesc(raw)
    ensures var (a, u) := C.LinkDataref(t, raw);
      && (a.Some? <==> Answerable(raw))
      && (a.Some? ==> a.value < |u| && Carries(u[a.value], raw))
  {
    if Known(raw.ty) {
      ChecksPass(raw);
      if Normalise(raw).Some? { NormaliseIsIdempotent(raw); }
    } else {
      NoSlotWithoutType(t, raw);
    }
  }

  /** Two requests ask for the same. */
  predicate SameRequest(a: Desc, b: Desc) {
    a.name == b.name && a.ty == b.ty && (Array(a.ty) ==> a.nelements == b.nelements && a.index == b.index)
  }

  lemma CarriersAgree(c: C.Slot, a: Desc, b: Desc)
    requires Carries(c, a)
    ensures Carries(c, b) <==> SameRequest(a, b)
  {
  }

  lemma CarrierMatches(c: C.Slot, raw: Desc)
    requires Answerable(raw) && Carries(c, raw)
    ensures C.Matches(c, Normalise(raw).value)
  {
    ChecksPass(raw);
  }

  /** A slot that carries a request is the one found for it, and no other is. */
  lemma CarrierIsFound(t: seq<C.Slot>, raw: Desc, k: nat)
    requires KeysUnique(t) && WfDesc(raw) && Answerable(raw) && k < |t| && t[k].name != []
    ensures C.LinkDataref(t, raw).0 == Some(k) <==> Carries(t[k], raw)
  {
    ChecksPass(raw);
    NormaliseIsIdempotent(raw);
    var d := Normalise(raw).value;
    if Carries(t[k], raw) {
      CarrierMatches(t[k], raw);
      MatchIsFound(t, d, k);
    }
  }

  /** Nothing of this releases slot k, which has the name. */
  predicate Spares(op: Op, k: nat, name: Name) {
    && (op.Unlink? ==> op.name != name)
    && (op.Incoming? && op.f.Unlink? && op.f.offset == k ==> op.f.text != name)
  }

  lemma SparedStays(t: seq<C.Slot>, op: Op, k: nat)
    requires KeysUnique(t) && k < |t| && t[k].name != [] && Spares(op, k, t[k].name)
    ensures var u := Plain(t, op).1; KeysUnique(u) && k < |u| && C.DescOf(u[k]) == C.DescOf(t[k])
  {
    CachedIsPlain(t, Cache(0, seq(|t|, _ => INT_MISS)), op);
    if op.Link? && WfDesc(op.raw) && Normalise(op.raw).Some? { NormaliseIsIdempotent(op.raw); }
  }

  function After(t: seq<C.Slot>, ops: seq<Op>): seq<C.Slot>
    decreases |ops|
  {
    if ops == [] then t else After(Plain(t, ops[0]).1, ops[1..])
  }

  lemma {:induction false} SparedStaysOver(t: seq<C.Slot>, ops: seq<Op>, k: nat)
    requires KeysUnique(t) && k < |t| && t[k].name != []
    requires forall j :: 0 <= j < |ops| ==> Spares(ops[j], k, t[k].name)
    ensures var u := After(t, ops); KeysUnique(u) && k < |u| && C.DescOf(u[k]) == C.DescOf(t[k])
    decreases |ops|
  {
    if ops != [] {
      SparedStays(t, ops[0], k);
      SparedStaysOver(Plain(t, ops[0]).1, ops[1..], k);
    }
  }

  /** Two calls get the same slot exactly if they ask for the same, whatever happens to the table in between, as
      long as the slot is not released. */
  lemma SameSlotIffSameRequest(t: seq<C.Slot>, first: Desc, ops: seq<Op>, second: Desc)
    requires KeysUnique(t) && WfDesc(first) && WfDesc(second) && Answerable(first) && Answerable(second)
    requires var k := C.LinkDataref(t, first).0; k.Some? ==> forall j :: 0 <= j < |ops| ==> Spares(ops[j], k.value, first.name)
    ensures var (a, u) := C.LinkDataref(t, first); var v := After(u, ops);
      a.Some? && (C.LinkDataref(v, second).0 == a <==> SameRequest(first, second))
  {
    LinkAnswers(t, first);
    CachedIsPlain(t, Cache(0, seq(|t|, _ => INT_MISS)), Op.Link(first));
    var (a, u) := C.LinkDataref(t, first);
    var k, v := a.value, After(u, ops);
    SparedStaysOver(u, ops, k);
    CarrierIsFound(v, second, k);
    CarriersAgree(v[k], first, second);
  }
}
