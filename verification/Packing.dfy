/** Sending changed outputs to an Arduino (libarduino.c): changes are packed into packets of at most ten
entries. */
module Packing {

  const MAXPACKETSEND := 10

  datatype Kind = Digital | Analog

  datatype Entry = Entry(index: nat, kind: Kind, value: int)

  /** An int copied to a 16-bit short: the same value when it fits, the low word read as signed otherwise. */
  function Short(v: int): (r: int)
    ensures -0x8000 <= r < 0x8000 && (v - r) % 0x10000 == 0
    ensures -0x8000 <= v < 0x8000 ==> r == v
  {
    (v + 0x8000) % 0x10000 - 0x8000
  }

  /** The changed ones among the first n outputs, in order. */
  function Changes(kind: Kind, values: seq<int>, changed: seq<bool>, n: nat): seq<Entry>
    requires n <= |values| == |changed|
  {
    if n == 0 then []
    else Changes(kind, values, changed, n - 1) + if changed[n - 1] then [Entry(n - 1, kind, Short(values[n - 1]))] else []
  }

  function Flatten(packets: seq<seq<Entry>>): seq<Entry> {
    if packets == [] then [] else Flatten(packets[..|packets| - 1]) + packets[|packets| - 1]
  }

  /** All but the last packet are full, and none is empty or too long. */
  predicate WellPacked(packets: seq<seq<Entry>>) {
    && (forall k :: 0 <= k < |packets| ==> 0 < |packets[k]| <= MAXPACKETSEND)
    && forall k :: 0 <= k < |packets| - 1 ==> |packets[k]| == MAXPACKETSEND
  }

  class Board {
    const outputs: array<int>
    const changed: array<bool>
    const analog: array<int>
    const analogChanged: array<bool>
    const buffer: array<Entry>

    ghost predicate Valid() {
      && outputs.Length == changed.Length && analog.Length == analogChanged.Length && buffer.Length == MAXPACKETSEND
      && changed != analogChanged
      && (buffer as object) != (outputs as object) && (buffer as object) != (analog as object)
      && (buffer as object) != (changed as object) && (buffer as object) != (analogChanged as object)
      && (changed as object) != (outputs as object) && (changed as object) != (analog as object)
      && (analogChanged as object) != (outputs as object) && (analogChanged as object) != (analog as object)
    }

    constructor (noutputs: nat, nanalog: nat)
      ensures Valid() && outputs.Length == noutputs && analog.Length == nanalog
    {
      outputs := new int[noutputs](_ => -1);
      changed := new bool[noutputs](_ => false);
      analog := new int[nanalog](_ => -1);
      analogChanged := new bool[nanalog](_ => false);
      buffer := new Entry[MAXPACKETSEND](_ => Entry(0, Digital, 0));
    }

    /** One digital output: into the packet if it has changed. */
    method PackDigital(output: nat, p: nat) returns (p': nat)
      requires Valid() && output < outputs.Length && p < MAXPACKETSEND
      modifies changed, buffer
      ensures p <= p' <= MAXPACKETSEND && changed[..] == old(changed[..])[output := false]
      ensures buffer[..p'] == old(buffer[..p]) + if old(changed[output]) then [Entry(output, Digital, Short(outputs[output]))] else []
    {
      p' := p;
      if changed[output] {
        buffer[p] := Entry(output, Digital, Short(outputs[output]));
        changed[output] := false;
        p' := p + 1;
      }
    }

    method PackAnalog(output: nat, p: nat) returns (p': nat)
      requires Valid() && output < analog.Length && p < MAXPACKETSEND
      modifies analogChanged, buffer
      ensures p <= p' <= MAXPACKETSEND && analogChanged[..] == old(analogChanged[..])[output := false]
      ensures buffer[..p'] == old(buffer[..p]) + if old(analogChanged[output]) then [Entry(output, Analog, Short(analog[output]))] else []
    {
      p' := p;
      if analogChanged[output] {
        buffer[p] := Entry(output, Analog, Short(analog[output]));
        analogChanged[output] := false;
        p' := p + 1;
      }
    }

    /** The digital outputs: full packets go out, the rest stays in the buffer. */
    method WriteDigital() returns (sent: seq<seq<Entry>>, p: nat)
      requires Valid()
      modifies changed, buffer
      ensures p < MAXPACKETSEND && (forall k :: 0 <= k < |sent| ==> |sent[k]| == MAXPACKETSEND)
      ensures Flatten(sent) + buffer[..p] == Changes(Digital, outputs[..], old(changed[..]), outputs.Length)
      ensures forall k :: 0 <= k < changed.Length ==> !changed[k]
    {
      ghost var flags := changed[..];
      sent, p := [], 0;
      var output := 0;
      while output < outputs.Length
        invariant output <= outputs.Length && p < MAXPACKETSEND
        invariant forall k :: 0 <= k < |sent| ==> |sent[k]| == MAXPACKETSEND
        invariant Flatten(sent) + buffer[..p] == Changes(Digital, outputs[..], flags, output)
        invariant forall k :: 0 <= k < changed.Length ==> changed[k] == (k >= output && flags[k])
      {
        ghost var before := buffer[..p];
        ghost var more := if changed[output] then [Entry(output, Digital, Short(outputs[output]))] else [];
        p := PackDigital(output, p);
        Pack(sent, before, more, buffer[..p]);
        if p == MAXPACKETSEND {
          Close(sent, buffer[..p]);
          sent, p := sent + [buffer[..p]], 0;
        }
        output := output + 1;
      }
    }

    /** The analog outputs: the last one also sends what is left. */
    method WriteAnalog(first: nat) returns (sent: seq<seq<Entry>>, p: nat)
      requires Valid() && first < MAXPACKETSEND
      modifies analogChanged, buffer
      ensures p == if analog.Length == 0 then first else 0
      ensures Flatten(sent) + buffer[..p] == old(buffer[..first]) + Changes(Analog, analog[..], old(analogChanged[..]), analog.Length)
      ensures WellPacked(sent)
      ensures forall k :: 0 <= k < analogChanged.Length ==> !analogChanged[k]
    {
      ghost var flags, head := analogChanged[..], buffer[..first];
      sent, p := [], first;
      var output := 0;
      while output < analog.Length
        invariant output <= analog.Length && p < MAXPACKETSEND
        invariant forall k :: 0 <= k < |sent| ==> 0 < |sent[k]| <= MAXPACKETSEND
        invariant forall k :: 0 <= k < |sent| && (output < analog.Length || k < |sent| - 1) ==> |sent[k]| == MAXPACKETSEND
        invariant output == 0 ==> p == first
        invariant 0 < output == analog.Length ==> p == 0
        invariant Flatten(sent) + buffer[..p] == head + Changes(Analog, analog[..], flags, output)
        invariant forall k :: 0 <= k < analogChanged.Length ==> analogChanged[k] == (k >= output && flags[k])
      {
        ghost var before := buffer[..p];
        ghost var more := if analogChanged[output] then [Entry(output, Analog, Short(analog[output]))] else [];
        p := PackAnalog(output, p);
        Pack(sent, before, more, buffer[..p]);
        assert head + Changes(Analog, analog[..], flags, output) + more == head + Changes(Analog, analog[..], flags, output + 1);
        if p == MAXPACKETSEND || (p > 0 && output == analog.Length - 1) {
          Close(sent, buffer[..p]);
          sent, p := sent + [buffer[..p]], 0;
        }
        output := output + 1;
      }
    }

    /** write_arduino for one board. Every change is sent, once and in order, exactly if there is an analog
        output, or the digital changes happen to fill their packets. */
    method WriteArduino() returns (packets: seq<seq<Entry>>)
      requires Valid()
      modifies changed, analogChanged, buffer
      ensures WellPacked(packets)
      ensures forall k :: 0 <= k < changed.Length ==> !changed[k]
      ensures forall k :: 0 <= k < analogChanged.Length ==> !analogChanged[k]
      ensures var digital := Changes(Digital, outputs[..], old(changed[..]), outputs.Length);
        var analogs := Changes(Analog, analog[..], old(analogChanged[..]), analog.Length);
        && (if analog.Length > 0 then Flatten(packets) == digital + analogs else Flatten(packets) == digital[..Full(|digital|)])
        && (Flatten(packets) == digital + analogs <==> analog.Length > 0 || |digital| % MAXPACKETSEND == 0)
    {
      ghost var digital := Changes(Digital, outputs[..], changed[..], outputs.Length);
      ghost var analogs := Changes(Analog, analog[..], analogChanged[..], analog.Length);
      var sent, p := WriteDigital();
      ghost var head := buffer[..p];
      var more, q := WriteAnalog(p);
      packets := sent + more;
      FlattenAppend(sent, more);
      FullPackets(sent);
      if analog.Length > 0 {
        assert buffer[..q] == [];
        assert Flatten(sent) + (head + analogs) == Flatten(sent) + head + analogs;
      } else {
        NothingMore(more, buffer[..q], head);
        FullOf(|sent|, p);
        assert Flatten(sent) == digital[..|sent| * MAXPACKETSEND];
      }
      SentIffFlushed(digital, analogs, analog.Length, Flatten(packets));
    }
  }

  lemma Pack(sent: seq<seq<Entry>>, before: seq<Entry>, more: seq<Entry>, after: seq<Entry>)
    requires after == before + more
    ensures Flatten(sent) + after == Flatten(sent) + before + more
  {
  }

  lemma Close(sent: seq<seq<Entry>>, packet: seq<Entry>)
    ensures Flatten(sent + [packet]) + [] == Flatten(sent) + packet
  {
    assert (sent + [packet])[..|sent|] == sent;
  }

  lemma {:induction false} FlattenAppend(a: seq<seq<Entry>>, b: seq<seq<Entry>>)
    ensures Flatten(a + b) == Flatten(a) + Flatten(b)
  {
    if b == [] {
      assert a + b == a;
    } else {
      FlattenAppend(a, b[..|b| - 1]);
      assert (a + b)[..|a + b| - 1] == a + b[..|b| - 1];
    }
  }

  lemma {:induction false} FullPackets(packets: seq<seq<Entry>>)
    requires forall k :: 0 <= k < |packets| ==> |packets[k]| == MAXPACKETSEND
    ensures |Flatten(packets)| == |packets| * MAXPACKETSEND
  {
    if packets != [] {
      FullPackets(packets[..|packets| - 1]);
    }
  }

  /** The part of n entries that fills whole packets. */
  function Full(n: nat): nat { n - n % MAXPACKETSEND }

  lemma FullOf(k: nat, p: nat)
    requires p < MAXPACKETSEND
    ensures Full(k * MAXPACKETSEND + p) == k * MAXPACKETSEND
  {
  }

  lemma {:induction false} SomethingSent(packets: seq<seq<Entry>>)
    requires WellPacked(packets)
    ensures packets != [] ==> |Flatten(packets)| > 0
  {
  }

  lemma {:induction false} NothingMore(more: seq<seq<Entry>>, rest: seq<Entry>, head: seq<Entry>)
    requires Flatten(more) + rest == head + [] && |rest| == |head| && WellPacked(more)
    ensures more == [] && rest == head
  {
    assert |Flatten(more) + rest| == |head + []|;
    SomethingSent(more);
    assert Flatten(more) + rest == rest && head + [] == head;
  }

  predicate Ascending(all: seq<Entry>, n: nat) {
    && (forall i :: 0 <= i < |all| ==> all[i].index < n)
    && forall i, j :: 0 <= i < j < |all| ==> all[i].index < all[j].index
  }

  /** The changes listed are exactly the changed outputs with their values, each once and in order. */
  lemma {:induction false} EachChangeOnce(kind: Kind, values: seq<int>, changed: seq<bool>, n: nat)
    requires n <= |values| == |changed|
    ensures Ascending(Changes(kind, values, changed, n), n)
    ensures forall e :: e in Changes(kind, values, changed, n) <==>
      e.index < n && changed[e.index] && e == Entry(e.index, kind, Short(values[e.index]))
  {
    if n > 0 {
      EachChangeOnce(kind, values, changed, n - 1);
      var before, all := Changes(kind, values, changed, n - 1), Changes(kind, values, changed, n);
      assert forall i :: 0 <= i < |before| ==> all[i] == before[i];
      assert Ascending(all, n) by {
        if changed[n - 1] { assert |all| == |before| + 1 && all[|before|].index == n - 1; }
      }
    }
  }

  /** Everything is sent exactly if there is an analog output, or nothing is left over for it to send. */
  lemma SentIffFlushed(digital: seq<Entry>, analogs: seq<Entry>, nanalog: nat, sent: seq<Entry>)
    requires nanalog == 0 ==> analogs == []
    requires if nanalog > 0 then sent == digital + analogs else sent == digital[..Full(|digital|)]
    ensures sent == digital + analogs <==> nanalog > 0 || |digital| % MAXPACKETSEND == 0
  {
  }
}
