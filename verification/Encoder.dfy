/** The Arduino's input history (libarduino.c, ini.c): a matrix that is shifted on every change, read one
snapshot a cycle, acts as a queue of snapshots; rotary encoders are counted from consecutive ones. */
module Encoder {
  import opened Dataref

  const MAXSAVE := 30
  const MAXINPUTS := 14
  const INPUTINITVAL := -1

  /** The history keeps characters, of which the last eight bits of a value are left. */
  function Char(v: int): (r: int)
    ensures -128 <= r < 128
  {
    (v + 128) % 256 - 128
  }

  /** What fits a character is kept, and of the rest what is left modulo 256. */
  lemma CharKeeps(v: int)
    ensures -128 <= v < 128 ==> Char(v) == v
    ensures Char(v + 256) == Char(v)
  {
  }

  /** The values of all inputs at one moment. */
  type Snapshot = seq<int>

  /** Every snapshot so far, oldest first, and how many of them are still to be read. */
  datatype Queue = Queue(snaps: seq<Snapshot>, nsave: nat)

  predicate WfQueue(q: Queue, ninputs: nat) {
    && q.nsave < |q.snaps| && q.nsave <= MAXSAVE
    && forall k :: 0 <= k < |q.snaps| ==> |q.snaps[k]| == ninputs
  }

  /** The snapshot to be read next. */
  function Cursor(q: Queue): nat
    requires q.nsave < |q.snaps|
  {
    |q.snaps| - q.nsave
  }

  function Latest(q: Queue): Snapshot
    requires q.snaps != []
  {
    q.snaps[|q.snaps| - 1]
  }

  /** A digital value arrives. One that no character can hold differs from all of them, and so counts as a
      change whenever it is reported. */
  function Push(q: Queue, input: nat, val: int): Queue
    requires q.snaps != [] && input < |Latest(q)|
  {
    if val == Latest(q)[input] then q
    else Queue(q.snaps + [Latest(q)[input := Char(val)]], if q.nsave < MAXSAVE then q.nsave + 1 else q.nsave)
  }

  /** The end of a cycle. */
  function Pop(q: Queue): Queue {
    q.(nsave := if q.nsave > 0 then q.nsave - 1 else 0)
  }

  // ---------- directions ----------

  /** The pair of bits of a two-bit encoder, unknown bits of the older pair taken from the newer. */
  function OldBit(old_: int, new_: int): int { if old_ == INPUTINITVAL then new_ else old_ }

  function GrayStep(o: int, n: int): int {
    if (o == 0 && n == 1) || (o == 1 && n == 3) || (o == 3 && n == 2) || (o == 2 && n == 0) then 1
    else if (o == 2 && n == 3) || (o == 3 && n == 1) || (o == 1 && n == 0) || (o == 0 && n == 2) then -1
    else 0
  }

  function OpticalStep(o0: int, o1: int, n0: int, n1: int): int {
    if o0 == 0 && o1 == 1 && n0 == 0 && n1 == 0 then -1
    else if o0 == 0 && o1 == 1 && n0 == 1 && n1 == 1 then 1
    else if o0 == 1 && o1 == 0 && n0 == 1 && n1 == 1 then -1
    else if o0 == 1 && o1 == 0 && n0 == 0 && n1 == 0 then 1
    else 0
  }

  /** Whether encoder_inputf looks at the pair at all. */
  predicate Moved(a: Snapshot, b: Snapshot, i: nat, j: nat)
    requires i < |a| == |b| && j < |a|
  {
    && ((b[i] != a[i] && a[i] != INPUTINITVAL) || (b[j] != a[j] && a[j] != INPUTINITVAL))
    && b[i] != INPUTINITVAL && b[j] != INPUTINITVAL
  }

  /** The direction read from snapshot a to snapshot b. */
  function Direction(a: Snapshot, b: Snapshot, i: nat, j: nat, kind: int): int
    requires i < |a| == |b| && j < |a|
  {
    if !Moved(a, b, i, j) then 0
    else
      var o0, o1 := OldBit(a[i], b[i]), OldBit(a[j], b[j]);
      if kind == 1 then OpticalStep(o0, o1, b[i], b[j])
      else if kind == 2 then GrayStep(Char(o0 + 2 * o1), Char(b[i] + 2 * b[j]))
      else 0
  }

  /** Nothing is read from an input whose value is not known yet, nor from one that has just become known. */
  lemma UnknownIsNoMove(a: Snapshot, b: Snapshot, i: nat, j: nat, kind: int)
    requires i < |a| == |b| && j < |a|
    ensures b[i] == -1 || b[j] == -1 ==> Direction(a, b, i, j, kind) == 0
    ensures a[i] == -1 && a[j] == -1 ==> Direction(a, b, i, j, kind) == 0
    ensures a[i] == b[i] && a[j] == b[j] ==> Direction(a, b, i, j, kind) == 0
  {
  }

  /** If only one of them was known, the other counts as unchanged. */
  lemma UnknownCountsAsUnchanged(a: Snapshot, b: Snapshot, i: nat, j: nat, kind: int)
    requires i < |a| == |b| && j < |a| && i != j && a[i] != -1 && a[j] == -1
    ensures Direction(a, b, i, j, kind) == Direction(a[j := b[j]], b, i, j, kind)
    ensures Direction(a, b, j, i, kind) == Direction(a[j := b[j]], b, j, i, kind)
  {
  }

  // ---------- the device ----------

  class Board {
    const ninputs: nat
    const inputs: array2<int>
    var nsave: nat
    ghost var snaps: seq<Snapshot>

    /** Row s of the matrix is the snapshot s changes ago. */
    ghost predicate Valid()
      reads this, inputs
    {
      && ninputs <= MAXINPUTS && inputs.Length0 == MAXINPUTS && inputs.Length1 == MAXSAVE
      && WfQueue(Queue(snaps, nsave), ninputs)
      && forall i, s :: 0 <= i < ninputs && 0 <= s < MAXSAVE ==> inputs[i, s] == Ago(snaps, i, s)
    }

    ghost function TheQueue(): Queue
      reads this
    {
      Queue(snaps, nsave)
    }

    constructor (ninputs: nat)
      requires ninputs <= MAXINPUTS
      ensures Valid() && this.ninputs == ninputs && fresh(inputs)
      ensures TheQueue() == Queue([seq(ninputs, _ => INPUTINITVAL)], 0)
    {
      this.ninputs := ninputs;
      inputs := new int[MAXINPUTS, MAXSAVE]((_, _) => INPUTINITVAL);
      nsave := 0;
      snaps := [seq(ninputs, _ => INPUTINITVAL)];
    }

    /** One input's history moves back by one. */
    method ShiftRow(i: nat)
      requires inputs.Length0 == MAXINPUTS && inputs.Length1 == MAXSAVE && i < MAXINPUTS
      modifies inputs
      ensures forall k, t :: 0 <= k < MAXINPUTS && 0 <= t < MAXSAVE ==>
        inputs[k, t] == old(inputs[k, if k == i && t > 0 then t - 1 else t])
    {
      var s := MAXSAVE - 2;
      while s >= 0
        invariant -1 <= s <= MAXSAVE - 2
        invariant forall k, t :: 0 <= k < MAXINPUTS && 0 <= t < MAXSAVE ==>
          inputs[k, t] == old(inputs[k, if k == i && t > s + 1 then t - 1 else t])
      {
        inputs[i, s + 1] := inputs[i, s];
        s := s - 1;
      }
    }

    /** All inputs in the history move back by one. */
    method Shift()
      requires Valid()
      modifies inputs
      ensures forall i, s :: 0 <= i < ninputs && 0 <= s < MAXSAVE ==> inputs[i, s] == old(inputs[i, if s > 0 then s - 1 else 0])
    {
      var i := 0;
      while i < ninputs
        invariant i <= ninputs
        invariant forall k, t :: 0 <= k < ninputs && 0 <= t < MAXSAVE ==>
          inputs[k, t] == old(inputs[k, if k < i && t > 0 then t - 1 else t])
      {
        ShiftRow(i);
        i := i + 1;
      }
    }

    /** The digital part of read_arduino. */
    method Receive(input: nat, val: int)
      requires Valid() && input < ninputs
      modifies this, inputs
      ensures Valid() && TheQueue() == Push(old(TheQueue()), input, val)
    {
      if val != inputs[input, 0] {
        Shift();
        inputs[input, 0] := Char(val);
        if nsave < MAXSAVE {
          nsave := nsave + 1;
        }
        AgoPushed(snaps, snaps[|snaps| - 1][input := Char(val)]);
        snaps := snaps + [snaps[|snaps| - 1][input := Char(val)]];
      }
    }

    /** The counter's part of reset_arduinodata. */
    method Reset()
      requires Valid()
      modifies `nsave
      ensures Valid() && TheQueue() == Pop(old(TheQueue()))
    {
      if nsave > 0 {
        nsave := nsave - 1;
      }
    }

    /** The direction between the two snapshots at the cursor; changed is -1 for an unknown kind of
        encoder that moved. */
    method ReadDirection(i: nat, j: nat, kind: int) returns (updown: int, changed: int)
      requires Valid() && i < ninputs && j < ninputs
      ensures
        var c := Cursor(TheQueue());
        updown == if 0 < nsave < MAXSAVE then Direction(snaps[c - 1], snaps[c], i, j, kind) else 0
      ensures changed == if updown != 0 then 1
        else if 0 < nsave < MAXSAVE && kind != 1 && kind != 2
                && Moved(snaps[Cursor(TheQueue()) - 1], snaps[Cursor(TheQueue())], i, j) then -1
        else 0
    {
      updown, changed := 0, 0;
      if nsave != 0 {
        var s := nsave - 1;
        if s < MAXSAVE - 1 {
          AtCursor(TheQueue());
          assert inputs[i, s] == Ago(snaps, i, s) && inputs[i, s + 1] == Ago(snaps, i, s + 1);
          assert inputs[j, s] == Ago(snaps, j, s) && inputs[j, s + 1] == Ago(snaps, j, s + 1);
          if ((inputs[i, s] != inputs[i, s + 1] && inputs[i, s + 1] != INPUTINITVAL)
              || (inputs[j, s] != inputs[j, s + 1] && inputs[j, s + 1] != INPUTINITVAL))
             && inputs[i, s] != INPUTINITVAL && inputs[j, s] != INPUTINITVAL {
            var o0, o1 := OldBit(inputs[i, s + 1], inputs[i, s]), OldBit(inputs[j, s + 1], inputs[j, s]);
            if kind == 1 {
              updown := OpticalStep(o0, o1, inputs[i, s], inputs[j, s]);
            } else if kind == 2 {
              updown := GrayStep(Char(o0 + 2 * o1), Char(inputs[i, s] + 2 * inputs[j, s]));
            } else {
              changed := -1;
            }
            if updown != 0 {
              changed := 1;
            }
          }
        }
      }
    }

    /** encoder_inputf: the value moves by the direction read, further the more changes are waiting. */
    method EncoderInput(i: nat, j: nat, value: Option<real>, multiplier: real, kind: int)
      returns (changed: int, value': Option<real>)
      requires Valid() && i < ninputs && j < ninputs
      ensures
        var c := Cursor(TheQueue());
        var d := if 0 < nsave < MAXSAVE then Direction(snaps[c - 1], snaps[c], i, j, kind) else 0;
        value' == if value.None? || d == 0 then value else Some(Advance(value.value, d, multiplier, nsave - 1, kind))
      ensures value' != value ==> changed == 1
    {
      changed, value' := 0, value;
      if value.Some? {
        var updown;
        updown, changed := ReadDirection(i, j, kind);
        if updown != 0 {
          value' := Some(Advance(value.value, updown, multiplier, nsave - 1, kind));
        }
      }
    }
  }

  /** s changes are waiting behind the one read. */
  function Advance(value: real, updown: int, multiplier: real, s: nat, kind: int): real {
    value + updown as real * multiplier * (if kind == 1 then s * 2 + 1 else s + 1) as real
  }

  /** A step up raises the value and a step down lowers it by as much: by the multiplier if nothing else waits, and
      by once or twice the multiplier more for each change that waits, for a mechanical or an optical encoder. */
  lemma StepMovesValue(value: real, multiplier: real, s: nat, kind: int)
    requires multiplier > 0.0
    ensures Advance(value, 1, multiplier, s, kind) - value == value - Advance(value, -1, multiplier, s, kind) >= multiplier
    ensures Advance(value, 1, multiplier, 0, kind) == value + multiplier
    ensures Advance(value, 1, multiplier, s + 1, kind) - Advance(value, 1, multiplier, s, kind)
         == if kind == 1 then multiplier + multiplier else multiplier
  {
    var n := (if kind == 1 then s * 2 + 1 else s + 1) as real;
    assert n >= 1.0;
    assert (n - 1.0) * multiplier >= 0.0;
    assert 1 as real * multiplier * n == multiplier * n;
    assert (-1) as real * multiplier * n == -(multiplier * n);
  }

  /** The value of input i, s changes ago. */
  function Ago(snaps: seq<Snapshot>, i: nat, s: nat): int
    requires forall k :: 0 <= k < |snaps| ==> i < |snaps[k]|
  {
    if s < |snaps| then snaps[|snaps| - 1 - s][i] else INPUTINITVAL
  }

  /** A new snapshot makes every other one change older. */
  lemma AgoPushed(snaps: seq<Snapshot>, latest: Snapshot)
    requires forall k :: 0 <= k < |snaps| ==> |snaps[k]| == |latest|
    ensures forall i: nat, s: nat :: i < |latest| ==>
      Ago(snaps + [latest], i, s) == if s == 0 then latest[i] else Ago(snaps, i, s - 1)
  {
  }

  lemma AtCursor(q: Queue)
    requires 0 < q.nsave < |q.snaps|
    ensures Cursor(q) >= 1 && Cursor(q) == |q.snaps| - 1 - (q.nsave - 1)
  {
  }

  // ---------- whole runs ----------

  datatype Step =
    | Input(input: nat, val: int)
      // one encoder read, then reset_arduinodata
    | Cycle

  predicate Fits(q: Queue, step: Step, ninputs: nat) {
    step.Input? ==> step.input < ninputs
  }

  function Next(q: Queue, step: Step, ninputs: nat): (r: Queue)
    requires WfQueue(q, ninputs)
    ensures WfQueue(r, ninputs)
  {
    match step
    case Input(i, v) => if i < ninputs then Push(q, i, v) else q
    case Cycle => Pop(q)
  }

  function Run(q: Queue, steps: seq<Step>, ninputs: nat): (r: Queue)
    requires WfQueue(q, ninputs)
    ensures WfQueue(r, ninputs)
    decreases |steps|
  {
    if steps == [] then q else Run(Next(q, steps[0], ninputs), steps[1..], ninputs)
  }

  /** The snapshots the encoder reads of a run have compared with their predecessors, in order. */
  function Reads(q: Queue, steps: seq<Step>, ninputs: nat): seq<nat>
    requires WfQueue(q, ninputs)
    decreases |steps|
  {
    if steps == [] then []
    else
      (if steps[0].Cycle? && 0 < q.nsave < MAXSAVE then [Cursor(q)] else []) + Reads(Next(q, steps[0], ninputs), steps[1..], ninputs)
  }

  /** A step on a full history that moves the cursor past a snapshot nobody reads. */
  predicate Loses(q: Queue, step: Step, ninputs: nat)
    requires WfQueue(q, ninputs)
  {
    q.nsave == MAXSAVE && (step.Cycle? || (step.input < ninputs && step.val != Latest(q)[step.input]))
  }

  predicate KeepsUp(q: Queue, steps: seq<Step>, ninputs: nat)
    requires WfQueue(q, ninputs)
    decreases |steps|
  {
    steps != [] ==> !Loses(q, steps[0], ninputs) && KeepsUp(Next(q, steps[0], ninputs), steps[1..], ninputs)
  }

  function Range(a: int, b: int): (r: seq<nat>)
    requires 0 <= a
    ensures |r| == if a <= b then b - a else 0
    ensures forall k :: 0 <= k < |r| ==> r[k] == a + k
  {
    seq(if a <= b then b - a else 0, k requires 0 <= k => a + k)
  }

  lemma RangeJoin(a: nat, b: nat, c: nat)
    requires a <= b <= c
    ensures Range(a, b) + Range(b, c) == Range(a, c)
  {
  }

  lemma CursorMoves(q: Queue, step: Step, ninputs: nat)
    requires WfQueue(q, ninputs)
    ensures var r := Next(q, step, ninputs);
      Cursor(r) == Cursor(q) + if (step.Cycle? && q.nsave > 0) || Loses(q, step, ninputs) then 1 else 0
  {
  }

  lemma {:induction false} ReadsAreFew(q: Queue, steps: seq<Step>, ninputs: nat)
    requires WfQueue(q, ninputs)
    ensures |Reads(q, steps, ninputs)| + Cursor(q) <= Cursor(Run(q, steps, ninputs))
    ensures !KeepsUp(q, steps, ninputs) ==> |Reads(q, steps, ninputs)| + Cursor(q) < Cursor(Run(q, steps, ninputs))
    decreases |steps|
  {
    if steps != [] {
      CursorMoves(q, steps[0], ninputs);
      ReadsAreFew(Next(q, steps[0], ninputs), steps[1..], ninputs);
    }
  }

  lemma {:induction false} ReadsInOrder(q: Queue, steps: seq<Step>, ninputs: nat)
    requires WfQueue(q, ninputs) && KeepsUp(q, steps, ninputs)
    ensures Cursor(q) <= Cursor(Run(q, steps, ninputs))
    ensures Reads(q, steps, ninputs) == Range(Cursor(q), Cursor(Run(q, steps, ninputs)))
    decreases |steps|
  {
    if steps != [] {
      var r := Next(q, steps[0], ninputs);
      CursorMoves(q, steps[0], ninputs);
      ReadsInOrder(r, steps[1..], ninputs);
      RangeJoin(Cursor(q), Cursor(r), Cursor(Run(q, steps, ninputs)));
    }
  }

  /** The encoder sees each snapshot once and in order, exactly as long as the history is never full when
      it moves. */
  lemma EachSnapshotOnce(q: Queue, steps: seq<Step>, ninputs: nat)
    requires WfQueue(q, ninputs)
    ensures Reads(q, steps, ninputs) == Range(Cursor(q), Cursor(Run(q, steps, ninputs))) <==> KeepsUp(q, steps, ninputs)
  {
    ReadsAreFew(q, steps, ninputs);
    if KeepsUp(q, steps, ninputs) {
      ReadsInOrder(q, steps, ninputs);
    }
  }

  // ---------- counting ----------

  predicate Bit(b: int) { b == 0 || b == 1 }

  /** The place of two bits in the Gray cycle 00, 10, 11, 01. */
  function Place(b0: int, b1: int): int {
    if b1 == 0 then b0 else 3 - b0
  }

  /** Consecutive snapshots differ in one input, if at all. */
  predicate OneApart(a: Snapshot, b: Snapshot) {
    |a| == |b| && exists k :: 0 <= k < |a| && b == a[k := b[k]]
  }

  predicate Stepwise(snaps: seq<Snapshot>) {
    forall k :: 0 < k < |snaps| ==> OneApart(snaps[k - 1], snaps[k])
  }

  lemma PushIsStepwise(q: Queue, input: nat, val: int)
    requires q.snaps != [] && input < |Latest(q)| && Stepwise(q.snaps)
    ensures Stepwise(Push(q, input, val).snaps)
  {
    var r := Push(q, input, val);
    if val != Latest(q)[input] {
      var a, b := Latest(q), r.snaps[|q.snaps|];
      assert b == a[input := b[input]];
      forall k | 0 < k < |r.snaps|
        ensures OneApart(r.snaps[k - 1], r.snaps[k])
      {
        if k < |q.snaps| {
          assert r.snaps[k - 1] == q.snaps[k - 1] && r.snaps[k] == q.snaps[k];
        }
      }
    }
  }

  predicate BitsAt(a: Snapshot, i: nat, j: nat)
    requires i < |a| && j < |a|
  {
    Bit(a[i]) && Bit(a[j])
  }

  /** d steps are whole turns of the Gray cycle. */
  predicate FullCycles(d: int) { d % 4 == 0 }

  /** A single change moves a Gray encoder by its direction around the cycle. */
  lemma GrayMoves(a: Snapshot, b: Snapshot, i: nat, j: nat)
    requires i < |a| == |b| && j < |a| && i != j && BitsAt(a, i, j) && BitsAt(b, i, j) && OneApart(a, b)
    ensures FullCycles(Place(b[i], b[j]) - Place(a[i], a[j]) - Direction(a, b, i, j, 2))
    ensures Direction(a, b, i, j, 1) == if Place(a[i], a[j]) % 2 == 1 then -Direction(a, b, i, j, 2) else 0
  {
    var k :| 0 <= k < |a| && b == a[k := b[k]];
  }

  /** All snapshots have both inputs. */
  predicate Wide(snaps: seq<Snapshot>, i: nat, j: nat) {
    forall k :: 0 <= k < |snaps| ==> i < |snaps[k]| && j < |snaps[k]| && |snaps[k]| == |snaps[0]|
  }

  /** The directions read for the snapshots lo..hi, added up. */
  function Turns(snaps: seq<Snapshot>, i: nat, j: nat, lo: nat, hi: nat): int
    requires 0 < lo <= hi <= |snaps| && Wide(snaps, i, j)
    decreases hi
  {
    if lo == hi then 0
    else Turns(snaps, i, j, lo, hi - 1) + Direction(snaps[hi - 2], snaps[hi - 1], i, j, 2)
  }

  lemma CyclesAdd(d: int, e: int)
    requires FullCycles(d) && FullCycles(e)
    ensures FullCycles(d + e)
  {
  }

  /** However many changes pass, the directions add up to the change of the encoder's position, modulo a
      full cycle. */
  lemma {:induction false} TurnsAddUp(snaps: seq<Snapshot>, i: nat, j: nat, lo: nat, hi: nat)
    requires 0 < lo <= hi <= |snaps| && i != j && Stepwise(snaps) && Wide(snaps, i, j)
    requires forall k :: lo - 1 <= k < hi ==> BitsAt(snaps[k], i, j)
    ensures FullCycles(Place(snaps[hi - 1][i], snaps[hi - 1][j]) - Place(snaps[lo - 1][i], snaps[lo - 1][j])
                       - Turns(snaps, i, j, lo, hi))
    decreases hi
  {
    if lo < hi {
      TurnsAddUp(snaps, i, j, lo, hi - 1);
      var a, b, c := snaps[lo - 1], snaps[hi - 2], snaps[hi - 1];
      assert OneApart(b, c);
      GrayMoves(b, c, i, j);
      CyclesAdd(Place(b[i], b[j]) - Place(a[i], a[j]) - Turns(snaps, i, j, lo, hi - 1),
                Place(c[i], c[j]) - Place(b[i], b[j]) - Direction(b, c, i, j, 2));
    }
  }

  lemma {:induction false} RunIsStepwise(q: Queue, steps: seq<Step>, ninputs: nat)
    requires WfQueue(q, ninputs) && Stepwise(q.snaps)
    ensures Stepwise(Run(q, steps, ninputs).snaps) && q.snaps <= Run(q, steps, ninputs).snaps
    decreases |steps|
  {
    if steps != [] {
      if steps[0].Input? && steps[0].input < ninputs {
        PushIsStepwise(q, steps[0].input, steps[0].val);
      }
      RunIsStepwise(Next(q, steps[0], ninputs), steps[1..], ninputs);
    }
  }

  /** The sum of the directions at the snapshots read. */
  function Sum(snaps: seq<Snapshot>, i: nat, j: nat, seen: seq<nat>): int
    requires Wide(snaps, i, j) && forall k :: 0 <= k < |seen| ==> 0 < seen[k] < |snaps|
  {
    if seen == [] then 0
    else
      var c := seen[|seen| - 1];
      Sum(snaps, i, j, seen[..|seen| - 1]) + Direction(snaps[c - 1], snaps[c], i, j, 2)
  }

  lemma {:induction false} SumOfRange(snaps: seq<Snapshot>, i: nat, j: nat, lo: nat, hi: nat)
    requires 0 < lo <= hi <= |snaps| && Wide(snaps, i, j)
    ensures Sum(snaps, i, j, Range(lo, hi)) == Turns(snaps, i, j, lo, hi)
    decreases hi
  {
    if lo < hi {
      SumOfRange(snaps, i, j, lo, hi - 1);
      assert Range(lo, hi)[..hi - lo - 1] == Range(lo, hi - 1);
    }
  }

  /** Over a run that keeps up, what a Gray encoder has counted is how far its shaft has turned, modulo a
      full cycle. */
  lemma CountFollowsTheShaft(q: Queue, steps: seq<Step>, ninputs: nat, i: nat, j: nat)
    requires WfQueue(q, ninputs) && Stepwise(q.snaps) && KeepsUp(q, steps, ninputs)
    requires i < ninputs && j < ninputs && i != j
    requires var r := Run(q, steps, ninputs); forall k :: Cursor(q) - 1 <= k < Cursor(r) ==> BitsAt(r.snaps[k], i, j)
    ensures var r, lo := Run(q, steps, ninputs), Cursor(q); var hi, seen := Cursor(r), Reads(q, steps, ninputs);
      && seen == Range(lo, hi) && 0 < lo <= hi <= |r.snaps|
      && FullCycles(Place(r.snaps[hi - 1][i], r.snaps[hi - 1][j]) - Place(r.snaps[lo - 1][i], r.snaps[lo - 1][j])
                    - Sum(r.snaps, i, j, seen))
  {
    var r, lo := Run(q, steps, ninputs), Cursor(q);
    ReadsInOrder(q, steps, ninputs);
    RunIsStepwise(q, steps, ninputs);
    RangeAddsUp(r.snaps, i, j, lo, Cursor(r));
  }

  lemma RangeAddsUp(snaps: seq<Snapshot>, i: nat, j: nat, lo: nat, hi: nat)
    requires 0 < lo <= hi <= |snaps| && i != j && Stepwise(snaps) && Wide(snaps, i, j)
    requires forall k :: lo - 1 <= k < hi ==> BitsAt(snaps[k], i, j)
    ensures FullCycles(Place(snaps[hi - 1][i], snaps[hi - 1][j]) - Place(snaps[lo - 1][i], snaps[lo - 1][j])
                       - Sum(snaps, i, j, Range(lo, hi)))
  {
    SumOfRange(snaps, i, j, lo, hi);
    TurnsAddUp(snaps, i, j, lo, hi);
  }
}
