/** Which datarefs can be unlinked at any time: exactly the mute ones. For every other, the simulator can
change the value before the plugin hears of it, and the client then reads the value as frames. */
module Unlinking {
  import opened Wire
  import opened Dataref
  import opened Simulator
  import opened Protocol
  import opened Framing
  import opened Cycles
  import opened Floats
  import C = ClientTable
  import S = ServerTable

  // ---------- a value that has changed ----------

  lemma ShiftByTen(k: nat)
    ensures Pow2(k + 10) == 1024.0 * Pow2(k)
  {
    var a := Pow2(k);
    assert Pow2(k + 1) == 2.0 * a;
    assert Pow2(k + 2) == 4.0 * a;
    assert Pow2(k + 3) == 8.0 * a;
    assert Pow2(k + 4) == 16.0 * a;
    assert Pow2(k + 5) == 32.0 * a;
    assert Pow2(k + 6) == 64.0 * a;
    assert Pow2(k + 7) == 128.0 * a;
    assert Pow2(k + 8) == 256.0 * a;
    assert Pow2(k + 9) == 512.0 * a;
  }

  /** 2^73 and 2^72, beyond every int at every precision. */
  const BIG_FLOAT: nat := 200 * 0x80_0000
  const BIG_DOUBLE: nat := 1095 * 0x10_0000_0000_0000

  lemma Powers()
    ensures Pow2(20) == 1048576.0 && Pow2(50) == 1125899906842624.0
  {
    ShiftByTen(0);
    ShiftByTen(10);
    ShiftByTen(20);
    ShiftByTen(30);
    ShiftByTen(40);
  }

  lemma BigFloat()
    ensures FloatValue(BIG_FLOAT) >= 1.0e21 && FloatValue(0) == 0.0
  {
    IntPowers();
    Powers();
  }

  lemma BigDouble()
    ensures DoubleValue(BIG_DOUBLE) >= 1.0e21 && DoubleValue(0) == 0.0
  {
    IntPowers();
    Powers();
    assert (BIG_DOUBLE / 0x10_0000_0000_0000) % 0x800 == 1095 && BIG_DOUBLE % 0x10_0000_0000_0000 == 0;
  }

  lemma {:induction false} ScaleFloor(k: int, floor: real)
    requires 0.0 < floor <= 1.0 && -10 <= k <= 10 && (k < 0 ==> floor == 1.0e-10)
    ensures Pow10(k) >= floor
    decreases if k < 0 then -k else k
  {
    if k > 0 {
      ScaleFloor(k - 1, floor);
    } else if k < 0 {
      assert Pow10(-1) == 0.1;
      assert Pow10(-2) == 0.01;
      assert Pow10(-3) == 0.001;
      assert Pow10(-4) == 0.0001;
      assert Pow10(-5) == 0.00001;
      assert Pow10(-6) == 0.000001;
      assert Pow10(-7) == 0.0000001;
      assert Pow10(-8) == 0.00000001;
      assert Pow10(-9) == 0.000000001;
    }
  }

  lemma Beyond(v: real, scale: real)
    requires v >= 1.0e21 && scale >= 1.0e-10
    ensures v * scale >= 1.0e11
  {
    assert v * scale >= 1.0e21 * scale;
  }

  /** At every precision the change test tells 0 from a number so large. */
  lemma FarFromZero(precision: int, v: real)
    requires HasPrecision(precision) && v >= 1.0e21
    ensures Differs(precision, 0.0, v)
  {
    var scale := Pow10(-precision);
    ScaleFloor(-precision, 1.0e-10);
    Beyond(v, scale);
    assert 0.0 * scale == 0.0;
    assert Round(0.0) == 0 && Round(v * scale) >= 0x8000_0000;
  }

  /** Whatever the old element is, some other is different enough to be sent. */
  lemma SomethingElse(ty: int, precision: int, old_: nat) returns (code: nat)
    requires Known(ty) && !Command(ty)
    ensures code < Pow256(Width(ty)) && ElemChanged(ty, precision, old_, code)
  {
    Pow256Values();
    if !Floating(ty) {
      code := if old_ == 0 then 1 else 0;
    } else {
      var big := if ty == XPTYPE_DBL then BIG_DOUBLE else BIG_FLOAT;
      BigFloat();
      BigDouble();
      if HasPrecision(precision) { FarFromZero(precision, ValueOf(ty, big)); }
      code := if ElemChanged(ty, precision, old_, 0) then 0 else big;
    }
  }

  // ---------- the simulator changes the value in time ----------

  /** A state of the simulator whose value the plugin would send for the slot. */
  lemma SomeChange(x: S.Slot) returns (sim: Sim)
    requires S.Live(x) && !Command(x.ty)
    ensures WfSim(sim) && Changed(x.ty, x.precision, x.data, S.ReadSlot(sim, x))
  {
    var code := SomethingElse(x.ty, x.precision, x.data[0]);
    var view := seq(x.nelements, _ => code);
    sim := Sim(map[], {}, map[(x.name, x.ty) := view], []);
    assert View(sim, x.name, x.ty) == view;
    var now := S.ReadSlot(sim, x);
    assert now[0] == code;
  }

  /** From any state: the application unlinks a dataref that is not mute, the simulator changes its value, and
      the plugin, which has not heard of it, sends it. */
  lemma UnlinkCanStray(s: State, i: nat) returns (steps: seq<Step>)
    requires Inv(s) && i < |s.client| && s.client[i].status == Valid
    requires !Mute(s.client[i].ty, |s.client[i].data|) && Sane(s, AppUnlink(s.client[i].name))
    ensures SaneRun(s, [AppUnlink(s.client[i].name)] + steps)
    ensures MuteUnlinks(Protocol.Next(s, AppUnlink(s.client[i].name)), steps)
    ensures !NoStray(Run(s, [AppUnlink(s.client[i].name)] + steps))
  {
    var name, l := s.client[i].name, At(s, i);
    assert InPhase(s, i) && C.WfSlot(l.c);
    assert Established(i, l.c, l.x, l.up, l.down);
    var sim := SomeChange(l.x);
    var s1 := Protocol.Next(s, AppUnlink(name));
    var s2 := Protocol.Next(s1, SimChange(sim));
    SameReading(sim, s2.conn.sim, l.x);
    var s3 := Protocol.Next(s2, ServerSend(i, 0));
    steps := [SimChange(sim), ServerSend(i, 0)];
    Three(s, AppUnlink(name), SimChange(sim), ServerSend(i, 0));
    assert [AppUnlink(name)] + steps == [AppUnlink(name), SimChange(sim), ServerSend(i, 0)];
    NoUnlinksAreMuteUnlinks(s1, steps);
    var f := s3.down[|s3.down| - 1];
    assert f == Data(i, l.x.ty, S.ReadSlot(s2.conn.sim, l.x));
    assert Stray(s3.client, f);
  }

  lemma SameReading(sim: Sim, sim': Sim, x: S.Slot)
    requires S.Live(x) && sim'.vals == sim.vals
    ensures S.ReadSlot(sim', x) == S.ReadSlot(sim, x)
  {
  }

  lemma Three(s: State, a: Step, b: Step, c: Step)
    ensures var s2 := Protocol.Next(Protocol.Next(s, a), b);
      && Run(s, [a, b, c]) == Protocol.Next(s2, c)
      && (SaneRun(s, [a, b, c]) <==> Sane(s, a) && Sane(Protocol.Next(s, a), b) && Sane(s2, c))
  {
    assert [a, b, c] == [a] + ([b] + [c]);
    var s1 := Protocol.Next(s, a);
    StepFirst(s, a, [b] + [c]);
    StepFirst(s1, b, [c]);
    assert [c][1..] == [];
  }

  // ---------- the exact condition ----------

  /** However a run goes on after this step, as long as it unlinks only what is mute, the bytes towards the
      client are read as the frames they are. */
  ghost predicate StaysFramed(s: State, step: Step) {
    forall more: seq<Step> :: SaneRun(s, [step] + more) && MuteUnlinks(Protocol.Next(s, step), more) ==>
      var r := Run(s, [step] + more); ClientFramed(r.client, r.down)
  }

  lemma MuteStaysFramed(s: State, step: Step)
    requires Inv(s) && OnlyMuteLeft(s) && NoStray(s) && UnlinksMute(s, step)
    ensures StaysFramed(s, step)
  {
    forall more: seq<Step> | SaneRun(s, [step] + more) && MuteUnlinks(Protocol.Next(s, step), more)
      ensures var r := Run(s, [step] + more); ClientFramed(r.client, r.down)
    {
      var all := [step] + more;
      assert all[0] == step && all[1..] == more;
      MuteUnlinksAreQuiet(s, all);
      QuietRunKeepsFraming(s, all);
    }
  }

  /** From empty tables, after a run that has unlinked only what is mute: unlinking a name is safe for the stream
      to the client, however the run goes on, if and only if every slot of that name is mute. */
  lemma UnlinkIsSafeIffMute(me: Name, sim: Sim, store: seq<S.Custom>, steps: seq<Step>, name: Name)
    requires WfName(me) && WfSim(sim) && SaneRun(Init(me, sim, store), steps) && MuteUnlinks(Init(me, sim, store), steps)
    requires Sane(Run(Init(me, sim, store), steps), AppUnlink(name))
    ensures var s := Run(Init(me, sim, store), steps);
      StaysFramed(s, AppUnlink(name)) <==> UnlinksMute(s, AppUnlink(name))
  {
    var s := Run(Init(me, sim, store), steps);
    ReachableInv(me, sim, store, steps);
    if UnlinksMute(s, AppUnlink(name)) {
      FramingWithMuteUnlinks(me, sim, store, steps);
      MuteStaysFramed(s, AppUnlink(name));
    } else {
      var i :| 0 <= i < |s.client| && s.client[i].name == name && !Mute(s.client[i].ty, |s.client[i].data|);
      var more := UnlinkCanStray(s, i);
      var all := [AppUnlink(name)] + more;
      RunKeepsInv(s, all);
      DownIsFramedUnlessStray(Run(s, all));
    }
  }
}
