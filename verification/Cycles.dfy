/** The two programs refine the protocol: each call of a send or receive function is a run of protocol
steps, byte for byte. */
module Cycles {
  import opened Wire
  import opened Dataref
  import opened Buffers
  import opened Protocol
  import opened Framing
  import opened Reassembly
  import opened Streams
  import C = ClientTable
  import S = ServerTable

  lemma {:induction false} RunAppend(s: State, a: seq<Step>, b: seq<Step>)
    ensures Run(s, a + b) == Run(Run(s, a), b)
    decreases |a|
  {
    if a == [] {
      assert a + b == b;
    } else {
      assert (a + b)[1..] == a[1..] + b;
      RunAppend(Protocol.Next(s, a[0]), a[1..], b);
    }
  }

  lemma StepFirst(s: State, step: Step, more: seq<Step>)
    ensures Run(s, [step] + more) == Run(Protocol.Next(s, step), more)
    ensures SaneRun(s, [step] + more) <==> Sane(s, step) && SaneRun(Protocol.Next(s, step), more)
  {
    assert ([step] + more)[0] == step && ([step] + more)[1..] == more;
  }

  lemma RunOne(s: State, step: Step)
    ensures Run(s, [step]) == Protocol.Next(s, step)
  {
    assert [step][1..] == [];
  }

  /** The steps lead from s to r. The quantifier keeps Run folded in the inductions below. */
  ghost predicate LeadsTo(s: State, steps: seq<Step>, r: State) {
    forall u: State :: u == s ==> Run(u, steps) == r
  }

  function Steps(step: nat -> Step, k: nat): (r: seq<Step>)
    ensures |r| == k && forall j :: 0 <= j < k ==> r[j] == step(j)
  {
    if k == 0 then [] else Steps(step, k - 1) + [step(k - 1)]
  }

  /** Steps that each lead from one state of a chain to the next lead from its first to its last. */
  lemma {:induction false} Chain(states: nat -> State, step: nat -> Step, k: nat)
    requires forall n: nat :: n < k ==> LeadsTo(states(n), [step(n)], states(n + 1))
    ensures LeadsTo(states(0), Steps(step, k), states(k))
  {
    if k > 0 {
      Chain(states, step, k - 1);
      RunAppend(states(0), Steps(step, k - 1), [step(k - 1)]);
      assert Run(states(0), Steps(step, k - 1)) == states(k - 1);
      assert Run(states(k - 1), [step(k - 1)]) == states(k);
    }
  }

  // ---------- sending ----------

  /** s with the frames fs sent by the client. */
  function ClientSent(s: State, fs: seq<Frame>, t: seq<C.Slot>): State {
    s.(client := t, up := s.up + fs, sent := s.sent + fs)
  }

  /** The k-th turn of the client's call, and the state before it. */
  function ClientTurn(s: State, k: nat): Step {
    ClientSend(k, SizeAll(C.SendUpTo(s.client, s.me, if k <= |s.client| then k else 0).0))
  }

  function ClientAfter(s: State, k: nat): State {
    var (fs, t) := C.SendUpTo(s.client, s.me, if k <= |s.client| then k else 0);
    ClientSent(s, fs, t)
  }

  lemma ClientSends(s: State, fs: seq<Frame>, t: seq<C.Slot>, i: nat)
    requires i < |t|
    ensures var (o, c) := C.SendSlot(t[i], s.me, i, SizeAll(fs));
      LeadsTo(ClientSent(s, fs, t), [ClientSend(i, SizeAll(fs))], ClientSent(s, fs + Opt(o), t[i := c]))
  {
    var o := Opt(C.SendSlot(t[i], s.me, i, SizeAll(fs)).0);
    RunOne(ClientSent(s, fs, t), ClientSend(i, SizeAll(fs)));
    Regroup(s.up, fs, o);
    Regroup(s.sent, fs, o);
  }

  lemma ClientTurnLeads(s: State, k: nat)
    requires k < |s.client|
    ensures LeadsTo(ClientAfter(s, k), [ClientTurn(s, k)], ClientAfter(s, k + 1))
  {
    var (fs, t) := C.SendUpTo(s.client, s.me, k);
    ClientSends(s, fs, t, k);
  }

  lemma ClientCallIsARun(s: State) returns (turns: seq<Step>)
    ensures forall j :: 0 <= j < |turns| ==> turns[j].ClientSend?
    ensures var (fs, t) := C.SendUpTo(s.client, s.me, |s.client|); LeadsTo(s, turns, ClientSent(s, fs, t))
  {
    var n, states, step := |s.client|, (k: nat) => ClientAfter(s, k), (k: nat) => ClientTurn(s, k);
    turns := Steps(step, n);
    forall k: nat | k < n
      ensures LeadsTo(states(k), [step(k)], states(k + 1))
    {
      ClientTurnLeads(s, k);
    }
    Chain(states, step, n);
    assert states(0) == s by { assert s.up + [] == s.up && s.sent + [] == s.sent; }
  }

  /** s with the frames fs sent by the plugin. */
  function ServerSent(s: State, fs: seq<Frame>, t: seq<S.Slot>): State {
    s.(conn := s.conn.(table := t), down := s.down + fs)
  }

  /** The k-th turn of the plugin's call, and the state before it. */
  function ServerTurn(s: State, k: nat): Step {
    ServerSend(k, SizeAll(S.SendUpTo(s.conn.sim, s.conn.table, if k <= |s.conn.table| then k else 0).0))
  }

  function ServerAfter(s: State, k: nat): State {
    var (fs, t) := S.SendUpTo(s.conn.sim, s.conn.table, if k <= |s.conn.table| then k else 0);
    ServerSent(s, fs, t)
  }

  lemma ServerSends(s: State, fs: seq<Frame>, t: seq<S.Slot>, i: nat)
    requires i < |t|
    ensures var (o, x) := S.SendSlot(s.conn.sim, t[i], i, SizeAll(fs));
      LeadsTo(ServerSent(s, fs, t), [ServerSend(i, SizeAll(fs))], ServerSent(s, fs + Opt(o), t[i := x]))
  {
    RunOne(ServerSent(s, fs, t), ServerSend(i, SizeAll(fs)));
    Regroup(s.down, fs, Opt(S.SendSlot(s.conn.sim, t[i], i, SizeAll(fs)).0));
  }

  lemma ServerTurnLeads(s: State, k: nat)
    requires k < |s.conn.table|
    ensures LeadsTo(ServerAfter(s, k), [ServerTurn(s, k)], ServerAfter(s, k + 1))
  {
    var (fs, t) := S.SendUpTo(s.conn.sim, s.conn.table, k);
    ServerSends(s, fs, t, k);
  }

  lemma ServerCallIsARun(s: State) returns (turns: seq<Step>)
    ensures forall j :: 0 <= j < |turns| ==> turns[j].ServerSend?
    ensures var (fs, t) := S.SendUpTo(s.conn.sim, s.conn.table, |s.conn.table|);
      LeadsTo(s, turns, ServerSent(s, fs, t))
  {
    var n, states, step := |s.conn.table|, (k: nat) => ServerAfter(s, k), (k: nat) => ServerTurn(s, k);
    turns := Steps(step, n);
    forall k: nat | k < n
      ensures LeadsTo(states(k), [step(k)], states(k + 1))
    {
      ServerTurnLeads(s, k);
    }
    Chain(states, step, n);
    assert states(0) == s by { assert s.down + [] == s.down; }
  }

  // ---------- receiving ----------

  function Repeat(step: Step, n: nat): (r: seq<Step>)
    ensures |r| == n && forall k :: 0 <= k < n ==> r[k] == step
  {
    if n == 0 then [] else [step] + Repeat(step, n - 1)
  }

  lemma {:induction false} ServerDeliveryIsARun(s: State, fs: seq<Frame>, more: seq<Frame>)
    requires s.up == fs + more
    ensures Run(s, Repeat(ServerReceive, |fs|)) == s.(conn := S.ApplyAll(s.conn, fs), up := more)
    decreases |fs|
  {
    if fs == [] {
      assert s.up == more;
    } else {
      var steps := Repeat(ServerReceive, |fs|);
      assert steps[1..] == Repeat(ServerReceive, |fs| - 1);
      assert s.up[0] == fs[0] && s.up[1..] == fs[1..] + more;
      ServerDeliveryIsARun(Protocol.Next(s, ServerReceive), fs[1..], more);
    }
  }

  lemma {:induction false} ClientDeliveryIsARun(s: State, fs: seq<Frame>, more: seq<Frame>)
    requires s.down == fs + more
    ensures Run(s, Repeat(ClientReceive, |fs|)) == s.(client := C.ApplyAll(s.client, fs), down := more)
    decreases |fs|
  {
    if fs == [] {
      assert s.down == more;
    } else {
      var steps := Repeat(ClientReceive, |fs|);
      assert steps[1..] == Repeat(ClientReceive, |fs| - 1);
      assert s.down[0] == fs[0] && s.down[1..] == fs[1..] + more;
      ClientDeliveryIsARun(Protocol.Next(s, ClientReceive), fs[1..], more);
    }
  }

  // ---------- both together ----------

  lemma {:induction false} TurnsAreSane(s: State, steps: seq<Step>)
    requires forall k :: 0 <= k < |steps| ==> steps[k].ClientSend? || steps[k].ServerSend?
    ensures SaneRun(s, steps)
    decreases |steps|
  {
    if steps != [] {
      TurnsAreSane(Protocol.Next(s, steps[0]), steps[1..]);
    }
  }

  lemma TurnsKeepInv(s: State, steps: seq<Step>)
    requires Inv(s) && forall k :: 0 <= k < |steps| ==> steps[k].ClientSend? || steps[k].ServerSend?
    ensures Inv(Run(s, steps))
  {
    TurnsAreSane(s, steps);
    RunKeepsInv(s, steps);
  }

  /** What recv returns, piece by piece, of one transmission: no cut before the last looks like its end. */
  ghost predicate Delivered(chunks: seq<seq<byte>>, fs: seq<Frame>) {
    && Received(chunks) && (WfFrames(fs) ==> Join(chunks) == Sent(fs))
    && forall m :: 0 < m < |chunks| ==> !Terminated(Upto(chunks, m))
  }

  lemma {:induction false} EncodeSize(fs: seq<Frame>)
    requires WfFrames(fs)
    ensures |EncodeAll(fs)| == SizeAll(fs)
    decreases |fs|
  {
    if fs != [] {
      EncodeSize(fs[..|fs| - 1]);
      LastFrame(fs);
      BytesSize(fs[|fs| - 1]);
    }
  }

  lemma SentTerminates(fs: seq<Frame>)
    requires WfFrames(fs) && fs != []
    ensures |Sent(fs)| == |EncodeAll(fs)| + 4 && Terminated(Sent(fs))
  {
    MarkTerminates(EncodeAll(fs), MARK_EOT);
  }

  lemma NoPieces(chunks: seq<seq<byte>>)
    requires Received(chunks)
    ensures Join(chunks) == [] ==> chunks == []
  {
  }

  /** A transmission that fits the receive buffer is taken in by one call, and a longer one is lost with the
      connection. */
  lemma OneCall<T>(p: Peer<T>, t: T, chunks: seq<seq<byte>>, fs: seq<Frame>)
    requires WfFrames(fs) && Delivered(chunks, fs)
    ensures if EndFits(fs) then ReceiveAll(p, t, chunks) == if fs == [] then t else p.receive(t, Sent(fs))
      else HeardAll(p, t, chunks) == [] && ReceiveAll(p, t, chunks) == p.close(t)
  {
    EncodeSize(fs);
    JoinCut(chunks, |chunks|);
    if fs == [] {
      NoPieces(chunks);
    } else {
      SentTerminates(fs);
      if EndFits(fs) {
        OneTransmission(chunks);
        assert chunks[|chunks|..] == [];
      } else {
        BacklogIsLost(p, t, chunks);
      }
    }
  }

  lemma ReceivedInOneCall(s: State)
    requires Inv(s)
    ensures WfFrames(s.up) && Run(s, Repeat(ServerReceive, |s.up|)) == s.(conn := S.Decode(s.conn, Sent(s.up)), up := [])
  {
    UpIsFramed(s);
    ServerCodecRoundTrip(s.conn, s.up);
    assert s.up == s.up + [];
    ServerDeliveryIsARun(s, s.up, []);
  }

  lemma Uploaded(s: State) returns (turns: seq<Step>)
    requires Inv(s) && s.up == []
    ensures forall j :: 0 <= j < |turns| ==> turns[j].ClientSend?
    ensures var (fs, t) := C.SendUpTo(s.client, s.me, |s.client|);
      && WfFrames(fs)
      && Run(s, turns + Repeat(ServerReceive, |fs|))
         == s.(client := t, sent := s.sent + fs, conn := S.Decode(s.conn, Sent(fs)))
  {
    turns := ClientCallIsARun(s);
    var (fs, t) := C.SendUpTo(s.client, s.me, |s.client|);
    var mid := ClientSent(s, fs, t);
    assert s.up + fs == fs;
    assert Run(s, turns) == mid;
    TurnsKeepInv(s, turns);
    RunAppend(s, turns, Repeat(ServerReceive, |fs|));
    ReceivedInOneCall(mid);
  }

  /** What the client library writes into its buffer and the plugin collects in its own is a run of the
      protocol, one turn for each slot and one delivery for each frame, if the end word fits the send buffer;
      if it does not, the plugin can not take the transmission in, and loses the connection. */
  lemma UploadIsARun(s: State, chunks: seq<seq<byte>>) returns (turns: seq<Step>)
    requires Inv(s) && s.up == [] && Delivered(chunks, C.SendUpTo(s.client, s.me, |s.client|).0)
    ensures forall j :: 0 <= j < |turns| ==> turns[j].ClientSend?
    ensures var (fs, t) := C.SendUpTo(s.client, s.me, |s.client|);
      var c := ReceiveAll(ServerPeer(), s.conn, chunks);
      && WfFrames(fs)
      && (if EndFits(fs) then
            Run(s, turns + Repeat(ServerReceive, |fs|)) == s.(client := t, sent := s.sent + fs, conn := c)
          else HeardAll(ServerPeer(), s.conn, chunks) == [] && c == s.conn.(connected := false))
  {
    turns := Uploaded(s);
    OneCall(ServerPeer(), s.conn, chunks, C.SendUpTo(s.client, s.me, |s.client|).0);
  }

  lemma AnswersRead(s: State)
    requires Inv(s) && NoStray(s)
    ensures WfFrames(s.down) && Run(s, Repeat(ClientReceive, |s.down|)) == s.(client := C.Receive(s.client, Sent(s.down)), down := [])
  {
    DownIsFramedUnlessStray(s);
    ClientCodecRoundTrip(s.client, s.down);
    assert s.down == s.down + [];
    ClientDeliveryIsARun(s, s.down, []);
  }

  lemma Downloaded(s: State) returns (turns: seq<Step>)
    requires Inv(s) && s.down == []
    requires var (fs, t) := S.SendUpTo(s.conn.sim, s.conn.table, |s.conn.table|); NoStray(ServerSent(s, fs, t))
    ensures forall j :: 0 <= j < |turns| ==> turns[j].ServerSend?
    ensures var (fs, t) := S.SendUpTo(s.conn.sim, s.conn.table, |s.conn.table|);
      && WfFrames(fs)
      && Run(s, turns + Repeat(ClientReceive, |fs|))
         == s.(conn := s.conn.(table := t), client := C.Receive(s.client, Sent(fs)))
  {
    turns := ServerCallIsARun(s);
    var (fs, t) := S.SendUpTo(s.conn.sim, s.conn.table, |s.conn.table|);
    var mid := ServerSent(s, fs, t);
    assert s.down + fs == fs;
    assert Run(s, turns) == mid;
    TurnsKeepInv(s, turns);
    RunAppend(s, turns, Repeat(ClientReceive, |fs|));
    AnswersRead(mid);
  }

  /** The same downwards, as long as no value is on its way to a slot the application has unlinked. */
  lemma DownloadIsARun(s: State, chunks: seq<seq<byte>>) returns (turns: seq<Step>)
    requires Inv(s) && s.down == []
    requires var (fs, t) := S.SendUpTo(s.conn.sim, s.conn.table, |s.conn.table|);
      NoStray(ServerSent(s, fs, t)) && Delivered(chunks, fs)
    ensures forall j :: 0 <= j < |turns| ==> turns[j].ServerSend?
    ensures var (fs, t) := S.SendUpTo(s.conn.sim, s.conn.table, |s.conn.table|);
      var c := ReceiveAll(ClientPeer(), s.client, chunks);
      && WfFrames(fs)
      && (if EndFits(fs) then Run(s, turns + Repeat(ClientReceive, |fs|)) == s.(conn := s.conn.(table := t), client := c)
          else HeardAll(ClientPeer(), s.client, chunks) == [] && c == C.Reset(s.client))
  {
    turns := Downloaded(s);
    OneCall(ClientPeer(), s.client, chunks, S.SendUpTo(s.conn.sim, s.conn.table, |s.conn.table|).0);
  }
}
