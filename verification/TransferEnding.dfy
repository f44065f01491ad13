/** When a transfer ends, after how many deliveries, and when it cannot end any more. */
module TransferEnding {
  import opened Bytes
  import opened Ibb
  import opened Stanzas
  import opened Sender
  import opened SenderProofs
  import opened Transfer
  import opened TransferTheorems
  import opened TransferProgress
  import TransferProofs

  /** Both sides are done with the transfer. */
  predicate Over(n: Net) {
    !n.snd.listed && n.rcv.verdict.Some?
  }

  // ---------------------------------------------------------------- how many stanzas there can be

  /** As long as the block size is at least one byte, every data stanza so far carries something. */
  ghost predicate Loaded(s: Sender) {
    s.blocksize >= 1 ==> forall i :: 0 <= i < |s.out| && s.out[i].Data? ==> s.out[i].payload != []
  }

  lemma LoadedStep(env: Env, s: Sender, t: Sender, step: Step)
    requires Shape(env, t) && Loaded(s) && Moves(s, t, step)
    ensures Loaded(t)
  {
    assert forall i :: t.seqno <= i < |t.out| ==> t.out[i] == t.out[t.seqno..][i - t.seqno];
    if t.blocksize >= 1 && s.listed && t.out != s.out {
      forall i | 0 <= i < |t.out| && t.out[i].Data?
        ensures t.out[i].payload != []
      {
        assert i < |s.out| ==> t.out[i] == s.out[i];
      }
    }
  }

  lemma {:induction false} LoadedInv(w: World, steps: seq<Step>)
    ensures Loaded(Run(w, steps).snd)
  {
    if steps == [] {
    } else {
      var prior, step := steps[..|steps| - 1], steps[|steps| - 1];
      LoadedInv(w, prior);
      TransferProofs.RunInv(w, prior);
      TransferProofs.RunInv(w, steps);
      StepMoves(w, Run(w, prior), step);
      LoadedStep(w.env, Run(w, prior).snd, Run(w, steps).snd, step);
    }
  }

  lemma {:induction false} JoinOfNonEmpty(blocks: seq<bytes>)
    requires forall i :: 0 <= i < |blocks| ==> blocks[i] != []
    ensures |Join(blocks)| >= |blocks|
  {
    if blocks == [] {
    } else {
      JoinOfNonEmpty(blocks[1..]);
    }
  }

  /** There are never more stanzas than bytes, the digest and the end. */
  lemma StanzasAreBounded(w: World, steps: seq<Step>)
    requires Run(w, steps).snd.blocksize >= 1
    ensures |Run(w, steps).snd.out| <= |w.env.file| + 2
  {
    var s := Run(w, steps).snd;
    TransferProofs.RunInv(w, steps);
    LoadedInv(w, steps);
    DataOfShape(w.env, s);
    assert forall i :: 0 <= i < s.seqno ==> s.out[i].Data?;
    JoinOfNonEmpty(Payloads(s.out));
  }

  // ---------------------------------------------------------------- every schedule that delivers

  predicate Delivers(n: Net, step: Step) {
    (step.DeliverStanza? && n.taken < |n.snd.out|) || (step.DeliverReply? && n.answered < |n.replies|)
  }

  /** How many steps of a continuation deliver something. */
  function Deliveries(w: World, steps: seq<Step>, more: seq<Step>): nat {
    if more == [] then 0
    else
      var prior, step := more[..|more| - 1], more[|more| - 1];
      Deliveries(w, steps, prior) + if Delivers(Run(w, steps + prior), step) then 1 else 0
  }

  lemma DeliveryCounts(w: World, n: Net, step: Step)
    requires n.snd.pos <= |w.env.file|
    ensures var m := Apply(w, n, step);
            m.taken + m.answered == n.taken + n.answered + if Delivers(n, step) then 1 else 0
  {
  }

  lemma {:induction false} DeliveriesAdvance(w: World, steps: seq<Step>, more: seq<Step>)
    ensures var n, m := Run(w, steps), Run(w, steps + more);
            m.taken + m.answered == n.taken + n.answered + Deliveries(w, steps, more)
  {
    hide Run, Apply, Delivers;
    if more == [] {
      assert steps + more == steps;
    } else {
      var prior, step := more[..|more| - 1], more[|more| - 1];
      DeliveriesAdvance(w, steps, prior);
      TransferProofs.RunMore(w, steps, more);
      DeliveryCounts(w, Run(w, steps + prior), step);
    }
  }

  /** Whatever the order of the deliveries, and whatever accepts come in between, as long as they leave a block
      size of at least one byte: there are at most 2n + 4 deliveries, and when there have been that many, or
      nothing is left to deliver, a started transfer is over. */
  lemma EveryScheduleEnds(w: World, steps: seq<Step>, more: seq<Step>)
    requires Reliable(w.env)
    requires Run(w, steps + more).snd.md5.Some? && Run(w, steps + more).snd.blocksize >= 1
    ensures Deliveries(w, steps, more) <= 2 * |w.env.file| + 4
    ensures Deliveries(w, steps, more) == 2 * |w.env.file| + 4 || Quiet(Run(w, steps + more)) ==>
              Over(Run(w, steps + more))
  {
    DeliveriesAdvance(w, steps, more);
    StanzasAreBounded(w, steps + more);
    TransferProofs.RunInOrder(w, steps + more);
    if Quiet(Run(w, steps + more)) {
      QuietMeansFinished(w, steps + more);
    }
  }

  /** The peer handles one stanza and one of its replies comes back. */
  function Rounds(k: nat): (r: seq<Step>)
    ensures |r| == 2 * k
  {
    if k == 0 then [] else Rounds(k - 1) + [DeliverStanza, DeliverReply]
  }

  function Round(w: World, n: Net): (m: Net)
    requires n.snd.pos <= |w.env.file|
    ensures m.snd.pos <= |w.env.file|
  {
    Apply(w, Apply(w, n, DeliverStanza), DeliverReply)
  }

  function AfterRounds(w: World, n: Net, k: nat): (m: Net)
    requires n.snd.pos <= |w.env.file|
    ensures m.snd.pos <= |w.env.file|
  {
    if k == 0 then n else Round(w, AfterRounds(w, n, k - 1))
  }

  lemma {:induction false} RoundsAreSteps(w: World, steps: seq<Step>, k: nat)
    ensures Run(w, steps + Rounds(k)) == AfterRounds(w, Run(w, steps), k)
  {
    hide Apply;
    if k == 0 {
      assert steps + Rounds(0) == steps;
    } else {
      RoundsAreSteps(w, steps, k - 1);
      var prior := steps + Rounds(k - 1);
      assert steps + Rounds(k) == prior + [DeliverStanza] + [DeliverReply];
      TransferProofs.RunSnoc(w, prior, DeliverStanza);
      TransferProofs.RunSnoc(w, prior + [DeliverStanza], DeliverReply);
    }
  }

  /** One round delivers something unless everything has been delivered. */
  lemma OneRound(w: World, n: Net)
    requires n.snd.pos <= |w.env.file|
    requires n.answered <= |n.replies| == n.taken <= |n.snd.out|
    ensures var m := Round(w, n);
            && (n.snd.md5.Some? ==> m.snd.md5.Some?)
            && if Quiet(n) then m == n else m.taken + m.answered > n.taken + n.answered
  {
  }

  lemma RoundInv(w: World, n: Net)
    requires TransferProofs.Inv(w, n)
    ensures TransferProofs.Inv(w, Round(w, n))
  {
    TransferProofs.StepInv(w, n, DeliverStanza);
    TransferProofs.StepInv(w, Apply(w, n, DeliverStanza), DeliverReply);
  }

  lemma {:induction false} RoundsInv(w: World, n: Net, k: nat)
    requires n.snd.pos <= |w.env.file| && TransferProofs.Inv(w, n)
    ensures TransferProofs.Inv(w, AfterRounds(w, n, k))
  {
    hide TransferProofs.Inv, Round;
    if k == 0 {
    } else {
      RoundsInv(w, n, k - 1);
      RoundInv(w, AfterRounds(w, n, k - 1));
    }
  }

  lemma RoundsInOrder(w: World, n: Net, k: nat)
    requires TransferProofs.Inv(w, n)
    ensures var m := AfterRounds(w, n, k);
            m.answered <= |m.replies| == m.taken <= |m.snd.out|
  {
    RoundsInv(w, n, k);
  }

  lemma {:induction false} RoundsDeliver(w: World, n: Net, k: nat)
    requires n.snd.pos <= |w.env.file| && TransferProofs.Inv(w, n)
    ensures var m := AfterRounds(w, n, k);
            && (n.snd.md5.Some? ==> m.snd.md5.Some?)
            && (Quiet(m) || m.taken + m.answered >= k)
  {
    hide Round, TransferProofs.Inv;
    if k == 0 {
    } else {
      RoundsDeliver(w, n, k - 1);
      RoundsInOrder(w, n, k - 1);
      OneRound(w, AfterRounds(w, n, k - 1));
    }
  }

  // ---------------------------------------------------------------- a stall, and a block size of zero

  lemma StalledStep(w: World, n: Net, step: Step)
    requires TransferProofs.Inv(w, n) && n.snd.stalled
    ensures var t := Apply(w, n, step).snd;
            t.stalled && t.listed && t.out == n.snd.out
  {
  }

  /** A stall is permanent: after a failed read nothing is sent any more, whatever happens. */
  lemma {:induction false} StallIsPermanent(w: World, steps: seq<Step>, more: seq<Step>)
    requires Run(w, steps).snd.stalled
    ensures var t := Run(w, steps + more).snd;
            t.stalled && t.listed && t.out == Run(w, steps).snd.out
  {
    if more == [] {
      assert steps + more == steps;
      TransferProofs.RunInv(w, steps);
    } else {
      hide Run, Apply, TransferProofs.Inv;
      var prior, step := more[..|more| - 1], more[|more| - 1];
      StallIsPermanent(w, steps, prior);
      TransferProofs.RunMore(w, steps, more);
      TransferProofs.RunInv(w, steps + prior);
      StalledStep(w, Run(w, steps + prior), step);
    }
  }

  /** What a caller can check before the next event: there is a byte to send per block, or nothing is left. */
  predicate CanEnd(env: Env, s: Sender) {
    s.blocksize >= 1 || !s.listed || (s.queue == [] && s.pos == |env.file|)
  }

  /** Nothing but empty blocks from here. */
  ghost predicate Stuck(env: Env, s: Sender) {
    s.md5.Some? && !CanEnd(env, s)
  }

  ghost predicate AddsNoByte(s: Sender, t: Sender) {
    t.out == s.out || (exists d: Stanza :: d.Data? && d.payload == [] && t.out == s.out + [d])
  }

  /** With block size 0 and an empty queue a pull reads some bytes and sends none of them. */
  lemma ZeroPull(env: Env, s: Sender)
    requires s.md5.Some? && s.listed && s.blocksize == 0 && s.queue == [] && s.pos < |env.file|
    ensures Stuck(env, Pull(env, s)) && AddsNoByte(s, Pull(env, s))
  {
    var (r, k) := ReadRetry(env, s.pos, s.attempts, READ_TRIES);
    if r.Normal? {
      var v := Enqueue(CountRead(s.(attempts := k, stalled := false), r.data), r.data);
      assert Pull(env, s) == Feed(env, v) == EmitBlock(env, v);
      assert v.queue[0..] == v.queue;
    }
  }

  lemma StuckStep(w: World, n: Net, step: Step)
    requires n.snd.pos <= |w.env.file| && Stuck(w.env, n.snd)
    ensures Stuck(w.env, Apply(w, n, step).snd) && AddsNoByte(n.snd, Apply(w, n, step).snd)
  {
    hide Pull;
    var s := n.snd;
    if s.queue != [] {
      assert s.queue[0..] == s.queue;
    } else {
      ZeroPull(w.env, s);
    }
  }

  lemma NoByteJoins(s: Sender, t: Sender)
    requires AddsNoByte(s, t)
    ensures Join(Payloads(t.out)) == Join(Payloads(s.out))
  {
    if t.out != s.out {
      var d: Stanza :| d.Data? && d.payload == [] && t.out == s.out + [d];
      PayloadsAppend(s.out, [d]);
      assert Payloads([d]) == [d.payload] + Payloads([]);
      JoinSnoc(Payloads(s.out), d.payload);
      assert Payloads(t.out) == Payloads(s.out) + [[]];
      assert Join(Payloads(s.out)) + [] == Join(Payloads(s.out));
    }
  }

  /** From a state that cannot end no continuation ends, and none sends another byte. */
  lemma {:induction false} NeverEnds(w: World, steps: seq<Step>, more: seq<Step>)
    requires Stuck(w.env, Run(w, steps).snd)
    ensures var n := Run(w, steps + more);
            && Stuck(w.env, n.snd)
            && Join(Payloads(n.snd.out)) == Join(Payloads(Run(w, steps).snd.out))
  {
    if more == [] {
      assert steps + more == steps;
    } else {
      hide Run, Apply, Stuck, AddsNoByte;
      var prior, step := more[..|more| - 1], more[|more| - 1];
      NeverEnds(w, steps, prior);
      TransferProofs.RunMore(w, steps, more);
      StuckStep(w, Run(w, steps + prior), step);
      NoByteJoins(Run(w, steps + prior).snd, Run(w, steps + more).snd);
    }
  }

  /** Everything has been sent although the block size is 0: the next pull meets the end of the file. */
  ghost predicate Drained(env: Env, s: Sender) {
    s.md5.Some? && s.listed && s.blocksize == 0 && s.queue == [] && s.pos == |env.file|
  }

  lemma DrainedStep(w: World, n: Net, step: Step)
    requires n.snd.pos <= |w.env.file| && Drained(w.env, n.snd)
    ensures var t := Apply(w, n, step).snd;
            (Drained(w.env, t) && t.out == n.snd.out) || (!t.listed && |t.out| == |n.snd.out| + 2)
  {
  }

  lemma OneRoundAddsLittle(w: World, m: Net)
    requires m.snd.pos <= |w.env.file| && TransferProofs.Inv(w, m)
    ensures var t := Round(w, m).snd;
            && t.blocksize == m.snd.blocksize
            && (!m.snd.listed ==> t == m.snd)
            && (Drained(w.env, m.snd) ==>
                  (Drained(w.env, t) && t.out == m.snd.out) || (!t.listed && |t.out| == |m.snd.out| + 2))
  {
    hide Apply;
    var q := Apply(w, m, DeliverStanza);
    TransferProofs.StepInv(w, m, DeliverStanza);
    StepMoves(w, m, DeliverStanza);
    StepMoves(w, q, DeliverReply);
    StanzaLeavesSender(w, m);
    if !m.snd.listed {
      EndedStep(w, q, DeliverReply);
    }
    if Drained(w.env, m.snd) {
      DrainedStep(w, q, DeliverReply);
    }
  }

  lemma StanzaLeavesSender(w: World, n: Net)
    requires n.snd.pos <= |w.env.file|
    ensures Apply(w, n, DeliverStanza).snd == n.snd
  {
  }

  /** How far the stream can have grown since state `s`, when no accept came. */
  ghost predicate GrownLittle(env: Env, s: Sender, t: Sender) {
    if s.blocksize >= 1 then t.blocksize == s.blocksize
    else (Drained(env, t) && t.out == s.out) || (!t.listed && |t.out| <= |s.out| + 2)
  }

  lemma GrownLittleRound(w: World, s: Sender, m: Net)
    requires m.snd.pos <= |w.env.file| && TransferProofs.Inv(w, m) && GrownLittle(w.env, s, m.snd)
    ensures GrownLittle(w.env, s, Round(w, m).snd)
  {
    hide Round, TransferProofs.Inv, Drained;
    OneRoundAddsLittle(w, m);
  }

  lemma {:induction false} RoundsAddLittle(w: World, n: Net, k: nat)
    requires n.snd.pos <= |w.env.file| && TransferProofs.Inv(w, n)
    requires GrownLittle(w.env, n.snd, n.snd)
    ensures GrownLittle(w.env, n.snd, AfterRounds(w, n, k).snd)
  {
    hide Round, GrownLittle, TransferProofs.Inv;
    if k == 0 {
    } else {
      RoundsAddLittle(w, n, k - 1);
      RoundsInv(w, n, k - 1);
      GrownLittleRound(w, n.snd, AfterRounds(w, n, k - 1));
    }
  }

  /** From a state that can end, a peer that keeps answering ends it. */
  lemma AnsweredTransferEnds(w: World, steps: seq<Step>, k: nat)
    requires Reliable(w.env)
    requires Run(w, steps).snd.md5.Some? && CanEnd(w.env, Run(w, steps).snd)
    requires k > 2 * (|Run(w, steps).snd.out| + |w.env.file| + 2)
    ensures Over(Run(w, steps + Rounds(k)))
  {
    var n, all := Run(w, steps), steps + Rounds(k);
    TransferProofs.RunInv(w, steps);
    RoundsAddLittle(w, n, k);
    RoundsDeliver(w, n, k);
    RoundsAreSteps(w, steps, k);
    TransferProofs.RunInOrder(w, all);
    if n.snd.blocksize >= 1 {
      StanzasAreBounded(w, all);
    }
    QuietMeansFinished(w, all);
  }

  ghost predicate OverAfter(w: World, steps: seq<Step>, more: seq<Step>) {
    Over(Run(w, steps + more))
  }

  /** A started transfer whose file can be read can still be brought to its end if and only if a block holds at
      least one byte, or the sender has ended already, or nothing is left to send. */
  lemma EndsIff(w: World, steps: seq<Step>)
    requires Reliable(w.env) && Run(w, steps).snd.md5.Some?
    ensures (exists more :: OverAfter(w, steps, more)) <==> CanEnd(w.env, Run(w, steps).snd)
  {
    var s := Run(w, steps).snd;
    if CanEnd(w.env, s) {
      var k := 2 * (|s.out| + |w.env.file| + 2) + 1;
      AnsweredTransferEnds(w, steps, k);
      assert OverAfter(w, steps, Rounds(k));
    } else {
      forall more
        ensures !OverAfter(w, steps, more)
      {
        NeverEnds(w, steps, more);   // a stuck sender is still listed
      }
    }
  }

  /** Two bytes to send, one byte to a block, and then an accept with block size 0 in mid-transfer. */
  const ZERO_IN_MIDDLE: seq<Step> := [Accept(1), Start, Accept(0)]

  lemma ZeroInMiddleIsStuck(w: World)
    requires w.env.file == [7, 7] && w.env.attempt(0) == Take(2)
    ensures Stuck(w.env, Run(w, ZERO_IN_MIDDLE).snd)
    ensures Join(Payloads(Run(w, ZERO_IN_MIDDLE).snd.out)) == [7]
  {
    var a, b := [Accept(1)], [Accept(1), Start];
    assert a[..0] == [] && b[..1] == a && ZERO_IN_MIDDLE[..2] == b;
    var s := Run(w, a).snd;
    assert AcceptedBlockSize(BLOCK_SIZE_MAX, 1) == 1 && AcceptedBlockSize(1, 0) == 0;
    assert Run(w, a) == Apply(w, Run(w, a[..0]), Accept(1));
    assert s == NEW_SENDER.(active := true, blocksize := 1);
    var u := s.(state := STARTING, md5 := Some([]));
    assert ReadRetry(w.env, 0, 0, READ_TRIES) == (Normal([7, 7]), 1) by {
      assert w.env.file[0..2] == w.env.file;
    }
    var v := Enqueue(CountRead(u.(attempts := 1, stalled := false), [7, 7]), [7, 7]);
    assert Pull(w.env, u) == Feed(w.env, v) == EmitBlock(w.env, v);
    assert v.queue == [7, 7] && v.queue[1..] == [7] && v.queue[..1] == [7];
    var t := Run(w, b).snd;
    assert t.queue == [7] && t.out == [Data(w.env.sid, 0, [7])];
    assert Payloads(t.out) == [[7]] + Payloads([]);
    assert Join([[7]]) == [7] + Join([]);
  }
}
