/** The promises of a transfer: what a reader of the protocol may rely on in every run. */
module TransferTheorems {
  import opened Bytes
  import opened Ibb
  import opened Stanzas
  import opened Sender
  import opened SenderProofs
  import opened Sink
  import opened Transfer
  import TransferProofs

  // ---------------------------------------------------------------- what the receiver has

  lemma {:induction false} ReceivedData(w: World, out: seq<Stanza>)
    requires AllData(out)
    ensures Received(w, out) ==
              Receiver(Deliver(NewReceiver(w).sink, Payloads(out), w.faults), |out|, true, None)
    ensures |Payloads(out)| == |out|
  {
    if out == [] {
    } else {
      var prior, last := out[..|out| - 1], out[|out| - 1];
      var blocks, empty := Payloads(prior), NewReceiver(w).sink;
      ReceivedData(w, prior);
      assert out == prior + [last];
      PayloadsAppend(prior, [last]);
      assert Payloads(out) == blocks + [last.payload];
      DeliverSnoc(empty, blocks, last.payload, w.faults);
    }
  }

  /** What the receiver has made of the data among the first k stanzas of a sender. */
  function SinkAfter(w: World, s: Sender, k: nat): Sink
    requires k <= |s.out|
  {
    Deliver(NewReceiver(w).sink, Payloads(s.out[..k]), w.faults)
  }

  function WithHash(w: World, d: Sink): Sink {
    d.(hash := Some(w.env.md5(w.env.file)))
  }

  /** After any part of what the sender can send, the receiver has the blocks in that part and nothing else. */
  lemma ReceivedPart(w: World, s: Sender, k: nat)
    requires Shape(w.env, s) && k <= |s.out|
    ensures |Payloads(s.out[..k])| == Min(k, s.seqno)
    ensures var d := SinkAfter(w, s, k);
            Received(w, s.out[..k]) ==
              if k <= s.seqno then Receiver(d, k, true, None)
              else if k == s.seqno + 1 then Receiver(WithHash(w, d), s.seqno, true, None)
              else Receiver(Stopped(WithHash(w, d)), s.seqno, false, Some(VerdictOf(WithHash(w, d), w.env.md5)))
    decreases k
  {
    if k <= s.seqno {
      ReceivedData(w, s.out[..k]);
    } else {
      ReceivedPart(w, s, k - 1);
      TrailerStep(w, s, k);
    }
  }

  lemma TrailerStep(w: World, s: Sender, k: nat)
    requires Shape(w.env, s) && s.seqno < k <= |s.out|
    ensures k <= s.seqno + 2
    ensures var st := if k == s.seqno + 1 then HashInfo(w.env.md5(w.env.file)) else Terminate;
            Received(w, s.out[..k]) == Receive(w, Received(w, s.out[..k - 1]), st).0
    ensures Payloads(s.out[..k]) == Payloads(s.out[..k - 1])
  {
    var prior, last := s.out[..k - 1], s.out[k - 1];
    assert last == s.out[s.seqno..][k - 1 - s.seqno];
    assert s.out[..k] == prior + [last];
    PayloadsAppend(prior, [last]);
    assert s.out[..k][..k - 1] == prior;
  }

  // ---------------------------------------------------------------- conservation and bounds

  /** The file is what the receiver was given, what is on its way, what the buffer holds and what has not been
      read. */
  ghost predicate Accounted(w: World, n: Net)
    requires n.taken <= |n.snd.out| && n.snd.pos <= |w.env.file|
  {
    var given := Payloads(n.snd.out[..n.taken]);
    && w.env.file == Join(given) + Join(Payloads(n.snd.out[n.taken..])) + n.snd.queue + w.env.file[n.snd.pos..]
    && n.rcv.blocks == |given|
    && (AllTaken(NewReceiver(w).sink, given, w.faults) ==> Written(n.rcv.sink) == Join(given))
  }

  lemma SplitConserved(env: Env, s: Sender, i: nat)
    requires s.pos <= |env.file| && Conserved(env, s) && i <= |s.out|
    ensures env.file == Join(Payloads(s.out[..i])) + Join(Payloads(s.out[i..])) + s.queue + env.file[s.pos..]
  {
    assert s.out == s.out[..i] + s.out[i..];
    PayloadsAppend(s.out[..i], s.out[i..]);
    JoinAppend(Payloads(s.out[..i]), Payloads(s.out[i..]));
  }

  lemma NetIsAccounted(w: World, n: Net)
    requires TransferProofs.Inv(w, n)
    ensures Accounted(w, n)
  {
    SplitConserved(w.env, n.snd, n.taken);
    ReceivedPart(w, n.snd, n.taken);
    Accounting(NewReceiver(w).sink, Payloads(n.snd.out[..n.taken]), w.faults);
  }

  /** At every moment of every run nothing is lost, doubled or out of order. What the receiver has written is a
      prefix of the file as long as no write failed. */
  lemma Conservation(w: World, steps: seq<Step>)
    ensures var n := Run(w, steps);
            && n.taken <= |n.snd.out| && Accounted(w, n)
            && (AllTaken(NewReceiver(w).sink, Payloads(n.snd.out[..n.taken]), w.faults) ==>
                  Written(n.rcv.sink) <= w.env.file)
  {
    TransferProofs.RunInv(w, steps);
    NetIsAccounted(w, Run(w, steps));
  }

  /** Nothing ever leaves the bounds of the two fixed sizes, and what is kept between events is less than one
      read, unless a read failed and the transfer stands still. */
  lemma BufferBounds(w: World, steps: seq<Step>)
    ensures var s := Run(w, steps).snd;
            && |s.queue| <= s.sizeBuf <= BLOCK_SIZE_MAX + READ_SIZE
            && (!s.stalled ==> |s.queue| <= READ_SIZE)
  {
    TransferProofs.RunInv(w, steps);
  }

  // ---------------------------------------------------------------- end to end

  /** When the receiver has handled the end of the session, it has been given the whole file. It calls the
      transfer good exactly when no block was lost on the way to its disk; then its file is the sender's file,
      every byte has been counted, and the digest agrees (an empty file is never verified: no block created
      the digest). */
  lemma EndToEnd(w: World, steps: seq<Step>)
    requires Run(w, steps).rcv.verdict.Some?
    ensures var n := Run(w, steps);
            var blocks := Payloads(n.snd.out);
            && Join(blocks) == w.env.file
            && n.rcv.sink.state == (if AllTaken(NewReceiver(w).sink, blocks, w.faults) then ENDING else ERROR)
            && (n.rcv.sink.state == ENDING ==>
                  && Written(n.rcv.sink) == w.env.file
                  && n.rcv.sink.transmit == n.rcv.sink.size == |w.env.file|
                  && n.rcv.verdict == Some(if w.env.file == [] then Unverified else Verified))
            && (n.rcv.sink.state == ERROR ==> n.rcv.verdict == Some(Incomplete))
            && n.snd.state == ENDING && n.snd.transmit == |w.env.file| && !n.snd.listed
            && n.snd.hash == Some(w.env.md5(w.env.file)) == n.rcv.sink.hash
  {
    TransferProofs.RunInv(w, steps);
    EndOfNet(w, Run(w, steps));
  }

  lemma EndOfNet(w: World, n: Net)
    requires TransferProofs.Inv(w, n) && n.rcv.verdict.Some?
    ensures var blocks := Payloads(n.snd.out);
            && Join(blocks) == w.env.file
            && n.rcv.sink.state == (if AllTaken(NewReceiver(w).sink, blocks, w.faults) then ENDING else ERROR)
            && (n.rcv.sink.state == ENDING ==>
                  && Written(n.rcv.sink) == w.env.file
                  && n.rcv.sink.transmit == n.rcv.sink.size == |w.env.file|
                  && n.rcv.verdict == Some(if w.env.file == [] then Unverified else Verified))
            && (n.rcv.sink.state == ERROR ==> n.rcv.verdict == Some(Incomplete))
            && !n.snd.listed && n.rcv.sink.hash == Some(w.env.md5(w.env.file))
  {
    ReceivedPart(w, n.snd, n.taken);
    assert n.snd.out[..n.taken] == n.snd.out;
    assert w.env.file == Join(Payloads(n.snd.out)) + [] + [] == Join(Payloads(n.snd.out));
    Accounting(NewReceiver(w).sink, Payloads(n.snd.out), w.faults);
  }

  lemma VerdictMeansUnlisted(w: World, n: Net)
    requires TransferProofs.Inv(w, n) && n.rcv.verdict.Some?
    ensures !n.rcv.listed
  {
    ReceivedPart(w, n.snd, n.taken);
  }

  // ---------------------------------------------------------------- stop and wait

  lemma {:induction false} AcksOfPart(replies: seq<Reply>, i: nat, p: nat)
    requires i <= |replies|
    requires forall j :: i <= j < |replies| ==> (replies[j].DataAck? <==> j < p)
    ensures Acks(replies[i..]) == if i < Min(p, |replies|) then Min(p, |replies|) - i else 0
    decreases |replies| - i
  {
    if i < |replies| {
      AcksOfPart(replies, i + 1, p);
      assert replies[i..][1..] == replies[i + 1..];
    }
  }

  lemma DataOfRest(env: Env, s: Sender, i: nat)
    requires Shape(env, s) && i <= |s.out|
    ensures |Payloads(s.out[i..])| == if i < s.seqno then s.seqno - i else 0
  {
    var p := s.seqno;
    if i < p {
      assert s.out[i..] == s.out[i..p] + s.out[p..];
      PayloadsAppend(s.out[i..p], s.out[p..]);
      PayloadsOfData(s.out[i..p]);
      PayloadsOfOthers(s.out[p..]);
    } else {
      assert forall j :: i <= j < |s.out| ==> s.out[j] == s.out[p..][j - p];
      PayloadsOfOthers(s.out[i..]);
    }
  }

  /** At most one data stanza is unacknowledged. Between the start and the end of the file, and unless a read
      has failed, there is exactly one, so something can always be delivered. */
  lemma StopAndWait(w: World, steps: seq<Step>)
    ensures var n := Run(w, steps);
            && n.taken <= |n.snd.out| && n.answered <= |n.replies|
            && Unacknowledged(n) <= 1
            && (n.snd.listed ==>
                  (Unacknowledged(n) == 1 <==> n.snd.md5.Some? && !n.snd.stalled))
  {
    var n := Run(w, steps);
    TransferProofs.RunInv(w, steps);
    DataOfRest(w.env, n.snd, n.taken);
    AcksOfPart(n.replies, n.answered, n.snd.seqno);
  }

  lemma EndedStep(w: World, n: Net, step: Step)
    requires n.snd.pos <= |w.env.file| && !n.snd.listed
    ensures Apply(w, n, step).snd == n.snd
  {
  }

  /** Once the file has ended, nothing that still arrives changes the sender or makes it send: not the
      acknowledgement of the last block, not a late accept, not a second start. */
  lemma {:induction false} NothingAfterEnd(w: World, steps: seq<Step>, more: seq<Step>)
    requires !Run(w, steps).snd.listed
    ensures Run(w, steps + more).snd == Run(w, steps).snd
  {
    hide Run, Apply;
    if more == [] {
      assert steps + more == steps;
    } else {
      var prior, step := more[..|more| - 1], more[|more| - 1];
      NothingAfterEnd(w, steps, prior);
      TransferProofs.RunMore(w, steps, more);
      EndedStep(w, Run(w, steps + prior), step);
    }
  }

  // ---------------------------------------------------------------- the block size

  /** What one step does to the sender: one pull of a running transfer, an accept, or nothing. */
  ghost predicate Moves(s: Sender, t: Sender, step: Step) {
    if s.listed && (t.out != s.out || t.attempts != s.attempts) then
      && PullAdds(s.out, s.blocksize, t) && (s.active || s.md5.Some?) && t.md5.Some?
      && (t.attempts != s.attempts ==> |s.queue| <= s.blocksize)
    else if step.Accept? then t == OnAccept(s, step.parsed)
    else t == s
  }

  lemma StartMoves(env: Env, s: Sender)
    requires SenderProofs.Inv(env, s) && s.md5.None? && s.active
    ensures Moves(s, OnStart(env, s), Start)
  {
    StartInv(env, s);
  }

  lemma AckMoves(env: Env, s: Sender)
    requires SenderProofs.Inv(env, s) && s.md5.Some?
    requires s.listed ==> !s.stalled
    ensures Moves(s, OnDataAck(env, s), DeliverReply)
  {
    if s.listed {
      AckInv(env, s);
    }
  }

  lemma StepMoves(w: World, n: Net, step: Step)
    requires TransferProofs.Inv(w, n)
    ensures Moves(n.snd, Apply(w, n, step).snd, step)
  {
    var s := n.snd;
    if step.Start? && s.active && s.md5.None? {
      StartMoves(w.env, s);
    } else if step.DeliverReply? && n.answered < |n.replies| && s.md5.Some? {
      if n.replies[n.answered].DataAck? {
        AckMoves(w.env, s);
      }
    }
  }

  /** Whatever accepts have lowered the block size to: an event sends at most one data stanza; it has exactly the
      size current at that moment, or is the last one and not longer than that. The file is read only when no
      more than one block is waiting. */
  lemma BlocksHaveCurrentSize(w: World, steps: seq<Step>, step: Step)
    ensures var s := Run(w, steps).snd;
            var t := Run(w, steps + [step]).snd;
            && s.out <= t.out && t.blocksize <= s.blocksize
            && (t.attempts != s.attempts ==> |s.queue| <= s.blocksize)
            && var added := Payloads(t.out[|s.out|..]);
            && |added| <= 1
            && (|added| == 1 ==>
                  if t.listed then |added[0]| == s.blocksize else 1 <= |added[0]| <= s.blocksize)
  {
    var n := Run(w, steps);
    TransferProofs.RunInv(w, steps);
    StepMoves(w, n, step);
    TransferProofs.StepInv(w, n, step);
    assert (steps + [step])[..|steps|] == steps;
    var s, t := n.snd, Apply(w, n, step).snd;
    AddedData(w.env, s, t);
  }

  lemma AddedData(env: Env, s: Sender, t: Sender)
    requires Shape(env, s) && Shape(env, t) && s.out <= t.out
    requires t.out == s.out || (s.listed && t.seqno <= |s.out| + 1)
    ensures Payloads(t.out[|s.out|..]) ==
              if |s.out| < t.seqno then [t.out[|s.out|].payload] else []
  {
    var n := |s.out|;
    DataOfRest(env, t, n);
    if n < t.seqno {
      assert t.out[n..] == [t.out[n]] + t.out[n + 1..];
      PayloadsAppend([t.out[n]], t.out[n + 1..]);
      assert Payloads([t.out[n]]) == [t.out[n].payload] + Payloads([]);
      DataOfRest(env, t, n + 1);
    }
  }
}
