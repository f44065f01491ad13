/** How a transfer cuts the file, how long it takes, and when it cannot end. */
module TransferProgress {
  import opened Bytes
  import opened Ibb
  import opened Stanzas
  import opened Sender
  import opened SenderProofs
  import opened Transfer
  import opened TransferTheorems
  import TransferProofs

  // ---------------------------------------------------------------- the cut does not depend on the reads

  /** Every accept of the run leads to block size b. */
  ghost predicate AcceptsGive(steps: seq<Step>, b: nat) {
    forall i :: 0 <= i < |steps| && steps[i].Accept? ==>
      AcceptedBlockSize(BLOCK_SIZE_MAX, steps[i].parsed) == b
  }

  /** So far only full blocks; in the end the cutting of the whole file. */
  ghost predicate Cut(env: Env, s: Sender, b: nat)
    requires b >= 1
  {
    && (s.blocksize == b || (!s.active && s.md5.None? && s.blocksize == BLOCK_SIZE_MAX))
    && if s.listed then forall i :: 0 <= i < |s.out| ==> s.out[i].Data? && |s.out[i].payload| == b
       else Payloads(s.out) == Chunks(env.file, b)
  }

  lemma AcceptedTwice(b: nat, parsed: int)
    requires AcceptedBlockSize(BLOCK_SIZE_MAX, parsed) == b
    ensures AcceptedBlockSize(b, parsed) == b
  {
  }

  /** What the end of the file adds: at most one block, not longer than the others. */
  lemma LastPayload(env: Env, s: Sender, t: Sender, b: nat)
    requires s.listed && SenderProofs.Inv(env, s) && SenderProofs.Inv(env, t) && PullAdds(s.out, b, t) && !t.listed
    ensures var n, blocks := |s.out|, Payloads(s.out);
            if n < t.seqno
            then n < |t.out| && t.out[n].Data? && 1 <= |t.out[n].payload| <= b
                 && Payloads(t.out) == blocks + [t.out[n].payload]
            else Payloads(t.out) == blocks
    ensures env.file == Join(Payloads(t.out))
  {
    var rest := t.out[|s.out|..];
    assert t.out == s.out + rest;
    PayloadsAppend(s.out, rest);
    AddedData(env, s, t);
    assert env.file == Join(Payloads(t.out)) + [] + [] == Join(Payloads(t.out));
    assert Payloads(s.out) + [] == Payloads(s.out);
  }

  /** The block that ends the file completes the cutting. */
  lemma LastCut(env: Env, s: Sender, t: Sender, b: nat)
    requires b >= 1 && s.listed && Cut(env, s, b)
    requires SenderProofs.Inv(env, s) && SenderProofs.Inv(env, t) && PullAdds(s.out, b, t) && !t.listed
    ensures Payloads(t.out) == Chunks(env.file, b)
  {
    hide SenderProofs.Inv, PullAdds, Payloads, Join;
    var blocks := Payloads(s.out);
    PayloadsOfData(s.out);
    LastPayload(env, s, t, b);
    if |s.out| < t.seqno {
      ChunksOfFullAndLast(blocks, t.out[|s.out|].payload, b);
    } else {
      assert Join(blocks) + [] == Join(blocks) && blocks + [] == blocks;
      ChunksOfFullBlocks(blocks, [], b);
    }
  }

  lemma ChunksOfFullAndLast(blocks: seq<bytes>, last: bytes, b: nat)
    requires forall i :: 0 <= i < |blocks| ==> |blocks[i]| == b
    requires 1 <= |last| <= b
    ensures Chunks(Join(blocks + [last]), b) == blocks + [last]
  {
    JoinSnoc(blocks, last);
    ChunksOfFullBlocks(blocks, last, b);
  }

  lemma CutStep(env: Env, s: Sender, t: Sender, step: Step, b: nat)
    requires b >= 1 && SenderProofs.Inv(env, s) && SenderProofs.Inv(env, t) && Cut(env, s, b)
    requires Moves(s, t, step)
    requires step.Accept? ==> AcceptedBlockSize(BLOCK_SIZE_MAX, step.parsed) == b
    ensures Cut(env, t, b)
  {
    if step.Accept? {
      AcceptedTwice(b, step.parsed);
    }
    if s.listed && !t.listed {
      LastCut(env, s, t, b);
    }
  }

  lemma {:induction false} CutInv(w: World, steps: seq<Step>, b: nat)
    requires b >= 1 && AcceptsGive(steps, b)
    ensures Cut(w.env, Run(w, steps).snd, b)
  {
    if steps == [] {
    } else {
      var prior := steps[..|steps| - 1];
      CutInv(w, prior, b);
      TransferProofs.RunInv(w, prior);
      var step := steps[|steps| - 1];
      StepMoves(w, Run(w, prior), step);
      TransferProofs.RunInv(w, steps);
      CutStep(w.env, Run(w, prior).snd, Run(w, steps).snd, step, b);
    }
  }

  lemma DataOfShape(env: Env, s: Sender)
    requires Shape(env, s)
    ensures |Payloads(s.out)| == s.seqno
    ensures forall i :: 0 <= i < s.seqno ==> s.out[i] == Data(env.sid, i, Payloads(s.out)[i])
  {
    var data, rest := s.out[..s.seqno], s.out[s.seqno..];
    PayloadsOfData(data);
    assert s.out == data + rest;
    PayloadsAppend(data, rest);
    PayloadsOfOthers(rest);
  }

  /** The data stanzas are the first blocks of the cutting, numbered from zero; all of them, followed by the
      trailer, once the file has ended. */
  ghost predicate SendsTheCut(env: Env, s: Sender, b: nat)
    requires b >= 1
  {
    var cut := Chunks(env.file, b);
    && s.seqno <= |s.out| && s.seqno <= |cut|
    && (forall i :: 0 <= i < s.seqno ==> s.out[i] == Data(env.sid, i, cut[i]))
    && s.out[s.seqno..] == Trailer(env, s)
    && (!s.listed ==> s.seqno == |cut|)
  }

  lemma CutSoFar(env: Env, s: Sender, b: nat)
    requires b >= 1 && SenderProofs.Inv(env, s) && Cut(env, s, b)
    ensures SendsTheCut(env, s, b)
  {
    DataOfShape(env, s);
    if s.listed {
      var rest := s.queue + env.file[s.pos..];
      assert env.file == Join(Payloads(s.out)) + rest;
      PayloadsOfData(s.out);
      ChunksOfFullBlocks(Payloads(s.out), rest, b);
    }
  }

  /** Whatever the single reads returned, the stanzas are the cutting of the file; their number is exactly
      ceil(n / b). */
  lemma PacketsAreTheCut(w: World, steps: seq<Step>, b: nat)
    requires b >= 1 && AcceptsGive(steps, b)
    ensures var s := Run(w, steps).snd;
            SendsTheCut(w.env, s, b) && (!s.listed ==> s.seqno == BlocksFor(|w.env.file|, b))
  {
    TransferProofs.RunInv(w, steps);
    CutInv(w, steps, b);
    CutSoFar(w.env, Run(w, steps).snd, b);
    ChunksCount(w.env.file, b);
  }

  /** The i-th stanza carries number i and the i-th slice of the file. */
  lemma PacketIsSlice(w: World, steps: seq<Step>, b: nat, i: nat)
    requires b >= 1 && AcceptsGive(steps, b) && i < Run(w, steps).snd.seqno
    ensures var out, file := Run(w, steps).snd.out, w.env.file;
            && i < |out| && i * b < |file|
            && out[i] == Data(w.env.sid, i, file[i * b..Min(i * b + b, |file|)])
  {
    PacketsAreTheCut(w, steps, b);
    ChunkAt(w.env.file, b, i);
  }

  /** Two finished transfers of one file with one block size put the same stanzas on the stream, however
      differently the file was read, and however the deliveries were scheduled. */
  lemma ReadSplitIndependence(w: World, w': World, steps: seq<Step>, steps': seq<Step>, b: nat)
    requires b >= 1 && AcceptsGive(steps, b) && AcceptsGive(steps', b)
    requires w'.env == w.env.(attempt := w'.env.attempt)
    requires !Run(w, steps).snd.listed && !Run(w', steps').snd.listed
    ensures Run(w, steps).snd.out == Run(w', steps').snd.out
  {
    PacketsAreTheCut(w, steps, b);
    PacketsAreTheCut(w', steps', b);
    var s, s' := Run(w, steps).snd, Run(w', steps').snd;
    assert s.out == s.out[..s.seqno] + s.out[s.seqno..];
    assert s'.out == s'.out[..s'.seqno] + s'.out[s'.seqno..];
    assert s.out[..s.seqno] == s'.out[..s'.seqno];
  }

  // ---------------------------------------------------------------- nothing stops before the end

  ghost predicate NeverFails(env: Env) {
    forall k: nat :: !env.attempt(k).Fail?
  }

  ghost predicate TakesSoon(env: Env, k: nat) {
    exists j :: k <= j < k + READ_TRIES && env.attempt(j).Take?
  }

  /** No read fails, and none is unavailable as often as the code tries. */
  ghost predicate Reliable(env: Env) {
    && NeverFails(env)
    && forall k: nat :: TakesSoon(env, k)
  }

  lemma {:induction false} RetrySucceeds(env: Env, pos: nat, k: nat, tries: nat, j: nat)
    requires pos <= |env.file| && NeverFails(env)
    requires k <= j < k + tries && env.attempt(j).Take?
    ensures var r := ReadRetry(env, pos, k, tries).0;
            r.Normal? || r.Eof?
    decreases tries
  {
    if env.attempt(k).Again? {
      RetrySucceeds(env, pos, k + 1, tries - 1, j);
    }
  }

  lemma ReadSucceeds(env: Env, pos: nat, k: nat)
    requires pos <= |env.file| && Reliable(env)
    ensures var r := ReadRetry(env, pos, k, READ_TRIES).0;
            r.Normal? || r.Eof?
  {
    assert TakesSoon(env, k);
    var j :| k <= j < k + READ_TRIES && env.attempt(j).Take?;
    RetrySucceeds(env, pos, k, READ_TRIES, j);
  }

  lemma {:induction false} PullDoesNotStall(env: Env, s: Sender)
    requires s.pos <= |env.file| && s.md5.Some? && Reliable(env)
    ensures !Pull(env, s).stalled
    decreases |env.file| - s.pos
  {
    ReadSucceeds(env, s.pos, s.attempts);
    var (r, k) := ReadRetry(env, s.pos, s.attempts, READ_TRIES);
    if r.Normal? {
      var u := Enqueue(CountRead(s.(attempts := k, stalled := false), r.data), r.data);
      assert Pull(env, s) == Feed(env, u);
      if |u.queue| < u.blocksize {
        PullDoesNotStall(env, u);
      }
    }
  }

  lemma {:induction false} RunDoesNotStall(w: World, steps: seq<Step>)
    requires Reliable(w.env)
    ensures !Run(w, steps).snd.stalled
  {
    if steps == [] {
    } else {
      var prior, step := steps[..|steps| - 1], steps[|steps| - 1];
      RunDoesNotStall(w, prior);
      var s := Run(w, prior).snd;
      if step.Start? {
        PullDoesNotStall(w.env, s.(state := STARTING, md5 := Some([])));
      } else if step.DeliverReply? && s.md5.Some? {
        PullDoesNotStall(w.env, s);
      }
    }
  }

  /** Nothing is on its way in either direction. */
  predicate Quiet(n: Net) {
    n.taken == |n.snd.out| && n.answered == |n.replies|
  }

  /** A started transfer with a readable file is quiet only when it is over for both sides. */
  lemma QuietMeansFinished(w: World, steps: seq<Step>)
    requires Reliable(w.env)
    requires Run(w, steps).snd.md5.Some? && Quiet(Run(w, steps))
    ensures !Run(w, steps).snd.listed && Run(w, steps).rcv.verdict.Some?
  {
    var n := Run(w, steps);
    StopAndWait(w, steps);
    RunDoesNotStall(w, steps);
    TransferProofs.RunInv(w, steps);
    assert n.snd.out[n.taken..] == [] && n.replies[n.answered..] == [];
    ReceivedPart(w, n.snd, n.taken);
  }
}
