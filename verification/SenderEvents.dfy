/**
  What each event does to the sender, said on the states before and after it: how far the file is read, what goes on
  the stream and what stays in the queue.
 */
module SenderEvents {
  import opened Bytes
  import opened Ibb
  import opened Stanzas
  import opened Sender
  import opened SenderProofs
  import opened Transfer
  import TransferProofs

  /** The queue and what has been read behind it. */
  function Gathered(env: Env, s: Sender, t: Sender): bytes
    requires s.pos <= t.pos <= |env.file|
  {
    s.queue + env.file[s.pos..t.pos]
  }

  /** There was not enough for a block before the last read, of d bytes; the first read is made in any case. */
  predicate LastReadNeeded(gathered: nat, read: nat, b: nat, d: nat) {
    1 <= d <= 2048 && d <= read && (d == read || gathered < b + d)
  }

  ghost predicate SomeLastRead(gathered: nat, read: nat, b: nat) {
    exists d :: LastReadNeeded(gathered, read, b, d)
  }

  /** A block was full: it goes out, and the rest stays. */
  ghost predicate SendsBlock(env: Env, s: Sender, t: Sender)
    requires s.pos <= t.pos <= |env.file|
  {
    var all, b := Gathered(env, s, t), s.blocksize;
    && t.listed && !t.stalled && t.state == s.state && t.hash == s.hash
    && |all| >= b
    && SomeLastRead(|all|, t.pos - s.pos, b)
    && t.queue == all[b..] && t.seqno == s.seqno + 1
    && t.out == s.out + [Data(env.sid, s.seqno, all[..b])]
  }

  /** The file has ended before a block was full: what there is goes out, and the trailer. */
  ghost predicate EndsFile(env: Env, s: Sender, t: Sender)
    requires s.pos <= t.pos <= |env.file| && t.md5.Some?
  {
    var all := Gathered(env, s, t);
    var digest := env.md5(t.md5.value);
    && !t.listed && !t.stalled && t.state == ENDING && t.hash == Some(digest) && t.queue == []
    && t.pos == |env.file| && (t.pos > s.pos ==> |all| < s.blocksize)
    && t.seqno == s.seqno + (if all == [] then 0 else 1)
    && t.out == s.out + (if all == [] then [] else [Data(env.sid, s.seqno, all)]) + [HashInfo(digest), Terminate]
  }

  /** A read failed, or the file was unavailable ten times in a row, before a block was full. */
  ghost predicate Stalls(env: Env, s: Sender, t: Sender)
    requires s.pos <= t.pos <= |env.file|
  {
    var all := Gathered(env, s, t);
    && t.listed && t.stalled && t.out == s.out && t.seqno == s.seqno && t.hash == s.hash && t.queue == all
    && (t.pos > s.pos ==> |all| < s.blocksize)
    && t.attempts > 0
    && if env.attempt(t.attempts - 1).Fail? then t.state == ERROR
       else
         && t.state == s.state && t.attempts >= s.attempts + 10
         && (forall j :: t.attempts - 10 <= j < t.attempts ==> env.attempt(j).Again?)
         // and not for longer: the attempt before these has read something, or this is all there was
         && if t.pos == s.pos then t.attempts == s.attempts + 10
            else t.attempts > s.attempts + 10 && env.attempt(t.attempts - 11).Take?
  }

  /** What asking the application for more comes to. */
  ghost predicate Pulled(env: Env, s: Sender, t: Sender) {
    && s.pos <= t.pos <= |env.file| && t.attempts > s.attempts
    && s.md5.Some? && t.md5 == Some(s.md5.value + env.file[s.pos..t.pos])
    && t.transmit == s.transmit + (t.pos - s.pos)
    && t.sizeBuf == Max(s.sizeBuf, |s.queue| + (t.pos - s.pos))
    && t.blocksize == s.blocksize && t.active == s.active
    && (SendsBlock(env, s, t) || EndsFile(env, s, t) || Stalls(env, s, t))
  }

  // ---------------------------------------------------------------- one pull

  lemma StallPulls(env: Env, s: Sender)
    requires s.pos <= |env.file| && s.md5.Some? && s.listed && |s.queue| <= s.sizeBuf
    requires var r := ReadRetry(env, s.pos, s.attempts, READ_TRIES).0; r.Unavailable? || r.Failure?
    ensures Pulled(env, s, Pull(env, s))
  {
    RetryIsFirst(env, s.pos, s.attempts, READ_TRIES);
    var t := Pull(env, s);
    assert env.file[s.pos..s.pos] == [] && s.queue + [] == s.queue && s.md5.value + [] == s.md5.value;
    assert Stalls(env, s, t);
  }

  lemma EndPulls(env: Env, s: Sender)
    requires s.pos <= |env.file| && s.md5.Some? && s.listed && |s.queue| <= s.sizeBuf
    requires ReadRetry(env, s.pos, s.attempts, READ_TRIES).0.Eof?
    ensures Pulled(env, s, Pull(env, s))
  {
    RetryIsFirst(env, s.pos, s.attempts, READ_TRIES);
    var t := Pull(env, s);
    assert env.file[s.pos..s.pos] == [] && s.queue + [] == s.queue && s.md5.value + [] == s.md5.value;
    assert s.out + [] == s.out;
    assert EndsFile(env, s, t);
  }

  /** The read that fills a block. */
  lemma BlockPulls(env: Env, s: Sender, u: Sender)
    requires s.pos < u.pos <= |env.file| && u.pos - s.pos <= 2048 && s.md5.Some? && s.listed
    requires u == s.(attempts := u.attempts, stalled := false, pos := u.pos, transmit := s.transmit + (u.pos - s.pos),
                     md5 := Some(s.md5.value + env.file[s.pos..u.pos]), queue := s.queue + env.file[s.pos..u.pos],
                     sizeBuf := Max(s.sizeBuf, |s.queue| + (u.pos - s.pos)))
    requires |u.queue| >= u.blocksize && u.attempts > s.attempts
    ensures Pulled(env, s, EmitBlock(env, u))
  {
    var t := EmitBlock(env, u);
    assert LastReadNeeded(|Gathered(env, s, t)|, t.pos - s.pos, s.blocksize, t.pos - s.pos);
    assert SendsBlock(env, s, t);
  }

  /** What is pulled after a read that did not fill a block is pulled by the two together. */
  lemma PullsAgain(env: Env, s: Sender, u: Sender, t: Sender)
    requires s.pos < u.pos <= |env.file| && u.pos - s.pos <= 2048 && s.md5.Some? && s.listed
    requires u == s.(attempts := u.attempts, stalled := false, pos := u.pos, transmit := s.transmit + (u.pos - s.pos),
                     md5 := Some(s.md5.value + env.file[s.pos..u.pos]), queue := s.queue + env.file[s.pos..u.pos],
                     sizeBuf := Max(s.sizeBuf, |s.queue| + (u.pos - s.pos)))
    requires |u.queue| < u.blocksize && u.attempts > s.attempts && env.attempt(u.attempts - 1).Take?
    requires Pulled(env, u, t)
    ensures Pulled(env, s, t)
  {
    var first, rest := env.file[s.pos..u.pos], env.file[u.pos..t.pos];
    assert env.file[s.pos..t.pos] == first + rest;
    assert s.queue + (first + rest) == s.queue + first + rest;
    assert s.md5.value + (first + rest) == s.md5.value + first + rest;
    assert Gathered(env, s, t) == Gathered(env, u, t);
    if SendsBlock(env, u, t) {
      var all := Gathered(env, u, t);
      var d :| LastReadNeeded(|all|, t.pos - u.pos, u.blocksize, d);
      assert LastReadNeeded(|all|, t.pos - s.pos, s.blocksize, d);
      assert SendsBlock(env, s, t);
    } else if EndsFile(env, u, t) {
      assert EndsFile(env, s, t);
    } else {
      assert Stalls(env, s, t);
    }
  }

  /** The state after one read. */
  function AfterRead(env: Env, s: Sender): Sender
    requires s.pos <= |env.file| && s.md5.Some?
  {
    var (r, k) := ReadRetry(env, s.pos, s.attempts, READ_TRIES);
    if r.Normal? then Enqueue(CountRead(s.(attempts := k, stalled := false), r.data), r.data) else s
  }

  lemma OneRead(env: Env, s: Sender)
    requires s.pos <= |env.file| && s.md5.Some?
    requires ReadRetry(env, s.pos, s.attempts, READ_TRIES).0.Normal?
    ensures var u := AfterRead(env, s);
            && s.pos < u.pos <= |env.file| && u.pos - s.pos <= 2048 && u.attempts > s.attempts
            && u == s.(attempts := u.attempts, stalled := false, pos := u.pos,
                       transmit := s.transmit + (u.pos - s.pos),
                       md5 := Some(s.md5.value + env.file[s.pos..u.pos]), queue := s.queue + env.file[s.pos..u.pos],
                       sizeBuf := Max(s.sizeBuf, |s.queue| + (u.pos - s.pos)))
            && env.attempt(u.attempts - 1).Take?
            && Pull(env, s) == Feed(env, u)
  {
    hide Feed, Answer, ReadRetry;
    var (r, k) := ReadRetry(env, s.pos, s.attempts, READ_TRIES);
    RetryIsFirst(env, s.pos, s.attempts, READ_TRIES);
    assert r == Answer(env, s.pos, k - 1);
    assert s.pos + |r.data| - s.pos == |r.data|;
    assert r.data == env.file[s.pos..s.pos + |r.data|];
    assert Pull(env, s) == Feed(env, AfterRead(env, s));
  }

  lemma {:induction false} PullMeans(env: Env, s: Sender)
    requires s.pos <= |env.file| && s.md5.Some? && s.listed && |s.queue| <= s.sizeBuf
    ensures Pulled(env, s, Pull(env, s))
    decreases |env.file| - s.pos
  {
    hide Pulled, AfterRead, ReadRetry, Pull, EmitBlock;
    var r, u := ReadRetry(env, s.pos, s.attempts, READ_TRIES).0, AfterRead(env, s);
    if r.Unavailable? || r.Failure? {
      StallPulls(env, s);
    } else if r.Eof? {
      EndPulls(env, s);
    } else {
      OneRead(env, s);
      if |u.queue| < u.blocksize {
        PullMeans(env, u);
        PullsAgain(env, s, u, Pull(env, u));
      } else {
        BlockPulls(env, s, u);
      }
    }
  }

  // ---------------------------------------------------------------- every event of every run

  /** The reply that is delivered next is the acknowledgement of a data stanza. */
  predicate Acknowledges(n: Net, step: Step) {
    step.DeliverReply? && n.answered < |n.replies| && n.replies[n.answered].DataAck?
  }

  /** The sender after an acknowledgement with more than a block waiting. */
  function NextBlockSent(env: Env, s: Sender): Sender
    requires |s.queue| > s.blocksize
  {
    s.(queue := s.queue[s.blocksize..], seqno := s.seqno + 1,
       out := s.out + [Data(env.sid, s.seqno, s.queue[..s.blocksize])])
  }

  lemma AckedSenderMoves(w: World, n: Net)
    requires TransferProofs.Inv(w, n) && Acknowledges(n, DeliverReply)
    ensures n.snd.md5.Some? && !n.snd.stalled
  {
    assert n.replies[n.answered].DataAck? <==> n.answered < n.snd.seqno;
  }

  /** In every run: an accept takes effect while the session is listed; the start of an accepted content pulls for the
      first time; an acknowledgement sends the next block if more than one is waiting, and pulls if not; a sender
      that is not listed does nothing, and nothing else makes a sender do anything. */
  lemma EventMeans(w: World, steps: seq<Step>, step: Step)
    ensures var n := Run(w, steps);
            var s, t := n.snd, Run(w, steps + [step]).snd;
            if !s.listed then t == s
            else if step.Accept? then t.active && t == s.(active := true, blocksize := t.blocksize)
            else if step.Start? && s.active && s.md5.None? then
              Pulled(w.env, s.(state := STARTING, md5 := Some([])), t)
            else if Acknowledges(n, step) then
              if |s.queue| > s.blocksize then t == NextBlockSent(w.env, s) else Pulled(w.env, s, t)
            else t == s
  {
    hide Pull, Pulled, TransferProofs.Inv;
    var n := Run(w, steps);
    TransferProofs.RunInv(w, steps);
    TransferProofs.RunSnoc(w, steps, step);
    QueueFits(w, n);
    if n.snd.listed && step.Start? && n.snd.active && n.snd.md5.None? {
      PullMeans(w.env, n.snd.(state := STARTING, md5 := Some([])));
    } else if n.snd.listed && Acknowledges(n, step) {
      AckedSenderMoves(w, n);
      if |n.snd.queue| <= n.snd.blocksize {
        PullMeans(w.env, n.snd);
      }
    }
  }

  lemma QueueFits(w: World, n: Net)
    requires TransferProofs.Inv(w, n)
    ensures |n.snd.queue| <= n.snd.sizeBuf
  {
  }

  // ---------------------------------------------------------------- when a pull stops

  /** An event that reads and then ends the file had less than a block, so that the block it adds, if any, is a short
      one. An event that reads and sends a block leaves less than one read behind, unless exactly one block was
      waiting and a whole read came. */
  lemma WhenAPullStops(w: World, steps: seq<Step>, step: Step)
    requires Run(w, steps + [step]).snd.pos > Run(w, steps).snd.pos
    ensures var s, t := Run(w, steps).snd, Run(w, steps + [step]).snd;
            && (!t.listed ==> forall i :: |s.out| <= i < |t.out| && t.out[i].Data? ==> |t.out[i].payload| < s.blocksize)
            && (t.listed && !t.stalled ==>
                  (|t.queue| < 2048 <==> !(|s.queue| == s.blocksize && t.pos - s.pos == 2048)))
  {
    hide Run, Pulled;
    EventMeans(w, steps, step);
    var s, t := Run(w, steps).snd, Run(w, steps + [step]).snd;
    var u := if step.Start? then s.(state := STARTING, md5 := Some([])) else s;
    assert Pulled(w.env, u, t);
    QueueIsShort(w, steps, step);
    WhenItStops(w.env, u, t);
  }

  /** A sender that is going to read has at most one block waiting. */
  lemma QueueIsShort(w: World, steps: seq<Step>, step: Step)
    requires Run(w, steps + [step]).snd.pos > Run(w, steps).snd.pos
    ensures |Run(w, steps).snd.queue| <= Run(w, steps).snd.blocksize
  {
    hide Run, Pulled;
    EventMeans(w, steps, step);
    UnstartedIsEmpty(w, steps);
  }

  lemma UnstartedIsEmpty(w: World, steps: seq<Step>)
    ensures var s := Run(w, steps).snd;
            s.md5.None? ==> s.listed && s.queue == []
  {
    TransferProofs.RunInv(w, steps);
  }

  lemma WhenItStops(env: Env, s: Sender, t: Sender)
    requires Pulled(env, s, t) && t.pos > s.pos && |s.queue| <= s.blocksize
    ensures !t.listed ==> forall i :: |s.out| <= i < |t.out| && t.out[i].Data? ==> |t.out[i].payload| < s.blocksize
    ensures t.listed && !t.stalled ==> (|t.queue| < 2048 <==> !(|s.queue| == s.blocksize && t.pos - s.pos == 2048))
  {
    var all, read := Gathered(env, s, t), t.pos - s.pos;
    if t.listed && !t.stalled {
      var d :| LastReadNeeded(|all|, read, s.blocksize, d);
    }
  }

  /** An acknowledgement that reaches a listed sender makes it read if and only if no more than one block waits. */
  lemma AckReadsIff(w: World, steps: seq<Step>)
    requires Run(w, steps).snd.listed && Acknowledges(Run(w, steps), DeliverReply)
    ensures var s, t := Run(w, steps).snd, Run(w, steps + [DeliverReply]).snd;
            && (t.attempts != s.attempts <==> |s.queue| <= s.blocksize)
            && (|s.queue| > s.blocksize ==>
                  t.pos == s.pos && t.seqno == s.seqno + 1 && |t.queue| + s.blocksize == |s.queue|)
  {
    EventMeans(w, steps, DeliverReply);
  }

  /** A block is sent as soon as it is full: a file of one byte at block size 1 goes out and waits for its
      acknowledgement, and the trailer comes only after that. */
  lemma FullBlockWaits(w: World)
    requires w.env.file == [7] && w.env.attempt(0) == Take(1)
    ensures var s := Run(w, [Accept(1), Start]).snd;
            s.listed && s.queue == [] && s.out == [Data(w.env.sid, 0, [7])]
  {
    var a, b := [Accept(1)], [Accept(1), Start];
    var s, u, t := Run(w, []).snd, Run(w, a).snd, Run(w, b).snd;
    assert [] + a == a && a + [Start] == b;
    TransferProofs.RunSnoc(w, [], Accept(1));
    AcceptTakesTheSmaller(BLOCK_SIZE_MAX, 1);
    assert u == NEW_SENDER.(active := true, blocksize := 1);
    EventMeans(w, a, Start);
    OneByteRead(w.env, u.(state := STARTING, md5 := Some([])), t);
  }

  lemma OneByteRead(env: Env, u: Sender, t: Sender)
    requires env.file == [7] && env.attempt(0) == Take(1)
    requires u == NEW_SENDER.(active := true, blocksize := 1, state := STARTING, md5 := Some([])) && t == Pull(env, u)
    ensures t.listed && t.queue == [] && t.out == [Data(env.sid, 0, [7])]
  {
    assert env.file[0..1] == [7] && [] + [7] == [7];
    assert ReadRetry(env, 0, 0, READ_TRIES) == (Normal([7]), 1);
    OneRead(env, u);
    var v := AfterRead(env, u);
    assert v.queue == [7] && v.queue[..1] == [7] && v.queue[1..] == [];
    assert Feed(env, v) == EmitBlock(env, v);
  }

  lemma WholeRead(env: Env, s: Sender)
    requires s.pos + 2048 <= |env.file| && s.md5.Some? && env.attempt(s.attempts) == Take(2048)
    ensures var u := AfterRead(env, s);
            && u.queue == s.queue + env.file[s.pos..s.pos + 2048]
            && u.pos == s.pos + 2048 && u.attempts == s.attempts + 1
            && u.blocksize == s.blocksize && u.md5.Some? && u.listed == s.listed && u.out == s.out
            && Pull(env, s) == Feed(env, u)
  {
    assert ReadRetry(env, s.pos, s.attempts, READ_TRIES) ==
      (Normal(env.file[s.pos..s.pos + 2048]), s.attempts + 1);
    OneRead(env, s);
  }

  lemma WholeReadStarts(env: Env, u: Sender)
    requires |env.file| >= 4096 && env.attempt(0) == Take(2048)
    requires u == NEW_SENDER.(active := true, blocksize := 1024)
    ensures var s := OnStart(env, u);
            && |s.queue| == s.blocksize == 1024 && s.listed && s.md5.Some? && s.pos == 2048 && s.attempts == 1
            && |s.out| == 1 && s.out[0].Data?
  {
    hide Pull, AfterRead;
    WholeRead(env, u.(state := STARTING, md5 := Some([])));
  }

  lemma WholeReadStays(env: Env, s: Sender)
    requires |env.file| >= 4096 && env.attempt(1) == Take(2048)
    requires |s.queue| == s.blocksize == 1024 && s.listed && s.md5.Some? && s.pos == 2048 && s.attempts == 1
    ensures |OnDataAck(env, s).queue| == 2048
  {
    hide Pull, AfterRead;
    WholeRead(env, s);
  }

  lemma Accepted1024(w: World)
    ensures Run(w, [Accept(1024)]) == Net(NEW_SENDER.(active := true, blocksize := 1024), 0, NewReceiver(w), [], 0)
  {
    assert [] + [Accept(1024)] == [Accept(1024)];
    TransferProofs.RunSnoc(w, [], Accept(1024));
    AcceptTakesTheSmaller(BLOCK_SIZE_MAX, 1024);
  }

  lemma DeliveredOnce(w: World, n: Net)
    requires n.taken == 0 && |n.snd.out| == 1 && n.snd.out[0].Data? && n.replies == [] && n.answered == 0
    requires n.snd.pos <= |w.env.file| && n.snd.md5.Some?
    ensures var m := Apply(w, n, DeliverStanza);
            m.snd == n.snd && Apply(w, m, DeliverReply).snd == OnDataAck(w.env, n.snd)
  {
    hide OnDataAck;
  }

  /** With exactly one block waiting the acknowledgement reads all the same, and if a whole read comes as much is left
      behind. */
  lemma OneBlockWaits(w: World)
    requires |w.env.file| >= 4096 && w.env.attempt(0) == w.env.attempt(1) == Take(2048)
    ensures var steps := [Accept(1024), Start, DeliverStanza];
            && |Run(w, steps).snd.queue| == 1024 == Run(w, steps).snd.blocksize
            && |Run(w, steps + [DeliverReply]).snd.queue| == 2048
  {
    var a, b, c := [Accept(1024)], [Accept(1024), Start], [Accept(1024), Start, DeliverStanza];
    assert a + [Start] == b && b + [DeliverStanza] == c;
    hide Run, OnStart, OnDataAck, Receive;
    TransferProofs.RunSnoc(w, a, Start);
    TransferProofs.RunSnoc(w, b, DeliverStanza);
    TransferProofs.RunSnoc(w, c, DeliverReply);
    Accepted1024(w);
    WholeReadStarts(w.env, Run(w, a).snd);
    DeliveredOnce(w, Run(w, b));
    WholeReadStays(w.env, Run(w, c).snd);
  }

  // ---------------------------------------------------------------- when a transfer starts

  ghost predicate SomeAccept(steps: seq<Step>) {
    exists i :: 0 <= i < |steps| && steps[i].Accept?
  }

  ghost predicate StartAfterAccept(steps: seq<Step>) {
    exists i, j :: 0 <= i < j < |steps| && steps[i].Accept? && steps[j].Start?
  }

  lemma StartSnoc(prior: seq<Step>, last: Step)
    ensures SomeAccept(prior + [last]) <==> SomeAccept(prior) || last.Accept?
    ensures StartAfterAccept(prior + [last]) <==> StartAfterAccept(prior) || (SomeAccept(prior) && last.Start?)
  {
    var all := prior + [last];
    assert all[|prior|] == last && forall i :: 0 <= i < |prior| ==> all[i] == prior[i];
    if i :| 0 <= i < |prior| && prior[i].Accept? {
      assert all[i].Accept?;
      assert last.Start? ==> all[|prior|].Start?;
    }
    if i, j :| 0 <= i < j < |prior| && prior[i].Accept? && prior[j].Start? {
      assert all[i].Accept? && all[j].Start?;
    }
  }

  /** A transfer has started exactly when its transport became ready after the content was accepted. */
  lemma {:induction false} StartedIff(w: World, steps: seq<Step>)
    ensures Run(w, steps).snd.active <==> SomeAccept(steps)
    ensures Run(w, steps).snd.md5.Some? <==> StartAfterAccept(steps)
  {
    if steps == [] {
    } else {
      hide SomeAccept, StartAfterAccept, Run;
      var prior, last := steps[..|steps| - 1], steps[|steps| - 1];
      assert steps == prior + [last];
      StartedIff(w, prior);
      StartSnoc(prior, last);
      EventMeans(w, prior, last);
      UnstartedIsEmpty(w, prior);
    }
  }
}
