/** What holds of every run of a transfer. */
module TransferProofs {
  import opened Sender
  import opened SenderProofs
  import opened Transfer

  /** The data stanzas are sent one at a time: the next one leaves when the previous one is acknowledged. */
  ghost predicate InStep(s: Sender, answered: nat) {
    if s.listed then
      if s.md5.None? then s.seqno == 0
      else if s.stalled then s.seqno == answered
      else s.seqno == answered + 1
    else s.seqno <= answered + 1
  }

  ghost predicate Inv(w: World, n: Net) {
    && SenderProofs.Inv(w.env, n.snd)
    && n.answered <= |n.replies| == n.taken <= |n.snd.out|
    && (forall i :: 0 <= i < n.taken ==> (n.replies[i].DataAck? <==> i < n.snd.seqno))
    && n.rcv == Received(w, n.snd.out[..n.taken])
    && InStep(n.snd, n.answered)
  }

  /** When the sender only adds to the stream, what has been delivered stays as it was. */
  lemma SenderStep(w: World, n: Net, t: Sender, answered: nat)
    requires Inv(w, n) && SenderProofs.Inv(w.env, t)
    requires n.snd.out <= t.out && (n.snd.listed || t.seqno == n.snd.seqno)
    requires n.snd.seqno <= t.seqno
    requires answered <= n.taken && InStep(t, answered)
    ensures Inv(w, n.(snd := t, answered := answered))
  {
    assert t.out[..n.taken] == n.snd.out[..n.taken];
  }

  lemma ReplyInv(w: World, n: Net)
    requires Inv(w, n)
    ensures Inv(w, Apply(w, n, DeliverReply))
  {
    if n.answered < |n.replies| {
      var t := Apply(w, n, DeliverReply).snd;
      if n.replies[n.answered].DataAck? && n.snd.listed {
        AckInv(w.env, n.snd);
      }
      SenderStep(w, n, t, n.answered + 1);
    }
  }

  lemma StanzaInv(w: World, n: Net)
    requires Inv(w, n)
    ensures Inv(w, Apply(w, n, DeliverStanza))
  {
    if n.taken < |n.snd.out| {
      var out := n.snd.out;
      assert out[..n.taken + 1][..n.taken] == out[..n.taken];
      assert n.taken >= n.snd.seqno ==> out[n.taken] == out[n.snd.seqno..][n.taken - n.snd.seqno];
    }
  }

  lemma AcceptStepInv(w: World, n: Net, parsed: int)
    requires Inv(w, n)
    ensures Inv(w, Apply(w, n, Accept(parsed)))
  {
    AcceptInv(w.env, n.snd, parsed);
    SenderStep(w, n, OnAccept(n.snd, parsed), n.answered);
  }

  lemma StartStepInv(w: World, n: Net)
    requires Inv(w, n)
    ensures Inv(w, Apply(w, n, Start))
  {
    if n.snd.active && n.snd.md5.None? {
      StartInv(w.env, n.snd);
      SenderStep(w, n, OnStart(w.env, n.snd), n.answered);
    }
  }

  lemma StepInv(w: World, n: Net, step: Step)
    requires n.snd.pos <= |w.env.file| && Inv(w, n)
    ensures Inv(w, Apply(w, n, step))
  {
    hide Apply, Inv;
    match step
    case Accept(parsed) => AcceptStepInv(w, n, parsed);
    case Start => StartStepInv(w, n);
    case DeliverStanza => StanzaInv(w, n);
    case DeliverReply => ReplyInv(w, n);
  }

  lemma {:induction false} RunInv(w: World, steps: seq<Step>)
    ensures Inv(w, Run(w, steps))
  {
    if steps == [] {
    } else {
      RunInv(w, steps[..|steps| - 1]);
      StepInv(w, Run(w, steps[..|steps| - 1]), steps[|steps| - 1]);
    }
  }

  /** Deliveries never overtake what was sent. */
  lemma RunInOrder(w: World, steps: seq<Step>)
    ensures var n := Run(w, steps);
            n.answered <= |n.replies| == n.taken <= |n.snd.out|
  {
    RunInv(w, steps);
  }

  lemma RunSnoc(w: World, steps: seq<Step>, step: Step)
    ensures Run(w, steps + [step]) == Apply(w, Run(w, steps), step)
  {
    assert (steps + [step])[..|steps|] == steps;
  }

  /** A continuation goes on from where it has got to. */
  lemma RunMore(w: World, steps: seq<Step>, more: seq<Step>)
    requires more != []
    ensures Run(w, steps + more) == Apply(w, Run(w, steps + more[..|more| - 1]), more[|more| - 1])
  {
    hide Run, Apply;
    assert steps + more == steps + more[..|more| - 1] + [more[|more| - 1]];
    RunSnoc(w, steps + more[..|more| - 1], more[|more| - 1]);
  }
}
