/**
  A whole transfer of one file: two parties and the two first-in first-out directions of the stream between
  them. Every schedule of deliveries, every split of the file into reads, every failure of a read or of a write
  and every accept that lowers the block size is one list of steps in one world.
 */
module Transfer {
  import opened Bytes
  import opened Stanzas
  import opened Sender
  import opened Sink

  /** What the environment decides. `faults(k)` is what the file system does with the k-th block received. */
  datatype World = World(env: Env, faults: nat -> WriteChoice)

  datatype Receiver = Receiver(sink: Sink, blocks: nat, listed: bool, verdict: Option<Verdict>)

  function NewReceiver(w: World): Receiver {
    Receiver(NewSink(|w.env.file|, None), 0, true, None)
  }

  /** The handler of one stanza, and the reply it sends. A data stanza is acknowledged even when the content has
      gone. The digest is stored, but its sender is told that it was not understood. */
  function Receive(w: World, r: Receiver, st: Stanza): (Receiver, Reply) {
    match st
    case Data(_, _, payload) =>
      (if r.listed then r.(sink := HandleBlock(r.sink, payload, w.faults(r.blocks)), blocks := r.blocks + 1) else r,
       DataAck)
    case HashInfo(hash) =>
      if r.listed then (r.(sink := r.sink.(hash := Some(hash))), UnsupportedInfo) else (r, UnknownSession)
    case Terminate =>
      if r.listed then
        (r.(sink := Stopped(r.sink), listed := false, verdict := Some(VerdictOf(r.sink, w.env.md5))), Ack)
      else (r, UnknownSession)
  }

  /** `snd.out[taken..]` is on its way to the receiver and `replies[answered..]` on its way back. */
  datatype Net = Net(snd: Sender, taken: nat, rcv: Receiver, replies: seq<Reply>, answered: nat)

  datatype Step =
    | Accept(parsed: int)   // a session-accept with this block-size attribute reaches the sender
    | Start                 // the transport of the accepted content is ready
    | DeliverStanza
    | DeliverReply

  function Apply(w: World, n: Net, step: Step): (m: Net)
    requires n.snd.pos <= |w.env.file|
    ensures m.snd.pos <= |w.env.file|
  {
    match step
    case Accept(parsed) => n.(snd := OnAccept(n.snd, parsed))
    case Start =>
      if n.snd.active && n.snd.md5.None? then n.(snd := OnStart(w.env, n.snd)) else n
    case DeliverStanza =>
      if n.taken < |n.snd.out| then
        var (r, reply) := Receive(w, n.rcv, n.snd.out[n.taken]);
        n.(taken := n.taken + 1, rcv := r, replies := n.replies + [reply])
      else n
    case DeliverReply =>
      if n.answered < |n.replies| then
        var m := n.(answered := n.answered + 1);
        if n.replies[n.answered].DataAck? && n.snd.md5.Some?
        then m.(snd := OnDataAck(w.env, n.snd)) else m
      else n
  }

  /** The state after a list of steps; a step that is not possible when its turn comes changes nothing. */
  function Run(w: World, steps: seq<Step>): (n: Net)
    ensures n.snd.pos <= |w.env.file|
  {
    if steps == [] then Net(NEW_SENDER, 0, NewReceiver(w), [], 0)
    else Apply(w, Run(w, steps[..|steps| - 1]), steps[|steps| - 1])
  }

  /** The receiver after a list of stanzas. */
  function Received(w: World, stanzas: seq<Stanza>): Receiver {
    if stanzas == [] then NewReceiver(w)
    else Receive(w, Received(w, stanzas[..|stanzas| - 1]), stanzas[|stanzas| - 1]).0
  }

  function Acks(replies: seq<Reply>): nat {
    if replies == [] then 0 else (if replies[0].DataAck? then 1 else 0) + Acks(replies[1..])
  }

  /** Data stanzas the sender has not seen the reply of: on their way there, or acknowledged on the way back. */
  function Unacknowledged(n: Net): nat
    requires n.taken <= |n.snd.out| && n.answered <= |n.replies|
  {
    |Payloads(n.snd.out[n.taken..])| + Acks(n.replies[n.answered..])
  }
}
