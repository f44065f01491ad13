/**
  The sending side of a file transfer: the specification of the pull pipeline.

  Every event (an accept, the transport becoming ready, the reply to a data stanza) makes the pipeline read
  the file until a block is full, the file ends or a read fails.
 */
module Sender {
  import opened Bytes
  import opened Ibb
  import opened Stanzas

  const READ_SIZE := 2048
  const READ_TRIES := 10

  /** What the environment does with one attempt to read the file. */
  datatype ReadChoice = Take(n: nat) | Again | Fail

  datatype ReadResult = Normal(data: bytes) | Eof | Unavailable | Failure

  /** What does not change during a transfer. `attempt(k)` decides the k-th attempt to read. */
  datatype Env = Env(sid: string, file: bytes, attempt: nat -> ReadChoice, md5: bytes -> string)

  datatype FtState = PENDING | STARTING | ENDING | REJECT | ERROR

  datatype Sender = Sender(
    // JingleIBB
    blocksize: nat, queue: bytes, sizeBuf: nat, seqno: nat,
    // the open file
    pos: nat, attempts: nat,
    // JingleFT
    state: FtState, transmit: nat, md5: Option<bytes>, hash: Option<string>,
    // is the session, with this as its only content, in the list; is the content active
    listed: bool, active: bool,
    // every stanza sent so far
    out: seq<Stanza>,
    // history: the last read came back unavailable or failed, which the code only logs
    stalled: bool)

  const NEW_SENDER := Sender(BLOCK_SIZE_MAX, [], 0, 0, 0, 0, PENDING, 0, None, None, true, false, [], false)

  // ---------------------------------------------------------------- reading the file

  /** A read brings any number of bytes the environment chooses, from one up to 2048 and to the end of the file. */
  function Answer(env: Env, pos: nat, k: nat): (r: ReadResult)
    requires pos <= |env.file|
    ensures r.Normal? ==> 1 <= |r.data| <= 2048 && pos + |r.data| <= |env.file|
    ensures r.Unavailable? <==> env.attempt(k).Again?
    ensures r.Failure? <==> env.attempt(k).Fail?
    ensures env.attempt(k).Take? && 1 <= env.attempt(k).n <= 2048 && pos + env.attempt(k).n <= |env.file| ==>
              r.Normal? && |r.data| == env.attempt(k).n
    ensures r.Normal? ==> r.data == env.file[pos..pos + |r.data|]
    ensures r.Eof? ==> pos == |env.file| && env.attempt(k).Take?
  {
    match env.attempt(k)
    case Again => Unavailable
    case Fail => Failure
    case Take(n) =>
      if pos == |env.file| then Eof
      else Normal(env.file[pos..pos + Min(Min(Max(n, 1), READ_SIZE), |env.file| - pos)])
  }

  /** At most `tries` attempts while the answer is "try again"; the second result counts them. */
  function ReadRetry(env: Env, pos: nat, k: nat, tries: nat): (r: (ReadResult, nat))
    requires pos <= |env.file| && tries >= 1
    ensures r.0.Normal? ==> 1 <= |r.0.data| <= READ_SIZE && pos + |r.0.data| <= |env.file|
    ensures r.0.Normal? ==> r.0.data == env.file[pos..pos + |r.0.data|]
    ensures r.0.Eof? ==> pos == |env.file|
    ensures k < r.1 <= k + tries
    decreases tries
  {
    var a := Answer(env, pos, k);
    if a.Unavailable? && tries > 1 then ReadRetry(env, pos, k + 1, tries - 1) else (a, k + 1)
  }

  /** The first attempt that is not "try again" decides, or the tenth. */
  lemma {:induction false} RetryIsFirst(env: Env, pos: nat, k: nat, tries: nat)
    requires pos <= |env.file| && 1 <= tries
    ensures var (r, next) := ReadRetry(env, pos, k, tries);
            && k < next <= k + tries && r == Answer(env, pos, next - 1)
            && (forall j :: k <= j < next - 1 ==> env.attempt(j).Again?)
            && (next < k + tries ==> !env.attempt(next - 1).Again?)
    decreases tries
  {
    if Answer(env, pos, k).Unavailable? && tries > 1 {
      RetryIsFirst(env, pos, k + 1, tries - 1);
    }
  }

  // ---------------------------------------------------------------- the pipeline

  function SendData(env: Env, s: Sender, payload: bytes): Sender {
    s.(out := s.out + [Data(env.sid, s.seqno, payload)], seqno := s.seqno + 1)
  }

  function EmitBlock(env: Env, s: Sender): Sender
    requires s.blocksize <= |s.queue|
  {
    SendData(env, s.(queue := s.queue[s.blocksize..]), s.queue[..s.blocksize])
  }

  function Enqueue(s: Sender, data: bytes): Sender {
    s.(queue := s.queue + data, sizeBuf := Max(s.sizeBuf, |s.queue| + |data|))
  }

  /** The rest of the queue goes out whatever its length. */
  function Flush(env: Env, s: Sender): Sender {
    (if |s.queue| > 0 then SendData(env, s, s.queue) else s).(queue := [])
  }

  /** The end of the file: flush, announce the digest, drop the content and with it the session. */
  function Finish(env: Env, s: Sender): Sender
    requires s.md5.Some?
  {
    var f := Flush(env, s);
    var digest := env.md5(f.md5.value);
    f.(hash := Some(digest), state := ENDING, out := f.out + [HashInfo(digest), Terminate], listed := false)
  }

  function CountRead(s: Sender, data: bytes): Sender
    requires s.md5.Some?
  {
    s.(pos := s.pos + |data|, transmit := s.transmit + |data|, md5 := Some(s.md5.value + data))
  }

  /** Ask the application for more. */
  function Pull(env: Env, s: Sender): (t: Sender)
    requires s.pos <= |env.file| && s.md5.Some?
    ensures t.pos <= |env.file| && t.md5.Some? && t.attempts > s.attempts
    decreases |env.file| - s.pos, 0
  {
    var (r, k) := ReadRetry(env, s.pos, s.attempts, READ_TRIES);
    var t := s.(attempts := k, stalled := r.Unavailable? || r.Failure?);
    match r
    case Unavailable => t
    case Failure => t.(state := ERROR)
    case Eof => Finish(env, t)
    case Normal(data) => Feed(env, Enqueue(CountRead(t, data), data))
  }

  /** After new bytes have been queued: send a block, or pull again while there is not enough for one. */
  function Feed(env: Env, s: Sender): (t: Sender)
    requires s.pos <= |env.file| && s.md5.Some?
    ensures t.pos <= |env.file| && t.md5.Some? && t.attempts >= s.attempts
    decreases |env.file| - s.pos, 1
  {
    if |s.queue| < s.blocksize then Pull(env, s) else EmitBlock(env, s)
  }

  // ---------------------------------------------------------------- the events

  function OnAccept(s: Sender, parsed: int): Sender {
    if s.listed then s.(active := true, blocksize := AcceptedBlockSize(s.blocksize, parsed)) else s
  }

  /** The transport of the accepted content is ready. */
  function OnStart(env: Env, s: Sender): (t: Sender)
    requires s.pos <= |env.file|
    ensures t.pos <= |env.file|
  {
    if s.listed then Pull(env, s.(state := STARTING, md5 := Some([]))) else s
  }

  /** The reply to a data stanza. */
  function OnDataAck(env: Env, s: Sender): (t: Sender)
    requires s.pos <= |env.file| && s.md5.Some?
    ensures t.pos <= |env.file|
  {
    if !s.listed then s
    else if |s.queue| > s.blocksize then EmitBlock(env, s)
    else Pull(env, s)
  }
}
