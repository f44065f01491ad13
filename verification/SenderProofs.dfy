/** What every event of the sending side keeps, and what it can put on the stream. */
module SenderProofs {
  import opened Bytes
  import opened Ibb
  import opened Stanzas
  import opened Sender

  /** What follows the data once the content has ended. */
  function Trailer(env: Env, s: Sender): seq<Stanza> {
    if s.listed then []
    else [HashInfo(env.md5(env.file)), Terminate]
  }

  /** The stanzas sent are the numbered data stanzas of this stream, then the trailer. */
  ghost predicate Shape(env: Env, s: Sender) {
    var n := s.seqno;
    && |s.out| == n + |Trailer(env, s)|
    && s.out[n..] == Trailer(env, s)
    && forall i :: 0 <= i < n ==> s.out[i].Data? && s.out[i].seqno == i && s.out[i].sid == env.sid
  }

  /** No byte is lost, duplicated or reordered between the file, the buffer and the stream. */
  ghost predicate Conserved(env: Env, s: Sender)
    requires s.pos <= |env.file|
  {
    env.file == Join(Payloads(s.out)) + s.queue + env.file[s.pos..]
  }

  /** The state shown to the user: an unavailable file leaves it at STARTING, a failed read is an error. */
  ghost predicate StateFits(s: Sender) {
    if s.md5.None? then s.state == PENDING
    else if !s.listed then s.state == ENDING
    else s.state == STARTING || (s.state == ERROR && s.stalled)
  }

  /** Holds at every point of the pipeline, also while a pull is under way. */
  ghost predicate Core(env: Env, s: Sender) {
    && s.pos <= |env.file| && s.transmit == s.pos
    && s.blocksize <= BLOCK_SIZE_MAX
    && |s.queue| <= s.sizeBuf <= BLOCK_SIZE_MAX + READ_SIZE
    && (s.md5.Some? ==> s.md5.value == env.file[..s.pos])
    && (s.md5.None? ==> s.listed && s.pos == 0 && s.queue == [] && s.out == [] && !s.stalled)
    && (!s.listed ==> s.pos == |env.file| && s.queue == [] && !s.stalled)
    && StateFits(s)
    && (!s.listed ==> s.hash == Some(env.md5(env.file)))
    && (env.file == [] ==> s.seqno == 0)
    && Shape(env, s)
    && Conserved(env, s)
  }

  /** Holds between events: unless a read failed, a little less than one read is left in the buffer. */
  ghost predicate Inv(env: Env, s: Sender) {
    && Core(env, s)
    && (s.stalled || |s.queue| <= READ_SIZE)
  }

  /** What one pull adds to the stream: one full block, or nothing because a read failed, or the end of the
      file, with at most one last block that is not longer than a full one. */
  ghost predicate PullAdds(before: seq<Stanza>, b: nat, t: Sender) {
    var n := |before|;
    && before <= t.out && t.blocksize == b && n <= t.seqno <= n + 1
    && (t.seqno == n + 1 ==> n < |t.out| && t.out[n].Data?)
    && if t.stalled then t.listed && t.out == before
       else if t.listed then t.seqno == n + 1 && |t.out[n].payload| == b
       else t.seqno == n + 1 ==> 1 <= |t.out[n].payload| <= b
  }

  lemma SendDataConserves(env: Env, s: Sender, payload: bytes, rest: bytes)
    requires s.pos <= |env.file| && s.queue == payload + rest
    requires Conserved(env, s)
    ensures Conserved(env, SendData(env, s, payload).(queue := rest))
  {
    var d := Data(env.sid, s.seqno, payload);
    PayloadsAppend(s.out, [d]);
    assert Payloads([d]) == [payload] + Payloads([]);
    JoinSnoc(Payloads(s.out), payload);
    assert Payloads(s.out + [d]) == Payloads(s.out) + [payload];
    assert Join(Payloads(s.out)) + (payload + rest) == Join(Payloads(s.out)) + payload + rest;
  }

  lemma EmitBlockInv(env: Env, s: Sender)
    requires Core(env, s) && s.listed && s.md5.Some?
    requires s.blocksize <= |s.queue| <= s.blocksize + READ_SIZE && !s.stalled && env.file != []
    ensures Inv(env, EmitBlock(env, s)) && PullAdds(s.out, s.blocksize, EmitBlock(env, s))
  {
    SendDataConserves(env, s, s.queue[..s.blocksize], s.queue[s.blocksize..]);
  }

  /** The final flush keeps everything but the sizes: the queue is empty afterwards. */
  lemma FlushCore(env: Env, s: Sender)
    requires Core(env, s) && s.listed && s.md5.Some? && s.pos == |env.file|
    ensures var f := Flush(env, s);
            && Core(env, f) && f.queue == [] && f.md5 == s.md5 && f.pos == s.pos
            && if s.queue == [] then f.out == s.out
               else f.out == s.out + [Data(env.sid, s.seqno, s.queue)]
  {
    if s.queue != [] {
      SendDataConserves(env, s, s.queue, []);
    }
  }

  lemma TrailerConserves(env: Env, f: Sender, t: Sender)
    requires f.pos == t.pos <= |env.file| && f.queue == t.queue
    requires t.out == f.out + Trailer(env, t)
    ensures Conserved(env, f) ==> Conserved(env, t)
  {
    PayloadsAppend(f.out, Trailer(env, t));
    PayloadsOfOthers(Trailer(env, t));
    assert Payloads(t.out) == Payloads(f.out);
  }

  lemma FinishInv(env: Env, s: Sender)
    requires Core(env, s) && s.listed && s.md5.Some? && s.pos == |env.file|
    requires |s.queue| <= s.blocksize && !s.stalled
    ensures Inv(env, Finish(env, s)) && PullAdds(s.out, s.blocksize, Finish(env, s))
  {
    var f := Flush(env, s);
    var t := Finish(env, s);
    FlushCore(env, s);
    assert env.file[..s.pos] == env.file;
    assert t.out == f.out + Trailer(env, t);
    TrailerConserves(env, f, t);
    assert t.out[..t.seqno] == f.out && t.out[t.seqno..] == Trailer(env, t);
  }

  lemma ReadCore(env: Env, s: Sender, data: bytes)
    requires Core(env, s) && s.listed && s.md5.Some? && |s.queue| <= s.blocksize
    requires |data| <= READ_SIZE && s.pos + |data| <= |env.file|
    requires data == env.file[s.pos..s.pos + |data|]
    ensures Core(env, Enqueue(CountRead(s, data), data))
  {
    var u := Enqueue(CountRead(s, data), data);
    assert env.file[..s.pos] + data == env.file[..u.pos];
    assert env.file[s.pos..] == data + env.file[u.pos..];
    var sent := Join(Payloads(s.out));
    assert sent + s.queue + env.file[s.pos..] == sent + u.queue + env.file[u.pos..];
  }

  lemma StallInv(env: Env, s: Sender, t: Sender)
    requires Core(env, s) && s.listed && s.md5.Some? && !s.stalled
    requires t == s.(attempts := t.attempts, stalled := true, state := t.state)
    requires t.state == ERROR || t.state == s.state
    ensures Inv(env, t) && PullAdds(s.out, s.blocksize, t)
  {
  }

  lemma ReadIsShort(env: Env, s: Sender, data: bytes)
    requires |data| <= READ_SIZE && |s.queue| <= s.blocksize && s.md5.Some?
    requires 1 <= |data| && s.pos + |data| <= |env.file|
    ensures |Enqueue(CountRead(s, data), data).queue| <= s.blocksize + READ_SIZE
    ensures env.file != []
  {
  }

  lemma RetriedCore(env: Env, s: Sender, attempts: nat)
    requires Core(env, s)
    ensures Core(env, s.(attempts := attempts))
  {
  }

  /** One pull from a state with no more than a block queued. */
  lemma {:induction false} PullInv(env: Env, s: Sender)
    requires s.pos <= |env.file| && s.listed && s.md5.Some? && !s.stalled && |s.queue| <= s.blocksize
    requires Core(env, s)
    ensures Inv(env, Pull(env, s)) && PullAdds(s.out, s.blocksize, Pull(env, s))
    decreases |env.file| - s.pos
  {
    hide Core, Inv, PullAdds;
    var (r, k) := ReadRetry(env, s.pos, s.attempts, READ_TRIES);
    var t := s.(attempts := k);
    RetriedCore(env, s, k);
    if r.Unavailable? || r.Failure? {
      StallInv(env, t, Pull(env, s));
    } else if r.Eof? {
      FinishInv(env, t);
    } else {
      ReadCore(env, t, r.data);
      var u := Enqueue(CountRead(t, r.data), r.data);
      assert Pull(env, s) == Feed(env, u);
      if |u.queue| < u.blocksize {
        PullInv(env, u);
      } else {
        ReadIsShort(env, t, r.data);
        EmitBlockInv(env, u);
      }
    }
  }

  // ---------------------------------------------------------------- the events

  lemma AcceptInv(env: Env, s: Sender, parsed: int)
    requires Inv(env, s)
    ensures Inv(env, OnAccept(s, parsed))
  {
  }

  lemma StartInv(env: Env, s: Sender)
    requires Inv(env, s) && s.md5.None?
    ensures var t := OnStart(env, s);
            Inv(env, t) && t.md5.Some? && PullAdds(s.out, s.blocksize, t)
  {
    var u := s.(state := STARTING, md5 := Some([]));
    assert env.file[..0] == [];
    PullInv(env, u);
  }

  lemma AckInv(env: Env, s: Sender)
    requires Inv(env, s) && s.md5.Some? && s.listed && !s.stalled
    ensures var t := OnDataAck(env, s);
            Inv(env, t) && t.md5.Some? && PullAdds(s.out, s.blocksize, t)
  {
    if |s.queue| > s.blocksize {
      EmitBlockInv(env, s);
    } else {
      PullInv(env, s);
    }
  }
}
