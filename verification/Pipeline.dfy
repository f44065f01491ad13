/**
  The pull pipeline as the code runs it: application, session layer and transport call each other in a circle.
  Every event is proved to do what the specification in `Sender` says.
 */
module Pipeline {
  import opened Bytes
  import opened Ibb
  import opened Stanzas
  import opened Sender

  /** The outgoing JingleFT and its input channel. */
  class JingleFT {
    var pos: nat
    var attempts: nat
    var state: FtState
    var transmit: nat
    var md5: Option<bytes>
    var hash: Option<string>

    constructor ()
      ensures pos == 0 && attempts == 0 && state == PENDING && transmit == 0 && md5 == None && hash == None
    {
      pos, attempts, state, transmit, md5, hash := 0, 0, PENDING, 0, None, None;
    }
  }

  /** The initiating party: its session with this one content, and its stream. */
  class Initiator {
    const env: Env
    const ibb: JingleIBB
    const ft: JingleFT
    var listed: bool
    var active: bool
    var out: seq<Stanza>
    ghost var stalled: bool

    constructor (env: Env)
      ensures Valid() && View() == NEW_SENDER
      ensures fresh(ibb) && fresh(ibb.buf) && fresh(ft) && this.env == env
    {
      this.env := env;
      ibb := new JingleIBB(env.sid);
      ft := new JingleFT();
      listed, active, out, stalled := true, false, [], false;
    }

    ghost predicate Valid()
      reads this, ibb, ft
    {
      && ibb.Valid()
      && ft.pos <= |env.file|
      && (listed ==> !ibb.freed)
    }

    ghost function View(): Sender
      reads this, ibb, ibb.buf, ft
      requires ibb.Valid()
    {
      Sender(ibb.blocksize, ibb.Queue(), ibb.sizeBuf, ibb.seqno, ft.pos, ft.attempts,
             ft.state, ft.transmit, ft.md5, ft.hash, listed, active, out, stalled)
    }

    /** One g_io_channel_read_chars: at most READ_SIZE bytes, and the channel moves on. */
    method ReadChars() returns (r: ReadResult)
      requires Valid()
      modifies ft`pos, ft`attempts
      ensures r == Answer(env, old(ft.pos), old(ft.attempts))
      ensures ft.pos == old(ft.pos) + (if r.Normal? then |r.data| else 0)
      ensures ft.attempts == old(ft.attempts) + 1
    {
      match env.attempt(ft.attempts) {
        case Again => r := Unavailable;
        case Fail => r := Failure;
        case Take(n) =>
          if ft.pos == |env.file| {
            r := Eof;
          } else {
            var len := Min(Min(Max(n, 1), READ_SIZE), |env.file| - ft.pos);
            r := Normal(env.file[ft.pos..ft.pos + len]);
            ft.pos := ft.pos + len;
          }
      }
      ft.attempts := ft.attempts + 1;
    }

    /** The do-while loop around the read. */
    method ReadWithRetry() returns (r: ReadResult)
      requires Valid()
      modifies ft`pos, ft`attempts
      ensures (r, ft.attempts) == ReadRetry(env, old(ft.pos), old(ft.attempts), READ_TRIES)
      ensures ft.pos == old(ft.pos) + (if r.Normal? then |r.data| else 0)
    {
      var count := 1;
      r := ReadChars();
      while r.Unavailable? && count < READ_TRIES
        invariant 1 <= count <= READ_TRIES
        invariant ft.pos == old(ft.pos) + (if r.Normal? then |r.data| else 0)
        invariant ReadRetry(env, old(ft.pos), old(ft.attempts), READ_TRIES)
               == if r.Unavailable? && count < READ_TRIES
                  then ReadRetry(env, old(ft.pos), ft.attempts, READ_TRIES - count)
                  else (r, ft.attempts)
      {
        r := ReadChars();
        count := count + 1;
      }
    }

    /** `send` of the file transfer: called until there is nothing to send. */
    method FtSend()
      requires Valid() && ft.md5.Some?
      modifies this, ft, ibb, ibb.buf
      ensures Valid() && (ibb.buf == old(ibb.buf) || fresh(ibb.buf))
      ensures View() == if old(listed) then Pull(env, old(View())) else old(View())
      decreases |env.file| - ft.pos, 1
    {
      hide Feed, Finish, ReadRetry;
      if !listed {
        return;
      }
      ghost var start := View();
      var r := ReadWithRetry();
      stalled := r.Unavailable? || r.Failure?;
      match r {
        case Unavailable =>
        case Failure =>
          ft.state := ERROR;
        case Normal(data) =>
          ft.transmit := ft.transmit + |data|;
          ft.md5 := Some(ft.md5.value + data);
          assert View() == CountRead(start.(attempts := ft.attempts, stalled := false), data);
          HandleAppData(data);
        case Eof =>
          EndOfFile();
      }
    }

    /** The branch of `send` for the end of the file. */
    method EndOfFile()
      requires Valid() && ft.md5.Some? && listed
      modifies this, ft, ibb, ibb.buf
      ensures Valid() && (ibb.buf == old(ibb.buf) || fresh(ibb.buf))
      ensures View() == Finish(env, old(View()))
      decreases |env.file| - ft.pos, 0, 1
    {
      HandleAppData([]);
      ft.hash := Some(env.md5(ft.md5.value));
      ft.state := ENDING;
      out := out + [HashInfo(ft.hash.value)];
      listed := false;
      out := out + [Terminate];
    }

    /** `handle_app_data` of the session layer: no data means that the file has ended. */
    method HandleAppData(data: bytes)
      requires Valid() && ft.md5.Some? && listed
      modifies this, ft, ibb, ibb.buf
      ensures ibb.buf == old(ibb.buf) || fresh(ibb.buf)
      ensures data != [] ==> Valid() && View() == Feed(env, Enqueue(old(View()), data))
      ensures data == [] ==> ibb.Valid() && ibb.freed && View() == Flush(env, old(View()))
      decreases |env.file| - ft.pos, if data == [] then 0 else 4, 0
    {
      if |data| != 0 {
        IbbSend(data);
      } else {
        IbbEnd();
      }
    }

    /** `send` of the transport. */
    method IbbSend(data: bytes)
      requires Valid() && ft.md5.Some? && listed
      modifies this, ft, ibb, ibb.buf
      ensures Valid() && (ibb.buf == old(ibb.buf) || fresh(ibb.buf))
      ensures View() == Feed(env, Enqueue(old(View()), data))
      decreases |env.file| - ft.pos, 3
    {
      hide Pull;
      ibb.Append(data);
      if ibb.dataleft < ibb.blocksize {
        HandleTransNext();
        return;
      }
      var block := ibb.TakeBlock();
      SendInternal(block);
    }

    /** `end` of the transport. */
    method IbbEnd()
      requires Valid() && listed
      modifies this`out, ibb`seqno, ibb`freed
      ensures ibb.Valid() && ibb.freed
      ensures View() == Flush(env, old(View()))
    {
      if ibb.dataleft > 0 {
        SendInternal(ibb.buf[..ibb.dataleft]);
      }
      var _ := ibb.TakeRest();
    }

    /** `handle_trans_next` of the session layer: the transport wants more. */
    method HandleTransNext()
      requires Valid() && ft.md5.Some?
      modifies this, ft, ibb, ibb.buf
      ensures Valid() && (ibb.buf == old(ibb.buf) || fresh(ibb.buf))
      ensures View() == if old(listed) then Pull(env, old(View())) else old(View())
      decreases |env.file| - ft.pos, 2
    {
      if !listed {
        return;
      }
      FtSend();
    }

    method SendInternal(payload: bytes)
      requires ibb.Valid()
      modifies this`out, ibb`seqno
      ensures View() == SendData(env, old(View()), payload)
    {
      out := out + [Data(env.sid, ibb.seqno, payload)];
      ibb.seqno := ibb.seqno + 1;
    }

    // ---------------------------------------------------------------- the events

    method HandleAccept(parsed: int)
      requires Valid()
      modifies this`active, ibb`blocksize
      ensures Valid()
      ensures View() == OnAccept(old(View()), parsed)
    {
      if !listed {
        return;
      }
      active := true;
      ibb.HandleAccept(parsed);
    }

    method Start()
      requires Valid()
      modifies this, ft, ibb, ibb.buf
      ensures Valid() && (ibb.buf == old(ibb.buf) || fresh(ibb.buf))
      ensures View() == OnStart(env, old(View()))
    {
      if !listed {
        return;
      }
      ft.state := STARTING;
      ft.md5 := Some([]);
      FtSend();
    }

    /** The reply to a data stanza has come. */
    method HandleDataAck()
      requires Valid() && ft.md5.Some?
      modifies this, ft, ibb, ibb.buf
      ensures Valid() && (ibb.buf == old(ibb.buf) || fresh(ibb.buf))
      ensures View() == OnDataAck(env, old(View()))
    {
      if !listed {
        return;
      }
      if ibb.dataleft > ibb.blocksize {
        var block := ibb.TakeBlock();
        SendInternal(block);
      } else {
        HandleTransNext();
      }
    }
  }
}
