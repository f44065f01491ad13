/** The client's callbacks as the code runs them, on one buffer with a running offset. */
module Socks5Callbacks {
  import opened Bytes
  import opened Socks5
  import opened Socks5Client

  lemma AuthMsgIs(m: bytes, user: bytes, pass: bytes)
    requires |user| <= MAX_LEN && |pass| <= MAX_LEN && |m| == 3 + |user| + |pass|
    requires m[0] == AUTH_VERSION && m[1] == |user| as byte && m[2 + |user|] == |pass| as byte
    requires forall j :: 2 <= j < 2 + |user| ==> m[j] == user[j - 2]
    requires forall j :: 3 + |user| <= j < |m| ==> m[j] == pass[j - 3 - |user|]
    ensures m == AuthMsg(user, pass)
  {
    var n := 2 + |user|;
    assert m[..2] == [AUTH_VERSION, |user| as byte];
    assert m[2..n] == user;
    assert m[n + 1..] == pass;
    assert m == m[..2] + m[2..n] + [m[n]] + m[n + 1..];
  }

  /** Fills the message with the credentials. Too long ones give 0 instead of a negative length. */
  method SetAuthMsg(msg: array<byte>, username: Option<bytes>, password: Option<bytes>) returns (len: nat)
    requires msg.Length >= 515
    modifies msg
    ensures var user := if username.Some? then username.value else [];
            var pass := if password.Some? then password.value else [];
            if |user| > MAX_LEN || |pass| > MAX_LEN then len == 0
            else len <= msg.Length && msg[..len] == AuthMsg(user, pass)
  {
    var user := if username.Some? then username.value else [];
    var pass := if password.Some? then password.value else [];
    hide AuthMsg;
    var ulen, plen := |user|, |pass|;
    if ulen > MAX_LEN || plen > MAX_LEN {
      return 0;
    }
    msg[0], msg[1] := AUTH_VERSION, ulen as byte;
    forall j | 2 <= j < 2 + ulen {
      msg[j] := user[j - 2];
    }
    msg[2 + ulen] := plen as byte;
    forall j | 3 + ulen <= j < 3 + ulen + plen {
      msg[j] := pass[j - 3 - ulen];
    }
    len := 3 + ulen + plen;
    AuthMsgIs(msg[..len], user, pass);
  }

  class ConnectData {
    const hostname: bytes
    const username: Option<bytes>
    const password: Option<bytes>
    var stage: Stage
    var buffer: array<byte>
    var length: nat
    var offset: nat
    ghost var split: bool

    constructor (hostname: bytes)
      ensures Valid() && View() == Begin(hostname) && fresh(buffer)
    {
      this.hostname, username, password := hostname, None, None;
      stage, length, offset, split := NegoWrite, 3, 0, false;
      var msg := new byte[4](_ => 0);
      msg[0], msg[1], msg[2] := VERSION, 1, AUTH_NONE;
      buffer := msg;
    }

    ghost predicate Valid()
      reads this, buffer
    {
      && offset <= length <= buffer.Length && Sane(View())
      && (stage.ReplyRead? || stage.ReplyAddrRead? ==> buffer.Length == CONN_REP_LEN)
    }

    ghost function View(): Client
      reads this, buffer
      requires offset <= length <= buffer.Length
    {
      Client(hostname, username, password, stage, if Writing(stage) then buffer[..length] else buffer[..offset],
             length, offset, split)
    }

    /** The state is the specified one; of a failure only the error is left. */
    ghost predicate Is(c: Client)
      reads this, buffer
    {
      stage == c.stage && (!stage.Failed? ==> Valid() && View() == c)
    }

    method SendConnect()
      requires offset <= length <= buffer.Length
      modifies this, buffer
      ensures buffer == old(buffer) || fresh(buffer)
      ensures Is(SendConnectMsg(old(View())))
    {
      buffer := new byte[CONN_MSG_LEN](_ => 0);
      var len := ClientSetConnectMsg(buffer, hostname, DST_PORT);
      offset := 0;
      if len < 0 {
        stage := Failed(FAILED);
        return;
      }
      length := len;
      stage := ConnectWrite;
    }

    // ---------------------------------------------------------------- after a write

    method NegoMsgWriteCb(written: nat)
      requires Valid() && stage.NegoWrite? && written <= length - offset
      modifies this, buffer
      ensures buffer == old(buffer) || fresh(buffer)
      ensures Is(OnWritten(old(View()), written))
    {
      offset := offset + written;
      if offset == length {
        buffer := new byte[2](_ => 0);
        length, offset := 2, 0;
        stage := NegoRead;
      }
    }

    method ConnectMsgWriteCb(written: nat)
      requires Valid() && stage.ConnectWrite? && written <= length - offset
      modifies this, buffer
      ensures buffer == old(buffer) || fresh(buffer)
      ensures Is(OnWritten(old(View()), written))
    {
      offset := offset + written;
      if offset == length {
        buffer := new byte[CONN_REP_LEN](_ => 0);
        length, offset := 4, 0;
        stage := ReplyRead;
      }
    }

    // ---------------------------------------------------------------- after a read

    /** What the stream does before it calls back: the bytes are in the buffer, and counted. */
    method Store(data: bytes)
      requires Valid() && Reading(stage) && |data| <= length - offset
      modifies this`offset, buffer
      ensures offset == old(offset) + |data| && buffer[..offset] == old(buffer[..offset]) + data
    {
      forall i | 0 <= i < |data| {
        buffer[offset + i] := data[i];
      }
      offset := offset + |data|;
    }

    method NegoReplyReadCb(data: bytes)
      requires Valid() && stage.NegoRead? && 1 <= |data| <= length - offset
      modifies this, buffer
      ensures buffer == old(buffer) || fresh(buffer)
      ensures Is(OnRead(old(View()), data))
    {
      hide ConnectMsg, AuthMsg, ParseNegoReply;
      Store(data);
      if offset == length {
        match ParseNegoReply(buffer[..length], username.Some? || password.Some?) {
          case Err(e) =>
            stage := Failed(e);
          case Ok(mustAuth) =>
            if mustAuth {
              buffer := new byte[515](_ => 0);
              length := SetAuthMsg(buffer, username, password);
              offset := 0;
              stage := AuthWrite;
            } else {
              SendConnect();
            }
        }
      }
    }

    method ConnectReplyReadCb(data: bytes)
      requires Valid() && stage.ReplyRead? && 1 <= |data| <= length - offset
      modifies this, buffer
      ensures buffer == old(buffer)
      ensures Is(OnRead(old(View()), data))
    {
      Store(data);
      if offset == length {
        match ParseConnectReply(buffer[..length]) {
          case Err(e) =>
            stage := Failed(e);
          case Ok(atyp) =>
            if atyp == ATYP_IPV4 {
              length, offset, stage := 6, 0, ReplyAddrRead;
            } else if atyp == ATYP_IPV6 {
              length, offset, stage := 18, 0, ReplyAddrRead;
            } else {
              length, offset, stage := 1, 0, ReplyLenRead;
            }
        }
      }
    }

    method ConnectReplyAddrReadCb(data: bytes)
      requires Valid() && stage.ReplyAddrRead? && 1 <= |data| <= length - offset
      modifies this, buffer
      ensures buffer == old(buffer)
      ensures Is(OnRead(old(View()), data))
    {
      Store(data);
      if offset == length {
        stage := Done;
      } else {
        stage := ReplyRead;
        split := true;
      }
    }
  }
}
