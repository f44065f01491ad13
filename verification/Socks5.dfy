/**
  The SOCKS5 negotiation (RFC 1928): the client from its greeting to the end of the server's reply, and the part
  of the server that reads the client's request. Reads and writes are asynchronous; each callback sees how many
  bytes were moved, at least one, at most as many as were asked for.
 */
module Socks5 {
  import opened Bytes

  const VERSION: byte := 5
  const CMD_CONNECT: byte := 1
  const RESERVED: byte := 0
  const ATYP_IPV4: byte := 1
  const ATYP_DOMAINNAME: byte := 3
  const ATYP_IPV6: byte := 4
  const AUTH_NONE: byte := 0
  const AUTH_USR_PASS: byte := 2
  const AUTH_VERSION: byte := 1
  const REP_SUCCEEDED: byte := 0
  const MAX_LEN := 255
  const CONN_MSG_LEN := 262
  const CONN_REP_LEN := 255
  const DST_PORT := 0

  datatype Error = FAILED | AUTH_FAILED | NEED_AUTH | NOT_ALLOWED | HOST_UNREACHABLE | NETWORK_UNREACHABLE
                 | CONNECTION_REFUSED

  // ---------------------------------------------------------------- messages

  function NegoMsg(hasAuth: bool): bytes {
    if hasAuth then [VERSION, 2, AUTH_NONE, AUTH_USR_PASS] else [VERSION, 1, AUTH_NONE]
  }

  /** The request as section 4 of RFC 1928 draws it: a domain name behind its length, the port in network order. */
  function ConnectMsg(hostname: bytes, port: nat): (m: bytes)
    requires |hostname| <= MAX_LEN && port < 0x1_0000
    ensures |m| == 7 + |hostname| <= 262
    ensures m[0] == 5 && m[1] == 1 && m[2] == 0 && m[3] == 3 && m[4] as nat == |hostname|
  {
    [VERSION, CMD_CONNECT, RESERVED, ATYP_DOMAINNAME, |hostname| as byte] + hostname
    + [(port / 256) as byte, (port % 256) as byte]
  }

  /** Every byte of it. */
  lemma RequestLayout(hostname: bytes, port: nat)
    requires |hostname| <= 255 && port < 0x1_0000
    ensures var m, n := ConnectMsg(hostname, port), |hostname|;
            && |m| == 7 + n && m[..4] == [5, 1, 0, 3] && m[4] as nat == n && m[5..5 + n] == hostname
            && m[5 + n] as nat * 256 + m[6 + n] as nat == port
  {
    assert port / 256 * 256 + port % 256 == port;
  }

  /** Fills the message from the front; a host name that is too long is refused. */
  method ClientSetConnectMsg(msg: array<byte>, hostname: bytes, port: nat) returns (len: int)
    requires msg.Length >= CONN_MSG_LEN && port < 0x1_0000
    modifies msg
    ensures if |hostname| > 255 then len == -1
            else 0 <= len <= msg.Length && msg[..len] == ConnectMsg(hostname, port)
  {
    len := 0;
    msg[len] := VERSION;
    len := len + 1;
    msg[len] := CMD_CONNECT;
    len := len + 1;
    msg[len] := RESERVED;
    len := len + 1;
    var hostLen := |hostname|;
    if hostLen > MAX_LEN {
      return -1;
    }
    msg[len] := ATYP_DOMAINNAME;
    len := len + 1;
    msg[len] := hostLen as byte;
    len := len + 1;
    forall i | 0 <= i < hostLen {
      msg[len + i] := hostname[i];
    }
    len := len + hostLen;
    msg[len], msg[len + 1] := (port / 256) as byte, (port % 256) as byte;
    len := len + 2;
  }

  /** User name and password behind their lengths (RFC 1929, section 2). */
  function AuthMsg(username: bytes, password: bytes): bytes
    requires |username| <= MAX_LEN && |password| <= MAX_LEN
  {
    [AUTH_VERSION, |username| as byte] + username + [|password| as byte] + password
  }

  lemma AuthLayout(username: bytes, password: bytes)
    requires |username| <= 255 && |password| <= 255
    ensures var m, n := AuthMsg(username, password), |username|;
            && |m| == 3 + n + |password| && m[0] == 1 && m[1] as nat == n && m[2..2 + n] == username
            && m[2 + n] as nat == |password| && m[3 + n..] == password
  {
    var m, n := AuthMsg(username, password), |username|;
    assert m == [1, n as byte] + username + [|password| as byte] + password;
    assert m[3 + n..] == password;
  }

  /** The method the server selects; the result says whether credentials must be sent. */
  function ParseNegoReply(data: bytes, hasAuth: bool): Result<bool>
    requires |data| >= 2
  {
    if data[0] != VERSION then Err(FAILED)
    else if data[1] == AUTH_NONE then Ok(false)
    else if data[1] == AUTH_USR_PASS then if hasAuth then Ok(true) else Err(NEED_AUTH)
    else Err(AUTH_FAILED)
  }

  /** Each choice of the server has its own outcome. */
  lemma ChoiceMeans(data: bytes, hasAuth: bool)
    requires |data| >= 2
    ensures var r := ParseNegoReply(data, hasAuth);
            && (r == Ok(false) <==> data[0] == 5 && data[1] == 0)
            && (r == Ok(true) <==> data[0] == 5 && data[1] == 2 && hasAuth)
            && (r == Err(NEED_AUTH) <==> data[0] == 5 && data[1] == 2 && !hasAuth)
            && (r == Err(AUTH_FAILED) <==> data[0] == 5 && data[1] != 0 && data[1] != 2)
            && (r == Err(FAILED) <==> data[0] != 5)
  {
  }

  /** The error for a version and a reply field (RFC 1928, section 6), if it is one. */
  function ReplyError(version: byte, rep: byte): Error {
    if version != 5 then FAILED
    else if rep == 2 then NOT_ALLOWED
    else if rep == 3 then NETWORK_UNREACHABLE
    else if rep == 4 || rep == 6 then HOST_UNREACHABLE
    else if rep == 5 then CONNECTION_REFUSED
    else FAILED
  }

  /** The first four bytes of the server's reply; the result is the type of the address that follows. Everything
      but a success of this version with a known type of address is an error. */
  function ParseConnectReply(data: bytes): (r: Result<byte>)
    requires |data| >= 4
    ensures r.Ok? <==> data[..3] == [5, 0, 0] && data[3] in {1, 3, 4}
    ensures r.Ok? ==> r.value == data[3]
    ensures r.Err? ==> r.error == ReplyError(data[0], data[1])
  {
    if data[0] != VERSION then Err(FAILED)
    else match data[1]
      case 0 =>
        if data[2] != RESERVED then Err(FAILED)
        else if data[3] == ATYP_IPV4 || data[3] == ATYP_IPV6 || data[3] == ATYP_DOMAINNAME then Ok(data[3])
        else Err(FAILED)
      case 2 => Err(NOT_ALLOWED)
      case 3 => Err(NETWORK_UNREACHABLE)
      case 4 => Err(HOST_UNREACHABLE)
      case 5 => Err(CONNECTION_REFUSED)
      case 6 => Err(HOST_UNREACHABLE)
      case _ => Err(FAILED)
  }

  /** Version and address type of a request. A command other than CONNECT sets the error but is let through. */
  function ParseConnectMsg(data: bytes): (r: Result<byte>)
    requires |data| >= 4
    ensures r.Ok? <==> data[0] == 5 && data[3] in {1, 3, 4}
    ensures r.Ok? ==> r.value == data[3]
    ensures r.Err? ==> r.error == FAILED
  {
    if data[0] != VERSION then Err(FAILED)
    else if data[3] == ATYP_IPV4 || data[3] == ATYP_DOMAINNAME || data[3] == ATYP_IPV6 then Ok(data[3])
    else Err(FAILED)
  }

  datatype Result<+T> = Ok(value: T) | Err(error: Error)

  // ---------------------------------------------------------------- the client

  /** Which callback is waiting for which operation. */
  datatype Stage =
    | NegoWrite | NegoRead | AuthWrite | AuthRead | ConnectWrite
    | ReplyRead          // connect_reply_read_cb
    | ReplyLenRead       // connect_reply_addr_len_read_cb
    | ReplyAddrRead      // connect_reply_addr_read_cb
    | ServerCallback     // a callback of the server has been given the client's data
    | Done
    | Failed(error: Error)

  predicate Writing(s: Stage) {
    s.NegoWrite? || s.AuthWrite? || s.ConnectWrite?
  }

  predicate Reading(s: Stage) {
    s.NegoRead? || s.AuthRead? || s.ReplyRead? || s.ReplyLenRead? || s.ReplyAddrRead?
  }

  /** ConnectAsyncData. `buffer` is the message while it is written, and what has been read so far while something
      is read. `split` is history: an address came in more than one piece. */
  datatype Client = Client(hostname: bytes, username: Option<bytes>, password: Option<bytes>, stage: Stage,
                           buffer: bytes, length: nat, offset: nat, split: bool)

  predicate HasAuth(c: Client) {
    c.username.Some? || c.password.Some?
  }

  /** socks5_client_nego: user name and password are never set. */
  function Begin(hostname: bytes): Client {
    var msg := NegoMsg(false);
    Client(hostname, None, None, NegoWrite, msg, |msg|, 0, false)
  }

  function StartWrite(c: Client, stage: Stage, msg: bytes): Client {
    c.(stage := stage, buffer := msg, length := |msg|, offset := 0)
  }

  function StartRead(c: Client, stage: Stage, length: nat): Client {
    c.(stage := stage, buffer := [], length := length, offset := 0)
  }

  function SendConnectMsg(c: Client): Client {
    if |c.hostname| > MAX_LEN then c.(stage := Failed(FAILED))
    else StartWrite(c, ConnectWrite, ConnectMsg(c.hostname, DST_PORT))
  }

  /** `written` bytes of the buffer have been written. */
  function OnWritten(c: Client, written: nat): Client
    requires Writing(c.stage)
  {
    var d := c.(offset := c.offset + written);
    if d.offset != d.length then d
    else match c.stage
      case NegoWrite => StartRead(d, NegoRead, 2)
      case AuthWrite => StartRead(d, AuthRead, 2)
      case _ => StartRead(d, ReplyRead, 4)
  }

  /** These bytes have been read. */
  function OnRead(c: Client, data: bytes): Client
    requires Reading(c.stage) && |c.buffer| == c.offset && 1 <= |data| <= c.length - c.offset
    requires c.stage.NegoRead? || c.stage.AuthRead? ==> c.length >= 2
    requires c.stage.ReplyRead? ==> c.length >= 4
  {
    var d := c.(buffer := c.buffer + data, offset := c.offset + |data|);
    match c.stage
    case NegoRead =>
      if d.offset != d.length then d
      else (match ParseNegoReply(d.buffer, HasAuth(c))
            case Err(e) => d.(stage := Failed(e))
            case Ok(false) => SendConnectMsg(d)
            case Ok(true) =>
              var user := if c.username.Some? then c.username.value else [];
              var pass := if c.password.Some? then c.password.value else [];
              // the message builder returns FALSE, which is 0 and not negative, when one of them is too long
              if |user| > MAX_LEN || |pass| > MAX_LEN then StartWrite(d, AuthWrite, [])
              else StartWrite(d, AuthWrite, AuthMsg(user, pass)))
    case AuthRead =>
      if d.offset != d.length then d
      else if d.buffer[0] != VERSION || d.buffer[1] != REP_SUCCEEDED then d.(stage := Failed(AUTH_FAILED))
      else SendConnectMsg(d)
    case ReplyRead =>
      if d.offset != d.length then d
      else (match ParseConnectReply(d.buffer)
            case Err(e) => d.(stage := Failed(e))
            case Ok(atyp) =>
              if atyp == ATYP_IPV4 then StartRead(d, ReplyAddrRead, 6)
              else if atyp == ATYP_IPV6 then StartRead(d, ReplyAddrRead, 18)
              else StartRead(d, ReplyLenRead, 1))
    case ReplyLenRead => d.(stage := ServerCallback)
    case _ =>
      // an incomplete address goes back to the callback of the header
      if d.offset != d.length then d.(stage := ReplyRead, split := true) else d.(stage := Done)
  }

  // ---------------------------------------------------------------- credentials

  /** The greeting offers user name and password only if there is one of them. */
  lemma GreetingLayout(c: Client)
    ensures NegoMsg(HasAuth(c)) == if c.username != None || c.password != None then [5, 2, 0, 2] else [5, 1, 0]
  {
  }

  /** A client that has credentials, and whose server asks for them, sends both of them, a missing one being empty; if
      one is longer than 255 bytes it sends nothing. */
  lemma CredentialsAreSent(c: Client, data: bytes)
    requires c.stage.NegoRead? && c.length == 2 && c.offset == |c.buffer| == 0 && data == [5, 2]
    requires c.username != None || c.password != None
    ensures var d := OnRead(c, data);
            var user := match c.username case None => [] case Some(u) => u;
            var pass := match c.password case None => [] case Some(p) => p;
            && d.stage == AuthWrite && d.offset == 0 && d.length == |d.buffer|
            && d.buffer == if |user| > 255 || |pass| > 255 then [] else AuthMsg(user, pass)
  {
    assert [] + data == data;
  }

  /** They are accepted when the server answers 5, 0; then the request goes out, unless the name is too long. (RFC 1929,
      section 2, has a 1 in the first place.) */
  lemma CredentialsAreAccepted(c: Client, data: bytes)
    requires c.stage.AuthRead? && c.length == 2 && c.offset == |c.buffer| == 0 && |data| == 2
    ensures var d := OnRead(c, data);
            if data[0] != 5 || data[1] != 0 then d.stage == Failed(AUTH_FAILED)
            else if |c.hostname| > 255 then d.stage == Failed(FAILED)
            else
              && d.stage == ConnectWrite && d.buffer == ConnectMsg(c.hostname, 0)
              && d.length == |d.buffer| && d.offset == 0
  {
    assert [] + data == data;
  }
}
