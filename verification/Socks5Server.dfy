/** The server's side of the request: three reads, the host name they recover, and the comparison with the one the
    server waits for. */
module Socks5Server {
  import opened Bytes
  import opened Socks5

  datatype Stage =
    | HeaderRead           // connect_msg_read_cb: four bytes
    | LengthRead           // connect_addr_len_read_cb: one byte
    | AddressRead          // connect_addr_read_cb: the name and the port
    | Granted
    | Denied(error: Error)
    | ClientCallback       // a callback of the client has been given the server's data

  datatype Server = Server(allowed: bytes, stage: Stage, buffer: bytes, length: nat)

  function Begin(allowed: bytes): Server {
    Server(allowed, HeaderRead, [], 4)
  }

  /** What g_strndup makes of bytes: a string ends at the first zero. */
  function CString(b: bytes): (s: bytes)
    ensures s <= b && (forall i :: 0 <= i < |s| ==> s[i] != 0)
    ensures |s| < |b| ==> b[|s|] == 0
  {
    if b == [] || b[0] == 0 then [] else [b[0]] + CString(b[1..])
  }

  predicate Waiting(s: Server) {
    (s.stage.HeaderRead? && s.length == 4) || (s.stage.LengthRead? && s.length == 1)
    || (s.stage.AddressRead? && s.length >= 2)
  }

  function OnRead(s: Server, data: bytes): Server
    requires Waiting(s) && 1 <= |data| <= s.length - |s.buffer|
  {
    var t := s.(buffer := s.buffer + data);
    match s.stage
    case HeaderRead =>
      if |t.buffer| != t.length then t
      else (match ParseConnectMsg(t.buffer)
            case Err(e) => t.(stage := Denied(e))
            case Ok(atyp) =>
              if atyp == ATYP_DOMAINNAME then t.(stage := LengthRead, buffer := [], length := 1)
              else t.(stage := Denied(FAILED)))
    case LengthRead => t.(stage := AddressRead, buffer := [], length := data[0] as nat + 2)
    case _ =>
      // an incomplete name goes to a callback of the client
      if |t.buffer| != t.length then t.(stage := ClientCallback)
      else if CString(t.buffer[..t.length - 2]) == s.allowed then t.(stage := Granted)
      else t.(stage := Denied(NOT_ALLOWED))
  }

  datatype Conn = Conn(server: Server, taken: nat)

  predicate Sane(n: Conn, input: bytes) {
    n.taken <= |input| && (Waiting(n.server) ==> |n.server.buffer| < n.server.length)
  }

  function Step(n: Conn, input: bytes, piece: nat): (m: Conn)
    requires Sane(n, input)
    ensures Sane(m, input)
  {
    if Waiting(n.server) && n.taken < |input| then
      var k := Min(Min(Max(piece, 1), n.server.length - |n.server.buffer|), |input| - n.taken);
      Conn(OnRead(n.server, input[n.taken..n.taken + k]), n.taken + k)
    else n
  }

  function Run(allowed: bytes, input: bytes, pieces: seq<nat>): (m: Conn)
    ensures Sane(m, input)
  {
    if pieces == [] then Conn(Begin(allowed), 0)
    else Step(Run(allowed, input, pieces[..|pieces| - 1]), input, pieces[|pieces| - 1])
  }

  predicate NulFree(s: bytes) {
    forall i :: 0 <= i < |s| ==> s[i] != 0
  }

  lemma {:induction false} CStringOfNulFree(s: bytes)
    requires NulFree(s)
    ensures CString(s) == s
  {
    if s == [] {
    } else {
      CStringOfNulFree(s[1..]);
    }
  }

  /** Where the server is while the request of a client arrives. */
  ghost predicate Inv(n: Conn, hostname: bytes, port: nat)
    requires |hostname| <= MAX_LEN && port < 0x1_0000
  {
    var s, msg := n.server, ConnectMsg(hostname, port);
    match s.stage
    case HeaderRead => s.length == 4 && n.taken == |s.buffer| < 4 && s.buffer == msg[..n.taken]
    case LengthRead => s.length == 1 && s.buffer == [] && n.taken == 4
    case AddressRead => s.length == |hostname| + 2 && s.buffer == [] && n.taken == 5
    case Granted => n.taken == |msg| && s.allowed == hostname
    case Denied(e) => n.taken == |msg| && s.allowed != hostname && e == NOT_ALLOWED
    case ClientCallback => true
  }

  lemma HeaderInv(n: Conn, hostname: bytes, port: nat, data: bytes)
    requires |hostname| <= MAX_LEN && port < 0x1_0000 && Inv(n, hostname, port) && n.server.stage.HeaderRead?
    requires 1 <= |data| <= 4 - n.taken && data == ConnectMsg(hostname, port)[n.taken..n.taken + |data|]
    ensures Inv(Conn(OnRead(n.server, data), n.taken + |data|), hostname, port)
  {
    var msg := ConnectMsg(hostname, port);
    var all := msg[..n.taken + |data|];
    assert n.server.buffer + data == all;
    if |all| == 4 {
      assert all[0] == VERSION && all[3] == ATYP_DOMAINNAME;
    }
  }

  lemma AddressInv(n: Conn, hostname: bytes, port: nat, data: bytes)
    requires |hostname| <= MAX_LEN && port < 0x1_0000 && NulFree(hostname)
    requires Inv(n, hostname, port) && n.server.stage.AddressRead?
    requires 1 <= |data| <= |hostname| + 2 && data == ConnectMsg(hostname, port)[5..5 + |data|]
    ensures Inv(Conn(OnRead(n.server, data), 5 + |data|), hostname, port)
  {
    if |data| == |hostname| + 2 {
      assert ([] + data)[..|hostname|] == hostname;
      CStringOfNulFree(hostname);
    }
  }

  lemma StepInv(n: Conn, hostname: bytes, port: nat, piece: nat)
    requires |hostname| <= MAX_LEN && port < 0x1_0000 && NulFree(hostname)
    requires Inv(n, hostname, port) && Sane(n, ConnectMsg(hostname, port))
    ensures Inv(Step(n, ConnectMsg(hostname, port), piece), hostname, port)
  {
    var s, msg := n.server, ConnectMsg(hostname, port);
    if Waiting(s) && n.taken < |msg| {
      var k := Min(Min(Max(piece, 1), s.length - |s.buffer|), |msg| - n.taken);
      var data := msg[n.taken..n.taken + k];
      if s.stage.HeaderRead? {
        HeaderInv(n, hostname, port, data);
      } else if s.stage.AddressRead? {
        AddressInv(n, hostname, port, data);
      }
    }
  }

  lemma {:induction false} RunInv(allowed: bytes, hostname: bytes, port: nat, pieces: seq<nat>)
    requires |hostname| <= MAX_LEN && port < 0x1_0000 && NulFree(hostname)
    ensures Inv(Run(allowed, ConnectMsg(hostname, port), pieces), hostname, port)
    ensures Run(allowed, ConnectMsg(hostname, port), pieces).server.allowed == allowed
  {
    if pieces == [] {
    } else {
      RunInv(allowed, hostname, port, pieces[..|pieces| - 1]);
      StepInv(Run(allowed, ConnectMsg(hostname, port), pieces[..|pieces| - 1]), hostname, port,
              pieces[|pieces| - 1]);
    }
  }

  /** The server reads the request the client builds: when it is done it has consumed every byte of it, and it
      grants exactly the host name that was asked for. */
  lemma ConnectRoundTrip(allowed: bytes, hostname: bytes, port: nat, pieces: seq<nat>)
    requires |hostname| <= MAX_LEN && port < 0x1_0000 && NulFree(hostname)
    ensures var n := Run(allowed, ConnectMsg(hostname, port), pieces);
            && (n.server.stage.Granted? ==> allowed == hostname)
            && (n.server.stage.Denied? ==> allowed != hostname && n.server.stage.error == NOT_ALLOWED)
            && (n.server.stage.Granted? || n.server.stage.Denied? ==> n.taken == |ConnectMsg(hostname, port)|)
  {
    RunInv(allowed, hostname, port, pieces);
  }

  /** It is done after at most six reads, however the header was cut, unless the name came in pieces. */
  lemma {:induction false} ServerFinishes(allowed: bytes, hostname: bytes, port: nat, pieces: seq<nat>)
    requires |hostname| <= MAX_LEN && port < 0x1_0000 && NulFree(hostname)
    ensures var n := Run(allowed, ConnectMsg(hostname, port), pieces);
            n.taken >= Min(|pieces|, 6) || n.server.stage.ClientCallback?
    ensures |pieces| >= 6 ==>
              var s := Run(allowed, ConnectMsg(hostname, port), pieces).server.stage;
              s.Granted? || s.Denied? || s.ClientCallback?
  {
    RunInv(allowed, hostname, port, pieces);
    if pieces == [] {
    } else {
      ServerFinishes(allowed, hostname, port, pieces[..|pieces| - 1]);
      RunInv(allowed, hostname, port, pieces[..|pieces| - 1]);
    }
  }

  /** Waiting for a header that will be refused, or done with it. */
  ghost predicate Refusing(n: Conn, input: bytes) {
    if n.taken < 4 then
      && n.server.stage.HeaderRead? && n.server.length == 4
      && n.taken <= |input| && n.server.buffer == input[..n.taken]
    else n.taken == 4 && n.server.stage == Denied(FAILED)
  }

  lemma RefusingStep(n: Conn, input: bytes, piece: nat)
    requires |input| >= 4 && !(input[0] == 5 && input[3] == 3) && Sane(n, input) && Refusing(n, input)
    ensures Refusing(Step(n, input, piece), input)
    ensures Step(n, input, piece).taken >= Min(n.taken + 1, 4)
  {
    if n.taken < 4 {
      var k := Min(Min(Max(piece, 1), 4 - n.taken), |input| - n.taken);
      var all := input[..n.taken + k];
      assert n.server.buffer + input[n.taken..n.taken + k] == all;
      assert n.taken + k == 4 ==> all[0] == input[0] && all[3] == input[3];
    }
  }

  /** A header of another version, or with anything but a domain name, is refused as soon as it is there, after at most
      four reads; no byte behind it is read. */
  lemma {:induction false} ServerRefuses(allowed: bytes, input: bytes, pieces: seq<nat>)
    requires |input| >= 4 && !(input[0] == 5 && input[3] == 3)
    ensures Refusing(Run(allowed, input, pieces), input)
    ensures Run(allowed, input, pieces).taken >= Min(|pieces|, 4)
  {
    if pieces == [] {
    } else {
      hide Refusing, Step;
      ServerRefuses(allowed, input, pieces[..|pieces| - 1]);
      RefusingStep(Run(allowed, input, pieces[..|pieces| - 1]), input, pieces[|pieces| - 1]);
    }
  }

  /** Only a name that comes in pieces leads astray: the header may be cut anywhere. */
  lemma AstrayIff(n: Conn, hostname: bytes, port: nat, piece: nat)
    requires |hostname| <= MAX_LEN && port < 0x1_0000 && NulFree(hostname)
    requires Inv(n, hostname, port) && Sane(n, ConnectMsg(hostname, port)) && Waiting(n.server)
    ensures Step(n, ConnectMsg(hostname, port), piece).server.stage.ClientCallback? <==>
              n.server.stage.AddressRead? && Max(piece, 1) < |hostname| + 2
  {
    StepInv(n, hostname, port, piece);
  }

  lemma RunSnoc(allowed: bytes, input: bytes, prior: seq<nat>, piece: nat)
    ensures Run(allowed, input, prior + [piece]) == Step(Run(allowed, input, prior), input, piece)
  {
    assert (prior + [piece])[..|prior|] == prior;
  }

  lemma HeaderStep(n: Conn, hostname: bytes)
    requires |hostname| <= MAX_LEN && n.server == Begin(n.server.allowed) && n.taken == 0
    ensures var m := Step(n, ConnectMsg(hostname, 0), 4);
            m.server == Server(n.server.allowed, LengthRead, [], 1) && m.taken == 4
  {
    var header := ConnectMsg(hostname, 0)[0..4];
    assert [] + header == header && header[0] == VERSION && header[3] == ATYP_DOMAINNAME;
  }

  lemma LengthStep(n: Conn, hostname: bytes)
    requires |hostname| <= MAX_LEN && n.server == Server(n.server.allowed, LengthRead, [], 1) && n.taken == 4
    ensures var m := Step(n, ConnectMsg(hostname, 0), 1);
            m.server == Server(n.server.allowed, AddressRead, [], |hostname| + 2) && m.taken == 5
  {
    var length := ConnectMsg(hostname, 0)[4..5];
    assert [] + length == length && length[0] == |hostname| as byte;
  }

  /** The failing runs: the header whole, then the name by itself without the port. In one piece the same bytes
      are granted. */
  lemma AstrayExample(hostname: bytes)
    requires 1 <= |hostname| <= MAX_LEN && NulFree(hostname)
    ensures var msg := ConnectMsg(hostname, 0);
            && Run(hostname, msg, [4, 1, |hostname|]).server.stage == ClientCallback
            && Run(hostname, msg, [4, 1, |hostname| + 2]).server.stage == Granted
  {
    hide Step, Run, ConnectMsg;
    var msg, n := ConnectMsg(hostname, 0), |hostname|;
    RunSnoc(hostname, msg, [], 4);
    RunSnoc(hostname, msg, [4], 1);
    RunSnoc(hostname, msg, [4, 1], n);
    RunSnoc(hostname, msg, [4, 1], n + 2);
    assert [] + [4] == [4] && [4] + [1] == [4, 1] && [4, 1] + [n] == [4, 1, n] && [4, 1] + [n + 2] == [4, 1, n + 2];
    assert Run(hostname, msg, []) == Conn(Begin(hostname), 0) by { RunStart(hostname, msg); }
    HeaderStep(Run(hostname, msg, []), hostname);
    LengthStep(Run(hostname, msg, [4]), hostname);
    RunInv(hostname, hostname, 0, [4, 1]);
    AstrayIff(Run(hostname, msg, [4, 1]), hostname, 0, n);
    AstrayIff(Run(hostname, msg, [4, 1]), hostname, 0, n + 2);
    AddressIsTaken(Run(hostname, msg, [4, 1]), hostname);
  }

  lemma RunStart(allowed: bytes, input: bytes)
    ensures Run(allowed, input, []) == Conn(Begin(allowed), 0)
  {
  }

  lemma AddressIsTaken(n: Conn, hostname: bytes)
    requires |hostname| <= MAX_LEN && NulFree(hostname) && n.taken == 5
    requires n.server == Server(hostname, AddressRead, [], |hostname| + 2)
    ensures Step(n, ConnectMsg(hostname, 0), |hostname| + 2).server.stage == Granted
  {
    var msg, len := ConnectMsg(hostname, 0), |hostname| + 2;
    var data := msg[5..5 + len];
    RestOfRequest(hostname);
    CStringOfNulFree(hostname);
    hide ConnectMsg, CString;
    assert [] + data == data == hostname + [0, 0];
    assert data[..len - 2] == hostname;
    assert OnRead(n.server, data).stage == Granted;
  }

  lemma RestOfRequest(hostname: bytes)
    requires |hostname| <= MAX_LEN
    ensures var msg := ConnectMsg(hostname, 0);
            |msg| == 7 + |hostname| && msg[5..5 + |hostname| + 2] == hostname + [0, 0]
  {
    var head: bytes := [VERSION, CMD_CONNECT, RESERVED, ATYP_DOMAINNAME, |hostname| as byte];
    var msg := ConnectMsg(hostname, 0);
    assert msg == head + (hostname + [0, 0]);
    assert msg[5..] == hostname + [0, 0] && msg[5..] == msg[5..5 + |hostname| + 2];
  }
}
