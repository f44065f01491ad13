/** The client's side of the SOCKS5 negotiation over a stream that cuts everything into arbitrary pieces. */
module Socks5Client {
  import opened Bytes
  import opened Socks5

  /** The client, what it has sent, and how much of the server's bytes it has consumed. */
  datatype Conn = Conn(client: Client, sent: bytes, taken: nat)

  /** What every callback relies on. */
  predicate Sane(c: Client) {
    && (Writing(c.stage) ==> c.offset <= c.length == |c.buffer|)
    && (c.stage.NegoWrite? || c.stage.ConnectWrite? ==> c.offset < c.length)
    && (Reading(c.stage) ==> |c.buffer| == c.offset < c.length)
    && (c.stage.NegoRead? || c.stage.AuthRead? ==> c.length == 2)
    && (c.stage.ReplyRead? ==> c.length in {4, 6, 18})
    && (c.stage.ReplyAddrRead? ==> c.length in {6, 18})
    && (c.stage.ReplyLenRead? ==> c.length == 1)
  }

  lemma WrittenIsSane(c: Client, k: nat)
    requires Sane(c) && Writing(c.stage) && k <= c.length - c.offset
    ensures Sane(OnWritten(c, k))
  {
  }

  lemma ChoiceIsSane(c: Client, data: bytes)
    requires Sane(c) && (c.stage.NegoRead? || c.stage.AuthRead?) && 1 <= |data| <= c.length - c.offset
    ensures Sane(OnRead(c, data))
  {
    hide ParseNegoReply, AuthMsg;
  }

  lemma ReplyIsSane(c: Client, data: bytes)
    requires Sane(c) && (c.stage.ReplyRead? || c.stage.ReplyLenRead? || c.stage.ReplyAddrRead?)
    requires 1 <= |data| <= c.length - c.offset
    ensures Sane(OnRead(c, data))
  {
    hide ParseConnectReply;
  }

  /** One completed write of `piece` bytes, as far as that is possible. */
  function WriteStep(n: Conn, piece: nat): (m: Conn)
    requires Sane(n.client) && Writing(n.client.stage)
    ensures Sane(m.client)
  {
    var c := n.client;
    var k := Min(Max(piece, 1), c.length - c.offset);
    WrittenIsSane(c, k);
    Conn(OnWritten(c, k), n.sent + c.buffer[c.offset..c.offset + k], n.taken)
  }

  /** One completed read of `piece` bytes, as far as they are wanted and have come. */
  function ReadStep(n: Conn, input: bytes, piece: nat): (m: Conn)
    requires Sane(n.client) && Reading(n.client.stage) && n.taken < |input|
    ensures Sane(m.client) && m.taken <= |input|
  {
    hide OnRead;
    var c := n.client;
    var k := Min(Min(Max(piece, 1), c.length - c.offset), |input| - n.taken);
    var data := input[n.taken..n.taken + k];
    assert Sane(OnRead(c, data)) by {
      if c.stage.NegoRead? || c.stage.AuthRead? {
        ChoiceIsSane(c, data);
      } else {
        ReplyIsSane(c, data);
      }
    }
    Conn(OnRead(c, data), n.sent, n.taken + k)
  }

  /** One completed operation; a read waits while nothing has come. */
  function Step(n: Conn, input: bytes, piece: nat): (m: Conn)
    requires Sane(n.client) && n.taken <= |input|
    ensures Sane(m.client) && m.taken <= |input|
  {
    if Writing(n.client.stage) then WriteStep(n, piece)
    else if Reading(n.client.stage) && n.taken < |input| then ReadStep(n, input, piece)
    else n
  }

  function Run(hostname: bytes, input: bytes, pieces: seq<nat>): (m: Conn)
    ensures Sane(m.client) && m.taken <= |input|
  {
    if pieces == [] then Conn(Begin(hostname), [], 0)
    else Step(Run(hostname, input, pieces[..|pieces| - 1]), input, pieces[|pieces| - 1])
  }

  // ---------------------------------------------------------------- what a run can look like

  const GREETING: bytes := [VERSION, 1, AUTH_NONE]

  /** The server has chosen no authentication and then reports success with an IPv4 or IPv6 address. */
  predicate Welcome(input: bytes) {
    && |input| >= 6
    && input[..2] == [5, 0]
    && input[2..5] == [5, 0, 0]
    && input[5] in {1, 4}
  }

  /** Address and port of the reply. */
  function AddressLength(input: bytes): (n: nat)
    requires |input| >= 6
    ensures n in {6, 18}
  {
    if input[5] == 1 then 6 else 18
  }

  ghost predicate Requested(n: Conn) {
    |n.client.hostname| <= MAX_LEN && n.sent == GREETING + ConnectMsg(n.client.hostname, DST_PORT)
  }

  /** Why a client that has not taken an address for a header has failed: the server's choice, the length of the host
      name, or the header of the reply. */
  ghost predicate FailsAt(n: Conn, input: bytes, e: Error) {
    if n.taken == 2 then
      && |input| >= 2 && |n.sent| == 3
      && if input[0] != 5 then e == FAILED
         else if input[1] == 2 then e == NEED_AUTH
         else if input[1] != 0 then e == AUTH_FAILED
         else e == FAILED && |n.client.hostname| > 255
    else
      && n.taken == 6 <= |input| && |n.sent| == 10 + |n.client.hostname|
      && input[0] == 5 && input[1] == 0
      && !(input[2] == 5 && input[3] == 0 && input[4] == 0 && input[5] in {1, 3, 4})
      && e == ReplyError(input[2], input[3])
  }

  ghost predicate Inv(n: Conn, input: bytes) {
    var c := n.client;
    && Sane(c) && n.taken <= |input| && !HasAuth(c)
    && match c.stage
       case NegoWrite => c.buffer == GREETING && n.sent == GREETING[..c.offset] && n.taken == 0 && !c.split
       case NegoRead => n.sent == GREETING && n.taken == c.offset && c.buffer == input[..c.offset] && !c.split
       case ConnectWrite =>
         && |c.hostname| <= MAX_LEN && c.buffer == ConnectMsg(c.hostname, DST_PORT)
         && n.sent == GREETING + c.buffer[..c.offset]
         && n.taken == 2 && input[..2] == [VERSION, AUTH_NONE] && !c.split
       case ReplyRead =>
         && Requested(n)
         && if c.split then Welcome(input) && n.taken + c.length >= c.offset + 6 + AddressLength(input) && c.length >= 6
            else && c.length == 4 && n.taken == 2 + c.offset && c.buffer == input[2..n.taken]
                 && input[..2] == [VERSION, AUTH_NONE]
       case ReplyAddrRead =>
         && Requested(n) && Welcome(input) && c.offset == 0
         && if c.split then n.taken >= 6 + AddressLength(input)
            else n.taken == 6 && c.length == AddressLength(input)
       case Done =>
         && Requested(n) && Welcome(input)
         && if c.split then n.taken >= 6 + AddressLength(input) + 6 else n.taken == 6 + AddressLength(input)
       case ReplyLenRead => Requested(n) && (!c.split ==> |input| >= 6 && input[5] == ATYP_DOMAINNAME)
       case ServerCallback => Requested(n) && (!c.split ==> |input| >= 6 && input[5] == ATYP_DOMAINNAME)
       case Failed(e) =>
         && (n.sent == GREETING || Requested(n))
         && (!c.split ==> FailsAt(n, input, e))
         && (Welcome(input) && |c.hostname| <= MAX_LEN ==> c.split)
       case _ => false
  }

  /** What has been sent grows by the piece that was written. */
  lemma WrittenPrefix(before: bytes, msg: bytes, offset: nat, k: nat)
    requires offset + k <= |msg|
    ensures before + msg[..offset] + msg[offset..offset + k] == before + msg[..offset + k]
    ensures offset + k == |msg| ==> msg[..offset + k] == msg
  {
    assert msg[..offset] + msg[offset..offset + k] == msg[..offset + k];
  }

  lemma GreetingInv(n: Conn, input: bytes, piece: nat)
    requires Inv(n, input) && n.client.stage.NegoWrite?
    ensures Inv(WriteStep(n, piece), input)
  {
    hide ConnectMsg;
    var c := n.client;
    var k := Min(Max(piece, 1), c.length - c.offset);
    WrittenPrefix([], GREETING, c.offset, k);
    assert [] + GREETING[..c.offset] == GREETING[..c.offset];
    assert [] + GREETING[..c.offset + k] == GREETING[..c.offset + k];
  }

  lemma RequestInv(n: Conn, input: bytes, piece: nat)
    requires Inv(n, input) && n.client.stage.ConnectWrite?
    ensures Inv(WriteStep(n, piece), input)
  {
    hide ConnectMsg;
    var c := n.client;
    var k := Min(Max(piece, 1), c.length - c.offset);
    WrittenPrefix(GREETING, c.buffer, c.offset, k);
  }

  lemma WriteInv(n: Conn, input: bytes, piece: nat)
    requires Inv(n, input) && Writing(n.client.stage)
    ensures Inv(WriteStep(n, piece), input)
  {
    hide WriteStep, ConnectMsg;
    if n.client.stage.NegoWrite? {
      GreetingInv(n, input, piece);
    } else {
      assert n.client.stage.ConnectWrite?;
      RequestInv(n, input, piece);
    }
  }

  lemma NegoReadInv(n: Conn, input: bytes, piece: nat)
    requires Inv(n, input) && n.client.stage.NegoRead? && n.taken < |input|
    ensures Inv(ReadStep(n, input, piece), input)
  {
    hide AuthMsg;
    var c := n.client;
    var k := Min(Min(Max(piece, 1), c.length - c.offset), |input| - n.taken);
    assert c.buffer + input[n.taken..n.taken + k] == input[..c.offset + k];
  }

  lemma PartOfHeaderInv(n: Conn, input: bytes, data: bytes)
    requires Inv(n, input) && n.client.stage.ReplyRead? && !n.client.split
    requires 1 <= |data| < 4 - n.client.offset && n.taken + |data| <= |input|
    requires data == input[n.taken..n.taken + |data|]
    ensures Inv(Conn(OnRead(n.client, data), n.sent, n.taken + |data|), input)
  {
    hide ConnectMsg, Welcome;
    assert n.client.buffer + data == input[2..n.taken + |data|];
  }

  lemma WholeHeaderInv(n: Conn, input: bytes, data: bytes)
    requires Inv(n, input) && n.client.stage.ReplyRead? && !n.client.split
    requires 1 <= |data| == 4 - n.client.offset && n.taken + |data| <= |input|
    requires data == input[n.taken..n.taken + |data|]
    ensures Inv(Conn(OnRead(n.client, data), n.sent, n.taken + |data|), input)
  {
    hide ConnectMsg;
    var all := input[2..6];
    assert n.client.buffer + data == all;
    assert all[0] == input[2] && all[1] == input[3] && all[2] == input[4] && all[3] == input[5];
    assert input[2..5] == [input[2], input[3], input[4]] == all[..3];
  }

  lemma HeaderInv(n: Conn, input: bytes, piece: nat)
    requires Inv(n, input) && n.client.stage.ReplyRead? && !n.client.split && n.taken < |input|
    ensures Inv(ReadStep(n, input, piece), input)
  {
    hide ConnectMsg, OnRead, Welcome;
    var c := n.client;
    var k := Min(Min(Max(piece, 1), c.length - c.offset), |input| - n.taken);
    var data := input[n.taken..n.taken + k];
    if c.offset + k == 4 {
      WholeHeaderInv(n, input, data);
    } else {
      PartOfHeaderInv(n, input, data);
    }
  }

  /** After an address in pieces: the callback of the header sees bytes of the address. */
  lemma SplitHeaderInv(n: Conn, input: bytes, piece: nat)
    requires Inv(n, input) && n.client.stage.ReplyRead? && n.client.split && n.taken < |input|
    ensures Inv(ReadStep(n, input, piece), input)
  {
  }

  lemma AddressInv(n: Conn, input: bytes, piece: nat)
    requires Inv(n, input) && n.taken < |input|
    requires n.client.stage.ReplyAddrRead? || n.client.stage.ReplyLenRead?
    ensures Inv(ReadStep(n, input, piece), input)
  {
  }

  lemma StepInv(n: Conn, input: bytes, piece: nat)
    requires Inv(n, input)
    ensures Inv(Step(n, input, piece), input)
  {
    hide WriteStep, ReadStep;
    var s := n.client.stage;
    if Writing(s) {
      WriteInv(n, input, piece);
    } else if Reading(s) && n.taken < |input| {
      if s.NegoRead? {
        NegoReadInv(n, input, piece);
      } else if s.ReplyRead? && !n.client.split {
        HeaderInv(n, input, piece);
      } else if s.ReplyRead? {
        SplitHeaderInv(n, input, piece);
      } else {
        AddressInv(n, input, piece);
      }
    }
  }

  lemma WrittenKeepsHost(c: Client, k: nat)
    requires Writing(c.stage)
    ensures OnWritten(c, k).hostname == c.hostname
  {
  }

  lemma ReadKeepsHost(c: Client, data: bytes)
    requires Sane(c) && Reading(c.stage) && 1 <= |data| <= c.length - c.offset
    ensures OnRead(c, data).hostname == c.hostname
  {
    hide ParseNegoReply, ParseConnectReply, ConnectMsg, AuthMsg;
  }

  lemma StepKeepsHost(n: Conn, input: bytes, piece: nat)
    requires Sane(n.client) && n.taken <= |input|
    ensures Step(n, input, piece).client.hostname == n.client.hostname
  {
    hide OnWritten, OnRead;
    var c := n.client;
    if Writing(c.stage) {
      WrittenKeepsHost(c, Min(Max(piece, 1), c.length - c.offset));
    } else if Reading(c.stage) && n.taken < |input| {
      var k := Min(Min(Max(piece, 1), c.length - c.offset), |input| - n.taken);
      ReadKeepsHost(c, input[n.taken..n.taken + k]);
    }
  }

  lemma {:induction false} RunInv(hostname: bytes, input: bytes, pieces: seq<nat>)
    ensures Inv(Run(hostname, input, pieces), input)
    ensures Run(hostname, input, pieces).client.hostname == hostname
  {
    if pieces == [] {
    } else {
      hide Inv, Step;
      var n := Run(hostname, input, pieces[..|pieces| - 1]);
      RunInv(hostname, input, pieces[..|pieces| - 1]);
      StepInv(n, input, pieces[|pieces| - 1]);
      StepKeepsHost(n, input, pieces[|pieces| - 1]);
    }
  }

  // ---------------------------------------------------------------- the promises

  /** However the stream is cut: a client that has finished has sent exactly the greeting and its request, and the
      server has chosen no authentication and reported success. It has consumed exactly the reply, and no byte of
      what follows, if and only if the address came in one piece. */
  lemma FinishedClient(hostname: bytes, input: bytes, pieces: seq<nat>)
    requires Run(hostname, input, pieces).client.stage.Done?
    ensures var n := Run(hostname, input, pieces);
            && |hostname| <= 255
            && |n.sent| == 10 + |hostname| && n.sent[..3] == [5, 1, 0] && n.sent[3..] == ConnectMsg(hostname, 0)
            && n.sent[3..8] == [5, 1, 0, 3, |hostname| as byte] && n.sent[8..] == hostname + [0, 0]
            && Welcome(input)
            && (n.taken == 2 + 4 + AddressLength(input) <==> !n.client.split)
            && n.taken >= 2 + 4 + AddressLength(input)
  {
    RunInv(hostname, input, pieces);
    RequestBytes(hostname);
  }

  /** Every failure has its reason in what the server has sent, unless an address came in pieces. */
  lemma FailedClient(hostname: bytes, input: bytes, pieces: seq<nat>)
    requires Run(hostname, input, pieces).client.stage.Failed? && !Run(hostname, input, pieces).client.split
    ensures var n := Run(hostname, input, pieces);
            FailsAt(n, input, n.client.stage.error) && n.client.hostname == hostname
  {
    RunInv(hostname, input, pieces);
  }

  lemma RequestBytes(hostname: bytes)
    requires |hostname| <= 255
    ensures var sent := GREETING + ConnectMsg(hostname, DST_PORT);
            && |sent| == 10 + |hostname| && sent[..3] == [5, 1, 0] && sent[3..] == ConnectMsg(hostname, 0)
            && sent[3..8] == [5, 1, 0, 3, |hostname| as byte] && sent[8..] == hostname + [0, 0]
  {
    var m := ConnectMsg(hostname, 0);
    var sent := GREETING + m;
    RequestLayout(hostname, 0);
    assert sent[3..] == m;
    assert m[5..5 + |hostname|] == hostname && m[5 + |hostname|] == 0 && m[6 + |hostname|] == 0;
    assert m[5..] == hostname + [0, 0] && sent[8..] == m[5..];
  }

  /** An address counts as split exactly when one read does not bring all of it. */
  lemma SplitIff(n: Conn, input: bytes, piece: nat)
    requires Inv(n, input) && !n.client.split
    ensures Step(n, input, piece).client.split <==>
              && n.client.stage.ReplyAddrRead? && n.taken < |input|
              && Min(Max(piece, 1), |input| - n.taken) < AddressLength(input)
  {
  }

  /** Credentials are never asked for, whatever the server says. */
  lemma NoAuthentication(hostname: bytes, input: bytes, pieces: seq<nat>)
    ensures !Run(hostname, input, pieces).client.stage.AuthWrite?
    ensures !Run(hostname, input, pieces).client.stage.AuthRead?
  {
    RunInv(hostname, input, pieces);
  }

  /** The server's whole reply is there. */
  predicate Answered(input: bytes) {
    Welcome(input) && |input| >= 6 + AddressLength(input)
  }

  /** Every operation moves at least one byte as long as the negotiation goes on. */
  lemma StepProgress(n: Conn, input: bytes, piece: nat)
    requires Inv(n, input) && Answered(input) && |n.client.hostname| <= MAX_LEN
    ensures var m := Step(n, input, piece);
            if n.client.stage.Done? then m == n
            else n.client.split || |m.sent| + m.taken > |n.sent| + n.taken
  {
    hide OnWritten, OnRead;
  }

  lemma SplitStays(n: Conn, input: bytes, piece: nat)
    requires Sane(n.client) && n.taken <= |input| && n.client.split
    ensures Step(n, input, piece).client.split
  {
  }

  lemma {:induction false} RunProgress(hostname: bytes, input: bytes, pieces: seq<nat>)
    requires |hostname| <= MAX_LEN && Answered(input)
    ensures var n := Run(hostname, input, pieces);
            n.client.stage.Done? || n.client.split || |n.sent| + n.taken >= |pieces|
  {
    if pieces == [] {
    } else {
      hide Inv, Step, Answered;
      var prior, piece := pieces[..|pieces| - 1], pieces[|pieces| - 1];
      var n := Run(hostname, input, prior);
      RunProgress(hostname, input, prior);
      RunInv(hostname, input, prior);
      StepProgress(n, input, piece);
      if n.client.split {
        SplitStays(n, input, piece);
      }
    }
  }

  /** Against a server that answers as it should, every client with a host name of at most 255 bytes finishes,
      unless the address comes in more than one piece. */
  lemma ClientFinishes(hostname: bytes, input: bytes, pieces: seq<nat>)
    requires |hostname| <= MAX_LEN && Answered(input)
    requires |pieces| > |GREETING| + |ConnectMsg(hostname, DST_PORT)| + 6
    ensures var c := Run(hostname, input, pieces).client;
            c.stage.Done? || c.split
  {
    RunProgress(hostname, input, pieces);
    RunInv(hostname, input, pieces);
  }

  /** A host name that is too long never gets further than the greeting. */
  lemma LongHostnameIsRefused(hostname: bytes, input: bytes, pieces: seq<nat>)
    requires |hostname| > MAX_LEN
    ensures var n := Run(hostname, input, pieces);
            n.sent <= GREETING && (n.client.stage.NegoWrite? || n.client.stage.NegoRead? || n.client.stage.Failed?)
  {
    RunInv(hostname, input, pieces);
  }

  // ---------------------------------------------------------------- an address in pieces

  /** With an address that does not begin with a 5: what was split stays in the hands of the header's callback,
      until that refuses it. */
  ghost predicate Misread(n: Conn, input: bytes) {
    var c := n.client;
    c.split ==>
      || c.stage.Failed?
      || (c.stage.ReplyRead? && 1 <= c.offset < c.length && c.length in {6, 18}
          && n.taken == 6 + c.offset <= |input| && c.buffer == input[6..n.taken])
  }

  /** The header's callback goes on with the address. */
  lemma MisreadRead(n: Conn, input: bytes, piece: nat)
    requires Sane(n.client) && Misread(n, input) && n.client.split && n.client.stage.ReplyRead?
    requires n.taken < |input| && input[6] != VERSION
    ensures Misread(ReadStep(n, input, piece), input)
  {
    var c := n.client;
    var k := Min(Min(Max(piece, 1), c.length - c.offset), |input| - n.taken);
    var all := input[6..n.taken + k];
    assert c.buffer + input[n.taken..n.taken + k] == all;
    assert all[0] == input[6];
  }

  lemma MisreadAddress(n: Conn, input: bytes, piece: nat)
    requires Sane(n.client) && n.client.stage.ReplyAddrRead? && n.client.offset == 0 && !n.client.split
    requires n.taken == 6 < |input|
    ensures Misread(ReadStep(n, input, piece), input)
  {
    var k := Min(Min(Max(piece, 1), n.client.length), |input| - 6);
    assert [] + input[6..6 + k] == input[6..6 + k];
  }

  lemma MisreadStep(n: Conn, input: bytes, piece: nat)
    requires Inv(n, input) && Misread(n, input) && Answered(input) && input[6] != VERSION
    ensures Misread(Step(n, input, piece), input)
  {
    hide WriteStep, ReadStep, ConnectMsg, Welcome, HasAuth;
    var c := n.client;
    if c.split {
      if c.stage.ReplyRead? && n.taken < |input| {
        MisreadRead(n, input, piece);
      }
    } else if c.stage.ReplyAddrRead? && n.taken < |input| {
      MisreadAddress(n, input, piece);
    } else {
      SplitIff(n, input, piece);
    }
  }

  lemma {:induction false} RunMisread(hostname: bytes, input: bytes, pieces: seq<nat>)
    requires Answered(input) && input[6] != VERSION
    ensures Misread(Run(hostname, input, pieces), input)
  {
    if pieces == [] {
    } else {
      hide Inv, Misread, Step, Answered;
      var prior := pieces[..|pieces| - 1];
      RunMisread(hostname, input, prior);
      RunInv(hostname, input, prior);
      MisreadStep(Run(hostname, input, prior), input, pieces[|pieces| - 1]);
    }
  }

  /** Against a server that answers as it should, a client that has had enough operations has finished after exactly
      the reply if and only if the address came in one piece. If the address does not begin with a 5, it has
      finished at all if and only if it did. */
  lemma FinishedIffWhole(hostname: bytes, input: bytes, pieces: seq<nat>)
    requires |hostname| <= MAX_LEN && Answered(input)
    requires |pieces| > |GREETING| + |ConnectMsg(hostname, DST_PORT)| + 6
    ensures var n := Run(hostname, input, pieces);
            && (n.client.stage.Done? && n.taken == 6 + AddressLength(input) <==> !n.client.split)
            && (input[6] != VERSION ==> (n.client.stage.Done? <==> !n.client.split))
  {
    hide Run, Misread, ConnectMsg;
    var n := Run(hostname, input, pieces);
    ClientFinishes(hostname, input, pieces);
    if n.client.stage.Done? {
      FinishedClient(hostname, input, pieces);
    }
    if input[6] != VERSION && n.client.split {
      RunMisread(hostname, input, pieces);
      MisreadIsUnfinished(n, input);
    }
  }

  lemma MisreadIsUnfinished(n: Conn, input: bytes)
    requires Misread(n, input) && n.client.split
    ensures !n.client.stage.Done?
  {
  }

  lemma RunSnoc(hostname: bytes, input: bytes, prior: seq<nat>, piece: nat)
    ensures Run(hostname, input, prior + [piece]) == Step(Run(hostname, input, prior), input, piece)
  {
    assert (prior + [piece])[..|prior|] == prior;
  }

  /** The greeting and the request go out in one piece each, and so come the server's choice and the header. */
  lemma WholeGreeting(n: Conn, input: bytes)
    requires n.client.stage.NegoWrite? && n.client.offset == 0 && n.client.length == |n.client.buffer| == 3
    requires n.taken <= |input|
    ensures Step(n, input, 3) == Conn(StartRead(n.client, NegoRead, 2), n.sent + n.client.buffer, n.taken)
  {
    assert n.client.buffer[0..3] == n.client.buffer;
  }

  lemma WholeChoice(n: Conn, input: bytes)
    requires n.client.stage.NegoRead? && n.client.offset == 0 && n.client.length == 2 && n.client.buffer == []
    requires n.taken == 0 && Welcome(input) && !HasAuth(n.client) && |n.client.hostname| <= MAX_LEN
    ensures var m := Step(n, input, 2);
            && m.client == StartWrite(m.client, ConnectWrite, ConnectMsg(n.client.hostname, DST_PORT))
            && m.taken == 2 && m.client.hostname == n.client.hostname && m.client.split == n.client.split
  {
    assert [] + input[0..2] == input[..2];
  }

  lemma WholeRequest(n: Conn, input: bytes, piece: nat)
    requires n.client.stage.ConnectWrite? && n.client.offset == 0 && n.client.length == |n.client.buffer| == piece > 0
    requires n.taken <= |input|
    ensures var m := Step(n, input, piece);
            && m.client == StartRead(n.client, ReplyRead, 4) && m.taken == n.taken
  {
  }

  lemma WholeHeader(n: Conn, input: bytes)
    requires n.client == StartRead(n.client, ReplyRead, 4) && n.taken == 2 && Welcome(input)
    ensures var m := Step(n, input, 4);
            && m.client == StartRead(m.client, ReplyAddrRead, AddressLength(input)) && m.taken == 6
            && m.client.split == n.client.split && m.client.hostname == n.client.hostname
  {
    var header := input[2..6];
    assert [] + header == header && header[..3] == input[2..5] && header[3] == input[5];
    assert header[0] == input[2..5][0] && header[1] == input[2..5][1] && header[2] == input[2..5][2];
  }

  lemma UpToRequest(hostname: bytes, input: bytes)
    requires |hostname| <= MAX_LEN && Welcome(input)
    ensures var n := Run(hostname, input, [3] + [2]);
            && n.client == StartWrite(n.client, ConnectWrite, ConnectMsg(hostname, DST_PORT))
            && n.taken == 2 && !n.client.split && n.client.hostname == hostname
  {
    RunSnoc(hostname, input, [], 3);
    RunSnoc(hostname, input, [3], 2);
    assert [] + [3] == [3];
    assert Run(hostname, input, []) == Conn(Begin(hostname), [], 0);
    hide Step, Run, Welcome;
    WholeGreeting(Run(hostname, input, []), input);
    WholeChoice(Run(hostname, input, [3]), input);
  }

  /** With everything else whole, the run depends on how the address comes. */
  lemma UpToAddress(hostname: bytes, input: bytes)
    requires |hostname| <= MAX_LEN && Welcome(input)
    ensures var n := Run(hostname, input, [3] + [2] + [7 + |hostname|] + [4]);
            && n.client == StartRead(n.client, ReplyAddrRead, AddressLength(input)) && n.taken == 6
            && !n.client.split
  {
    hide Step, Run, Welcome;
    var k := 7 + |hostname|;
    UpToRequest(hostname, input);
    RunSnoc(hostname, input, [3] + [2], k);
    RunSnoc(hostname, input, [3] + [2] + [k], 4);
    WholeRequest(Run(hostname, input, [3] + [2]), input, k);
    WholeHeader(Run(hostname, input, [3] + [2] + [k]), input);
  }

  lemma AddressStep(n: Conn, input: bytes, piece: nat)
    requires n.client == StartRead(n.client, ReplyAddrRead, 6) && n.taken == 6 && |input| >= 12 && 1 <= piece <= 6
    ensures var m := Step(n, input, piece);
            && m.client.stage == (if piece == 6 then Done else ReplyRead)
            && m.client.length == 6 && m.client.offset == piece && m.client.buffer == input[6..6 + piece]
            && m.taken == 6 + piece
  {
    assert [] + input[6..6 + piece] == input[6..6 + piece];
  }

  lemma MisreadRest(n: Conn, input: bytes)
    requires n.client.stage.ReplyRead? && n.client.length == 6 && n.client.offset == 4
    requires n.taken == 10 && |input| >= 12 && n.client.buffer == input[6..10] && input[6] != VERSION
    ensures Step(n, input, 2).client.stage == Failed(FAILED)
  {
    var all := n.client.buffer + input[10..12];
    assert all[0] == input[6];
  }

  lemma AddressWhole(hostname: bytes, input: bytes, pieces: seq<nat>)
    requires var n := Run(hostname, input, pieces); n.client == StartRead(n.client, ReplyAddrRead, 6) && n.taken == 6
    requires |input| >= 12
    ensures Run(hostname, input, pieces + [6]).client.stage == Done
  {
    hide *;
    RunSnoc(hostname, input, pieces, 6);
    AddressStep(Run(hostname, input, pieces), input, 6);
  }

  lemma AddressCut(hostname: bytes, input: bytes, pieces: seq<nat>)
    requires var n := Run(hostname, input, pieces); n.client == StartRead(n.client, ReplyAddrRead, 6) && n.taken == 6
    requires |input| >= 12 && input[6] != VERSION
    ensures Run(hostname, input, pieces + [4] + [2]).client.stage == Failed(FAILED)
  {
    hide *;
    RunSnoc(hostname, input, pieces, 4);
    RunSnoc(hostname, input, pieces + [4], 2);
    AddressStep(Run(hostname, input, pieces), input, 4);
    MisreadRest(Run(hostname, input, pieces + [4]), input);
  }

  lemma IPv4Answer(input: bytes)
    requires Answered(input) && input[5] == ATYP_IPV4
    ensures Welcome(input) && AddressLength(input) == 6 && |input| >= 12
  {
  }

  /** The same reply, with an IPv4 address: in one piece it is fine, and four bytes first, then two, is a failure. */
  lemma InPieces(hostname: bytes, input: bytes, pieces: seq<nat>)
    requires |hostname| <= MAX_LEN && pieces == [3] + [2] + [7 + |hostname|] + [4]
    requires |input| >= 12 && Answered(input) && input[5] == ATYP_IPV4 && input[6] != VERSION
    ensures Run(hostname, input, pieces + [6]).client.stage == Done
    ensures Run(hostname, input, pieces + [4] + [2]).client.stage == Failed(FAILED)
  {
    hide *;
    IPv4Answer(input);
    UpToAddress(hostname, input);
    AddressWhole(hostname, input, pieces);
    AddressCut(hostname, input, pieces);
  }

  /** Success with the address 127.0.0.1 and port 80. */
  const REPLY: bytes := [VERSION, AUTH_NONE, VERSION, REP_SUCCEEDED, RESERVED, ATYP_IPV4, 127, 0, 0, 1, 0, 80]

  /** The failing run. */
  lemma SplitExample()
    ensures Answered(REPLY)
    ensures Run([], REPLY, [3, 2, 7, 4] + [6]).client.stage == Done
    ensures Run([], REPLY, [3, 2, 7, 4] + [4] + [2]).client.stage == Failed(FAILED)
  {
    hide Run;
    assert REPLY[..2] == [VERSION, AUTH_NONE] && REPLY[2..5] == [VERSION, REP_SUCCEEDED, RESERVED];
    assert [3] + [2] + [7 + 0] + [4] == [3, 2, 7, 4];
    InPieces([], REPLY, [3, 2, 7, 4]);
  }
}
