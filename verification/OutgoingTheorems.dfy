/** Outgoing transfers do not interfere, and are silent once the peer has ended their session. */
module OutgoingTheorems {
  import opened Bytes
  import opened Folding
  import opened Sessions
  import opened Offers
  import opened SharedError
  import opened Handlers
  import opened HandlerTheorems
  import opened Isolation
  import opened Ready
  import opened Outgoing
  import opened OutgoingProofs
  import S = Sender
  import T = Transfer

  // ---------------------------------------------------------------- what the party hears

  /** Only a terminate stops files, and only those of its session. */
  lemma StopsOfSession(h: Hub, loaded: Loaded, e: Event, a: Address)
    requires Stop(a) in Handle(h, loaded, e).1
    ensures e.Terminate?
    ensures var i := Find(h.book, e.sid, e.from);
            i.Some? && e.from == Peer(h.book[i.value]) && HasFile(h.book[i.value].contents, a)
  {
    hide Meant, AddAll, AcceptAll, NewIbbs, NewFiles, NewSizes, SetHashes, StopFiles, Stops, UpToBare, ReusesError,
         Without, FindByTransport, Fold, Fatal;
    if e.Terminate? {
      StopIsListed(UpToBare(h.book[Find(h.book, e.sid, e.from).value].contents), a);
    }
  }

  lemma {:induction false} StopIsListed(contents: seq<Content>, a: Address)
    requires Stop(a) in Stops(contents)
    ensures HasFile(contents, a)
  {
    var n := |contents| - 1;
    if contents[n].app == Some(a) {
    } else {
      StopIsListed(contents[..n], a);
    }
  }

  /** A terminate of the session itself stops its file exactly when the peer's name is spelled as stored. */
  lemma OwnStop(h: Hub, loaded: Loaded, e: Event, q: Post)
    requires Settled(h, q.at) && e.Terminate? && OwnEvent(e, q.at)
    requires Alone(SessionOf(AsMap(h.book), q.at), q) && SessionOf(AsMap(h.book), q.at).Some?
    ensures Stop(q.at.file) in Handle(h, loaded, e).1 <==> e.from == q.at.peer
  {
    hide AsMap, Unique, Fits, Fold, StopFiles, Without;
    var i := Find(h.book, e.sid, e.from);
    FindIsLookup(h.book, e.sid, e.from);
    var contents := h.book[i.value].contents;
    assert contents == [contents[0]];
    StopOfOne(contents[0]);
  }

  lemma StopOfOne(c: Content)
    requires c.app.Some?
    ensures Stops(UpToBare([c])) == [Stop(c.app.value)]
  {
    assert [c][1..] == [] && [c][..0] == [];
    assert UpToBare([c]) == [c] + UpToBare([]) == [c];
    assert Stops([c]) == Stops([]) + [Stop(c.app.value)];
  }

  lemma ForeignStop(h: Hub, loaded: Loaded, e: Event, p: Place)
    requires Settled(h, p) && (!OwnEvent(e, p) || SessionOf(AsMap(h.book), p).None?)
    ensures Stop(p.file) !in Handle(h, loaded, e).1
  {
    hide AsMap, Unique, Fold, Handle;
    if Stop(p.file) in Handle(h, loaded, e).1 {
      StopsOfSession(h, loaded, e, p.file);
      FindIsLookup(h.book, e.sid, e.from);
    }
  }

  ghost predicate Heard(e: Event) {
    !e.SentAll? && !e.BlockAcked?
  }

  lemma HeardAccept(o: Office, loaded: Loaded, files: Drawer, e: Event, q: Post)
    requires InPost(o, files, q) && e.Accept? && OwnEvent(e, q.at) && e.wellFormed && SessionAt(o, q).Some?
    requires !OnHeard(o, loaded, files, e).hub.gone
    ensures var p := OnHeard(o, loaded, files, e);
            InPost(p, files, q) && SenderAt(p, q) == AcceptItems(SenderAt(o, q), q.name, e.items)
  {
    hide Settled, Handle, AcceptAll, AcceptItems, AsMap, Fold, FreshSid;
    var s, c := SenderAt(o, q), SessionAt(o, q).value.contents[0];
    var p := OnHeard(o, loaded, files, e);
    assert SessionAt(o, q).value.contents == [c];
    SingleAccept(c, o.hub.sizes, e.items, s, q.at.trans);
    AcceptIgnoresSizes(Accepting([c], o.hub.sizes, false), Accepting([c], map[], false), e.items);
    OwnIsFresh(o.hub, e, q.at);
    HubStep(o.hub, loaded, e, q.at);
    NoStopByAccept(o.hub, loaded, e);
    OwnKey(o, q);
  }

  lemma OwnKey(o: Office, q: Post)
    requires SessionAt(o, q).Some?
    ensures KeyAt(q.at) in AsMap(o.hub.book) && AsMap(o.hub.book)[KeyAt(q.at)] == SessionAt(o, q).value
  {
  }

  lemma NoStopByAccept(h: Hub, loaded: Loaded, e: Event)
    requires !e.Terminate?
    ensures forall a :: Stop(a) !in Handle(h, loaded, e).1
  {
    hide Handle;
    forall a
      ensures Stop(a) !in Handle(h, loaded, e).1
    {
      if Stop(a) in Handle(h, loaded, e).1 {
        StopsOfSession(h, loaded, e, a);
      }
    }
  }

  lemma HeardTerminate(o: Office, loaded: Loaded, files: Drawer, e: Event, q: Post)
    requires InPost(o, files, q) && e.Terminate? && OwnEvent(e, q.at) && SessionAt(o, q).Some?
    requires !OnHeard(o, loaded, files, e).hub.gone
    ensures var p := OnHeard(o, loaded, files, e);
            InPost(p, files, q) && SenderAt(p, q) == LoneStep(files(q.at.file), SenderAt(o, q), Hear(e), q)
  {
    hide Settled, Handle, AsMap, Fold, FreshSid;
    OwnIsFresh(o.hub, e, q.at);
    HubStep(o.hub, loaded, e, q.at);
    assert Settled(o.hub, q.at);
    OwnStop(o.hub, loaded, e, q);
  }

  /** Any other event: nothing that the sender sees changes. */
  lemma HeardOther(o: Office, loaded: Loaded, files: Drawer, e: Event, q: Post)
    requires InPost(o, files, q) && FreshSid(o.hub, e) && Heard(e) && !OnHeard(o, loaded, files, e).hub.gone
    requires !OwnEvent(e, q.at) || SessionAt(o, q).None? || e.Packet? || e.SessionInfo? || (e.Accept? && !e.wellFormed)
    ensures var p := OnHeard(o, loaded, files, e);
            InPost(p, files, q) && SenderAt(p, q) == SenderAt(o, q)
  {
    hide Handle, AsMap, Fold, FreshSid, Unique, Fits;
    HubStep(o.hub, loaded, e, q.at);
    if e.Terminate? {
      ForeignStop(o.hub, loaded, e, q.at);
    } else {
      NoStopByAccept(o.hub, loaded, e);
    }
  }

  lemma HearStep(o: Office, loaded: Loaded, files: Drawer, e: Event, q: Post)
    requires InPost(o, files, q) && FreshSid(o.hub, e) && !OnHeard(o, loaded, files, e).hub.gone
    ensures var p := OnHeard(o, loaded, files, e);
            InPost(p, files, q) && SenderAt(p, q) == LoneStep(files(q.at.file), SenderAt(o, q), Hear(e), q)
  {
    hide Settled, OnHeard, AsMap, Fold, FreshSid, AcceptItems, SessionAt;
    if !Heard(e) {
      NotHeard(o, loaded, files, e);
    } else if SessionAt(o, q).None? || !OwnEvent(e, q.at) {
      HeardOther(o, loaded, files, e, q);
    } else if e.Accept? && e.wellFormed {
      HeardAccept(o, loaded, files, e, q);
    } else if e.Terminate? {
      HeardTerminate(o, loaded, files, e, q);
    } else {
      HeardOther(o, loaded, files, e, q);
    }
  }

  lemma NotHeard(o: Office, loaded: Loaded, files: Drawer, e: Event)
    requires !Heard(e)
    ensures OnHeard(o, loaded, files, e) == o
  {
  }

  // ---------------------------------------------------------------- what the senders do

  lemma SentAllIsSurvived(h: Hub, loaded: Loaded, e: Event)
    requires e.SentAll? && !h.gone
    ensures !Handle(h, loaded, e).0.gone
  {
    hide Without;
  }

  lemma EmptyRest(c: Content)
    ensures RemoveNamed([c], c.name) == []
  {
    FindContentAt([c], c.name, 0);
  }

  /** The pipeline has worked for this transfer. */
  lemma PutBackOwn(o: Office, loaded: Loaded, files: Drawer, q: Post, t: S.Sender, sid: string, from: string)
    requires InPost(o, files, q) && SessionAt(o, q).Some? && Key(sid, Fold(from)) == KeyAt(q.at)
    requires var s := SenderAt(o, q); t.blocksize == s.blocksize && t.active == s.active && t.active
    requires t.pos <= |files(q.at.file).file|
    ensures var p := PutBack(o, loaded, SessionAt(o, q).value.contents[0], t, sid, from);
            InPost(p, files, q) && SenderAt(p, q) == t
  {
    hide Settled, Handle, AsMap, Fold, FreshSid, FindContent;
    var c := SessionAt(o, q).value.contents[0];
    if !t.listed {
      var e := SentAll(sid, from, c.name);
      OwnIsFresh(o.hub, e, q.at);
      assert !o.hub.gone by { HomeIs(o.hub, q.at); }
      SentAllIsSurvived(o.hub, loaded, e);
      HubStep(o.hub, loaded, e, q.at);
      assert SessionAt(o, q).value.contents == [c];
      EmptyRest(c);
    }
  }

  /** It has worked for another one. */
  lemma PutBackForeign(o: Office, loaded: Loaded, files: Drawer, q: Post, c: Content, t: S.Sender, sid: string,
                       from: string)
    requires InPost(o, files, q) && c.app.Some? && c.app.value != q.at.file
    requires SessionAt(o, q).None? || Key(sid, Fold(from)) != KeyAt(q.at)
    ensures var p := PutBack(o, loaded, c, t, sid, from);
            InPost(p, files, q) && SenderAt(p, q) == SenderAt(o, q)
  {
    hide Settled, Handle, AsMap, Fold, FreshSid, FindContent;
    if !t.listed {
      var e := SentAll(sid, from, c.name);
      assert FreshSid(o.hub, e) by { NotOutgoingIsFresh(o.hub, e); }
      assert !o.hub.gone by { HomeIs(o.hub, q.at); }
      SentAllIsSurvived(o.hub, loaded, e);
      HubStep(o.hub, loaded, e, q.at);
    }
  }

  lemma NotOutgoingIsFresh(h: Hub, e: Event)
    requires !e.NewOutgoing?
    ensures FreshSid(h, e)
  {
  }

  /** The content found by key and name is that of the transfer exactly when the transfer is listed and they are its
      own; otherwise it has another file. */
  lemma WhoIsFound(o: Office, files: Drawer, q: Post, sid: string, from: string, name: string)
    requires InPost(o, files, q)
    ensures var c, own := ListedContent(o.hub, sid, from, name), Key(sid, Fold(from)) == KeyAt(q.at);
            if own && SessionAt(o, q).Some?
            then c == if name == q.name then Some(SessionAt(o, q).value.contents[0]) else None
            else c.Some? ==> c.value.app != Some(q.at.file)
  {
    hide AsMap, Unique, Fold;
    FindIsLookup(o.hub.book, sid, from);
    var i := Find(o.hub.book, sid, from);
    if i.Some? {
      var contents := o.hub.book[i.value].contents;
      assert forall c :: c in contents ==> FitsOne(Key(sid, Fold(from)), c, q.at);
      if Key(sid, Fold(from)) == KeyAt(q.at) && SessionAt(o, q).Some? {
        assert contents == [contents[0]];
        if name == q.name {
          FindContentAt(contents, name, 0);
        }
      } else {
        var j := FindContent(contents, name);
        assert j.Some? ==> contents[j.value] in contents;
      }
    }
  }

  lemma StartedStep(o: Office, loaded: Loaded, files: Drawer, m: Move, q: Post)
    requires InPost(o, files, q) && m.Started?
    ensures var p := OnStarted(o, loaded, files, m);
            InPost(p, files, q) && SenderAt(p, q) == LoneStep(files(q.at.file), SenderAt(o, q), m, q)
  {
    hide Settled, Handle, AsMap, Fold, ListedContent, PutBack, S.Pull;
    WhoIsFound(o, files, q, m.sid, m.from, m.name);
    assert !o.hub.gone by { HomeIs(o.hub, q.at); }
    var c := ListedContent(o.hub, m.sid, m.from, m.name);
    if c.Some? && Sends(o, c.value) {
      var s := SenderNow(o, c.value);
      if s.active && s.md5.None? && s.pos <= |files(c.value.app.value).file| {
        if SessionAt(o, q).Some? && OwnMove(m, q) {
          var u := s.(state := S.STARTING, md5 := Some([]));
          PullKeeps(files(q.at.file), u);
          PutBackOwn(o, loaded, files, q, S.OnStart(files(q.at.file), s), m.sid, m.from);
        } else {
          PutBackForeign(o, loaded, files, q, c.value, S.OnStart(files(c.value.app.value), s), m.sid, m.from);
        }
      }
    }
  }

  /** The acknowledgement reaches the pipeline of a listed transfer. */
  lemma OwnAckResumes(o: Office, loaded: Loaded, files: Drawer, m: Move, q: Post)
    requires InPost(o, files, q) && m.Acked? && OwnMove(m, q) && SessionAt(o, q).Some?
    ensures Handle(o.hub, loaded, BlockAcked(m.sid, m.from, m.name)) == (o.hub, [Resume(m.name)])
  {
    hide AsMap, Unique, Fits, Fold;
    WhoIsFound(o, files, q, m.sid, m.from, m.name);
  }

  lemma AckKeepsHub(h: Hub, loaded: Loaded, e: Event)
    requires e.BlockAcked? && !Handle(h, loaded, e).0.gone
    ensures Handle(h, loaded, e).0 == h
  {
  }

  lemma AckedStep(o: Office, loaded: Loaded, files: Drawer, m: Move, q: Post)
    requires InPost(o, files, q) && m.Acked? && !OnAcked(o, loaded, files, m).hub.gone
    ensures var p := OnAcked(o, loaded, files, m);
            InPost(p, files, q) && SenderAt(p, q) == LoneStep(files(q.at.file), SenderAt(o, q), m, q)
  {
    hide Settled, Handle, AsMap, Fold, ListedContent, S.Pull, Fatal;
    WhoIsFound(o, files, q, m.sid, m.from, m.name);
    var e := BlockAcked(m.sid, m.from, m.name);
    var c := ListedContent(o.hub, m.sid, m.from, m.name);
    var effects := Handle(o.hub, loaded, e).1;
    if SessionAt(o, q).Some? && OwnMove(m, q) {
      OwnAckResumes(o, loaded, files, m, q);
      OwnAck(o, loaded, files, m, q);
    } else {
      ForeignAck(o, loaded, files, m, q);
    }
  }

  lemma OwnAck(o: Office, loaded: Loaded, files: Drawer, m: Move, q: Post)
    requires InPost(o, files, q) && m.Acked? && OwnMove(m, q) && SessionAt(o, q).Some?
    requires Handle(o.hub, loaded, BlockAcked(m.sid, m.from, m.name)) == (o.hub, [Resume(m.name)])
    ensures var p := OnAcked(o, loaded, files, m);
            InPost(p, files, q) && SenderAt(p, q) == LoneStep(files(q.at.file), SenderAt(o, q), m, q)
  {
    hide Settled, Handle, AsMap, Fold, ListedContent, PutBack, S.Pull;
    WhoIsFound(o, files, q, m.sid, m.from, m.name);
    var env, s := files(q.at.file), SenderAt(o, q);
    if s.md5.Some? {
      if |s.queue| <= s.blocksize {
        PullKeeps(env, s);
      }
      PutBackOwn(o, loaded, files, q, S.OnDataAck(env, s), m.sid, m.from);
    }
  }

  lemma ForeignAck(o: Office, loaded: Loaded, files: Drawer, m: Move, q: Post)
    requires InPost(o, files, q) && m.Acked? && !OnAcked(o, loaded, files, m).hub.gone
    requires SessionAt(o, q).None? || !OwnMove(m, q)
    ensures var p := OnAcked(o, loaded, files, m);
            InPost(p, files, q) && SenderAt(p, q) == SenderAt(o, q)
  {
    hide Settled, Handle, AsMap, Fold, ListedContent, S.Pull;
    WhoIsFound(o, files, q, m.sid, m.from, m.name);
    assert !o.hub.gone by { HomeIs(o.hub, q.at); }
    var e, c := BlockAcked(m.sid, m.from, m.name), ListedContent(o.hub, m.sid, m.from, m.name);
    var (g, effects) := Handle(o.hub, loaded, e);
    if g.gone {
      AckIsLast(o, loaded, files, m);
    } else {
      AckKeepsHub(o.hub, loaded, e);
      if effects == [Resume(m.name)] && c.Some? && Sends(o, c.value) {
        var s := SenderNow(o, c.value);
        if s.md5.Some? && s.pos <= |files(c.value.app.value).file| {
          PutBackForeign(o, loaded, files, q, c.value, S.OnDataAck(files(c.value.app.value), s), m.sid, m.from);
        }
      }
    }
  }

  /** An acknowledgement that is not survived resumes nothing. */
  lemma AckIsLast(o: Office, loaded: Loaded, files: Drawer, m: Move)
    requires m.Acked? && !o.hub.gone && Handle(o.hub, loaded, BlockAcked(m.sid, m.from, m.name)).0.gone
    ensures OnAcked(o, loaded, files, m).hub.gone
  {
    var e := BlockAcked(m.sid, m.from, m.name);
    assert !Fatal([Resume(m.name)]);
    hide Handle, React, Fatal, ListedContent, PutBack;
    HandleIs(o.hub, loaded, e);
  }

  // ---------------------------------------------------------------- one move, and all of them

  /** The identifier of a session the party starts is not in use. */
  ghost predicate FreshMove(o: Office, m: Move) {
    m.Hear? ==> FreshSid(o.hub, m.e)
  }

  ghost predicate FreshMoves(o: Office, loaded: Loaded, files: Drawer, moves: seq<Move>) {
    forall i :: 0 <= i < |moves| ==> FreshMove(GoAll(o, loaded, files, moves[..i]), moves[i])
  }

  /** Every move that is survived does to an outgoing transfer what it does to a sender that is alone. */
  lemma OneMove(o: Office, loaded: Loaded, files: Drawer, m: Move, q: Post)
    requires InPost(o, files, q) && FreshMove(o, m) && !Go(o, loaded, files, m).hub.gone
    ensures var p := Go(o, loaded, files, m);
            InPost(p, files, q) && SenderAt(p, q) == LoneStep(files(q.at.file), SenderAt(o, q), m, q)
  {
    hide InPost, OnHeard, OnStarted, OnAcked, FreshSid, LoneStep;
    match m
    case Hear(e) => HearStep(o, loaded, files, e, q);
    case Started(_, _, _) => StartedStep(o, loaded, files, m, q);
    case Acked(_, _, _) => AckedStep(o, loaded, files, m, q);
  }

  lemma GoneGoesOn(o: Office, loaded: Loaded, files: Drawer, m: Move)
    requires o.hub.gone
    ensures Go(o, loaded, files, m).hub.gone
  {
  }

  lemma FreshMovesSnoc(o: Office, loaded: Loaded, files: Drawer, prior: seq<Move>, last: Move)
    requires FreshMoves(o, loaded, files, prior + [last])
    ensures FreshMoves(o, loaded, files, prior) && FreshMove(GoAll(o, loaded, files, prior), last)
  {
    hide GoAll, FreshMove;
    var all := prior + [last];
    assert all[..|prior|] == prior && all[|prior|] == last;
    assert forall i :: 0 <= i < |prior| ==> all[..i] == prior[..i] && all[i] == prior[i];
  }

  /** Over every run of moves that the party survives, each outgoing transfer is a sender that is alone: it reads,
      queues and sends exactly what its own moves make it. */
  lemma {:induction false} EachSenderIsAlone(o: Office, loaded: Loaded, files: Drawer, moves: seq<Move>, q: Post)
    requires InPost(o, files, q) && FreshMoves(o, loaded, files, moves)
    requires !GoAll(o, loaded, files, moves).hub.gone
    ensures var p := GoAll(o, loaded, files, moves);
            InPost(p, files, q) && SenderAt(p, q) == LoneAfter(files(q.at.file), SenderAt(o, q), moves, q)
  {
    if moves == [] {
    } else {
      hide Go, InPost, SenderAt, FreshMoves, FreshMove, LoneStep;
      var prior, last := moves[..|moves| - 1], moves[|moves| - 1];
      assert moves == prior + [last];
      FreshMovesSnoc(o, loaded, files, prior, last);
      if GoAll(o, loaded, files, prior).hub.gone {
        GoneGoesOn(GoAll(o, loaded, files, prior), loaded, files, last);
      } else {
        EachSenderIsAlone(o, loaded, files, prior, q);
        OneMove(GoAll(o, loaded, files, prior), loaded, files, last, q);
      }
    }
  }

  // ---------------------------------------------------------------- after the peer has ended the session

  lemma {:induction false} UnlistedIsIdle(env: S.Env, s: S.Sender, moves: seq<Move>, q: Post)
    requires !s.listed
    ensures LoneAfter(env, s, moves, q) == s
  {
    if moves == [] {
    } else {
      UnlistedIsIdle(env, s, moves[..|moves| - 1], q);
    }
  }

  lemma {:induction false} LoneSplit(env: S.Env, s: S.Sender, a: seq<Move>, b: seq<Move>, q: Post)
    ensures LoneAfter(env, s, a + b, q) == LoneAfter(env, LoneAfter(env, s, a, q), b, q)
  {
    if b == [] {
      assert a + b == a;
    } else {
      hide LoneStep;
      assert (a + b)[..|a + b| - 1] == a + b[..|b| - 1];
      LoneSplit(env, s, a, b[..|b| - 1], q);
    }
  }

  /** When the peer ends the session in mid-transfer, in whatever spelling of its name, nothing more is read or sent
      for it, whatever follows: late acknowledgements, accepts, or a session that uses the key again. */
  lemma SilentAfterTerminate(o: Office, loaded: Loaded, files: Drawer, end: Event, more: seq<Move>, q: Post)
    requires InPost(o, files, q) && end.Terminate? && OwnEvent(end, q.at)
    requires FreshMoves(o, loaded, files, [Hear(end)] + more)
    requires !GoAll(o, loaded, files, [Hear(end)] + more).hub.gone
    ensures var s, p := SenderAt(o, q), GoAll(o, loaded, files, [Hear(end)] + more);
            && InPost(p, files, q) && !SenderAt(p, q).listed
            && SenderAt(p, q).out == s.out && SenderAt(p, q).pos == s.pos && SenderAt(p, q).attempts == s.attempts
            && (s.listed ==>
                  SenderAt(p, q).state ==
                    if end.from != q.at.peer then s.state
                    else if s.transmit < |files(q.at.file).file| then S.ERROR else S.ENDING)
  {
    var env, s := files(q.at.file), SenderAt(o, q);
    hide InPost, GoAll, FreshMoves, LoneAfter, SenderAt, OwnEvent;
    EachSenderIsAlone(o, loaded, files, [Hear(end)] + more, q);
    LoneSplit(env, s, [Hear(end)], more, q);
    TerminateUnlists(env, s, end, q);
    UnlistedIsIdle(env, LoneAfter(env, s, [Hear(end)], q), more, q);
  }

  lemma TerminateUnlists(env: S.Env, s: S.Sender, end: Event, q: Post)
    requires end.Terminate? && OwnEvent(end, q.at)
    ensures var t := LoneAfter(env, s, [Hear(end)], q);
            && !t.listed && t.out == s.out && t.pos == s.pos && t.attempts == s.attempts
            && (s.listed ==>
                  t.state == if end.from != q.at.peer then s.state
                             else if s.transmit < |env.file| then S.ERROR else S.ENDING)
  {
    assert [Hear(end)][..0] == [];
    assert LoneAfter(env, s, [], q) == s;
  }

  // ---------------------------------------------------------------- the transfer of one file

  /** What a step of the transfer of one file is for its sender. */
  function MoveOf(q: Post, n: T.Net, step: T.Step): seq<Move> {
    match step
    case Accept(parsed) =>
      [Hear(Event.Accept(q.at.sid, q.at.peer, true, [AcceptItem(q.name, true, Some(parsed))]))]
    case Start => [Started(q.at.sid, q.at.peer, q.name)]
    case DeliverStanza => []
    case DeliverReply =>
      if n.answered < |n.replies| && n.replies[n.answered].DataAck? then [Acked(q.at.sid, q.at.peer, q.name)] else []
  }

  function MovesOf(w: T.World, q: Post, steps: seq<T.Step>): seq<Move> {
    if steps == [] then []
    else
      MovesOf(w, q, steps[..|steps| - 1]) + MoveOf(q, T.Run(w, steps[..|steps| - 1]), steps[|steps| - 1])
  }

  lemma OneMoveAfter(env: S.Env, s: S.Sender, m: Move, q: Post)
    ensures LoneAfter(env, s, [m], q) == LoneStep(env, s, m, q)
  {
    assert [m][..0] == [];
    assert LoneAfter(env, s, [], q) == s;
  }

  lemma AcceptMove(env: S.Env, s: S.Sender, q: Post, parsed: int)
    ensures var items := [AcceptItem(q.name, true, Some(parsed))];
            LoneStep(env, s, Hear(Event.Accept(q.at.sid, q.at.peer, true, items)), q) == S.OnAccept(s, parsed)
  {
    var items := [AcceptItem(q.name, true, Some(parsed))];
    assert items[..0] == [];
    assert AcceptItems(s, q.name, []) == s;
  }

  lemma StartMove(env: S.Env, s: S.Sender, q: Post)
    requires s.pos <= |env.file|
    ensures LoneStep(env, s, Started(q.at.sid, q.at.peer, q.name), q) ==
              if s.active && s.md5.None? then S.OnStart(env, s) else s
  {
    hide S.Pull;
  }

  lemma AckMove(env: S.Env, s: S.Sender, q: Post)
    requires s.pos <= |env.file|
    ensures LoneStep(env, s, Acked(q.at.sid, q.at.peer, q.name), q) ==
              if s.md5.Some? then S.OnDataAck(env, s) else s
  {
    hide S.Pull;
  }

  lemma StepIsMove(w: T.World, q: Post, n: T.Net, step: T.Step)
    requires n.snd.pos <= |w.env.file|
    ensures LoneAfter(w.env, n.snd, MoveOf(q, n, step), q) == T.Apply(w, n, step).snd
  {
    hide LoneStep, LoneAfter, S.OnStart, S.OnDataAck, S.OnAccept, T.Receive;
    match step
    case Accept(parsed) =>
      OneMoveAfter(w.env, n.snd, MoveOf(q, n, step)[0], q);
      AcceptMove(w.env, n.snd, q, parsed);
    case Start =>
      OneMoveAfter(w.env, n.snd, MoveOf(q, n, step)[0], q);
      StartMove(w.env, n.snd, q);
    case DeliverStanza =>
      NoMove(w.env, n.snd, q);
    case DeliverReply =>
      NoMove(w.env, n.snd, q);
      OneMoveAfter(w.env, n.snd, Acked(q.at.sid, q.at.peer, q.name), q);
      AckMove(w.env, n.snd, q);
  }

  lemma NoMove(env: S.Env, s: S.Sender, q: Post)
    ensures LoneAfter(env, s, [], q) == s
  {
  }

  /** On the moves of a run the lone sender is the sender of that run. */
  lemma {:induction false} LoneIsTransfer(w: T.World, q: Post, steps: seq<T.Step>)
    ensures LoneAfter(w.env, S.NEW_SENDER, MovesOf(w, q, steps), q) == T.Run(w, steps).snd
  {
    if steps == [] {
    } else {
      hide LoneAfter, T.Apply, MoveOf;
      var prior, step := steps[..|steps| - 1], steps[|steps| - 1];
      LoneIsTransfer(w, q, prior);
      LoneSplit(w.env, S.NEW_SENDER, MovesOf(w, q, prior), MoveOf(q, T.Run(w, prior), step), q);
      StepIsMove(w, q, T.Run(w, prior), step);
    }
  }

  /** The moves of the transfer itself. */
  function OwnMoves(moves: seq<Move>, q: Post): seq<Move> {
    if moves == [] then []
    else OwnMoves(moves[..|moves| - 1], q) + if OwnMove(moves[|moves| - 1], q) then [moves[|moves| - 1]] else []
  }

  lemma LoneSnoc(env: S.Env, s: S.Sender, prior: seq<Move>, last: Move, q: Post)
    ensures LoneAfter(env, s, prior + [last], q) == LoneStep(env, LoneAfter(env, s, prior, q), last, q)
    ensures prior + [] == prior
  {
    assert (prior + [last])[..|prior|] == prior;
  }

  lemma {:induction false} OwnMovesDecide(env: S.Env, s: S.Sender, moves: seq<Move>, q: Post)
    ensures LoneAfter(env, s, moves, q) == LoneAfter(env, s, OwnMoves(moves, q), q)
  {
    if moves == [] {
    } else {
      hide OwnMove;
      var prior, last := moves[..|moves| - 1], moves[|moves| - 1];
      OwnMovesDecide(env, s, prior, q);
      LoneSnoc(env, s, OwnMoves(prior, q), last, q);
    }
  }

  /** An outgoing transfer among any others, with all their moves mixed in, is at every moment the sender of the
      transfer of one file: whatever is proved of that sender holds of it. */
  lemma SenderFollows(o: Office, loaded: Loaded, files: Drawer, moves: seq<Move>, q: Post, w: T.World,
                      steps: seq<T.Step>)
    requires InPost(o, files, q) && SenderAt(o, q) == S.NEW_SENDER && files(q.at.file) == w.env
    requires FreshMoves(o, loaded, files, moves) && !GoAll(o, loaded, files, moves).hub.gone
    requires OwnMoves(moves, q) == MovesOf(w, q, steps)
    ensures var p := GoAll(o, loaded, files, moves);
            InPost(p, files, q) && SenderAt(p, q) == T.Run(w, steps).snd
  {
    var s := SenderAt(o, q);
    hide InPost, GoAll, FreshMoves, SenderAt, LoneAfter;
    EachSenderIsAlone(o, loaded, files, moves, q);
    OwnMovesDecide(files(q.at.file), s, moves, q);
    LoneIsTransfer(w, q, steps);
  }

  // ---------------------------------------------------------------- a new transfer

  /** The post of a session that this party starts. */
  function PostOf(h: Hub, e: Event): Post
    requires e.NewOutgoing?
  {
    Post(Place(e.sid, e.to, "", h.next + 1, h.next + 2), e.name)
  }

  /** A session that this party starts over an In-Band Bytestream begins such a transfer. */
  lemma NewSenderInPost(o: Office, loaded: Loaded, files: Drawer, e: Event)
    requires Unique(o.hub.book) && Below(o.hub) && !o.hub.gone
    requires e.NewOutgoing? && FreshSid(o.hub, e) && e.kind == Some(IBB)
    ensures var p, q := OnHeard(o, loaded, files, e), PostOf(o.hub, e);
            !p.hub.gone && InPost(p, files, q) && SenderAt(p, q) == S.NEW_SENDER
  {
    hide AsMap, Unique, Fold, Below;
    var h, q := o.hub, PostOf(o.hub, e);
    var p := OnHeard(o, loaded, files, e);
    var c := OutgoingContent(h.next, e.name, e.kind);
    var s := Session(e.sid, OUTGOING, e.from, e.to, [c]);
    HandleMap(h, loaded, e);
    assert AsMap(p.hub.book) == AsMap(h.book)[KeyAt(q.at) := s];
    forall k, d | k in AsMap(h.book) && d in AsMap(h.book)[k].contents
      ensures FitsOne(k, d, q.at)
    {
      ListedBelow(h, k, d);
    }
    FitsPut(AsMap(h.book), KeyAt(q.at), s, q.at);
    assert HasFile(s.contents, q.at.file) by { assert s.contents[0] == c; }
  }

  lemma ListedBelow(h: Hub, k: Key, d: Content)
    requires Below(h) && k in AsMap(h.book) && d in AsMap(h.book)[k].contents
    ensures HalvesWithin(d, 0, h.next)
  {
    ListedInMap(h.book, k, d);
  }
}
