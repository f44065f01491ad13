/** What the handlers keep over every run of events, and what single events mean. */
module HandlerTheorems {
  import opened Bytes
  import opened Folding
  import opened Sessions
  import opened Offers
  import opened SharedError
  import opened Handlers

  // ---------------------------------------------------------------- the session list is a map

  /** The random identifier of an outgoing session is not in use with that peer. */
  ghost predicate FreshSid(h: Hub, e: Event) {
    e.NewOutgoing? ==> Find(h.book, e.sid, e.to).None?
  }

  ghost predicate FreshFrom(h: Hub, loaded: Loaded, events: seq<Event>) {
    forall i :: 0 <= i < |events| ==> FreshSid(Process(h, loaded, events[..i]), events[i])
  }

  ghost predicate FreshSids(loaded: Loaded, events: seq<Event>) {
    FreshFrom(EMPTY_HUB, loaded, events)
  }

  lemma FreshSnoc(h: Hub, loaded: Loaded, prior: seq<Event>, last: Event)
    requires FreshFrom(h, loaded, prior + [last])
    ensures FreshFrom(h, loaded, prior) && FreshSid(Process(h, loaded, prior), last)
  {
    hide Process, FreshSid;
    var all := prior + [last];
    assert all[..|prior|] == prior && all[|prior|] == last;
    assert forall i :: 0 <= i < |prior| ==> all[..i] == prior[..i] && all[i] == prior[i];
  }

  /** What an event that the party survives does to the sessions, seen as a map from identifier and peer. */
  ghost function MapAfter(h: Hub, loaded: Loaded, e: Event): map<Key, Session> {
    var m := AsMap(h.book);
    match e
    case Initiate(sid, from, to, _, _, offers) =>
      var contents := AddAll(offers, loaded, h.next);
      if Proper(h, e) && contents != [] then m[Key(sid, Fold(from)) := Session(sid, INCOMING, from, to, contents)]
      else m
    case NewOutgoing(sid, from, to, name, _, kind) =>
      m[Key(sid, Fold(to)) := Session(sid, OUTGOING, from, to, [OutgoingContent(h.next, name, kind)])]
    case Accept(sid, from, wellFormed, items) =>
      var k := Key(sid, Fold(from));
      if wellFormed && k in m
      then m[k := m[k].(contents := AcceptAll(Accepting(m[k].contents, h.sizes, false), items).contents)] else m
    case Terminate(sid, from) => m - {Key(sid, Fold(from))}
    case SentAll(sid, from, name) =>
      var k := Key(sid, Fold(from));
      if k !in m then m else MapWithout(m, k, name)
    case _ => m
  }

  /** The first content of a name is taken out, and the session goes with its last one. */
  ghost function MapWithout(m: map<Key, Session>, k: Key, name: string): map<Key, Session>
    requires k in m
  {
    var contents := m[k].contents;
    var j := FindContent(contents, name);
    if j.None? then m
    else if |contents| == 1 then m - {k}
    else m[k := m[k].(contents := contents[..j.value] + contents[j.value + 1..])]
  }

  lemma InitiateMap(h: Hub, loaded: Loaded, e: Event)
    requires e.Initiate? && Unique(h.book)
    ensures Unique(OnInitiate(h, loaded, e).0.book)
    ensures AsMap(OnInitiate(h, loaded, e).0.book) == MapAfter(h, loaded, e)
  {
    hide Unique, AsMap;
    var s := Session(e.sid, INCOMING, e.from, e.to, AddAll(e.offers, loaded, h.next));
    AppendIsUpdate(h.book, s);
  }

  lemma NewOutgoingMap(h: Hub, loaded: Loaded, e: Event)
    requires e.NewOutgoing? && Unique(h.book)
    ensures Unique(OnNewOutgoing(h, e).book) <==> FreshSid(h, e)
    ensures FreshSid(h, e) ==> AsMap(OnNewOutgoing(h, e).book) == MapAfter(h, loaded, e)
  {
    hide Unique, AsMap;
    var s := Session(e.sid, OUTGOING, e.from, e.to, [OutgoingContent(h.next, e.name, e.kind)]);
    AppendIsUpdate(h.book, s);
  }

  lemma AcceptMap(h: Hub, loaded: Loaded, e: Event)
    requires e.Accept? && Unique(h.book)
    ensures Unique(OnAccept(h, e).0.book)
    ensures AsMap(OnAccept(h, e).0.book) == MapAfter(h, loaded, e)
  {
    hide Unique, AsMap, AcceptAll;
    var i := Find(h.book, e.sid, e.from);
    FindIsLookup(h.book, e.sid, e.from);
    if i.Some? && e.wellFormed {
      var s := h.book[i.value];
      var a := AcceptAll(Accepting(s.contents, h.sizes, false), e.items);
      ReplaceIsUpdate(h.book, i.value, s.(contents := a.contents));
    }
  }

  lemma TerminateMap(h: Hub, loaded: Loaded, e: Event)
    requires e.Terminate? && Unique(h.book)
    ensures Unique(OnTerminate(h, e).0.book)
    ensures AsMap(OnTerminate(h, e).0.book) == MapAfter(h, loaded, e)
    ensures Find(OnTerminate(h, e).0.book, e.sid, e.from).None?
  {
    hide Unique, AsMap, StopFiles, Stops, Without;
    var i := Find(h.book, e.sid, e.from);
    FindIsLookup(h.book, e.sid, e.from);
    if i.Some? {
      DeleteIsRemove(h.book, i.value);
      FindIsLookup(Without(h.book, i.value), e.sid, e.from);
    }
  }

  lemma SentAllMap(h: Hub, loaded: Loaded, e: Event)
    requires e.SentAll? && Unique(h.book)
    ensures Unique(OnSentAll(h, e).0.book)
    ensures AsMap(OnSentAll(h, e).0.book) == MapAfter(h, loaded, e)
  {
    hide Unique, AsMap, Without;
    var i := Find(h.book, e.sid, e.from);
    FindIsLookup(h.book, e.sid, e.from);
    if i.Some? {
      var s := h.book[i.value];
      var j := FindContent(s.contents, e.name);
      if j.Some? && |s.contents| == 1 {
        DeleteIsRemove(h.book, i.value);
      } else if j.Some? {
        ReplaceIsUpdate(h.book, i.value, s.(contents := s.contents[..j.value] + s.contents[j.value + 1..]));
      }
    }
  }

  /** Keys stay distinct; the map changes as stated, or not at all when the party has died or dies. */
  lemma HandleMap(h: Hub, loaded: Loaded, e: Event)
    requires Unique(h.book) && FreshSid(h, e)
    ensures var g := Handle(h, loaded, e).0;
            && Unique(g.book)
            && AsMap(g.book) == if g.gone then AsMap(h.book) else MapAfter(h, loaded, e)
  {
    hide *;
    ReactMap(h, loaded, e);
    HandleIs(h, loaded, e);
  }

  /** What handling an event comes to, seen from outside. */
  lemma HandleIs(h: Hub, loaded: Loaded, e: Event)
    ensures var (g, effects) := Handle(h, loaded, e);
            && (g.gone <==> h.gone || Fatal(React(h, loaded, e).1))
            && (if g.gone then g == h.(gone := true) else g == React(h, loaded, e).0)
            && (!h.gone ==> effects == React(h, loaded, e).1)
  {
    hide OnInitiate, OnNewOutgoing, OnAccept, OnTerminate, OnSentAll, OnSessionInfo, OnBlockAcked, OnPacket, Fatal;
    assert h.gone ==> h == h.(gone := true);
    ReactLives(h, loaded, e);
  }

  lemma ReactLives(h: Hub, loaded: Loaded, e: Event)
    ensures React(h, loaded, e).0.gone == h.gone
  {
  }

  lemma ReactMap(h: Hub, loaded: Loaded, e: Event)
    requires Unique(h.book) && FreshSid(h, e)
    ensures Unique(React(h, loaded, e).0.book)
    ensures AsMap(React(h, loaded, e).0.book) == MapAfter(h, loaded, e)
  {
    hide Unique, AsMap, OnInitiate, OnNewOutgoing, OnAccept, OnTerminate, OnSentAll;
    match e
    case Initiate(_, _, _, _, _, _) => InitiateMap(h, loaded, e);
    case NewOutgoing(_, _, _, _, _, _) => NewOutgoingMap(h, loaded, e);
    case Accept(_, _, _, _) => AcceptMap(h, loaded, e);
    case SessionInfo(_, _, _) =>
    case Terminate(_, _) => TerminateMap(h, loaded, e);
    case SentAll(_, _, _) => SentAllMap(h, loaded, e);
    case BlockAcked(_, _, _) =>
    case Packet(_, _, _) =>
  }

  lemma {:induction false} KeysStayDistinct(h: Hub, loaded: Loaded, events: seq<Event>)
    requires Unique(h.book) && FreshFrom(h, loaded, events)
    ensures Unique(Process(h, loaded, events).book)
  {
    if events == [] {
    } else {
      hide Unique, FreshFrom, FreshSid, Handle;
      var prior, last := events[..|events| - 1], events[|events| - 1];
      assert events == prior + [last];
      FreshSnoc(h, loaded, prior, last);
      KeysStayDistinct(h, loaded, prior);
      HandleMap(Process(h, loaded, prior), loaded, last);
    }
  }

  lemma {:induction false} ProcessSplit(h: Hub, loaded: Loaded, a: seq<Event>, b: seq<Event>)
    ensures Process(h, loaded, a + b) == Process(Process(h, loaded, a), loaded, b)
  {
    if b == [] {
      assert a + b == a;
    } else {
      hide Handle;
      assert (a + b)[..|a + b| - 1] == a + b[..|b| - 1];
      ProcessSplit(h, loaded, a, b[..|b| - 1]);
    }
  }

  lemma FreshSplit(h: Hub, loaded: Loaded, a: seq<Event>, b: seq<Event>)
    requires FreshFrom(h, loaded, a + b)
    ensures FreshFrom(h, loaded, a) && FreshFrom(Process(h, loaded, a), loaded, b)
  {
    hide Handle, FreshSid;
    var all := a + b;
    assert forall i :: 0 <= i < |a| ==> all[..i] == a[..i] && all[i] == a[i];
    forall i | 0 <= i < |b|
      ensures FreshSid(Process(Process(h, loaded, a), loaded, b[..i]), b[i])
    {
      assert all[..|a| + i] == a + b[..i] && all[|a| + i] == b[i];
      ProcessSplit(h, loaded, a, b[..i]);
    }
  }

  lemma EmptyIsUnique()
    ensures Unique(EMPTY_HUB.book)
  {
  }

  /** Over every run of events no two listed sessions share identifier and peer, the peer taken up to ASCII case:
      the list is a map, and every search gives the only session there is, or none. */
  lemma RegistryIsMap(loaded: Loaded, events: seq<Event>, sid: string, from: string)
    requires FreshSids(loaded, events)
    ensures var book := Run(loaded, events).book;
            var r, k := Find(book, sid, from), Key(sid, Fold(from));
            && Unique(book)
            && (r.Some? <==> k in AsMap(book)) && (r.Some? ==> AsMap(book)[k] == book[r.value])
  {
    KeysStayDistinct(EMPTY_HUB, loaded, events);
    FindIsLookup(Run(loaded, events).book, sid, from);
  }

  // ---------------------------------------------------------------- session-initiate

  /** The session an initiate is meant to add: all acceptable offers, or none if there are none. */
  ghost function Intended(h: Hub, loaded: Loaded, e: Event): Book
    requires e.Initiate?
  {
    var contents := Described(e.offers, loaded, h.next);
    if contents == [] then h.book else h.book + [Session(e.sid, INCOMING, e.from, e.to, contents)]
  }

  /** A proper initiate is survived and leaves behind exactly the acceptable offers, in order, pending, each with
      its own halves, if and only if no name clashes and the error variable is not used again after its error has
      been freed. An initiate that is not proper changes nothing and is answered by one refusal. */
  lemma InitiateStores(h: Hub, loaded: Loaded, e: Event)
    requires e.Initiate? && !h.gone
    ensures var (g, effects) := Handle(h, loaded, e);
            if Proper(h, e) then
              && effects[0] == Ack
              && (!g.gone && g.book == Intended(h, loaded, e) <==>
                    NoClash(e.offers, loaded) && !ReusesError(e.offers, loaded))
            else g == h && |effects| == 1 && effects[0].Refuse?
  {
    hide Handle, NoClash, ReusesError, AddAll, Described, Proper;
    var contents := AddAll(e.offers, loaded, h.next);
    if Proper(h, e) {
      ProperInitiate(h, loaded, e);
      StoredAsDescribedIff(e.offers, loaded, h.next);
      DescribedAreComplete(e.offers, loaded, h.next);
      AlignedLengths(e.offers, loaded, h.next);
      var book := h.book + [Session(e.sid, INCOMING, e.from, e.to, contents)];
      assert book[|h.book|].contents == contents;
    } else {
      RefusedInitiate(h, loaded, e);
    }
  }

  lemma RefusedInitiate(h: Hub, loaded: Loaded, e: Event)
    requires e.Initiate? && !h.gone && !Proper(h, e)
    ensures var (g, effects) := Handle(h, loaded, e);
            g == h && |effects| == 1 && effects[0].Refuse?
  {
    hide AddAll, ReusesError;
  }

  lemma ProperInitiate(h: Hub, loaded: Loaded, e: Event)
    requires e.Initiate? && !h.gone && Proper(h, e)
    ensures var (g, effects) := Handle(h, loaded, e);
            var contents := AddAll(e.offers, loaded, h.next);
            && |effects| == 2 && effects[0] == Ack
            && (!g.gone <==> !ReusesError(e.offers, loaded) && forall c :: c in contents ==> Complete(c))
            && (!g.gone ==>
                  g.book == if contents == [] then h.book
                            else h.book + [Session(e.sid, INCOMING, e.from, e.to, contents)])
  {
    hide AddAll, ReusesError, NewIbbs, NewFiles, NewSizes;
  }

  lemma AlignedLengths(offers: seq<Offer>, loaded: Loaded, base: Address)
    ensures |AddAll(offers, loaded, base)| == |Described(offers, loaded, base)|
  {
    AddAllAligned(offers, loaded, base);
  }

  lemma {:induction false} DescribedAreComplete(offers: seq<Offer>, loaded: Loaded, base: Address)
    ensures forall c :: c in Described(offers, loaded, base) ==> Complete(c)
  {
    if offers == [] {
    } else {
      DescribedAreComplete(offers[..|offers| - 1], loaded, base);
    }
  }

  /** Something is meant to be added exactly when something acceptable is offered. */
  lemma {:induction false} DescribedEmptyIff(offers: seq<Offer>, loaded: Loaded, base: Address)
    ensures Described(offers, loaded, base) != [] <==>
              exists i :: 0 <= i < |offers| && Accepted(offers[i], loaded)
  {
    if offers == [] {
    } else {
      var n := |offers| - 1;
      DescribedEmptyIff(offers[..n], loaded, base);
      assert forall i :: 0 <= i < n ==> offers[..n][i] == offers[i];
      if i :| 0 <= i < |offers| && Accepted(offers[i], loaded) && i < n {
        assert Accepted(offers[..n][i], loaded);
      }
    }
  }

  // ---------------------------------------------------------------- the life of a content

  /** A listed content keeps its halves and moves at most from pending to active. */
  predicate Evolved(before: Content, after: Content) {
    after == before || after == before.(state := ACTIVE)
  }

  ghost predicate Listed(book: Book, c: Content) {
    exists i :: 0 <= i < |book| && c in book[i].contents
  }

  ghost predicate EvolvedFrom(book: Book, after: Content) {
    exists c :: Listed(book, c) && Evolved(c, after)
  }

  /** Addresses below `next` are in use; nothing listed has ended. */
  ghost predicate Alive(h: Hub) {
    forall c :: Listed(h.book, c) ==> c.at < h.next && c.state != ENDED
  }

  lemma {:induction false} AcceptEvolves(a: Accepting, items: seq<AcceptItem>, k: nat)
    requires k < |a.contents|
    ensures Evolved(a.contents[k], AcceptAll(a, items).contents[k])
  {
    if items == [] {
    } else {
      AcceptEvolves(a, items[..|items| - 1], k);
    }
  }

  lemma AcceptLife(h: Hub, e: Event, c: Content)
    requires e.Accept? && Listed(OnAccept(h, e).0.book, c)
    ensures EvolvedFrom(h.book, c)
  {
    var after := OnAccept(h, e).0.book;
    var i :| 0 <= i < |after| && c in after[i].contents;
    var k :| 0 <= k < |after[i].contents| && after[i].contents[k] == c;
    if after != h.book {
      AcceptEvolves(Accepting(h.book[i].contents, h.sizes, false), e.items, k);
    }
    assert h.book[i].contents[k] in h.book[i].contents;
    assert Listed(h.book, h.book[i].contents[k]) && Evolved(h.book[i].contents[k], c);
  }

  lemma WithoutLife(book: Book, i: nat, c: Content)
    requires i < |book| && Listed(Without(book, i), c)
    ensures Listed(book, c)
  {
    var j :| 0 <= j < |Without(book, i)| && c in Without(book, i)[j].contents;
    assert Without(book, i)[j] == book[if j < i then j else j + 1];
  }

  lemma SentAllLife(h: Hub, e: Event, c: Content)
    requires e.SentAll? && Listed(OnSentAll(h, e).0.book, c)
    ensures Listed(h.book, c)
  {
    var i := Find(h.book, e.sid, e.from);
    if i.Some? {
      var contents := h.book[i.value].contents;
      var j := FindContent(contents, e.name);
      if j.Some? && |contents| == 1 {
        WithoutLife(h.book, i.value, c);
      } else if j.Some? {
        var after := OnSentAll(h, e).0.book;
        var k :| 0 <= k < |after| && c in after[k].contents;
        assert c in h.book[k].contents;
      }
    }
  }

  lemma {:induction false} StoredArePending(offers: seq<Offer>, loaded: Loaded, base: Address, c: Content)
    requires c in AddAll(offers, loaded, base)
    ensures c.state == PENDING && base <= c.at < base + 3 * |offers|
  {
    hide AddOffer;
    var n := |offers| - 1;
    var prior, after := AddAll(offers[..n], loaded, base), AddAll(offers, loaded, base);
    AddOfferShape(prior, offers[n], loaded, base + 3 * n);
    var k :| 0 <= k < |after| && after[k] == c;
    if k < |prior| {
      StoredArePending(offers[..n], loaded, base, prior[k]);
      assert SameButHalves(prior[k], c, base + 3 * n);
    }
  }

  /** A content the event brings with it, at a new address, with its application half. */
  ghost predicate Brought(h: Hub, loaded: Loaded, e: Event, c: Content) {
    match e
    case Initiate(_, _, _, _, _, offers) =>
      c in AddAll(offers, loaded, h.next) && Handle(h, loaded, e).0.next == h.next + 3 * |offers| && Complete(c)
    case NewOutgoing(_, _, _, name, _, kind) =>
      c == OutgoingContent(h.next, name, kind) && Handle(h, loaded, e).0.next == h.next + 3
    case _ => false
  }

  lemma NextGrows(h: Hub, loaded: Loaded, e: Event)
    ensures Handle(h, loaded, e).0.next >= h.next
  {
  }

  /** A listed content was listed before, or the event brings it. */
  lemma OriginOf(h: Hub, loaded: Loaded, e: Event, c: Content)
    requires Listed(Handle(h, loaded, e).0.book, c)
    ensures EvolvedFrom(h.book, c) || Brought(h, loaded, e, c)
  {
    hide AddAll, AcceptAll, NewIbbs, NewFiles, NewSizes, StopFiles, SetHashes, Without, Stops, OnAccept, OnSentAll,
         UpToBare, ReusesError;
    if Listed(h.book, c) {
      assert Evolved(c, c);
    } else if e.Accept? {
      AcceptLife(h, e, c);
    } else if e.Terminate? {
      WithoutLife(h.book, Find(h.book, e.sid, e.from).value, c);
    } else if e.SentAll? {
      SentAllLife(h, e, c);
    } else {
      var after := Handle(h, loaded, e).0.book;
      var i :| 0 <= i < |after| && c in after[i].contents;
      assert i == |h.book|;
    }
  }

  /** After every event each listed content is either new and pending, or the one listed before at that address,
      with the same halves, that has at most become active. Nothing that has ended is ever listed. */
  lemma ContentLife(h: Hub, loaded: Loaded, e: Event, c: Content)
    requires Alive(h) && Listed(Handle(h, loaded, e).0.book, c)
    ensures if c.at >= h.next then c.state == PENDING && c.at < Handle(h, loaded, e).0.next
            else EvolvedFrom(h.book, c)
    ensures c.state != ENDED && c.at < Handle(h, loaded, e).0.next
  {
    hide AddAll, Listed, Handle;
    OriginOf(h, loaded, e, c);
    NextGrows(h, loaded, e);
    if EvolvedFrom(h.book, c) {
    } else if e.Initiate? {
      StoredArePending(e.offers, loaded, h.next, c);
    }
  }

  lemma {:induction false} RunIsAlive(loaded: Loaded, events: seq<Event>)
    ensures Alive(Run(loaded, events))
  {
    if events == [] {
    } else {
      var n := |events| - 1;
      var h := Run(loaded, events[..n]);
      RunIsAlive(loaded, events[..n]);
      forall c | Listed(Run(loaded, events).book, c)
        ensures c.at < Run(loaded, events).next && c.state != ENDED
      {
        ContentLife(h, loaded, events[n], c);
      }
    }
  }

  ghost predicate AppsSet(book: Book) {
    forall c :: Listed(book, c) ==> c.app.Some?
  }

  lemma AppsStaySet(h: Hub, loaded: Loaded, e: Event, c: Content)
    requires AppsSet(h.book) && Listed(Handle(h, loaded, e).0.book, c)
    ensures c.app.Some?
  {
    hide AddAll, Handle;
    OriginOf(h, loaded, e, c);
  }

  /** Over every run every listed content has its application half, so that the handlers of session-info,
      session-terminate and packets find one: an initiate that leaves one without is not survived. */
  lemma {:induction false} RunIsWhole(loaded: Loaded, events: seq<Event>)
    ensures AppsSet(Run(loaded, events).book)
  {
    if events == [] {
    } else {
      var n := |events| - 1;
      RunIsWhole(loaded, events[..n]);
      forall c | Listed(Run(loaded, events).book, c)
        ensures c.app.Some?
      {
        AppsStaySet(Run(loaded, events[..n]), loaded, events[n], c);
      }
    }
  }

  lemma AppsOfSession(loaded: Loaded, events: seq<Event>, i: nat)
    requires i < |Run(loaded, events).book|
    ensures AppsThere(Run(loaded, events).book[i].contents)
  {
    hide Run;
    RunIsWhole(loaded, events);
    assert forall c :: c in Run(loaded, events).book[i].contents ==> Listed(Run(loaded, events).book, c);
  }

  // ---------------------------------------------------------------- session-terminate

  /** The files a list of contents stands for, in order. */
  function FilesOf(contents: seq<Content>): seq<Address> {
    if contents == [] then []
    else FilesOf(contents[..|contents| - 1])
         + if contents[|contents| - 1].app.Some? then [contents[|contents| - 1].app.value] else []
  }

  lemma {:induction false} StopsAre(contents: seq<Content>)
    requires AppsThere(contents)
    ensures UpToBare(contents) == contents
    ensures |Stops(contents)| == |FilesOf(contents)|
    ensures forall i :: 0 <= i < |FilesOf(contents)| ==> Stops(contents)[i] == Stop(FilesOf(contents)[i])
  {
    assert forall k :: 0 <= k < |contents| ==> contents[k].app.Some?;
    if contents == [] {
    } else {
      StopsAre(contents[..|contents| - 1]);
    }
  }

  /** After every run, a terminate from the peer removes the session however the peer spells its name. Every content
      is stopped, once and in order, if and only if the name is spelled as stored or there was nothing to stop. */
  lemma TerminateStopsAllIff(loaded: Loaded, events: seq<Event>, e: Event)
    requires FreshSids(loaded, events) && !Run(loaded, events).gone && e.Terminate?
    requires Find(Run(loaded, events).book, e.sid, e.from).Some?
    ensures var h := Run(loaded, events);
            var s := h.book[Find(h.book, e.sid, e.from).value];
            var (g, effects) := Handle(h, loaded, e);
            && !g.gone && Find(g.book, e.sid, e.from).None?
            && effects[|effects| - 1] == Ack
            && ((|effects| == |FilesOf(s.contents)| + 1
                 && forall i :: 0 <= i < |FilesOf(s.contents)| ==> effects[i] == Stop(FilesOf(s.contents)[i]))
                <==> e.from == Peer(s) || FilesOf(s.contents) == [])
  {
    hide Run, Unique, FreshSids, Find, StopFiles, Stops, UpToBare, FilesOf, AsMap, Without, Fatal, AppsThere,
         Handle, AppsSet;
    var h := Run(loaded, events);
    var i := Find(h.book, e.sid, e.from);
    var s := h.book[i.value];
    RegistryIsMap(loaded, events, e.sid, e.from);
    TerminateMap(h, loaded, e);
    RunIsWhole(loaded, events);
    OthersAreSurvived(h, loaded, e);
    HandleIs(h, loaded, e);
    AppsOfSession(loaded, events, i.value);
    StopsAre(s.contents);
  }

  // ---------------------------------------------------------------- session-info

  ghost predicate HasFile(contents: seq<Content>, a: Address) {
    exists c :: c in contents && c.app == Some(a)
  }

  /** After every run, the reply to a payload is the wrong way round: a payload is acknowledged exactly when some
      content could not understand it, and then nothing changes; the digest a file is given is answered by a
      refusal. */
  lemma InfoReplyIsInverted(loaded: Loaded, events: seq<Event>, e: Event, a: Address)
    requires e.SessionInfo? && e.info.Some? && !Run(loaded, events).gone
    requires var h := Run(loaded, events);
             var i := Find(h.book, e.sid, e.from);
             a in h.files && i.Some? && HasFile(h.book[i.value].contents, a)
    ensures var h := Run(loaded, events);
            var (g, effects) := Handle(h, loaded, e);
            if IsHash(e.info.value) then
              && effects == [Refuse("feature-not-implemented")]
              && a in g.files && g.files[a].sink.hash == Some(e.info.value.value)
            else effects == [Ack] && g == h
  {
    hide Run, SetHashes;
    var h := Run(loaded, events);
    var i := Find(h.book, e.sid, e.from).value;
    AppsOfSession(loaded, events, i);
    SetHashesAt(h.files, h.book[i].contents, e.info.value.value, a);
  }

  /** The digest reaches the file of every content of the session, and no other file. */
  lemma HashReachesSession(h: Hub, e: Event, a: Address)
    requires e.SessionInfo? && e.info.Some? && IsHash(e.info.value)
    requires Find(h.book, e.sid, e.from).Some? && a in h.files
    ensures var s := h.book[Find(h.book, e.sid, e.from).value];
            var files := OnSessionInfo(h, e).0.files;
            && files.Keys == h.files.Keys
            && files[a] == (if exists c :: c in s.contents && c.app == Some(a)
                            then h.files[a].(sink := h.files[a].sink.(hash := Some(e.info.value.value)))
                            else h.files[a])
  {
    SetHashesAt(h.files, h.book[Find(h.book, e.sid, e.from).value].contents, e.info.value.value, a);
  }

  lemma {:induction false} SetHashesAt(files: map<Address, File>, contents: seq<Content>, value: string, a: Address)
    requires a in files
    ensures SetHashes(files, contents, value).Keys == files.Keys
    ensures SetHashes(files, contents, value)[a] ==
              if exists c :: c in contents && c.app == Some(a)
              then files[a].(sink := files[a].sink.(hash := Some(value))) else files[a]
  {
    if contents == [] {
    } else {
      var prior, last := contents[..|contents| - 1], contents[|contents| - 1];
      SetHashesAt(files, prior, value, a);
      assert contents == prior + [last];
      assert forall c :: c in contents <==> c in prior || c == last;
    }
  }

  // ---------------------------------------------------------------- events that are survived

  lemma AppsOf(book: Book, i: nat)
    requires AppsSet(book) && i < |book|
    ensures AppsThere(book[i].contents) && UpToBare(book[i].contents) == book[i].contents
  {
    assert forall c :: c in book[i].contents ==> Listed(book, c);
    StopsAre(book[i].contents);
  }

  lemma {:induction false} StopsAreHarmless(contents: seq<Content>)
    ensures !Fatal(Stops(contents))
  {
    if contents == [] {
    } else {
      StopsAreHarmless(contents[..|contents| - 1]);
    }
  }

  lemma InfoIsSurvived(h: Hub, e: Event)
    requires AppsSet(h.book) && e.SessionInfo?
    ensures !Fatal(OnSessionInfo(h, e).1)
  {
    hide AppsSet, SetHashes;
    var i := Find(h.book, e.sid, e.from);
    if i.Some? {
      AppsOf(h.book, i.value);
    }
  }

  lemma TerminateIsSurvived(h: Hub, e: Event)
    requires AppsSet(h.book) && e.Terminate?
    ensures !Fatal(OnTerminate(h, e).1)
  {
    hide AppsSet, StopFiles, Stops, UpToBare, Without;
    var i := Find(h.book, e.sid, e.from);
    if i.Some? {
      AppsOf(h.book, i.value);
      StopsAreHarmless(h.book[i.value].contents);
    }
  }

  /** Where every content has its application half, as after every run, most events are survived. */
  lemma OthersAreSurvived(h: Hub, loaded: Loaded, e: Event)
    requires AppsSet(h.book) && !h.gone
    requires e.NewOutgoing? || e.SessionInfo? || e.Terminate? || e.SentAll? || e.Packet?
    ensures !Handle(h, loaded, e).0.gone
  {
    hide AppsSet, OnSessionInfo, OnTerminate, OnNewOutgoing, Without, FindByTransport, WriteBlock;
    HandleIs(h, loaded, e);
    if e.SessionInfo? {
      InfoIsSurvived(h, e);
    } else if e.Terminate? {
      TerminateIsSurvived(h, e);
    }
  }
}
