/**
  Concurrent incoming transfers. What a party knows of one transfer, its file and its session, changes as a small
  machine of its own that sees the events of that session and of that bytestream only, until a session-initiate
  takes the identifier of the bytestream over.
 */
module Isolation {
  import opened Bytes
  import opened Folding
  import opened Sessions
  import opened Offers
  import opened SharedError
  import opened Sink
  import opened Handlers
  import opened HandlerTheorems

  /** Where a transfer lives: its session, its bytestream, and the addresses of its two halves. */
  datatype Place = Place(sid: string, peer: string, ibb: string, file: Address, trans: Address)

  function KeyAt(p: Place): Key {
    Key(p.sid, Fold(p.peer))
  }

  /** A content has both halves of the transfer, in its session, or none. */
  predicate FitsOne(k: Key, c: Content, p: Place) {
    && (c.app == Some(p.file) <==> c.trans == Some(p.trans))
    && (c.app == Some(p.file) ==> k == KeyAt(p))
  }

  ghost predicate Fits(m: map<Key, Session>, p: Place) {
    forall k, c :: k in m && c in m[k].contents ==> FitsOne(k, c, p)
  }

  /** The bytestream leads to the transport, and no other does. */
  ghost predicate OwnStream(ibbs: map<string, Address>, p: Place) {
    && p.ibb in ibbs && ibbs[p.ibb] == p.trans
    && forall t :: t in ibbs && ibbs[t] == p.trans ==> t == p.ibb
  }

  /** The party is there, and the halves of the transfer are where they belong. */
  ghost predicate Settled(h: Hub, p: Place) {
    && !h.gone && Unique(h.book) && p.file < h.next && p.trans < h.next && p.file in h.files
    && Fits(AsMap(h.book), p)
  }

  /** An incoming transfer is in its place when its bytestream leads to it as well. */
  ghost predicate Home(h: Hub, p: Place) {
    Settled(h, p) && OwnStream(h.ibbs, p)
  }

  /** A session-initiate that takes the bytestream over: it is proper, and an acceptable offer in it names that
      bytestream. */
  ghost predicate Diverts(h: Hub, loaded: Loaded, e: Event, p: Place) {
    e.Initiate? && Proper(h, e) && Streams(e.offers, loaded, p.ibb)
  }

  ghost predicate Streams(offers: seq<Offer>, loaded: Loaded, t: string) {
    exists i :: 0 <= i < |offers| && Streamed(offers[i], loaded) && offers[i].trans.value.sid == t
  }

  ghost predicate NeverDiverts(h: Hub, loaded: Loaded, events: seq<Event>, p: Place) {
    forall i :: 0 <= i < |events| ==> !Diverts(Process(h, loaded, events[..i]), loaded, events[i], p)
  }

  // ---------------------------------------------------------------- the transfer seen on its own

  /** The file, and the session as long as the content is listed in it. */
  datatype View = View(file: File, session: Option<Session>)

  ghost function SessionOf(m: map<Key, Session>, p: Place): Option<Session> {
    if KeyAt(p) in m && HasFile(m[KeyAt(p)].contents, p.file) then Some(m[KeyAt(p)]) else None
  }

  ghost function ViewOf(h: Hub, p: Place): View
    requires p.file in h.files
  {
    View(h.files[p.file], SessionOf(AsMap(h.book), p))
  }

  /** Packets of the bytestream, and what the peer or the local user does to the session. */
  predicate OwnEvent(e: Event, p: Place) {
    match e
    case Packet(sid, _, _) => sid == p.ibb
    case Accept(sid, from, _, _) => Key(sid, Fold(from)) == KeyAt(p)
    case SessionInfo(sid, from, _) => Key(sid, Fold(from)) == KeyAt(p)
    case Terminate(sid, from) => Key(sid, Fold(from)) == KeyAt(p)
    case SentAll(sid, from, _) => Key(sid, Fold(from)) == KeyAt(p)
    case _ => false
  }

  function RemoveNamed(contents: seq<Content>, name: string): seq<Content> {
    var j := FindContent(contents, name);
    if j.None? then contents else contents[..j.value] + contents[j.value + 1..]
  }

  /** What an event means for the transfer: nothing when it is not its own, or the content has gone. */
  ghost function ViewStep(v: View, e: Event, p: Place): View {
    if v.session.None? || !OwnEvent(e, p) then v
    else
      var s, f := v.session.value, v.file;
      match e
      case Packet(_, payload, fault) =>
        if f.incoming then v.(file := f.(sink := HandleBlock(f.sink, payload, fault), blocks := f.blocks + 1)) else v
      case SessionInfo(_, _, info) =>
        if info.Some? && IsHash(info.value) then v.(file := f.(sink := f.sink.(hash := Some(info.value.value)))) else v
      case Terminate(_, from) =>
        View(if from == Peer(s) then f.(sink := Stopped(f.sink)) else f, None)
      case Accept(_, _, wellFormed, items) =>
        if wellFormed
        then v.(session := Some(s.(contents := AcceptAll(Accepting(s.contents, map[], false), items).contents))) else v
      case SentAll(_, _, name) =>
        var rest := RemoveNamed(s.contents, name);
        v.(session := if HasFile(rest, p.file) then Some(s.(contents := rest)) else None)
  }

  ghost function ViewAfter(v: View, events: seq<Event>, p: Place): View {
    if events == [] then v else ViewStep(ViewAfter(v, events[..|events| - 1], p), events[|events| - 1], p)
  }

  /** The events without those that are not the transfer's own. */
  function Own(events: seq<Event>, p: Place): seq<Event> {
    if events == [] then []
    else
      Own(events[..|events| - 1], p)
      + if OwnEvent(events[|events| - 1], p) then [events[|events| - 1]] else []
  }

  // ---------------------------------------------------------------- addresses of a session-initiate

  predicate HalvesWithin(c: Content, base: Address, limit: Address) {
    && (c.app.Some? ==> base <= c.app.value < limit)
    && (c.trans.Some? ==> base <= c.trans.value < limit)
  }

  lemma {:induction false} StoredWithin(offers: seq<Offer>, loaded: Loaded, base: Address, c: Content)
    requires c in AddAll(offers, loaded, base)
    ensures HalvesWithin(c, base, base + 3 * |offers|)
  {
    hide AddOffer, HalvesWithin;
    var n := |offers| - 1;
    var prior := AddAll(offers[..n], loaded, base);
    forall p | p in prior
      ensures HalvesWithin(p, base, base + 3 * n)
    {
      StoredWithin(offers[..n], loaded, base, p);
    }
    OfferWithin(prior, offers[n], loaded, base, base + 3 * n, c);
  }

  lemma OfferWithin(contents: seq<Content>, o: Offer, loaded: Loaded, base: Address, at: Address, c: Content)
    requires base <= at && forall p :: p in contents ==> HalvesWithin(p, base, at)
    requires c in AddOffer(contents, o, loaded, at)
    ensures HalvesWithin(c, base, at + 3)
  {
    hide AddOffer;
    var after := AddOffer(contents, o, loaded, at);
    var k :| 0 <= k < |after| && after[k] == c;
    AddOfferShape(contents, o, loaded, at);
    if k < |contents| {
      assert contents[k] in contents && SameButHalves(contents[k], c, at);
    }
  }

  /** A bytestream named by an acceptable offer leads to a new transport, every other one to where it led. */
  lemma {:induction false} NewIbbsIff(ibbs: map<string, Address>, offers: seq<Offer>, loaded: Loaded, base: Address,
                                      t: string)
    ensures var after := NewIbbs(ibbs, offers, loaded, base);
            if Streams(offers, loaded, t) then t in after && after[t] >= base
            else (t in after <==> t in ibbs) && (t in ibbs ==> after[t] == ibbs[t])
  {
    if offers == [] {
    } else {
      var n := |offers| - 1;
      NewIbbsIff(ibbs, offers[..n], loaded, base, t);
      assert forall i :: 0 <= i < n ==> offers[..n][i] == offers[i];
    }
  }

  lemma {:induction false} NewFilesKeep(files: map<Address, File>, offers: seq<Offer>, loaded: Loaded, base: Address,
                                        a: Address)
    requires a in files && a < base
    ensures var after := NewFiles(files, offers, loaded, base);
            a in after && after[a] == files[a]
  {
    if offers == [] {
    } else {
      NewFilesKeep(files, offers[..|offers| - 1], loaded, base, a);
    }
  }

  // ---------------------------------------------------------------- the session list

  lemma {:induction false} InMap(book: Book, k: Key)
    requires k in AsMap(book)
    ensures AsMap(book)[k] in book && KeyOf(AsMap(book)[k]) == k
  {
    var n := |book| - 1;
    if k != KeyOf(book[n]) {
      InMap(book[..n], k);
    }
  }

  lemma FoundInMap(book: Book, t: Address)
    requires Unique(book)
    ensures var r, m := FindByTransport(book, t), AsMap(book);
            && (r.Some? ==> exists k :: k in m && r.value in m[k].contents)
            && (r.None? ==> forall k, c :: k in m && c in m[k].contents ==> c.trans != Some(t))
  {
    var r, m := FindByTransport(book, t), AsMap(book);
    if r.Some? {
      var s :| s in book && r.value in s.contents;
      var i :| 0 <= i < |book| && book[i] == s;
      AsMapAt(book, i);
      assert r.value in m[KeyOf(s)].contents;
    } else {
      forall k, c | k in m && c in m[k].contents
        ensures c.trans != Some(t)
      {
        InMap(book, k);
      }
    }
  }

  lemma FitsPut(m: map<Key, Session>, k: Key, s: Session, p: Place)
    requires Fits(m, p) && forall c :: c in s.contents ==> FitsOne(k, c, p)
    ensures Fits(m[k := s], p)
  {
  }

  lemma {:induction false} AcceptIgnoresSizes(a: Accepting, b: Accepting, items: seq<AcceptItem>)
    requires a.contents == b.contents && a.dead == b.dead
    ensures AcceptAll(a, items).contents == AcceptAll(b, items).contents
    ensures AcceptAll(a, items).dead == AcceptAll(b, items).dead
  {
    if items == [] {
    } else {
      AcceptIgnoresSizes(a, b, items[..|items| - 1]);
    }
  }

  lemma AcceptKeepsHalves(contents: seq<Content>, sizes: map<Address, nat>, items: seq<AcceptItem>, k: Key, p: Place)
    requires forall c :: c in contents ==> FitsOne(k, c, p)
    ensures var after := AcceptAll(Accepting(contents, sizes, false), items).contents;
            && (forall c :: c in after ==> FitsOne(k, c, p))
            && (HasFile(after, p.file) <==> HasFile(contents, p.file))
  {
    hide AcceptAll;
    var a := Accepting(contents, sizes, false);
    var after := AcceptAll(a, items).contents;
    forall i | 0 <= i < |contents|
      ensures after[i].app == contents[i].app && after[i].trans == contents[i].trans
    {
      AcceptEvolves(a, items, i);
    }
    forall c | c in after
      ensures FitsOne(k, c, p)
      ensures exists b :: b in contents && b.app == c.app
    {
      var i :| 0 <= i < |after| && after[i] == c;
      assert contents[i] in contents;
    }
    forall c | c in contents
      ensures exists b :: b in after && b.app == c.app
    {
      var i :| 0 <= i < |contents| && contents[i] == c;
      assert after[i] in after;
    }
  }

  /** What an event does to the sessions keeps every content complete in its place, and shows in the view as the
      step of the single transfer. */
  lemma SessionStep(h: Hub, loaded: Loaded, e: Event, p: Place)
    requires Settled(h, p) && FreshSid(h, e)
    ensures var m := MapAfter(h, loaded, e);
            && Fits(m, p)
            && SessionOf(m, p) == ViewStep(ViewOf(h, p), e, p).session
  {
    hide AddAll, AcceptAll, HandleBlock, Unique, AsMap, Fold, FindContent;
    var m := AsMap(h.book);
    match e
    case Initiate(sid, from, to, _, _, offers) =>
      InitiateSession(h, loaded, e, p);
    case NewOutgoing(sid, from, to, name, _, _) =>
      FindIsLookup(h.book, sid, to);
    case Accept(sid, from, wellFormed, items) =>
      AcceptSession(h, loaded, e, p);
    case SessionInfo(_, _, _) =>
    case Terminate(_, _) =>
    case SentAll(sid, from, name) =>
      SentAllSession(h, loaded, e, p);
    case BlockAcked(_, _, _) =>
    case Packet(_, _, _) =>
  }

  lemma InitiateSession(h: Hub, loaded: Loaded, e: Event, p: Place)
    requires Settled(h, p) && e.Initiate?
    ensures var m := MapAfter(h, loaded, e);
            Fits(m, p) && SessionOf(m, p) == SessionOf(AsMap(h.book), p)
  {
    hide AddAll, Unique, AsMap, Fold;
    FindIsLookup(h.book, e.sid, e.from);
    forall c | c in AddAll(e.offers, loaded, h.next)
      ensures c.app != Some(p.file) && c.trans != Some(p.trans)
    {
      StoredWithin(e.offers, loaded, h.next, c);
    }
  }

  lemma AcceptSession(h: Hub, loaded: Loaded, e: Event, p: Place)
    requires Settled(h, p) && e.Accept?
    ensures var m := MapAfter(h, loaded, e);
            Fits(m, p) && SessionOf(m, p) == ViewStep(ViewOf(h, p), e, p).session
  {
    hide AcceptAll, Unique, AsMap, Fold;
    var m, k := AsMap(h.book), Key(e.sid, Fold(e.from));
    if e.wellFormed && k in m {
      var a, b := Accepting(m[k].contents, h.sizes, false), Accepting(m[k].contents, map[], false);
      AcceptKeepsHalves(m[k].contents, h.sizes, e.items, k, p);
      AcceptIgnoresSizes(a, b, e.items);
      FitsPut(m, k, m[k].(contents := AcceptAll(a, e.items).contents), p);
    }
  }

  lemma SentAllSession(h: Hub, loaded: Loaded, e: Event, p: Place)
    requires Settled(h, p) && e.SentAll?
    ensures var m := MapAfter(h, loaded, e);
            Fits(m, p) && SessionOf(m, p) == ViewStep(ViewOf(h, p), e, p).session
  {
    hide Unique, AsMap, Fold;
    var m, k := AsMap(h.book), Key(e.sid, Fold(e.from));
    if k in m {
      var contents := m[k].contents;
      var rest := RemoveNamed(contents, e.name);
      assert forall c :: c in rest ==> c in contents;
      if FindContent(contents, e.name).Some? && |contents| != 1 {
        FitsPut(m, k, m[k].(contents := rest), p);
      }
    }
  }

  // ---------------------------------------------------------------- the table of bytestreams

  lemma InitiateStream(h: Hub, loaded: Loaded, offers: seq<Offer>, p: Place)
    requires p.trans < h.next && OwnStream(h.ibbs, p)
    ensures OwnStream(NewIbbs(h.ibbs, offers, loaded, h.next), p) <==> !Streams(offers, loaded, p.ibb)
  {
    hide NewIbbs, Streams;
    var after := NewIbbs(h.ibbs, offers, loaded, h.next);
    NewIbbsIff(h.ibbs, offers, loaded, h.next, p.ibb);
    forall t | t in after && after[t] == p.trans
      ensures t in h.ibbs && h.ibbs[t] == p.trans
    {
      NewIbbsIff(h.ibbs, offers, loaded, h.next, t);
    }
  }

  /** An event leaves the bytestream where it was exactly when it does not divert it. */
  lemma StreamStep(h: Hub, loaded: Loaded, e: Event, p: Place)
    requires p.trans < h.next && OwnStream(h.ibbs, p)
    ensures OwnStream(React(h, loaded, e).0.ibbs, p) <==> !Diverts(h, loaded, e, p)
  {
    hide Meant, AddAll, AcceptAll, NewIbbs, NewFiles, NewSizes, Streams, SetHashes, StopFiles, Stops, UpToBare,
         ReusesError;
    if e.Initiate? && Proper(h, e) {
      assert React(h, loaded, e).0.ibbs == NewIbbs(h.ibbs, e.offers, loaded, h.next);
      InitiateStream(h, loaded, e.offers, p);
    } else {
      assert React(h, loaded, e).0.ibbs == h.ibbs;
    }
  }

  // ---------------------------------------------------------------- the files

  lemma {:induction false} StopFilesAt(files: map<Address, File>, contents: seq<Content>, a: Address)
    requires a in files
    ensures a in StopFiles(files, contents)
    ensures StopFiles(files, contents)[a] ==
              if HasFile(contents, a) then files[a].(sink := Stopped(files[a].sink)) else files[a]
  {
    if contents == [] {
    } else {
      var prior, last := contents[..|contents| - 1], contents[|contents| - 1];
      StopFilesAt(files, prior, a);
      assert contents == prior + [last];
      assert forall c :: c in contents <==> c in prior || c == last;
    }
  }

  lemma PacketFile(h: Hub, e: Event, p: Place)
    requires Home(h, p) && e.Packet?
    ensures var files := OnPacket(h, e).0.files;
            p.file in files && files[p.file] == ViewStep(ViewOf(h, p), e, p).file
  {
    hide Meant, AsMap, Unique, HandleBlock, Fold;
    var m := AsMap(h.book);
    if e.sid in h.ibbs {
      FoundInMap(h.book, h.ibbs[e.sid]);
      var c := FindByTransport(h.book, h.ibbs[e.sid]);
      if c.Some? {
        var k :| k in m && c.value in m[k].contents;
        assert FitsOne(k, c.value, p);
        assert e.sid == p.ibb ==> HasFile(m[KeyAt(p)].contents, p.file);
      }
    }
  }

  lemma SessionInfoFile(h: Hub, e: Event, p: Place)
    requires Home(h, p) && e.SessionInfo?
    ensures var files := OnSessionInfo(h, e).0.files;
            p.file in files && files[p.file] == ViewStep(ViewOf(h, p), e, p).file
  {
    hide AsMap, Unique, Fold, SetHashes;
    FindIsLookup(h.book, e.sid, e.from);
    var i := Find(h.book, e.sid, e.from);
    if i.Some? && e.info.Some? {
      SetHashesAt(h.files, h.book[i.value].contents, e.info.value.value, p.file);
    }
  }

  lemma TerminateFile(h: Hub, e: Event, p: Place)
    requires Home(h, p) && e.Terminate?
    ensures var files := OnTerminate(h, e).0.files;
            p.file in files && files[p.file] == ViewStep(ViewOf(h, p), e, p).file
  {
    hide AsMap, Unique, Fold, StopFiles, Stops, Without, UpToBare;
    FindIsLookup(h.book, e.sid, e.from);
    var i := Find(h.book, e.sid, e.from);
    if i.Some? {
      StopFilesAt(h.files, h.book[i.value].contents, p.file);
    }
  }

  lemma FileStep(h: Hub, loaded: Loaded, e: Event, p: Place)
    requires Home(h, p)
    ensures var files := React(h, loaded, e).0.files;
            p.file in files && files[p.file] == ViewStep(ViewOf(h, p), e, p).file
  {
    hide Meant, AsMap, Unique, HandleBlock, Fold, AddAll, AcceptAll, NewFiles, OnSessionInfo, OnTerminate, OnPacket,
         Fits, OwnStream, ReusesError;
    match e
    case Initiate(_, _, _, _, _, _) =>
      NewFilesKeep(h.files, e.offers, loaded, h.next, p.file);
    case NewOutgoing(_, _, _, _, _, _) =>
    case Accept(_, _, _, _) =>
    case SessionInfo(_, _, _) =>
      SessionInfoFile(h, e, p);
    case Terminate(_, _) =>
      TerminateFile(h, e, p);
    case SentAll(_, _, _) =>
    case BlockAcked(_, _, _) =>
    case Packet(_, _, _) =>
      PacketFile(h, e, p);
  }

  // ---------------------------------------------------------------- one event, and all of them

  /** Every event that the party survives does to what can be seen of the transfer what it does to a transfer that is
      alone; and the transfer stays in its place if and only if the event does not divert its bytestream. */
  lemma OneStep(h: Hub, loaded: Loaded, e: Event, p: Place)
    requires Home(h, p) && FreshSid(h, e)
    ensures var g := Handle(h, loaded, e).0;
            && (Home(g, p) <==> !Diverts(h, loaded, e, p) && !g.gone)
            && p.file in g.files
            && (!g.gone ==> ViewOf(g, p) == ViewStep(ViewOf(h, p), e, p))
  {
    hide *;
    HomeIs(h, p);
    HandleIs(h, loaded, e);
    HandleMap(h, loaded, e);
    SessionStep(h, loaded, e, p);
    StreamStep(h, loaded, e, p);
    FileStep(h, loaded, e, p);
    NextGrows(h, loaded, e);
    HomeIs(Handle(h, loaded, e).0, p);
    ViewIs(h, p);
    ViewIs(Handle(h, loaded, e).0, p);
  }

  lemma HomeIs(h: Hub, p: Place)
    ensures Home(h, p) <==> Settled(h, p) && OwnStream(h.ibbs, p)
    ensures Settled(h, p) <==>
              && !h.gone && Unique(h.book) && p.file < h.next && p.trans < h.next && p.file in h.files
              && Fits(AsMap(h.book), p)
  {
  }

  lemma ViewIs(h: Hub, p: Place)
    requires p.file in h.files
    ensures ViewOf(h, p) == View(h.files[p.file], SessionOf(AsMap(h.book), p))
  {
  }

  lemma NeverSnoc(h: Hub, loaded: Loaded, prior: seq<Event>, last: Event, p: Place)
    requires NeverDiverts(h, loaded, prior + [last], p)
    ensures NeverDiverts(h, loaded, prior, p) && !Diverts(Process(h, loaded, prior), loaded, last, p)
  {
    NeverSnocIff(h, loaded, prior, last, p);
  }

  /** Over every run of events of any kind that the party survives, its many transfers behave each like one that is
      alone. */
  lemma {:induction false} EachIsAlone(h: Hub, loaded: Loaded, events: seq<Event>, p: Place)
    requires Home(h, p) && FreshFrom(h, loaded, events) && NeverDiverts(h, loaded, events, p)
    requires !Process(h, loaded, events).gone
    ensures var g := Process(h, loaded, events);
            && Home(g, p) && p.file in g.files
            && p.file in h.files && ViewOf(g, p) == ViewAfter(ViewOf(h, p), events, p)
  {
    if events == [] {
      assert p.file in h.files;
    } else {
      var prior, last := events[..|events| - 1], events[|events| - 1];
      HandleIs(Process(h, loaded, prior), loaded, last);
      hide Handle, Home, FreshFrom, FreshSid, NeverDiverts, Diverts, ViewOf, ViewStep;
      assert events == prior + [last];
      FreshSnoc(h, loaded, prior, last);
      NeverSnoc(h, loaded, prior, last, p);
      EachIsAlone(h, loaded, prior, p);
      OneStep(Process(h, loaded, prior), loaded, last, p);
    }
  }

  /** The bytestream leads elsewhere. */
  ghost predicate Lost(h: Hub, p: Place) {
    p.trans < h.next && (p.ibb in h.ibbs ==> h.ibbs[p.ibb] != p.trans)
  }

  lemma LostStays(h: Hub, loaded: Loaded, e: Event, p: Place)
    requires Lost(h, p)
    ensures Lost(Handle(h, loaded, e).0, p)
  {
    hide AddAll, AcceptAll, NewIbbs, NewFiles, NewSizes, Streams, SetHashes, StopFiles, Stops, UpToBare, ReusesError;
    NextGrows(h, loaded, e);
    if e.Initiate? {
      NewIbbsIff(h.ibbs, e.offers, loaded, h.next, p.ibb);
    }
  }

  lemma DivertsLoses(h: Hub, loaded: Loaded, e: Event, p: Place)
    requires Home(h, p) && Diverts(h, loaded, e, p) && !Handle(h, loaded, e).0.gone
    ensures Lost(Handle(h, loaded, e).0, p)
  {
    hide AddAll, NewIbbs, NewFiles, NewSizes, Streams, ReusesError, Unique, Fits;
    NextGrows(h, loaded, e);
    NewIbbsIff(h.ibbs, e.offers, loaded, h.next, p.ibb);
  }

  lemma NeverSnocIff(h: Hub, loaded: Loaded, prior: seq<Event>, last: Event, p: Place)
    ensures NeverDiverts(h, loaded, prior + [last], p) <==>
              NeverDiverts(h, loaded, prior, p) && !Diverts(Process(h, loaded, prior), loaded, last, p)
  {
    hide Process, Diverts;
    var all := prior + [last];
    assert all[..|prior|] == prior && all[|prior|] == last;
    assert forall i :: 0 <= i < |prior| ==> all[..i] == prior[..i] && all[i] == prior[i];
  }

  lemma {:induction false} PlaceAfter(h: Hub, loaded: Loaded, events: seq<Event>, p: Place)
    requires Home(h, p) && FreshFrom(h, loaded, events)
    ensures var g := Process(h, loaded, events);
            !g.gone ==> if NeverDiverts(h, loaded, events, p) then Home(g, p) else Lost(g, p)
  {
    if events == [] {
    } else {
      hide Handle, Home, FreshFrom, FreshSid, NeverDiverts, Diverts, Lost;
      var prior, last := events[..|events| - 1], events[|events| - 1];
      var g := Process(h, loaded, prior);
      assert events == prior + [last];
      FreshSnoc(h, loaded, prior, last);
      NeverSnocIff(h, loaded, prior, last, p);
      PlaceAfter(h, loaded, prior, p);
      HandleIs(g, loaded, last);
      if Handle(g, loaded, last).0.gone {
      } else if NeverDiverts(h, loaded, prior, p) {
        OneStep(g, loaded, last, p);
        if Diverts(g, loaded, last, p) {
          DivertsLoses(g, loaded, last, p);
        }
      } else {
        LostStays(g, loaded, last, p);
      }
    }
  }

  /** Over every run: at its end the transfer is in its place if and only if the party is still there and no event of
      the run has diverted the bytestream; a bytestream that was diverted never comes back. */
  lemma HomeIff(h: Hub, loaded: Loaded, events: seq<Event>, p: Place)
    requires Home(h, p) && FreshFrom(h, loaded, events)
    ensures var g := Process(h, loaded, events);
            Home(g, p) <==> !g.gone && NeverDiverts(h, loaded, events, p)
  {
    hide FreshFrom, NeverDiverts, Process, Fits, Unique;
    PlaceAfter(h, loaded, events, p);
  }

  lemma {:induction false} OwnDecides(v: View, events: seq<Event>, p: Place)
    ensures ViewAfter(v, events, p) == ViewAfter(v, Own(events, p), p)
  {
    if events == [] {
    } else {
      hide OwnEvent;
      var prior, last := events[..|events| - 1], events[|events| - 1];
      OwnDecides(v, prior, p);
      if OwnEvent(last, p) {
        assert Own(events, p) == Own(prior, p) + [last];
        assert (Own(prior, p) + [last])[..|Own(prior, p)|] == Own(prior, p);
      } else {
        assert Own(events, p) == Own(prior, p) + [] == Own(prior, p);
      }
    }
  }

  lemma {:induction false} OwnIsOwn(events: seq<Event>, p: Place)
    ensures forall i :: 0 <= i < |Own(events, p)| ==> OwnEvent(Own(events, p)[i], p)
  {
    if events == [] {
    } else {
      OwnIsOwn(events[..|events| - 1], p);
    }
  }

  lemma OwnIsQuiet(h: Hub, loaded: Loaded, events: seq<Event>, p: Place)
    requires forall i :: 0 <= i < |events| ==> OwnEvent(events[i], p)
    ensures FreshFrom(h, loaded, events) && NeverDiverts(h, loaded, events, p)
  {
  }

  /** In state `o` the key of the transfer is listed only as it is in state `g`. */
  ghost predicate Follows(o: Hub, g: Hub, p: Place) {
    var k, m, n := KeyAt(p), AsMap(o.book), AsMap(g.book);
    k in m ==> k in n && m[k] == n[k]
  }

  /** What an event of the transfer itself answers depends on its session only, as far as it is fatal. */
  lemma SameAnswer(o: Hub, g: Hub, loaded: Loaded, e: Event, i: nat, j: nat)
    requires !e.Packet? && (e.Accept? || e.SessionInfo? || e.Terminate? || e.SentAll?)
    requires Find(o.book, e.sid, e.from) == Some(i) && Find(g.book, e.sid, e.from) == Some(j)
    requires o.book[i] == g.book[j] && !o.gone && !g.gone
    ensures Fatal(React(o, loaded, e).1) ==> Fatal(React(g, loaded, e).1)
  {
    hide AcceptAll, SetHashes, StopFiles, Stops, UpToBare, Without, Meant;
    if e.Accept? {
      AcceptIgnoresSizes(Accepting(o.book[i].contents, o.sizes, false),
                         Accepting(g.book[j].contents, g.sizes, false), e.items);
    }
  }

  lemma NothingFatal(o: Hub, loaded: Loaded, e: Event)
    requires e.Packet? || e.Accept? || e.SessionInfo? || e.Terminate? || e.SentAll?
    requires !e.Packet? ==> Find(o.book, e.sid, e.from).None?
    ensures !Fatal(React(o, loaded, e).1)
  {
    hide FindByTransport, Without, Meant;
  }

  /** An event of the transfer itself is not fatal where the session is the same or absent. */
  lemma SameFate(o: Hub, g: Hub, loaded: Loaded, e: Event, p: Place)
    requires OwnEvent(e, p) && Follows(o, g, p) && Unique(o.book) && Unique(g.book) && !o.gone && !g.gone
    requires !Handle(g, loaded, e).0.gone
    ensures !Handle(o, loaded, e).0.gone
  {
    hide AsMap, Unique, Fold, Meant, Handle, React, Fatal;
    HandleIs(o, loaded, e);
    HandleIs(g, loaded, e);
    if e.Packet? {
      NothingFatal(o, loaded, e);
    } else {
      FindIsLookup(o.book, e.sid, e.from);
      FindIsLookup(g.book, e.sid, e.from);
      var i, j := Find(o.book, e.sid, e.from), Find(g.book, e.sid, e.from);
      if i.None? {
        NothingFatal(o, loaded, e);
      } else {
        SameAnswer(o, g, loaded, e, i.value, j.value);
      }
    }
  }

  lemma FollowsOwn(o: Hub, g: Hub, loaded: Loaded, e: Event, p: Place)
    requires OwnEvent(e, p) && Follows(o, g, p) && Unique(o.book) && Unique(g.book) && !o.gone && !g.gone
    requires !Handle(g, loaded, e).0.gone && !Handle(o, loaded, e).0.gone
    ensures Follows(Handle(o, loaded, e).0, Handle(g, loaded, e).0, p)
  {
    hide AsMap, Unique, AcceptAll, Handle, Fold, FindContent, AddAll;
    OwnIsFresh(o, e, p);
    OwnIsFresh(g, e, p);
    HandleMap(o, loaded, e);
    HandleMap(g, loaded, e);
    if e.Accept? && KeyAt(p) in AsMap(o.book) {
      var contents := AsMap(o.book)[KeyAt(p)].contents;
      AcceptIgnoresSizes(Accepting(contents, o.sizes, false), Accepting(contents, g.sizes, false), e.items);
    }
  }

  lemma OwnIsFresh(h: Hub, e: Event, p: Place)
    requires OwnEvent(e, p)
    ensures FreshSid(h, e) && !e.Initiate?
  {
  }

  lemma FollowsForeign(o: Hub, g: Hub, loaded: Loaded, e: Event, p: Place)
    requires !OwnEvent(e, p) && Follows(o, g, p) && Unique(g.book) && FreshSid(g, e)
    ensures Follows(o, Handle(g, loaded, e).0, p)
  {
    hide AsMap, Unique, AcceptAll, Handle, Fold, FindContent, AddAll;
    HandleMap(g, loaded, e);
    if e.Initiate? {
      FindIsLookup(g.book, e.sid, e.from);
    } else if e.NewOutgoing? {
      FindIsLookup(g.book, e.sid, e.to);
    }
  }

  /** If the party survives the run, it survives the transfer's own events by themselves. */
  lemma {:induction false} OwnIsSurvived(h: Hub, loaded: Loaded, events: seq<Event>, p: Place)
    requires Unique(h.book) && FreshFrom(h, loaded, events) && !Process(h, loaded, events).gone
    ensures var g, o := Process(h, loaded, events), Process(h, loaded, Own(events, p));
            !o.gone && Unique(o.book) && Follows(o, g, p)
  {
    if events == [] {
    } else {
      hide Meant, Handle, Unique, FreshFrom, FreshSid, OwnEvent, Follows;
      var prior, last := events[..|events| - 1], events[|events| - 1];
      assert events == prior + [last];
      var g, o := Process(h, loaded, prior), Process(h, loaded, Own(prior, p));
      HandleIs(g, loaded, last);
      FreshSnoc(h, loaded, prior, last);
      KeysStayDistinct(h, loaded, prior);
      OwnIsSurvived(h, loaded, prior, p);
      if OwnEvent(last, p) {
        OwnSnoc(prior, last, p);
        OwnIsFresh(o, last, p);
        SameFate(o, g, loaded, last, p);
        FollowsOwn(o, g, loaded, last, p);
        HandleMap(o, loaded, last);
      } else {
        assert Own(events, p) == Own(prior, p) + [] == Own(prior, p);
        FollowsForeign(o, g, loaded, last, p);
      }
    }
  }

  lemma OwnSnoc(prior: seq<Event>, last: Event, p: Place)
    requires OwnEvent(last, p)
    ensures var own := Own(prior + [last], p);
            own == Own(prior, p) + [last] && own[..|own| - 1] == Own(prior, p)
  {
    assert (prior + [last])[..|prior|] == prior;
  }

  /** Whatever else the peers and this party do, and however it is mixed in, if the party survives it, the file and
      its session end up as if only the transfer's own events had come. */
  lemma OthersDoNotInterfere(h: Hub, loaded: Loaded, events: seq<Event>, p: Place)
    requires Home(h, p) && FreshFrom(h, loaded, events) && NeverDiverts(h, loaded, events, p)
    requires !Process(h, loaded, events).gone
    ensures var g, own := Process(h, loaded, events), Process(h, loaded, Own(events, p));
            Home(g, p) && Home(own, p) && ViewOf(g, p) == ViewOf(own, p)
  {
    hide *;
    HomeIs(h, p);
    EachIsAlone(h, loaded, events, p);
    OwnIsSurvived(h, loaded, events, p);
    OwnIsOwn(events, p);
    OwnIsQuiet(h, loaded, Own(events, p), p);
    EachIsAlone(h, loaded, Own(events, p), p);
    OwnDecides(ViewOf(h, p), events, p);
    HomeIs(Process(h, loaded, events), p);
    HomeIs(Process(h, loaded, Own(events, p)), p);
  }

  // ---------------------------------------------------------------- diversion

  /** After a foreign event that is survived the next packet of the bytestream does to the file what it would have
      done before, if and only if that event did not divert the bytestream; a diverted packet never reaches the
      file. */
  lemma DivertedIff(h: Hub, loaded: Loaded, e: Event, packet: Event, p: Place)
    requires Home(h, p) && FreshSid(h, e) && !OwnEvent(e, p) && packet.Packet? && packet.sid == p.ibb
    requires ViewOf(h, p).session.Some? && h.files[p.file].incoming && !Handle(h, loaded, e).0.gone
    ensures var g := Handle(h, loaded, e).0;
            var late, now := OnPacket(g, packet).0.files, OnPacket(h, packet).0.files;
            && p.file in late && p.file in now
            && (late[p.file] == now[p.file] <==> !Diverts(h, loaded, e, p))
            && (Diverts(h, loaded, e, p) ==> late[p.file] == h.files[p.file])
  {
    hide Handle, OnPacket, Home, Diverts, HandleBlock;
    OneStep(h, loaded, e, p);
    PacketFile(h, packet, p);
    var g := Handle(h, loaded, e).0;
    if Diverts(h, loaded, e, p) {
      DivertedPacket(h, loaded, e, packet, p);
    } else {
      PacketFile(g, packet, p);
    }
  }

  lemma DivertedPacket(h: Hub, loaded: Loaded, e: Event, packet: Event, p: Place)
    requires Home(h, p) && FreshSid(h, e) && packet.Packet? && packet.sid == p.ibb && Diverts(h, loaded, e, p)
    requires !Handle(h, loaded, e).0.gone
    ensures var g := Handle(h, loaded, e).0;
            var late := OnPacket(g, packet).0.files;
            p.file in g.files && p.file in late && late[p.file] == g.files[p.file]
  {
    hide Handle, AsMap, Unique, HandleBlock, FreshSid, ViewOf, ViewStep, SessionOf, Streams, AddAll;
    var g := Handle(h, loaded, e).0;
    var m := AsMap(g.book);
    OneStep(h, loaded, e, p);
    HandleMap(h, loaded, e);
    SessionStep(h, loaded, e, p);
    NewIbbsIff(h.ibbs, e.offers, loaded, h.next, p.ibb);
    assert g.ibbs == NewIbbs(h.ibbs, e.offers, loaded, h.next) by { InitiateIbbs(h, loaded, e); }
    FoundInMap(g.book, g.ibbs[p.ibb]);
    var c := FindByTransport(g.book, g.ibbs[p.ibb]);
    if c.Some? {
      var k :| k in m && c.value in m[k].contents;
      assert FitsOne(k, c.value, p);
    }
  }

  lemma InitiateIbbs(h: Hub, loaded: Loaded, e: Event)
    requires e.Initiate? && Proper(h, e) && !Handle(h, loaded, e).0.gone
    ensures Handle(h, loaded, e).0.ibbs == NewIbbs(h.ibbs, e.offers, loaded, h.next)
  {
  }
}
