/**
  What the handlers answer and what they leave behind, said on the fields of the stanza and of the party: conditions,
  strings and numbers as the protocol has them.
 */
module EventMeaning {
  import opened Bytes
  import opened Folding
  import opened Ibb
  import opened Sessions
  import opened Offers
  import opened SharedError
  import opened Sink
  import opened Handlers
  import opened HandlerTheorems
  import opened NullReads
  import opened Isolation
  import opened Ready
  import S = Sender

  // ---------------------------------------------------------------- session-initiate

  /** Both modules are loaded and can read their halves. */
  predicate Acceptable(o: Offer, loaded: Loaded) {
    o.appNs in loaded.apps && o.transNs in loaded.transports && o.app != None && o.trans != None
  }

  /** The creator is neither of the two parties. */
  predicate StrangeCreator(o: Offer) {
    match o.creator
    case None => false
    case Some(who) => who != "initiator" && who != "responder"
  }

  /** An offer whose modules are loaded comes after another one that failed, or after any if a creator is strange. */
  ghost predicate ErrorTwice(offers: seq<Offer>, loaded: Loaded) {
    exists i, j ::
      && 0 <= i < j < |offers|
      && offers[i].appNs in loaded.apps && offers[i].transNs in loaded.transports
      && offers[j].appNs in loaded.apps && offers[j].transNs in loaded.transports
      && ((exists k :: 0 <= k < |offers| && StrangeCreator(offers[k])) || !Acceptable(offers[i], loaded))
  }

  ghost predicate SameNameTwice(offers: seq<Offer>, loaded: Loaded) {
    exists i, j ::
      && 0 <= i < j < |offers| && offers[i].name == offers[j].name
      && Acceptable(offers[i], loaded) && Acceptable(offers[j], loaded)
  }

  ghost predicate NothingAcceptable(offers: seq<Offer>, loaded: Loaded) {
    forall i :: 0 <= i < |offers| ==> !Acceptable(offers[i], loaded)
  }

  ghost predicate NoneForSession(offers: seq<Offer>) {
    forall i :: 0 <= i < |offers| ==> offers[i].disposition != None && offers[i].disposition != Some("session")
  }

  ghost predicate Known(book: Book, sid: string, from: string) {
    exists i :: 0 <= i < |book| && Meant(book[i], sid, from)
  }

  lemma AcceptableIff(o: Offer, loaded: Loaded)
    ensures Accepted(o, loaded) <==> Acceptable(o, loaded)
    ensures BadCreator(o) <==> StrangeCreator(o)
  {
  }

  lemma ErrorTwiceIff(offers: seq<Offer>, loaded: Loaded)
    ensures ReusesError(offers, loaded) <==> ErrorTwice(offers, loaded)
  {
    hide ReusesError;
    ReusesErrorIff(offers, loaded);
    forall i | 0 <= i < |offers|
      ensures Accepted(offers[i], loaded) <==> Acceptable(offers[i], loaded)
      ensures BadCreator(offers[i]) <==> StrangeCreator(offers[i])
    {
      AcceptableIff(offers[i], loaded);
    }
  }

  lemma TwinsIff(offers: seq<Offer>, loaded: Loaded)
    ensures Twins(offers, loaded) <==> SameNameTwice(offers, loaded)
  {
  }

  lemma FoundIff(book: Book, sid: string, from: string)
    ensures Find(book, sid, from).Some? <==> Known(book, sid, from)
  {
    hide Meant;
  }

  lemma NothingIff(offers: seq<Offer>, loaded: Loaded, base: Address)
    ensures AddAll(offers, loaded, base) == [] <==> NothingAcceptable(offers, loaded)
  {
    AddAllAligned(offers, loaded, base);
    DescribedEmptyIff(offers, loaded, base);
  }

  /** The answer to a session-initiate, case by case. A terminate for want of anything acceptable goes to the address
      the initiate was sent to, which is the party itself. */
  lemma InitiateAnswers(h: Hub, loaded: Loaded, e: Event)
    requires e.Initiate? && !h.gone
    ensures Handle(h, loaded, e).1 ==
              if !e.inRoster then [Refuse("service-unavailable")]
              else if !e.wellFormed || |e.offers| == 0 || NoneForSession(e.offers) then [Refuse("bad-request")]
              else if Known(h.book, e.sid, e.from) then [Refuse("unexpected-request")]
              else if ErrorTwice(e.offers, loaded) then [Ack, FreedRead]
              else if NothingAcceptable(e.offers, loaded) then [Ack, SendTerminate(e.to, "unsupported-applications")]
              else if SameNameTwice(e.offers, loaded) then [Ack, NullRead]
              else [Ack, AskUser]
  {
    hide ReusesError, AddAll, NewFiles, NewIbbs, NewSizes, ErrorTwice, NothingAcceptable, SameNameTwice, Known, Twins;
    ErrorTwiceIff(e.offers, loaded);
    TwinsIff(e.offers, loaded);
    NothingIff(e.offers, loaded, h.next);
    FoundIff(h.book, e.sid, e.from);
    IncompleteIff(h, loaded, e.offers);
  }

  /** The contents of a list of offers: each stands for an acceptable offer, with that offer's name and its own halves,
      pending; every acceptable offer has one; they are in the order of the offers. */
  ghost predicate StandsFor(contents: seq<Content>, offers: seq<Offer>, loaded: Loaded, base: Address) {
    && (forall c :: c in contents ==> exists i :: 0 <= i < |offers| && ContentOf(c, offers[i], loaded, base + 3 * i))
    && (forall i :: 0 <= i < |offers| && Acceptable(offers[i], loaded) ==>
          exists c :: c in contents && ContentOf(c, offers[i], loaded, base + 3 * i))
    && (forall k, l :: 0 <= k < l < |contents| ==> contents[k].at < contents[l].at)
  }

  predicate ContentOf(c: Content, o: Offer, loaded: Loaded, at: Address) {
    && Acceptable(o, loaded)
    && c == Content(at, o.name, PENDING, Some(at + 1), Some(at + 2))
  }

  ghost predicate Ascends(contents: seq<Content>, limit: Address) {
    && (forall k, l :: 0 <= k < l < |contents| ==> contents[k].at < contents[l].at)
    && (forall k :: 0 <= k < |contents| ==> contents[k].at < limit)
  }

  lemma {:induction false} DescribedAscends(offers: seq<Offer>, loaded: Loaded, base: Address)
    ensures Ascends(Described(offers, loaded, base), base + 3 * |offers|)
  {
    if offers == [] {
    } else {
      var n := |offers| - 1;
      DescribedAscends(offers[..n], loaded, base);
      AscendsSnoc(Described(offers[..n], loaded, base), offers[n], loaded, base + 3 * n);
    }
  }

  lemma AscendsSnoc(prior: seq<Content>, o: Offer, loaded: Loaded, at: Address)
    requires Ascends(prior, at)
    ensures Ascends(prior + DescribedOne(o, loaded, at), at + 3)
  {
    hide Accepted;
  }

  lemma DescribedStandsFor(offers: seq<Offer>, loaded: Loaded, base: Address)
    ensures StandsFor(Described(offers, loaded, base), offers, loaded, base)
  {
    hide Described;
    var d := Described(offers, loaded, base);
    DescribedAscends(offers, loaded, base);
    forall c | c in d
      ensures exists i :: 0 <= i < |offers| && ContentOf(c, offers[i], loaded, base + 3 * i)
    {
      DescribedIs(offers, loaded, base, c);
      var i :| 0 <= i < |offers| && Accepted(offers[i], loaded) && c == Whole(offers[i], base + 3 * i);
      assert ContentOf(c, offers[i], loaded, base + 3 * i);
    }
    forall i | 0 <= i < |offers| && Acceptable(offers[i], loaded)
      ensures exists c :: c in d && ContentOf(c, offers[i], loaded, base + 3 * i)
    {
      var c := Whole(offers[i], base + 3 * i);
      assert Accepted(offers[i], loaded);
      DescribedIs(offers, loaded, base, c);
      assert ContentOf(c, offers[i], loaded, base + 3 * i);
    }
  }

  /** An offer that gets as far as its application half has the name of an earlier acceptable one. */
  ghost predicate NameTaken(offers: seq<Offer>, loaded: Loaded) {
    exists i, j ::
      && 0 <= i < j < |offers| && offers[i].name == offers[j].name && Acceptable(offers[i], loaded)
      && offers[j].appNs in loaded.apps && offers[j].transNs in loaded.transports && offers[j].app != None
  }

  lemma NameTakenIff(offers: seq<Offer>, loaded: Loaded)
    ensures NoClash(offers, loaded) <==> !NameTaken(offers, loaded)
  {
    if j :| 0 <= j < |offers| && Clashes(offers, loaded, j) {
      var i :| 0 <= i < j && Accepted(offers[i], loaded) && offers[i].name == offers[j].name;
      assert Acceptable(offers[i], loaded);
    }
    if i, j :| 0 <= i < j < |offers| && offers[i].name == offers[j].name && Acceptable(offers[i], loaded)
               && offers[j].appNs in loaded.apps && offers[j].transNs in loaded.transports && offers[j].app != None {
      assert Accepted(offers[i], loaded) && Clashes(offers, loaded, j);
    }
  }

  /** What a session-initiate that passes the checks leaves in the list: if no name is taken and the error is not used
      again, a session from the sender to the addressee with a content for every acceptable offer, at the end of the
      list, or nothing if there is none. */
  lemma InitiateLeaves(h: Hub, loaded: Loaded, e: Event)
    requires e.Initiate? && !h.gone && e.inRoster && e.wellFormed && |e.offers| > 0 && !NoneForSession(e.offers)
    requires !Known(h.book, e.sid, e.from) && !NameTaken(e.offers, loaded) && !ErrorTwice(e.offers, loaded)
    ensures var book := Handle(h, loaded, e).0.book;
            if NothingAcceptable(e.offers, loaded) then book == h.book
            else
              && |book| == |h.book| + 1 && book[..|h.book|] == h.book
              && var s := book[|h.book|];
              && s.sid == e.sid && s.origin == INCOMING && s.from == e.from && s.to == e.to
              && StandsFor(s.contents, e.offers, loaded, h.next)
  {
    hide ReusesError, Handle, NoClash, Described, StandsFor, ErrorTwice, NameTaken, NothingAcceptable, Known, AddAll;
    ErrorTwiceIff(e.offers, loaded);
    NameTakenIff(e.offers, loaded);
    FoundIff(h.book, e.sid, e.from);
    InitiateStores(h, loaded, e);
    DescribedStandsFor(e.offers, loaded, h.next);
    NothingIff(e.offers, loaded, h.next);
    AlignedLengths(e.offers, loaded, h.next);
  }

  /** The structs behind an acceptable offer: an incoming file of the offered size and digest, nothing of it there yet;
      and for an In-Band Bytestream its block size. */
  lemma InitiateMakes(h: Hub, loaded: Loaded, e: Event, i: nat)
    requires e.Initiate? && !h.gone && Proper(h, e) && !Handle(h, loaded, e).0.gone
    requires i < |e.offers| && Acceptable(e.offers[i], loaded)
    ensures var g, o, a := Handle(h, loaded, e).0, e.offers[i], h.next + 3 * i;
            && a + 1 in g.files
            && g.files[a + 1] == File(true, Sink(o.app.value.size, S.PENDING, 0, None, o.app.value.hash, None), 0)
            && (o.trans.value.IbbOffer? ==> a + 2 in g.sizes && g.sizes[a + 2] == o.trans.value.blocksize)
  {
    hide NewFiles, NewIbbs, NewSizes, AddAll, ReusesError;
    NewFilesAt(h.files, e.offers, loaded, h.next, i);
    if e.offers[i].trans.value.IbbOffer? {
      NewSizesAt(h.sizes, e.offers, loaded, h.next, i);
    }
  }

  lemma {:induction false} NewSizesAt(sizes: map<Address, nat>, offers: seq<Offer>, loaded: Loaded, base: Address,
                                      i: nat)
    requires i < |offers| && Acceptable(offers[i], loaded) && offers[i].trans.value.IbbOffer?
    ensures var after := NewSizes(sizes, offers, loaded, base);
            base + 3 * i + 2 in after && after[base + 3 * i + 2] == offers[i].trans.value.blocksize
  {
    var n := |offers| - 1;
    if i < n {
      NewSizesAt(sizes, offers[..n], loaded, base, i);
    }
  }

  // ---------------------------------------------------------------- session-accept

  /** The item names this content: the first one of its name. */
  ghost predicate Names(item: AcceptItem, contents: seq<Content>, k: nat)
    requires k < |contents|
  {
    item.name == contents[k].name && forall l :: 0 <= l < k ==> contents[l].name != item.name
  }

  lemma NamesIsFound(contents: seq<Content>, item: AcceptItem, k: nat)
    requires k < |contents|
    ensures Names(item, contents, k) <==> FindContent(contents, item.name) == Some(k)
  {
  }

  lemma SameNames(a: seq<Content>, b: seq<Content>, item: AcceptItem, k: nat)
    requires k < |a| == |b| && forall l :: 0 <= l < |a| ==> a[l].name == b[l].name
    ensures Names(item, a, k) <==> Names(item, b, k)
  {
  }

  lemma AcceptNames(a: Accepting, items: seq<AcceptItem>)
    ensures var b := AcceptAll(a, items);
            forall l :: 0 <= l < |a.contents| ==>
              b.contents[l].name == a.contents[l].name && b.contents[l].trans == a.contents[l].trans
  {
    forall l | 0 <= l < |a.contents|
      ensures var b := AcceptAll(a, items);
              b.contents[l].name == a.contents[l].name && b.contents[l].trans == a.contents[l].trans
    {
      AcceptEvolves(a, items, l);
    }
  }

  ghost predicate SomeNames(items: seq<AcceptItem>, contents: seq<Content>, k: nat)
    requires k < |contents|
  {
    exists j :: 0 <= j < |items| && Names(items[j], contents, k)
  }

  lemma SomeNamesSnoc(prior: seq<AcceptItem>, last: AcceptItem, contents: seq<Content>, k: nat)
    requires k < |contents|
    ensures SomeNames(prior + [last], contents, k) <==> SomeNames(prior, contents, k) || Names(last, contents, k)
  {
    hide Names;
    var all := prior + [last];
    assert all[|prior|] == last && forall j :: 0 <= j < |prior| ==> all[j] == prior[j];
    if j :| 0 <= j < |prior| && Names(prior[j], contents, k) {
      assert Names(all[j], contents, k);
    }
  }

  /** After the loop a content is active exactly when it was or an item names it; nothing else about it changes. */
  lemma {:induction false} AcceptActivates(a: Accepting, items: seq<AcceptItem>, k: nat)
    requires k < |a.contents| && !AcceptAll(a, items).dead
    ensures AcceptAll(a, items).contents[k] ==
              if SomeNames(items, a.contents, k) then a.contents[k].(state := ACTIVE) else a.contents[k]
  {
    if items == [] {
    } else {
      hide Names, SomeNames;
      var prior, last := items[..|items| - 1], items[|items| - 1];
      assert items == prior + [last];
      var b := AcceptAll(a, prior);
      AcceptActivates(a, prior, k);
      AcceptNames(a, prior);
      SomeNamesSnoc(prior, last, a.contents, k);
      SameNames(a.contents, b.contents, last, k);
      NamesIsFound(b.contents, last, k);
    }
  }

  /** The item asks for a block size of this transport: it is one of an In-Band Bytestream and names a content on it. */
  ghost predicate Asks(item: AcceptItem, contents: seq<Content>, t: Address) {
    item.ibb && exists k :: 0 <= k < |contents| && Names(item, contents, k) && contents[k].trans == Some(t)
  }

  /** What is asked for, as an unsigned number of 64 bits; nothing is zero. */
  function Asked(item: AcceptItem): int {
    match item.blocksize
    case None => 0
    case Some(b) => b % 0x1_0000_0000_0000_0000
  }

  lemma SameAsks(a: seq<Content>, b: seq<Content>, item: AcceptItem, t: Address)
    requires |a| == |b| && forall l :: 0 <= l < |a| ==> a[l].name == b[l].name && a[l].trans == b[l].trans
    ensures Asks(item, a, t) ==> Asks(item, b, t)
  {
    if Asks(item, a, t) {
      var k :| 0 <= k < |a| && Names(item, a, k) && a[k].trans == Some(t);
      SameNames(a, b, item, k);
      assert Names(item, b, k) && b[k].trans == Some(t);
    }
  }

  lemma OneAskStep(a: Accepting, item: AcceptItem, t: Address)
    requires t in a.sizes && !AcceptOne(a, item).dead
    ensures var r := AcceptOne(a, item);
            t in r.sizes
            && r.sizes[t] == if Asks(item, a.contents, t) && Asked(item) < a.sizes[t] then Asked(item) else a.sizes[t]
  {
    var i := FindContent(a.contents, item.name);
    if i.Some? {
      NamesIsFound(a.contents, item, i.value);
      if item.ibb && a.contents[i.value].trans == Some(t) {
        assert Asks(item, a.contents, t);
      }
    }
    if Asks(item, a.contents, t) {
      var k :| 0 <= k < |a.contents| && Names(item, a.contents, k) && a.contents[k].trans == Some(t);
      NamesIsFound(a.contents, item, k);
    }
  }

  /** After the loop the block size is the least of what it was and what was asked for. */
  lemma {:induction false} AcceptTakesTheLeast(a: Accepting, items: seq<AcceptItem>, t: Address)
    requires t in a.sizes && !AcceptAll(a, items).dead
    ensures var r := AcceptAll(a, items);
            && t in r.sizes && r.sizes[t] <= a.sizes[t]
            && (forall j :: 0 <= j < |items| && Asks(items[j], a.contents, t) ==> r.sizes[t] <= Asked(items[j]))
            && (r.sizes[t] == a.sizes[t]
                || exists j :: 0 <= j < |items| && Asks(items[j], a.contents, t) && r.sizes[t] == Asked(items[j]))
  {
    if items == [] {
    } else {
      hide Asks, AcceptOne;
      var prior, last := items[..|items| - 1], items[|items| - 1];
      var b := AcceptAll(a, prior);
      assert AcceptAll(a, items) == AcceptOne(b, last);
      DeadStays(b, last);
      AcceptTakesTheLeast(a, prior, t);
      AcceptNames(a, prior);
      SameAsks(a.contents, b.contents, last, t);
      SameAsks(b.contents, a.contents, last, t);
      OneAskStep(b, last, t);
      assert forall j :: 0 <= j < |prior| ==> prior[j] == items[j];
      assert items[|prior|] == last;
    }
  }

  lemma DeadStays(a: Accepting, item: AcceptItem)
    ensures a.dead ==> AcceptOne(a, item).dead
  {
  }

  /** An accept is refused for a session that is not listed or contents that are not well formed. Otherwise it is
      acknowledged, and if it is survived the named contents are active and nothing else changes in the list. */
  lemma AcceptMeans(h: Hub, loaded: Loaded, e: Event)
    requires e.Accept? && !h.gone
    ensures var (g, effects) := Handle(h, loaded, e);
            var i := Find(h.book, e.sid, e.from);
            if i.None? then (g, effects) == (h, [Refuse("item-not-found")])
            else if !e.wellFormed then (g, effects) == (h, [Refuse("bad-request")])
            else
              && effects == (if g.gone then [Ack, NullRead] else [Ack])
              && (!g.gone ==>
                    && |g.book| == |h.book| && |g.book[i.value].contents| == |h.book[i.value].contents|
                    && (forall j :: 0 <= j < |h.book| ==> g.book[j] == h.book[j].(contents := g.book[j].contents))
                    && (forall j :: 0 <= j < |h.book| && j != i.value ==> g.book[j] == h.book[j])
                    && forall k :: 0 <= k < |h.book[i.value].contents| ==>
                         g.book[i.value].contents[k] ==
                           var c := h.book[i.value].contents[k];
                           if SomeNames(e.items, h.book[i.value].contents, k) then c.(state := ACTIVE) else c)
  {
    hide AcceptAll, SomeNames;
    var i := Find(h.book, e.sid, e.from);
    if i.Some? && e.wellFormed {
      var a := Accepting(h.book[i.value].contents, h.sizes, false);
      if !AcceptAll(a, e.items).dead {
        forall k | 0 <= k < |a.contents|
          ensures AcceptAll(a, e.items).contents[k] ==
                    if SomeNames(e.items, a.contents, k) then a.contents[k].(state := ACTIVE) else a.contents[k]
        {
          AcceptActivates(a, e.items, k);
        }
      }
    }
  }

  /** The block size of a bytestream after an accept that is survived is the least of what it was and what the items for
      a content on it ask for; an item that gives no size asks for zero. */
  lemma AcceptSizes(h: Hub, loaded: Loaded, e: Event, t: Address)
    requires e.Accept? && !h.gone && t in h.sizes && !Handle(h, loaded, e).0.gone
    requires e.wellFormed && Find(h.book, e.sid, e.from).Some?
    ensures var g := Handle(h, loaded, e).0;
            var contents := h.book[Find(h.book, e.sid, e.from).value].contents;
            && t in g.sizes && g.sizes[t] <= h.sizes[t]
            && (forall j :: 0 <= j < |e.items| && Asks(e.items[j], contents, t) ==> g.sizes[t] <= Asked(e.items[j]))
            && (g.sizes[t] == h.sizes[t]
                || exists j :: 0 <= j < |e.items| && Asks(e.items[j], contents, t) && g.sizes[t] == Asked(e.items[j]))
  {
    hide AcceptAll, Asks;
    var contents := h.book[Find(h.book, e.sid, e.from).value].contents;
    AcceptTakesTheLeast(Accepting(contents, h.sizes, false), e.items, t);
  }

  // ---------------------------------------------------------------- session-info

  /** What is understood is one element in one namespace. */
  predicate HashPayload(info: Info) {
    info.xmlns == "urn:xmpp:jingle:apps:file-transfer:info:1" && info.name == "hash"
  }

  /** After every run: a ping of a listed session is acknowledged; a digest becomes that of every file of the session
      and of no other, and is refused; anything else is acknowledged and changes nothing. */
  lemma InfoMeans(loaded: Loaded, events: seq<Event>, e: Event, a: Address)
    requires e.SessionInfo? && !Run(loaded, events).gone && a in Run(loaded, events).files
    ensures var h := Run(loaded, events);
            var (g, effects) := Handle(h, loaded, e);
            var i := Find(h.book, e.sid, e.from);
            var changed := i.Some? && e.info.Some? && HashPayload(e.info.value) && HasFile(h.book[i.value].contents, a);
            && g == h.(files := g.files) && g.files.Keys == h.files.Keys
            && g.files[a] == (if changed then h.files[a].(sink := h.files[a].sink.(hash := Some(e.info.value.value)))
                              else h.files[a])
            && effects == (if i.None? then [Refuse("item-not-found")]
                           else if e.info.None? then [Ack]
                           else if h.book[i.value].contents == [] || HashPayload(e.info.value)
                           then [Refuse("feature-not-implemented")]
                           else [Ack])
  {
    hide Run, SetHashes;
    var h := Run(loaded, events);
    var i := Find(h.book, e.sid, e.from);
    if i.Some? && e.info.Some? {
      AppsOfSession(loaded, events, i.value);
      SetHashesAt(h.files, h.book[i.value].contents, e.info.value.value, a);
    }
  }

  // ---------------------------------------------------------------- session-terminate

  /** After every run: a terminate of a listed session takes it out of the list and leaves the others in their order. A
      file of the session is marked as failed or as complete, by its count, exactly when the peer's name is spelled
      as it is stored; no other file changes. */
  lemma TerminateMeans(loaded: Loaded, events: seq<Event>, e: Event, a: Address)
    requires e.Terminate? && !Run(loaded, events).gone && a in Run(loaded, events).files
    ensures var h := Run(loaded, events);
            var g := Handle(h, loaded, e).0;
            var i := Find(h.book, e.sid, e.from);
            if i.None? then g == h && Handle(h, loaded, e).1 == [Refuse("item-not-found")]
            else
              var s, f := h.book[i.value], h.files[a];
              var stopped := HasFile(s.contents, a)
                             && e.from == (match s.origin case INCOMING => s.from case OUTGOING => s.to);
              && g.book == h.book[..i.value] + h.book[i.value + 1..]
              && a in g.files
              && (!stopped ==> g.files[a] == f)
              && (stopped ==>
                    && g.files[a] == f.(sink := f.sink.(state := g.files[a].sink.state))
                    && g.files[a].sink.state == if f.sink.transmit < f.sink.size then S.ERROR else S.ENDING)
  {
    hide Run, StopFiles, Stops, UpToBare, AppsSet;
    var h := Run(loaded, events);
    var i := Find(h.book, e.sid, e.from);
    RunIsWhole(loaded, events);
    OthersAreSurvived(h, loaded, e);
    if i.Some? {
      StopFilesAt(h.files, h.book[i.value].contents, a);
    }
  }

  // ---------------------------------------------------------------- the end of a file, and packets

  /** The end of a file of this party takes the first content of that name out of its session; when it was the only
      one the session goes, and the peer is told so. */
  lemma SentAllMeans(h: Hub, loaded: Loaded, e: Event)
    requires e.SentAll? && !h.gone
    ensures var (g, effects) := Handle(h, loaded, e);
            var i := Find(h.book, e.sid, e.from);
            && g == h.(book := g.book)
            && if i.None? || FindContent(h.book[i.value].contents, e.name).None? then g.book == h.book && effects == []
               else
                 var s := h.book[i.value];
                 var j := FindContent(s.contents, e.name).value;
                 if |s.contents| == 1 then
                   g.book == h.book[..i.value] + h.book[i.value + 1..] && effects == [SendTerminate(s.to, "success")]
                 else
                   && |g.book| == |h.book| && effects == []
                   && (forall l :: 0 <= l < |h.book| && l != i.value ==> g.book[l] == h.book[l])
                   && g.book[i.value] == s.(contents := s.contents[..j] + s.contents[j + 1..])
  {
  }

  /** A packet of a bytestream that is in the table is acknowledged, whether a content is found or not. The one file it
      can change is that of the first content on that transport, if it receives: the block is handed to it. */
  lemma PacketMeans(h: Hub, loaded: Loaded, e: Event, a: Address)
    requires e.Packet? && !h.gone && a in h.files
    ensures var (g, effects) := Handle(h, loaded, e);
            && g == h.(files := g.files) && a in g.files
            && effects == (if e.sid in h.ibbs then [Ack] else [])
            && var c := if e.sid in h.ibbs then FindByTransport(h.book, h.ibbs[e.sid]) else None;
               var f := h.files[a];
               g.files[a] ==
                 if c.Some? && c.value.app == Some(a) && f.incoming
                 then File(true, HandleBlock(f.sink, e.payload, e.fault), f.blocks + 1) else f
  {
  }

  /** What is found by its transport is the first content on it, in the first session that has one. */
  lemma {:induction false} FoundIsFirst(book: Book, t: Address) returns (i: nat, j: nat)
    requires FindByTransport(book, t).Some?
    ensures i < |book| && j < |book[i].contents| && FirstOn(book, t, i, j)
    ensures book[i].contents[j] == FindByTransport(book, t).value
  {
    if FirstWithTransport(book[0].contents, t).Some? {
      i, j := 0, FirstIndex(book[0].contents, t);
    } else {
      i, j := FoundIsFirst(book[1..], t);
      NoneInFront(book, t, i, j);
      i := i + 1;
    }
  }

  lemma NoneInFront(book: Book, t: Address, i: nat, j: nat)
    requires |book| > 0 && i < |book[1..]| && j < |book[1..][i].contents| && FirstOn(book[1..], t, i, j)
    requires FirstWithTransport(book[0].contents, t).None?
    ensures FirstOn(book, t, i + 1, j)
  {
    hide FirstWithTransport;
    assert forall k :: 0 < k <= i + 1 ==> book[k] == book[1..][k - 1];
  }

  ghost predicate FirstOn(book: Book, t: Address, i: nat, j: nat)
    requires i < |book| && j < |book[i].contents|
  {
    && book[i].contents[j].trans == Some(t)
    && (forall l :: 0 <= l < j ==> book[i].contents[l].trans != Some(t))
    && (forall k, c :: 0 <= k < i && c in book[k].contents ==> c.trans != Some(t))
  }

  ghost function FirstIndex(contents: seq<Content>, t: Address): (j: nat)
    requires FirstWithTransport(contents, t).Some?
    ensures j < |contents| && contents[j] == FirstWithTransport(contents, t).value
    ensures forall l :: 0 <= l < j ==> contents[l].trans != Some(t)
  {
    if contents[0].trans == Some(t) then 0 else FirstIndex(contents[1..], t) + 1
  }

  // ---------------------------------------------------------------- a session of this party

  /** A session this party starts is listed at the end, from itself to its peer, with one pending content; its file is
      an outgoing one, and an In-Band Bytestream begins with blocks of 4096 bytes. */
  lemma NewOutgoingMeans(h: Hub, loaded: Loaded, e: Event)
    requires e.NewOutgoing? && !h.gone
    ensures var (g, effects) := Handle(h, loaded, e);
            && effects == [] && !g.gone && g.ibbs == h.ibbs
            && |g.book| == |h.book| + 1 && g.book[..|h.book|] == h.book
            && var s := g.book[|h.book|];
            && s.sid == e.sid && s.origin == OUTGOING && s.from == e.from && s.to == e.to && |s.contents| == 1
            && var c := s.contents[0];
            && c.name == e.name && c.state == PENDING && (c.trans.Some? <==> e.kind.Some?)
            && c.app.Some? && c.app.value in g.files
            && g.files[c.app.value] == File(false, Sink(e.size, S.PENDING, 0, None, None, None), 0)
            && (e.kind == Some(IBB) ==> c.trans.value in g.sizes && g.sizes[c.trans.value] == 4096)
            && (e.kind == Some(S5B) ==> g.sizes == h.sizes)
  {
  }
}
