/**
  What the program does not survive: after a session-initiate in which two acceptable contents share a name it reads
  through NULL, if it has not read a freed error before; after a session-accept it does so when the content has no
  transport, and after the acknowledgement of a block when the content is not there or lacks a half.
 */
module NullReads {
  import opened Bytes
  import opened Folding
  import opened Sessions
  import opened Offers
  import opened SharedError
  import opened Handlers
  import opened HandlerTheorems

  // ---------------------------------------------------------------- session-initiate

  /** Two acceptable offers have one name. */
  ghost predicate Twins(offers: seq<Offer>, loaded: Loaded) {
    exists i, j :: 0 <= i < j < |offers| && Accepted(offers[i], loaded) && Accepted(offers[j], loaded)
                   && offers[i].name == offers[j].name
  }

  predicate Bare(c: Content) {
    c.trans.None?
  }

  /** What is not bare is complete, and in front of a bare content there is another of its name. */
  ghost predicate BareBehind(contents: seq<Content>) {
    && (forall p :: 0 <= p < |contents| && !Bare(contents[p]) ==> Complete(contents[p]))
    && (forall p :: 0 <= p < |contents| && Bare(contents[p]) ==>
          exists q :: 0 <= q < p && contents[q].name == contents[p].name)
  }

  ghost predicate NoneBare(contents: seq<Content>) {
    forall p :: 0 <= p < |contents| ==> !Bare(contents[p])
  }

  /** A half goes to the first content of a name, and that is never a bare one. */
  lemma FirstIsNotBare(contents: seq<Content>, name: string)
    requires BareBehind(contents) && FindContent(contents, name).Some?
    ensures !Bare(contents[FindContent(contents, name).value])
  {
  }

  lemma AddOfferBare(contents: seq<Content>, o: Offer, loaded: Loaded, at: Address)
    requires BareBehind(contents)
    ensures BareBehind(AddOffer(contents, o, loaded, at))
    ensures NoneBare(AddOffer(contents, o, loaded, at)) <==>
              NoneBare(contents) && (Accepted(o, loaded) ==> FindContent(contents, o.name).None?)
  {
    if !GetsApp(o, loaded) {
      assert AddOffer(contents, o, loaded, at) == contents;
    } else if FindContent(contents, o.name).None? {
      NameIsNew(contents, o, loaded, at);
      AppendBare(contents, Whole(o, at));
    } else {
      TakenBare(contents, o, loaded, at);
    }
  }

  lemma AppendBare(contents: seq<Content>, c: Content)
    requires BareBehind(contents) && Complete(c)
    ensures BareBehind(contents + [c])
    ensures NoneBare(contents + [c]) <==> NoneBare(contents)
    ensures contents + [] == contents
  {
    var all := contents + [c];
    assert forall p :: 0 <= p < |contents| ==> all[p] == contents[p];
  }

  lemma TakenBare(contents: seq<Content>, o: Offer, loaded: Loaded, at: Address)
    requires BareBehind(contents) && GetsApp(o, loaded) && FindContent(contents, o.name).Some?
    ensures BareBehind(AddOffer(contents, o, loaded, at))
    ensures NoneBare(AddOffer(contents, o, loaded, at)) <==> NoneBare(contents) && !Accepted(o, loaded)
  {
    hide AddOffer, FindContent;
    var i := FindContent(contents, o.name).value;
    var after := AddOffer(contents, o, loaded, at);
    FirstIsNotBare(contents, o.name);
    TakenName(contents, o, loaded, at);
    assert forall p :: 0 <= p < |contents| ==> after[p].name == contents[p].name;
  }

  /** With the name taken, the first content of that name stays complete and the new one stays bare. */
  lemma TakenName(contents: seq<Content>, o: Offer, loaded: Loaded, at: Address)
    requires GetsApp(o, loaded) && FindContent(contents, o.name).Some?
    ensures var i := FindContent(contents, o.name).value;
            var after := AddOffer(contents, o, loaded, at);
            && |after| == |contents| + (if Accepted(o, loaded) then 1 else 0)
            && (forall p :: 0 <= p < |contents| && p != i ==> after[p] == contents[p])
            && after[i].name == o.name && after[i].app.Some? && (Bare(after[i]) ==> Bare(contents[i]))
            && (Accepted(o, loaded) ==> after[|contents|] == Content(at, o.name, PENDING, None, None))
  {
    var i := FindContent(contents, o.name).value;
    var all := contents + [Content(at, o.name, PENDING, None, None)];
    FindContentAt(all, o.name, i);
    FindContentAt(SetApp(all, o.name, at + 1), o.name, i);
  }

  lemma AddAllSnoc(prior: seq<Offer>, last: Offer, loaded: Loaded, base: Address)
    ensures AddAll(prior + [last], loaded, base) ==
              AddOffer(AddAll(prior, loaded, base), last, loaded, base + 3 * |prior|)
  {
    assert (prior + [last])[..|prior|] == prior;
  }

  lemma StoredBareStep(prior: seq<Offer>, last: Offer, loaded: Loaded, base: Address)
    requires BareBehind(AddAll(prior, loaded, base))
    requires NoneBare(AddAll(prior, loaded, base)) <==> !Twins(prior, loaded)
    ensures BareBehind(AddAll(prior + [last], loaded, base))
    ensures NoneBare(AddAll(prior + [last], loaded, base)) <==> !Twins(prior + [last], loaded)
  {
    hide *;
    AddAllSnoc(prior, last, loaded, base);
    AddOfferBare(AddAll(prior, loaded, base), last, loaded, base + 3 * |prior|);
    NameStored(prior, loaded, base, last.name);
    TwinsSnoc(prior, last, loaded);
  }

  lemma {:induction false} StoredBare(offers: seq<Offer>, loaded: Loaded, base: Address)
    ensures BareBehind(AddAll(offers, loaded, base))
    ensures NoneBare(AddAll(offers, loaded, base)) <==> !Twins(offers, loaded)
  {
    if offers == [] {
    } else {
      hide *;
      var prior, last := offers[..|offers| - 1], offers[|offers| - 1];
      StoredBare(prior, loaded, base);
      StoredBareStep(prior, last, loaded, base);
      assert offers == prior + [last];
    }
  }

  lemma NameStored(offers: seq<Offer>, loaded: Loaded, base: Address, name: string)
    ensures FindContent(AddAll(offers, loaded, base), name).Some? <==> Named(offers, loaded, name)
  {
    hide AddAll, Described;
    AddAllAligned(offers, loaded, base);
    NameIsStored(offers, loaded, base, name);
    var stored, described := AddAll(offers, loaded, base), Described(offers, loaded, base);
    assert FindContent(stored, name).Some? <==> HasName(described, name);
  }

  lemma TwinsSnoc(prior: seq<Offer>, last: Offer, loaded: Loaded)
    ensures Twins(prior + [last], loaded) <==>
              Twins(prior, loaded) || (Accepted(last, loaded) && Named(prior, loaded, last.name))
  {
    var all := prior + [last];
    assert forall i :: 0 <= i < |prior| ==> all[i] == prior[i];
    if Twins(prior, loaded) {
      var i, j :| 0 <= i < j < |prior| && Accepted(prior[i], loaded) && Accepted(prior[j], loaded)
                  && prior[i].name == prior[j].name;
      assert all[i].name == all[j].name;
    }
    if i :| 0 <= i < |prior| && Accepted(last, loaded) && Accepted(prior[i], loaded) && prior[i].name == last.name {
      assert all[i].name == all[|prior|].name;
    }
  }

  lemma IncompleteIff(h: Hub, loaded: Loaded, offers: seq<Offer>)
    ensures (forall c :: c in AddAll(offers, loaded, h.next) ==> Complete(c)) <==> !Twins(offers, loaded)
  {
    var contents := AddAll(offers, loaded, h.next);
    StoredBare(offers, loaded, h.next);
    if Twins(offers, loaded) {
      var p :| 0 <= p < |contents| && Bare(contents[p]);
      assert contents[p] in contents && !Complete(contents[p]);
    }
  }

  /** The handler of a session-initiate reads through NULL, while it puts together what to ask the user, exactly
      when the initiate is proper, two acceptable offers have one name, and the loop over the offers has not used a
      freed error; that it does exactly when an offer of known kinds comes after one that was reported to fail.
      Nothing else in it is fatal. */
  lemma InitiateIsFatalIff(h: Hub, loaded: Loaded, e: Event)
    requires e.Initiate? && !h.gone
    ensures var (g, effects) := Handle(h, loaded, e);
            && (FreedRead in effects <==> Proper(h, e) && ReusesError(e.offers, loaded))
            && (NullRead in effects <==> Proper(h, e) && !ReusesError(e.offers, loaded) && Twins(e.offers, loaded))
            && (g.gone <==> Proper(h, e) && (ReusesError(e.offers, loaded) || Twins(e.offers, loaded)))
  {
    hide ReusesError, Twins, AddAll;
    IncompleteIff(h, loaded, e.offers);
    EmptyHasNoTwins(e.offers, loaded, h.next);
  }

  lemma EmptyHasNoTwins(offers: seq<Offer>, loaded: Loaded, base: Address)
    ensures AddAll(offers, loaded, base) == [] ==> !Twins(offers, loaded)
  {
    StoredBare(offers, loaded, base);
  }

  // ---------------------------------------------------------------- session-accept

  /** The item names a content whose transport is not there. */
  predicate NamesBare(contents: seq<Content>, item: AcceptItem) {
    var i := FindContent(contents, item.name);
    i.Some? && contents[i.value].trans.None?
  }

  lemma SameShape(a: seq<Content>, b: seq<Content>, name: string)
    requires |a| == |b| && forall k :: 0 <= k < |a| ==> a[k].name == b[k].name && a[k].trans == b[k].trans
    ensures FindContent(a, name) == FindContent(b, name)
  {
    var i, j := FindContent(a, name), FindContent(b, name);
    assert i.Some? ==> b[i.value].name == name;
    assert j.Some? ==> a[j.value].name == name;
  }

  lemma {:induction false} AcceptDies(a: Accepting, items: seq<AcceptItem>)
    requires !a.dead
    ensures AcceptAll(a, items).dead <==> exists k :: 0 <= k < |items| && NamesBare(a.contents, items[k])
  {
    if items == [] {
    } else {
      hide AcceptOne, AcceptAll;
      var prior, last := items[..|items| - 1], items[|items| - 1];
      var b := AcceptAll(a, prior);
      AcceptDies(a, prior);
      forall k | 0 <= k < |a.contents|
        ensures a.contents[k].name == b.contents[k].name && a.contents[k].trans == b.contents[k].trans
      {
        AcceptEvolves(a, prior, k);
      }
      SameShape(a.contents, b.contents, last.name);
      AcceptSnoc(a, items);
      assert forall k :: 0 <= k < |prior| ==> prior[k] == items[k];
    }
  }

  lemma AcceptSnoc(a: Accepting, items: seq<AcceptItem>)
    requires items != []
    ensures var b, last := AcceptAll(a, items[..|items| - 1]), items[|items| - 1];
            AcceptAll(a, items).dead <==> b.dead || NamesBare(b.contents, last)
  {
  }

  /** A session-accept is not survived exactly when the session is listed, the contents pass the check, and one of
      them names a listed content that was never given a transport. */
  lemma AcceptReadsNullIff(h: Hub, loaded: Loaded, e: Event)
    requires e.Accept? && !h.gone
    ensures var i := Find(h.book, e.sid, e.from);
            Handle(h, loaded, e).0.gone <==>
              && i.Some? && e.wellFormed
              && exists k :: 0 <= k < |e.items| && NamesBare(h.book[i.value].contents, e.items[k])
  {
    hide AcceptAll, NamesBare;
    var i := Find(h.book, e.sid, e.from);
    if i.Some? {
      AcceptDies(Accepting(h.book[i.value].contents, h.sizes, false), e.items);
    }
  }

  /** An accept that leaves the block size out asks for blocks of no bytes. */
  lemma MissingSizeIsZero(a: Accepting, name: string)
    requires !a.dead && FindContent(a.contents, name).Some?
    requires a.contents[FindContent(a.contents, name).value].trans.Some?
    ensures var t := a.contents[FindContent(a.contents, name).value].trans.value;
            t in a.sizes ==>
              var b := AcceptOne(a, AcceptItem(name, true, None)); t in b.sizes && b.sizes[t] == 0
  {
  }

  // ---------------------------------------------------------------- the acknowledgement of the last block

  /** The sessions this party starts have one content each, as long as they are listed. */
  ghost predicate OutgoingSingle(book: Book) {
    forall i :: 0 <= i < |book| && book[i].origin == OUTGOING ==> |book[i].contents| == 1
  }

  lemma SingleWithout(book: Book, i: nat)
    requires OutgoingSingle(book) && i < |book|
    ensures OutgoingSingle(Without(book, i))
  {
    var rest := Without(book, i);
    assert forall j :: 0 <= j < |rest| ==> rest[j] == book[if j < i then j else j + 1];
  }

  lemma SingleStep(h: Hub, loaded: Loaded, e: Event)
    requires OutgoingSingle(h.book)
    ensures OutgoingSingle(Handle(h, loaded, e).0.book)
  {
    hide AddAll, AcceptAll, Without, StopFiles, Stops;
    if e.Terminate? || e.SentAll? {
      var r := Find(h.book, e.sid, e.from);
      if r.Some? {
        SingleWithout(h.book, r.value);
      }
    }
  }

  lemma {:induction false} RunIsSingle(loaded: Loaded, events: seq<Event>)
    ensures OutgoingSingle(Run(loaded, events).book)
  {
    if events == [] {
    } else {
      hide Handle, OutgoingSingle;
      RunIsSingle(loaded, events[..|events| - 1]);
      SingleStep(Run(loaded, events[..|events| - 1]), loaded, events[|events| - 1]);
    }
  }

  /** This event puts a session of that key into the list. */
  ghost predicate Lists(h: Hub, loaded: Loaded, e: Event, k: Key) {
    match e
    case Initiate(sid, from, _, _, _, offers) =>
      Key(sid, Fold(from)) == k && Proper(h, e) && AddAll(offers, loaded, h.next) != []
    case NewOutgoing(sid, _, to, _, _, _) => Key(sid, Fold(to)) == k
    case _ => false
  }

  ghost predicate NeverLists(h: Hub, loaded: Loaded, events: seq<Event>, k: Key) {
    forall i :: 0 <= i < |events| ==> !Lists(Process(h, loaded, events[..i]), loaded, events[i], k)
  }

  lemma KeyStep(h: Hub, loaded: Loaded, e: Event, k: Key)
    requires Unique(h.book) && FreshSid(h, e)
    requires k !in AsMap(h.book).Keys && !Lists(h, loaded, e, k)
    ensures Unique(Handle(h, loaded, e).0.book)
    ensures k !in AsMap(Handle(h, loaded, e).0.book).Keys
  {
    hide Handle, Unique, AsMap, FreshSid, Proper, AddAll, AcceptAll, FindContent, Fold;
    HandleMap(h, loaded, e);
  }

  lemma {:induction false} KeyStaysOut(h: Hub, loaded: Loaded, events: seq<Event>, k: Key)
    requires Unique(h.book) && k !in AsMap(h.book).Keys
    requires FreshFrom(h, loaded, events) && NeverLists(h, loaded, events, k)
    ensures k !in AsMap(Process(h, loaded, events).book).Keys
  {
    if events == [] {
    } else {
      hide Handle, Unique, AsMap, FreshFrom, FreshSid, Lists;
      var n := |events| - 1;
      var prior, last := events[..n], events[n];
      assert events == prior + [last];
      assert forall i :: 0 <= i < n ==> prior[..i] == events[..i];
      FreshSnoc(h, loaded, prior, last);
      KeyStaysOut(h, loaded, prior, k);
      KeysStayDistinct(h, loaded, prior);
      KeyStep(Process(h, loaded, prior), loaded, last, k);
    }
  }

  /** The content the acknowledgement is for, if its session is listed. */
  ghost function Acknowledged(h: Hub, e: Event): Option<Content>
    requires e.BlockAcked?
  {
    var m, k := AsMap(h.book), Key(e.sid, Fold(e.from));
    if k !in m then None
    else
      var j := FindContent(m[k].contents, e.name);
      if j.None? then None else Some(m[k].contents[j.value])
  }

  /** The acknowledgement does nothing exactly when its session is not listed when it arrives, or lists an In-Band
      Bytestream of that name that receives. It is not survived exactly when the session is listed without such a
      content, with one that lacks a half, or with one over SOCKS5. Otherwise that content sends on. */
  lemma AckIff(h: Hub, loaded: Loaded, e: Event)
    requires e.BlockAcked? && Unique(h.book) && !h.gone
    ensures var (g, effects) := Handle(h, loaded, e);
            var listed, c := Key(e.sid, Fold(e.from)) in AsMap(h.book), Acknowledged(h, e);
            var ready := c.Some? && Complete(c.value) && c.value.trans.value in h.sizes;
            var receives := ready && c.value.app.value in h.files && h.files[c.value.app.value].incoming;
            && ((g, effects) == (h, []) <==> !listed || receives)
            && (g.gone <==> listed && !ready)
            && (NullRead in effects <==> listed && (c.None? || !Complete(c.value)))
            && (effects == [Resume(e.name)] <==> ready && !receives)
  {
    FindIsLookup(h.book, e.sid, e.from);
  }

  /** In particular nothing happens when the session is not listed. */
  lemma AckIsHarmless(h: Hub, loaded: Loaded, e: Event)
    requires e.BlockAcked? && Unique(h.book) && Key(e.sid, Fold(e.from)) !in AsMap(h.book)
    ensures Handle(h, loaded, e) == (h, [])
  {
    FindIsLookup(h.book, e.sid, e.from);
  }

  lemma EndedIsGone(h: Hub, loaded: Loaded, end: Event)
    requires end.SentAll? && !h.gone && Unique(h.book) && OutgoingSingle(h.book)
    requires var i := Find(h.book, end.sid, end.from);
             && i.Some? && h.book[i.value].origin == OUTGOING
             && FindContent(h.book[i.value].contents, end.name).Some?
    ensures Key(end.sid, Fold(end.from)) !in AsMap(Handle(h, loaded, end).0.book).Keys
  {
    hide Unique, AsMap;
    SentAllMap(h, loaded, end);
    FindIsLookup(h.book, end.sid, end.from);
  }

  lemma {:induction false} GoneIsForever(h: Hub, loaded: Loaded, events: seq<Event>)
    requires h.gone
    ensures Process(h, loaded, events) == h
  {
    if events == [] {
    } else {
      GoneIsForever(h, loaded, events[..|events| - 1]);
    }
  }

  /** In every run: when the file of an outgoing content has ended, its session is gone with it, and the
      acknowledgement of its last block, which is still under way, does nothing whenever it arrives, unless a
      session of the same identifier and peer has been listed again in between. */
  lemma LastAckIsHarmless(loaded: Loaded, before: seq<Event>, end: Event, more: seq<Event>)
    requires end.SentAll? && FreshSids(loaded, before + [end] + more)
    requires var h := Run(loaded, before);
             var i := Find(h.book, end.sid, end.from);
             && i.Some? && h.book[i.value].origin == OUTGOING
             && FindContent(h.book[i.value].contents, end.name).Some?
    requires NeverLists(Run(loaded, before + [end]), loaded, more, Key(end.sid, Fold(end.from)))
    ensures var g := Run(loaded, before + [end] + more);
            Handle(g, loaded, BlockAcked(end.sid, end.from, end.name)) == (g, [])
  {
    hide Handle, Unique, AsMap, FreshFrom, NeverLists, Find, FindContent, OutgoingSingle, Fold, OnBlockAcked;
    var h, k := Run(loaded, before), Key(end.sid, Fold(end.from));
    var events := before + [end];
    assert events[..|before|] == before;
    FreshSplit(EMPTY_HUB, loaded, events, more);
    FreshSplit(EMPTY_HUB, loaded, before, [end]);
    EmptyIsUnique();
    KeysStayDistinct(EMPTY_HUB, loaded, before);
    KeysStayDistinct(EMPTY_HUB, loaded, events);
    RunIsSingle(loaded, before);
    ProcessSplit(EMPTY_HUB, loaded, events, more);
    if h.gone {
      assert Run(loaded, events) == h by { DeadIsIdle(h, loaded, end); }
      GoneIsForever(h, loaded, more);
      DeadIsIdle(h, loaded, BlockAcked(end.sid, end.from, end.name));
    } else {
      EndedIsGone(h, loaded, end);
      KeyStaysOut(Run(loaded, events), loaded, more, k);
      KeysStayDistinct(EMPTY_HUB, loaded, events + more);
      AckIsHarmless(Run(loaded, events + more), loaded, BlockAcked(end.sid, end.from, end.name));
    }
  }

  lemma DeadIsIdle(h: Hub, loaded: Loaded, e: Event)
    requires h.gone
    ensures Handle(h, loaded, e) == (h, [])
  {
  }

  // ---------------------------------------------------------------- a key that is used again

  function Reuser(name: string): Event {
    Initiate("s", "peer", "me", true, true,
             [Offer(name, None, None, "app", "trans", Some(FileOffer(0, None)), Some(IbbOffer("j", 1)))])
  }

  /** The peer uses the identifier of a session that has just ended for one of its own, with a content of this name,
      before it acknowledges the last block. */
  function Reuse(name: string): seq<Event> {
    [NewOutgoing("s", "me", "peer", "file", 1, Some(IBB)), SentAll("s", "peer", "file"), Reuser(name)]
  }

  const STARTED := Session("s", OUTGOING, "me", "peer", [Content(0, "file", PENDING, Some(1), Some(2))])

  lemma ReuseStarts(loaded: Loaded, name: string)
    ensures var h := Run(loaded, Reuse(name)[..1]);
            !h.gone && h.book == [STARTED] && h.next == 3 && h.files.Keys == {1}
  {
    assert Reuse(name)[..1][..0] == [];
    assert Process(EMPTY_HUB, loaded, []) == EMPTY_HUB;
    assert Run(loaded, Reuse(name)[..1]) == OnNewOutgoing(EMPTY_HUB, Reuse(name)[0]);
  }

  lemma ReuseEnds(h: Hub, name: string)
    requires h.book == [STARTED]
    ensures var (g, effects) := OnSentAll(h, Reuse(name)[1]);
            g == h.(book := []) && !Fatal(effects)
  {
    FindContentAt(STARTED.contents, "file", 0);
    assert KeyOf(h.book[0]) == Key("s", Fold("peer"));
  }

  lemma ReuseAgain(h: Hub, loaded: Loaded, name: string, o: Offer)
    requires h.book == [] && !h.gone && Reuser(name).offers == [o] && Accepted(o, loaded)
    ensures var g := OnInitiate(h, loaded, Reuser(name)).0;
            && !Fatal(OnInitiate(h, loaded, Reuser(name)).1)
            && OnBlockAcked(g, BlockAcked("s", "peer", "file")).1 == if name == "file" then [] else [NullRead]
  {
    assert [o][..0] == [] && o == Reuser(name).offers[0] && Proper(h, Reuser(name));
    assert AddAll([], loaded, h.next) == [];
    NameIsNew([], o, loaded, h.next);
    assert AddAll([o], loaded, h.next) == AddOffer([], o, loaded, h.next) == [Whole(o, h.next)];
    assert ErrorAfter(CheckError([o]), [o], loaded) == ErrorStep(ErrorAfter(CheckError([o]), [], loaded), o, loaded);
    var t := Session("s", INCOMING, "peer", "me", [Whole(o, h.next)]);
    var g := OnInitiate(h, loaded, Reuser(name)).0;
    assert g.book == [] + [t];
    assert KeyOf(t) == Key("s", Fold("peer"));
    if name == "file" {
      FindContentAt(t.contents, "file", 0);
      assert g.files == NewFile(NewFiles(h.files, [], loaded, h.next), o, loaded, h.next);
      assert g.sizes == NewSize(NewSizes(h.sizes, [], loaded, h.next), o, loaded, h.next);
    }
  }

  /** If the content that now has the key has another name, the acknowledgement reads through NULL; if it has the name
      of the one that has ended, it does nothing. */
  lemma ReusedIdentifierReadsNull(name: string)
    ensures var loaded := Loaded({"app"}, {"trans"});
            var h := Run(loaded, Reuse(name));
            && !h.gone
            && Handle(h, loaded, BlockAcked("s", "peer", "file")).1 == if name == "file" then [] else [NullRead]
  {
    var loaded := Loaded({"app"}, {"trans"});
    var events := Reuse(name);
    var a, b := events[..1], events[..2];
    assert b[..1] == a && b[1] == events[1] && events[..3] == events && events[2] == Reuser(name);
    assert Accepted(events[2].offers[0], loaded) && Reuser(name).offers == [events[2].offers[0]];
    hide OnSentAll, OnInitiate, OnBlockAcked, Handle, React, Accepted, Reuser, Reuse, Fatal;
    ReuseStarts(loaded, name);
    ReuseEnds(Run(loaded, a), name);
    Survived(Run(loaded, a), loaded, events[1]);
    ReuseAgain(Run(loaded, b), loaded, name, events[2].offers[0]);
    Survived(Run(loaded, b), loaded, events[2]);
    AckIsAnswered(Run(loaded, events), loaded, BlockAcked("s", "peer", "file"));
  }

  /** What is not fatal happens. */
  lemma Survived(h: Hub, loaded: Loaded, e: Event)
    requires !h.gone && !Fatal(React(h, loaded, e).1)
    ensures Handle(h, loaded, e) == React(h, loaded, e) && !Handle(h, loaded, e).0.gone
    ensures e.Initiate? ==> React(h, loaded, e) == OnInitiate(h, loaded, e)
    ensures e.SentAll? ==> React(h, loaded, e) == OnSentAll(h, e)
  {
    hide Fatal;
    ReactLives(h, loaded, e);
  }

  lemma AckIsAnswered(h: Hub, loaded: Loaded, e: Event)
    requires e.BlockAcked? && !h.gone
    ensures Handle(h, loaded, e).1 == OnBlockAcked(h, e).1
  {
  }
}
