/** Concrete runs in which a transfer does not get what its sender meant it to get. */
module FailingRuns {
  import opened Bytes
  import opened Folding
  import opened Sessions
  import opened Offers
  import opened SharedError
  import opened Sink
  import opened Handlers
  import opened HandlerTheorems
  import opened Isolation
  import opened Ready

  // ---------------------------------------------------------------- a diverted transfer

  const SHARED: Offer :=
    Offer("file", None, None, "app", "trans", Some(FileOffer(1, None)), Some(IbbOffer("i", 1)))

  /** Two peers offer a file each, and the second one names the bytestream of the first; then the first one sends
      its block. */
  const DIVERSION: seq<Event> := [
    Initiate("s", "first", "me", true, true, [SHARED]),
    Initiate("t", "second", "me", true, true, [SHARED]),
    Packet("i", [1], Good)]

  lemma SharedIsFine(loaded: Loaded)
    requires Accepted(SHARED, loaded)
    ensures NoClash([SHARED], loaded) && LastOnStream([SHARED], loaded, 0) && !ReusesError([SHARED], loaded)
    ensures Described([SHARED], loaded, 0) == [Whole(SHARED, 0)]
  {
    assert [SHARED][..0] == [];
    ReusesErrorIff([SHARED], loaded);
  }

  lemma FirstOffer(loaded: Loaded, e: Event)
    requires e.Initiate? && e.inRoster && e.wellFormed && e.offers == [SHARED] && Accepted(SHARED, loaded)
    ensures Proper(EMPTY_HUB, e)
    ensures var g := Handle(EMPTY_HUB, loaded, e).0;
            && !g.gone && g.book == [Session(e.sid, INCOMING, e.from, e.to, [Whole(SHARED, 0)])]
            && 1 in g.files && g.files[1] == File(true, NewSink(1, None), 0) && g.next == 3
  {
    assert e.offers[0].disposition == None;
    SharedIsFine(loaded);
    InitiateStores(EMPTY_HUB, loaded, e);
    NewFilesAt(map[], e.offers, loaded, 0, 0);
    hide AddAll, ReusesError;
  }

  /** The block ends up in the file of the second peer, and the file of the first stays empty. */
  lemma DiversionExample()
    ensures var h := Run(Loaded({"app"}, {"trans"}), DIVERSION);
            && !h.gone
            && 1 in h.files && h.files[1] == File(true, NewSink(1, None), 0)
            && 4 in h.files && h.files[4] == File(true, HandleBlock(NewSink(1, None), [1], Good), 1)
  {
    var loaded := Loaded({"app"}, {"trans"});
    hide Handle, Home, HandleBlock, Fold, Unique, Below;
    var a, b := DIVERSION[..1], DIVERSION[..2];
    assert a[..0] == [] && b[..1] == a && DIVERSION[..3] == DIVERSION;
    assert Process(EMPTY_HUB, loaded, []) == EMPTY_HUB;
    var g := Run(loaded, a);
    assert g == Handle(EMPTY_HUB, loaded, DIVERSION[0]).0;
    assert Run(loaded, b) == Handle(g, loaded, DIVERSION[1]).0;
    assert Run(loaded, DIVERSION) == Handle(Run(loaded, b), loaded, DIVERSION[2]).0;
    DivertedBlock(g, loaded, DIVERSION[0], DIVERSION[1], DIVERSION[2]);
  }

  lemma SecondIsProper(g: Hub, second: Event)
    requires second == DIVERSION[1] && g.book == [Session("s", INCOMING, "first", "me", [Whole(SHARED, 0)])]
    ensures Proper(g, second)
  {
    assert second.offers[0].disposition == None;
  }

  lemma DivertedBlock(g: Hub, loaded: Loaded, first: Event, second: Event, packet: Event)
    requires DIVERSION == [first, second, packet] && Accepted(SHARED, loaded)
    requires g == Handle(EMPTY_HUB, loaded, first).0
    ensures var h := Handle(Handle(g, loaded, second).0, loaded, packet).0;
            && !h.gone
            && 1 in h.files && h.files[1] == File(true, NewSink(1, None), 0)
            && 4 in h.files && h.files[4] == File(true, HandleBlock(NewSink(1, None), [1], Good), 1)
  {
    hide Handle, Home, HandleBlock, Unique, Below, OnPacket, NoClash, LastOnStream, Described, MapAfter, Proper,
         ReusesError, Diverts, FreshSid, OwnEvent, AsMap;
    SharedIsFine(loaded);
    EmptyIsUnique();
    EmptyIsBelow();
    FirstOffer(loaded, first);
    SecondIsProper(g, second);
    InitiateIsReady(EMPTY_HUB, loaded, first, 0);
    InitiateIsFresh(EMPTY_HUB, first);
    HandleMap(EMPTY_HUB, loaded, first);
    FirstIsBelow(g, loaded, first);
    InitiateIsReady(g, loaded, second, 0);
    SecondDiverts(g, loaded, second, packet);
  }

  lemma SecondDiverts(g: Hub, loaded: Loaded, second: Event, packet: Event)
    requires second == DIVERSION[1] && packet == DIVERSION[2] && Proper(g, second) && Accepted(SHARED, loaded)
    requires g.next == 3 && !Handle(g, loaded, second).0.gone
    requires var p := Place("s", "first", "i", 1, 2);
             Home(g, p) && ViewOf(g, p).session.Some? && g.files[1] == File(true, NewSink(1, None), 0)
    requires var h, q := Handle(g, loaded, second).0, Place("t", "second", "i", 4, 5);
             && Home(h, q) && ViewOf(h, q).session.Some? && h.files[4] == File(true, NewSink(1, None), 0)
    ensures var h := Handle(Handle(g, loaded, second).0, loaded, packet).0;
            && !h.gone
            && 1 in h.files && h.files[1] == File(true, NewSink(1, None), 0)
            && 4 in h.files && h.files[4] == File(true, HandleBlock(NewSink(1, None), [1], Good), 1)
  {
    hide Handle, OnPacket, HandleBlock, Proper, Unique, Fits, AsMap;
    var p, q, h := Place("s", "first", "i", 1, 2), Place("t", "second", "i", 4, 5), Handle(g, loaded, second).0;
    assert Streams(second.offers, loaded, "i") by { assert second.offers[0] == SHARED; }
    DivertedIff(g, loaded, second, packet, p);
    PacketFile(h, packet, q);
    PacketIsSurvived(h, loaded, packet);
  }

  lemma PacketIsSurvived(h: Hub, loaded: Loaded, packet: Event)
    requires packet.Packet? && !h.gone
    ensures Handle(h, loaded, packet) == OnPacket(h, packet) && !Handle(h, loaded, packet).0.gone
  {
  }

  lemma EmptyIsBelow()
    ensures Below(EMPTY_HUB)
  {
  }

  lemma FirstIsBelow(g: Hub, loaded: Loaded, first: Event)
    requires first.Initiate? && g == Handle(EMPTY_HUB, loaded, first).0
    ensures Below(g)
  {
    RunIsBelow(loaded, [first]);
    assert [first][..0] == [];
    assert Process(EMPTY_HUB, loaded, []) == EMPTY_HUB;
    assert Run(loaded, [first]) == Handle(EMPTY_HUB, loaded, first).0;
  }

  // ---------------------------------------------------------------- a transfer that is not stopped

  /** A peer offers a file and ends the session under a different spelling of its name. */
  const OTHER_CASE: seq<Event> := [
    Initiate("s", "Peer", "me", true, true, [SHARED]),
    Terminate("s", "peer")]

  /** The session is gone, and the file was not told: it is not stopped. */
  lemma OtherCaseExample()
    ensures var loaded := Loaded({"app"}, {"trans"});
            var g := Run(loaded, OTHER_CASE);
            && Handle(Run(loaded, OTHER_CASE[..1]), loaded, OTHER_CASE[1]).1 == [Ack]
            && !g.gone && g.book == [] && 1 in g.files && g.files[1] == File(true, NewSink(1, None), 0)
  {
    var loaded := Loaded({"app"}, {"trans"});
    hide OnInitiate;
    var a := OTHER_CASE[..1];
    assert a[..0] == [] && OTHER_CASE[..2] == OTHER_CASE;
    assert Process(EMPTY_HUB, loaded, []) == EMPTY_HUB;
    assert Run(loaded, a) == Handle(EMPTY_HUB, loaded, OTHER_CASE[0]).0;
    FirstOffer(loaded, OTHER_CASE[0]);
    SameFolded();
    assert KeyOf(Run(loaded, a).book[0]) == Key("s", Fold("peer"));
    assert Run(loaded, OTHER_CASE) == Handle(Run(loaded, a), loaded, OTHER_CASE[1]).0;
  }

  lemma SameFolded()
    ensures Fold("Peer") == Fold("peer")
  {
  }

  // ---------------------------------------------------------------- an initiate that is not survived

  /** Two contents of different names: the description of the first cannot be parsed, the second is fine. */
  const BROKEN: Offer := SHARED.(name := "broken", app := None)
  const BROKEN_FIRST := Initiate("s", "peer", "me", true, true, [BROKEN, SHARED])

  /** Two contents that are fine, but for the creator of the first. */
  const STRANGE: Offer := SHARED.(name := "strange", creator := Some("nobody"), trans := Some(IbbOffer("j", 1)))
  const STRANGE_CREATOR := Initiate("s", "peer", "me", true, true, [STRANGE, SHARED])

  /** No names clash in either of them; the second offer makes the handler read the error that was freed after the
      first one. By itself the content with the invalid creator is accepted. */
  lemma FreedErrorExample()
    ensures var loaded := Loaded({"app"}, {"trans"});
            && NoClash(BROKEN_FIRST.offers, loaded) && NoClash(STRANGE_CREATOR.offers, loaded)
            && Handle(EMPTY_HUB, loaded, BROKEN_FIRST) == (EMPTY_HUB.(gone := true), [Ack, FreedRead])
            && Handle(EMPTY_HUB, loaded, STRANGE_CREATOR) == (EMPTY_HUB.(gone := true), [Ack, FreedRead])
            && Handle(EMPTY_HUB, loaded, STRANGE_CREATOR.(offers := [STRANGE])).1 == [Ack, AskUser]
  {
    var loaded := Loaded({"app"}, {"trans"});
    BrokenFirst(loaded);
    StrangeCreator(loaded);
    StrangeAlone(loaded);
  }

  lemma BrokenFirst(loaded: Loaded)
    requires loaded == Loaded({"app"}, {"trans"})
    ensures NoClash([BROKEN, SHARED], loaded)
    ensures Handle(EMPTY_HUB, loaded, BROKEN_FIRST) == (EMPTY_HUB.(gone := true), [Ack, FreedRead])
  {
    var offers := [BROKEN, SHARED];
    assert offers[0] == BROKEN && offers[1] == SHARED && offers[1].disposition == None;
    assert Known(offers[0], loaded) && Known(offers[1], loaded) && !Accepted(offers[0], loaded);
    ReusesErrorIff(offers, loaded);
    hide ReusesError, AddAll, NewFiles, NewIbbs, NewSizes;
  }

  lemma StrangeCreator(loaded: Loaded)
    requires loaded == Loaded({"app"}, {"trans"})
    ensures NoClash([STRANGE, SHARED], loaded)
    ensures Handle(EMPTY_HUB, loaded, STRANGE_CREATOR) == (EMPTY_HUB.(gone := true), [Ack, FreedRead])
  {
    var offers := [STRANGE, SHARED];
    assert offers[0] == STRANGE && offers[1] == SHARED && offers[1].disposition == None;
    assert BadCreator(offers[0]) && Known(offers[0], loaded) && Known(offers[1], loaded);
    ReusesErrorIff(offers, loaded);
    hide ReusesError, AddAll, NewFiles, NewIbbs, NewSizes;
  }

  lemma StrangeAlone(loaded: Loaded)
    requires loaded == Loaded({"app"}, {"trans"})
    ensures Handle(EMPTY_HUB, loaded, STRANGE_CREATOR.(offers := [STRANGE])).1 == [Ack, AskUser]
  {
    var offers, e := [STRANGE], STRANGE_CREATOR.(offers := [STRANGE]);
    assert offers[0] == STRANGE && offers[0].disposition == None && offers[..0] == [];
    ReusesErrorIff(offers, loaded);
    StoredAsDescribedIff(offers, loaded, 0);
    assert Described(offers, loaded, 0) == [Whole(STRANGE, 0)];
    hide ReusesError, AddAll, NewFiles, NewIbbs, NewSizes;
  }
}
