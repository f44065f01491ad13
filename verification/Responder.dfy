/**
  The receiver of a transfer, as one of the many contents of a party. Whatever is proved of the lone receiver in
  `Transfer` holds of it, from the session-initiate on and with any other events in between.
 */
module Responder {
  import opened Bytes
  import opened Folding
  import opened Stanzas
  import opened Sessions
  import opened Offers
  import opened SharedError
  import opened Sender
  import opened Sink
  import opened Handlers
  import opened HandlerTheorems
  import opened NullReads
  import opened Isolation
  import opened Ready
  import T = Transfer
  import TransferProofs
  import TransferTheorems

  /** What the party knows of the transfer is what the lone receiver knows. */
  ghost predicate Shows(v: View, p: Place, r: T.Receiver) {
    && v.file == File(true, r.sink, r.blocks)
    && (r.listed <==> v.session.Some?)
    && (r.listed ==> Peer(v.session.value) == p.peer)
  }

  ghost predicate Represents(h: Hub, p: Place, r: T.Receiver) {
    Home(h, p) && p.file in h.files && Shows(ViewOf(h, p), p, r)
  }

  /** The event a stanza of the transfer is for the party that receives it. */
  function EventOf(w: T.World, p: Place, r: T.Receiver, st: Stanza): Event {
    match st
    case Data(_, _, payload) => Packet(p.ibb, payload, w.faults(r.blocks))
    case HashInfo(hash) => SessionInfo(p.sid, p.peer, Some(Info(INFO_NS, "hash", hash)))
    case Terminate => Event.Terminate(p.sid, p.peer)
  }

  function EffectOf(reply: Reply): Effect {
    match reply
    case DataAck => Effect.Ack
    case Ack => Effect.Ack
    case UnknownSession => Refuse("item-not-found")
    case UnsupportedInfo => Refuse("feature-not-implemented")
  }

  lemma StanzaStep(v: View, w: T.World, p: Place, r: T.Receiver, st: Stanza)
    requires Shows(v, p, r)
    ensures OwnEvent(EventOf(w, p, r, st), p)
    ensures Shows(ViewStep(v, EventOf(w, p, r, st), p), p, T.Receive(w, r, st).0)
  {
  }

  /** Every stanza does to the content what it does to the lone receiver, and is answered in the same way (a stanza
      for a session that has gone, as long as its key has not been listed again). That every listed content has its
      application half is so over every run. */
  lemma ReceiverIsContent(h: Hub, loaded: Loaded, w: T.World, p: Place, r: T.Receiver, st: Stanza)
    requires Represents(h, p, r) && AppsSet(h.book)
    ensures var (g, effects) := Handle(h, loaded, EventOf(w, p, r, st));
            var (q, reply) := T.Receive(w, r, st);
            && Represents(g, p, q)
            && (r.listed || st.Data? || KeyAt(p) !in AsMap(h.book) ==>
                  effects != [] && effects[|effects| - 1] == EffectOf(reply))
  {
    hide Home, Shows, Handle, EffectOf, ViewOf, ViewStep, FreshSid, Diverts, AppsSet;
    var e := EventOf(w, p, r, st);
    StanzaStep(ViewOf(h, p), w, p, r, st);
    assert FreshSid(h, e) && !Diverts(h, loaded, e, p) by { StanzaIsQuiet(h, loaded, w, p, r, st); }
    HomeIs(h, p);
    OneStep(h, loaded, e, p);
    OthersAreSurvived(h, loaded, e);
    if r.listed || st.Data? || KeyAt(p) !in AsMap(h.book) {
      StanzaIsAnswered(h, loaded, w, p, r, st);
    }
  }

  lemma StanzaIsQuiet(h: Hub, loaded: Loaded, w: T.World, p: Place, r: T.Receiver, st: Stanza)
    ensures var e := EventOf(w, p, r, st);
            FreshSid(h, e) && !Diverts(h, loaded, e, p)
  {
  }

  lemma SessionIsFound(h: Hub, p: Place)
    requires Home(h, p)
    ensures ViewOf(h, p).session.Some? ==> Find(h.book, p.sid, p.peer).Some?
    ensures KeyAt(p) !in AsMap(h.book) ==> Find(h.book, p.sid, p.peer).None?
  {
    hide AsMap, Unique, Fits, Fold;
    FindIsLookup(h.book, p.sid, p.peer);
  }

  lemma DataIsAnswered(h: Hub, p: Place, payload: bytes, fault: WriteChoice)
    requires Home(h, p)
    ensures OnPacket(h, Packet(p.ibb, payload, fault)).1 == [Effect.Ack]
  {
    hide Fits, Unique, WriteBlock, FindByTransport;
  }

  lemma HashIsAnswered(h: Hub, p: Place, hash: string, listed: bool)
    requires Home(h, p) && AppsSet(h.book) && listed == ViewOf(h, p).session.Some?
    requires listed || KeyAt(p) !in AsMap(h.book)
    ensures OnSessionInfo(h, SessionInfo(p.sid, p.peer, Some(Info(INFO_NS, "hash", hash)))).1 ==
              [Refuse(if listed then "feature-not-implemented" else "item-not-found")]
  {
    hide AsMap, Unique, Fits, OwnStream, AppsSet, SetHashes, Fold, SessionOf, UpToBare;
    SessionIsFound(h, p);
    if listed {
      SessionHasContents(h, p);
      AppsOf(h.book, Find(h.book, p.sid, p.peer).value);
    }
  }

  lemma TerminateIsAnswered(h: Hub, p: Place, listed: bool)
    requires Home(h, p) && AppsSet(h.book) && listed == ViewOf(h, p).session.Some?
    requires listed || KeyAt(p) !in AsMap(h.book)
    ensures var effects := OnTerminate(h, Event.Terminate(p.sid, p.peer)).1;
            effects != [] && effects[|effects| - 1] == if listed then Effect.Ack else Refuse("item-not-found")
  {
    hide AsMap, Unique, Fits, OwnStream, AppsSet, StopFiles, Stops, Fold, SessionOf, UpToBare, Without;
    SessionIsFound(h, p);
    if listed {
      AppsOf(h.book, Find(h.book, p.sid, p.peer).value);
    }
  }

  lemma StanzaIsAnswered(h: Hub, loaded: Loaded, w: T.World, p: Place, r: T.Receiver, st: Stanza)
    requires Represents(h, p, r) && AppsSet(h.book)
    requires r.listed || st.Data? || KeyAt(p) !in AsMap(h.book)
    ensures var effects := Handle(h, loaded, EventOf(w, p, r, st)).1;
            effects != [] && effects[|effects| - 1] == EffectOf(T.Receive(w, r, st).1)
  {
    hide Home, AppsSet, ViewOf, OnPacket, OnSessionInfo, OnTerminate, Handle, HandleBlock;
    HomeIs(h, p);
    HandleIs(h, loaded, EventOf(w, p, r, st));
    match st
    case Data(_, _, payload) => DataIsAnswered(h, p, payload, w.faults(r.blocks));
    case HashInfo(hash) => HashIsAnswered(h, p, hash, r.listed);
    case Terminate => TerminateIsAnswered(h, p, r.listed);
  }

  lemma SessionHasContents(h: Hub, p: Place)
    requires Home(h, p) && ViewOf(h, p).session.Some?
    ensures var i := Find(h.book, p.sid, p.peer); i.Some? && h.book[i.value].contents != []
  {
    hide AsMap, Unique, Fits, Fold;
    FindIsLookup(h.book, p.sid, p.peer);
  }

  /** The events of a list of stanzas. */
  function EventsOf(w: T.World, p: Place, stanzas: seq<Stanza>): seq<Event> {
    if stanzas == [] then []
    else
      var prior := stanzas[..|stanzas| - 1];
      EventsOf(w, p, prior) + [EventOf(w, p, T.Received(w, prior), stanzas[|stanzas| - 1])]
  }

  lemma {:induction false} StanzasShow(v: View, w: T.World, p: Place, stanzas: seq<Stanza>)
    requires Shows(v, p, T.NewReceiver(w))
    ensures Shows(ViewAfter(v, EventsOf(w, p, stanzas), p), p, T.Received(w, stanzas))
  {
    if stanzas == [] {
    } else {
      hide Shows, EventOf, ViewStep;
      var prior, last := stanzas[..|stanzas| - 1], stanzas[|stanzas| - 1];
      var events, e := EventsOf(w, p, prior), EventOf(w, p, T.Received(w, prior), last);
      StanzasShow(v, w, p, prior);
      StanzaStep(ViewAfter(v, events, p), w, p, T.Received(w, prior), last);
      assert EventsOf(w, p, stanzas) == events + [e];
      assert (events + [e])[..|events|] == events;
    }
  }

  /** These events bring the transfer exactly the stanzas that have been delivered in that run. */
  ghost predicate Brings(events: seq<Event>, w: T.World, p: Place, n: T.Net) {
    n.taken <= |n.snd.out| && Own(events, p) == EventsOf(w, p, n.snd.out[..n.taken])
  }

  /** A content among any others, with their events mixed in, is at every moment what the lone receiver of the
      transfer is after the same stanzas. */
  lemma ContentFollows(h: Hub, loaded: Loaded, events: seq<Event>, w: T.World, p: Place, steps: seq<T.Step>)
    requires Represents(h, p, T.NewReceiver(w))
    requires FreshFrom(h, loaded, events) && NeverDiverts(h, loaded, events, p)
    requires !Process(h, loaded, events).gone && Brings(events, w, p, T.Run(w, steps))
    ensures Represents(Process(h, loaded, events), p, T.Run(w, steps).rcv)
  {
    hide Home, Shows, FreshFrom, NeverDiverts, Process, ViewOf, ViewAfter, EventsOf, Own;
    var n := T.Run(w, steps);
    TransferProofs.RunInv(w, steps);
    EachIsAlone(h, loaded, events, p);
    OwnDecides(ViewOf(h, p), events, p);
    StanzasShow(ViewOf(h, p), w, p, n.snd.out[..n.taken]);
  }

  /** The file of a content among any others: when its transfer is over and called good, it is the sender's file,
      and it is called good exactly when no block was lost to a fault. */
  lemma FileArrives(h: Hub, loaded: Loaded, events: seq<Event>, w: T.World, p: Place, steps: seq<T.Step>)
    requires Represents(h, p, T.NewReceiver(w))
    requires FreshFrom(h, loaded, events) && NeverDiverts(h, loaded, events, p) && !Process(h, loaded, events).gone
    requires Brings(events, w, p, T.Run(w, steps)) && T.Run(w, steps).rcv.verdict.Some?
    ensures Arrived(Process(h, loaded, events), w, p, Payloads(T.Run(w, steps).snd.out))
  {
    hide Home, FreshFrom, NeverDiverts, Process, ViewOf, Brings, AllTaken;
    ContentFollows(h, loaded, events, w, p, steps);
    assert Represents(Process(h, loaded, events), p, T.Run(w, steps).rcv);
    ViewIs(Process(h, loaded, events), p);
    TransferProofs.RunInv(w, steps);
    TransferTheorems.EndToEnd(w, steps);
    TransferTheorems.VerdictMeansUnlisted(w, T.Run(w, steps));
  }

  ghost predicate Arrived(g: Hub, w: T.World, p: Place, blocks: seq<bytes>) {
    && p.file in g.files && ViewOf(g, p).session.None?
    && var sink := g.files[p.file].sink;
    && (sink.state == ENDING <==> AllTaken(T.NewReceiver(w).sink, blocks, w.faults))
    && (sink.state == ENDING ==> Written(sink) == w.env.file)
  }

  /** An acceptable offer of the sender's file, in a proper session-initiate without clashing names and in which no
      freed error is used, is a receiver that has not been given anything. */
  lemma OfferRepresents(h: Hub, loaded: Loaded, e: Event, i: nat, w: T.World)
    requires Unique(h.book) && Below(h) && !h.gone
    requires e.Initiate? && Proper(h, e) && NoClash(e.offers, loaded) && !ReusesError(e.offers, loaded)
    requires i < |e.offers| && Streamed(e.offers[i], loaded) && LastOnStream(e.offers, loaded, i)
    requires e.offers[i].app.value == FileOffer(|w.env.file|, None)
    ensures Represents(Handle(h, loaded, e).0, PlaceOf(h, e, i), T.NewReceiver(w))
  {
    hide Handle, Home, Unique, Below, Proper, NoClash, ReusesError, LastOnStream, ViewOf;
    InitiateIsReady(h, loaded, e, i);
  }

  /** From the session-initiate to the file: after any events a proper session-initiate offers the file; after it
      the stanzas of the transfer arrive among any other events that do not take its bytestream over, and the party
      survives all of them; then, when the transfer is over and called good, the file of that offer is the sender's
      file. */
  lemma OfferedFileArrives(loaded: Loaded, before: seq<Event>, e: Event, events: seq<Event>, i: nat, w: T.World,
                           steps: seq<T.Step>)
    requires FreshSids(loaded, before + [e] + events) && !Run(loaded, before + [e] + events).gone
    requires e.Initiate? && Proper(Run(loaded, before), e) && NoClash(e.offers, loaded)
    requires i < |e.offers| && Streamed(e.offers[i], loaded) && LastOnStream(e.offers, loaded, i)
    requires e.offers[i].app.value == FileOffer(|w.env.file|, None)
    requires var p := PlaceOf(Run(loaded, before), e, i);
             && NeverDiverts(Run(loaded, before + [e]), loaded, events, p)
             && Brings(events, w, p, T.Run(w, steps))
    requires T.Run(w, steps).rcv.verdict.Some?
    ensures Arrived(Run(loaded, before + [e] + events), w, PlaceOf(Run(loaded, before), e, i),
                    Payloads(T.Run(w, steps).snd.out))
  {
    hide Unique, Below, Proper, NoClash, LastOnStream, NeverDiverts, Brings, Arrived, FreshFrom, Represents, T.Run,
         Payloads, Handle, AllTaken, ReusesError;
    var h := Run(loaded, before);
    var g := Run(loaded, before + [e]);
    FreshSplit(EMPTY_HUB, loaded, before + [e], events);
    FreshSplit(EMPTY_HUB, loaded, before, [e]);
    EmptyIsUnique();
    KeysStayDistinct(EMPTY_HUB, loaded, before);
    RunIsBelow(loaded, before);
    ProcessSplit(EMPTY_HUB, loaded, before + [e], events);
    assert (before + [e])[..|before|] == before;
    assert g == Handle(h, loaded, e).0;
    LivedThrough(h, g, loaded, e, events);
    OfferRepresents(h, loaded, e, i, w);
    FileArrives(g, loaded, events, w, PlaceOf(h, e, i), steps);
  }

  /** Who is alive at the end was alive before, and what it survived did not use a freed error. */
  lemma LivedThrough(h: Hub, g: Hub, loaded: Loaded, e: Event, events: seq<Event>)
    requires g == Handle(h, loaded, e).0 && !Process(g, loaded, events).gone && e.Initiate? && Proper(h, e)
    ensures !h.gone && !g.gone && !ReusesError(e.offers, loaded)
  {
    hide Handle, ReusesError, Proper;
    if g.gone {
      GoneIsForever(g, loaded, events);
    }
    HandleIs(h, loaded, e);
    InitiateIsFatalIff(h, loaded, e);
  }
}
