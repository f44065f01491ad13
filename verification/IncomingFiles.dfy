/** What an incoming file consists of while other sessions come and go, and what happens to its late packets. */
module IncomingFiles {
  import opened Bytes
  import opened Sessions
  import opened Offers
  import opened Sink
  import opened Handlers
  import opened HandlerTheorems
  import opened Isolation

  /** The payloads of one bytestream. */
  function PayloadsOf(events: seq<Event>, ibb: string): seq<bytes> {
    if events == [] then []
    else
      var last := events[|events| - 1];
      PayloadsOf(events[..|events| - 1], ibb) + if last.Packet? && last.sid == ibb then [last.payload] else []
  }

  /** The digest announced last for the session. */
  function HashAfter(hash: Option<string>, events: seq<Event>, p: Place): Option<string> {
    if events == [] then hash
    else
      var last := events[|events| - 1];
      if last.SessionInfo? && OwnEvent(last, p) && last.info.Some? && IsHash(last.info.value)
      then Some(last.info.value.value) else HashAfter(hash, events[..|events| - 1], p)
  }

  /** The k-th packet of the bytestream meets fault `faults(k)`. */
  ghost predicate FaultsAre(events: seq<Event>, ibb: string, faults: nat -> WriteChoice) {
    forall i :: 0 <= i < |events| && events[i].Packet? && events[i].sid == ibb ==>
      events[i].fault == faults(|PayloadsOf(events[..i], ibb)|)
  }

  lemma FaultsSnoc(prior: seq<Event>, last: Event, ibb: string, faults: nat -> WriteChoice)
    requires FaultsAre(prior + [last], ibb, faults)
    ensures FaultsAre(prior, ibb, faults)
    ensures last.Packet? && last.sid == ibb ==> last.fault == faults(|PayloadsOf(prior, ibb)|)
  {
    hide PayloadsOf;
    var all := prior + [last];
    assert forall i :: 0 <= i < |prior| ==> all[..i] == prior[..i] && all[i] == prior[i];
    assert all[|prior|] == last && all[..|prior|] == prior;
  }

  lemma BlockIgnoresHash(s: Sink, hash: Option<string>, data: bytes, w: WriteChoice)
    ensures HandleBlock(s.(hash := hash), data, w) == HandleBlock(s, data, w).(hash := hash)
  {
  }

  ghost predicate Fed(before: View, after: View, own: seq<bytes>, hash: Option<string>, faults: nat -> WriteChoice) {
    after.file == File(true, Deliver(before.file.sink, own, faults).(hash := hash), |own|)
  }

  lemma FedStep(before: View, after: View, e: Event, p: Place, own: seq<bytes>, hash: Option<string>,
                faults: nat -> WriteChoice)
    requires after.session.Some? && ViewStep(after, e, p).session.Some?
    requires Fed(before, after, own, hash, faults)
    requires e.Packet? && e.sid == p.ibb ==> e.fault == faults(|own|)
    ensures Fed(before, ViewStep(after, e, p), if e.Packet? && e.sid == p.ibb then own + [e.payload] else own,
                if e.SessionInfo? && OwnEvent(e, p) && e.info.Some? && IsHash(e.info.value)
                then Some(e.info.value.value) else hash,
                faults)
  {
    hide HandleBlock, Deliver;
    if e.Packet? && e.sid == p.ibb {
      DeliverSnoc(before.file.sink, own, e.payload, faults);
      BlockIgnoresHash(Deliver(before.file.sink, own, faults), hash, e.payload, e.fault);
    }
  }

  lemma {:induction false} ViewIsFed(v: View, events: seq<Event>, p: Place, faults: nat -> WriteChoice)
    requires v.session.Some? && v.file == File(true, v.file.sink, 0)
    requires FaultsAre(events, p.ibb, faults) && ViewAfter(v, events, p).session.Some?
    ensures Fed(v, ViewAfter(v, events, p), PayloadsOf(events, p.ibb), HashAfter(v.file.sink.hash, events, p), faults)
  {
    if events == [] {
    } else {
      hide FaultsAre, ViewStep, Fed, OwnEvent;
      var prior, last := events[..|events| - 1], events[|events| - 1];
      assert events == prior + [last];
      FaultsSnoc(prior, last, p.ibb, faults);
      GoneIsGone(ViewAfter(v, prior, p), last, p);
      ViewIsFed(v, prior, p, faults);
      FedStep(v, ViewAfter(v, prior, p), last, p, PayloadsOf(prior, p.ibb), HashAfter(v.file.sink.hash, prior, p),
              faults);
      assert PayloadsOf(prior, p.ibb) + [] == PayloadsOf(prior, p.ibb);
    }
  }

  /** Once a content has gone nothing lists it again or touches its file. */
  lemma GoneIsGone(v: View, e: Event, p: Place)
    ensures v.session.None? ==> ViewStep(v, e, p) == v
  {
  }

  /** As long as the content is listed, its file is what the packets of its bytestream make of it, one block after
      the other and under any faults, whatever else happens in between; its digest is the one announced last in
      its session. */
  lemma FileIsOwnPackets(h: Hub, loaded: Loaded, events: seq<Event>, p: Place, faults: nat -> WriteChoice)
    requires Home(h, p) && FreshFrom(h, loaded, events) && NeverDiverts(h, loaded, events, p)
    requires !Process(h, loaded, events).gone
    requires ViewOf(h, p).session.Some? && h.files[p.file] == File(true, h.files[p.file].sink, 0)
    requires FaultsAre(events, p.ibb, faults)
    ensures var g := Process(h, loaded, events);
            var own, sink := PayloadsOf(events, p.ibb), h.files[p.file].sink;
            && p.file in g.files
            && (ViewOf(g, p).session.Some? ==>
                  g.files[p.file] ==
                    File(true, Deliver(sink, own, faults).(hash := HashAfter(sink.hash, events, p)), |own|))
  {
    hide Home, FreshFrom, NeverDiverts, FaultsAre, Process;
    EachIsAlone(h, loaded, events, p);
    if ViewOf(Process(h, loaded, events), p).session.Some? {
      ViewIsFed(ViewOf(h, p), events, p, faults);
    }
  }

  /** When no write fails, the file is the concatenation of the payloads that carry its identifier. */
  lemma FileIsConcatenation(h: Hub, loaded: Loaded, events: seq<Event>, p: Place)
    requires Home(h, p) && FreshFrom(h, loaded, events) && NeverDiverts(h, loaded, events, p)
    requires !Process(h, loaded, events).gone && ViewOf(h, p).session.Some?
    requires var f := h.files[p.file]; f == File(true, NewSink(f.sink.size, f.sink.hash), 0)
    requires forall i :: 0 <= i < |events| && events[i].Packet? && events[i].sid == p.ibb ==> events[i].fault == Good
    ensures var g := Process(h, loaded, events);
            && p.file in g.files
            && (ViewOf(g, p).session.Some? ==> Written(g.files[p.file].sink) == Join(PayloadsOf(events, p.ibb)))
  {
    hide FreshFrom, NeverDiverts, Process, ViewOf, Fits, Unique, OwnStream;
    var faults: nat -> WriteChoice := k => Good;
    FileIsOwnPackets(h, loaded, events, p, faults);
    Accounting(h.files[p.file].sink, PayloadsOf(events, p.ibb), faults);
    assert AllTaken(h.files[p.file].sink, PayloadsOf(events, p.ibb), faults);
  }

  // ---------------------------------------------------------------- late packets

  lemma {:induction false} GoneForGood(v: View, events: seq<Event>, p: Place)
    requires v.session.None?
    ensures ViewAfter(v, events, p) == v
  {
    if events == [] {
    } else {
      GoneForGood(v, events[..|events| - 1], p);
    }
  }

  lemma {:induction false} ViewSplit(v: View, a: seq<Event>, b: seq<Event>, p: Place)
    ensures ViewAfter(v, a + b, p) == ViewAfter(ViewAfter(v, a, p), b, p)
  {
    if b == [] {
      assert a + b == a;
    } else {
      hide ViewStep;
      assert (a + b)[..|a + b| - 1] == a + b[..|b| - 1];
      ViewSplit(v, a, b[..|b| - 1], p);
    }
  }

  lemma TerminateEnds(v: View, end: Event, p: Place)
    requires end.Terminate? && OwnEvent(end, p)
    ensures ViewAfter(v, [end], p).session.None?
  {
    assert [end][..0] == [];
    assert ViewAfter(v, [], p) == v;
  }

  /** After the session has been terminated, in whatever spelling of the peer's name, and whatever follows, a
      packet of its bytestream is acknowledged and changes nothing at all. */
  lemma LatePacket(h: Hub, loaded: Loaded, end: Event, events: seq<Event>, late: Event, p: Place)
    requires Home(h, p) && end.Terminate? && OwnEvent(end, p) && late.Packet? && late.sid == p.ibb
    requires FreshFrom(h, loaded, [end] + events) && NeverDiverts(h, loaded, [end] + events, p)
    requires !Process(h, loaded, [end] + events).gone
    ensures var g := Process(h, loaded, [end] + events);
            OnPacket(g, late) == (g, [Ack])
  {
    hide FreshFrom, NeverDiverts, Process, ViewAfter, OwnEvent, Home;
    var g := Process(h, loaded, [end] + events);
    EachIsAlone(h, loaded, [end] + events, p);
    TerminateEnds(ViewOf(h, p), end, p);
    ViewSplit(ViewOf(h, p), [end], events, p);
    GoneForGood(ViewAfter(ViewOf(h, p), [end], p), events, p);
    UnlistedPacket(g, late, p);
  }

  lemma UnlistedPacket(h: Hub, late: Event, p: Place)
    requires Home(h, p) && ViewOf(h, p).session.None? && late.Packet? && late.sid == p.ibb
    ensures OnPacket(h, late) == (h, [Ack])
  {
    hide AsMap, Unique;
    FoundInMap(h.book, p.trans);
  }
}
