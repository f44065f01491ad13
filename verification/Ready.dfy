/** From the offer to the file: what a session-initiate accepts is ready to receive, each offer in its own place. */
module Ready {
  import opened Bytes
  import opened Folding
  import opened Sessions
  import opened Offers
  import opened SharedError
  import opened Sink
  import opened Handlers
  import opened HandlerTheorems
  import opened Isolation

  /** Everything listed was allocated before. */
  ghost predicate Below(h: Hub) {
    && (forall c :: Listed(h.book, c) ==> HalvesWithin(c, 0, h.next))
    && (forall t :: t in h.ibbs ==> h.ibbs[t] < h.next)
  }

  // ---------------------------------------------------------------- addresses

  lemma {:induction false} NewIbbsFrom(ibbs: map<string, Address>, offers: seq<Offer>, loaded: Loaded, base: Address,
                                       t: string)
    requires t in NewIbbs(ibbs, offers, loaded, base)
    ensures var a := NewIbbs(ibbs, offers, loaded, base)[t];
            || (t in ibbs && a == ibbs[t])
            || exists j :: 0 <= j < |offers| && Streamed(offers[j], loaded) && offers[j].trans.value.sid == t
                           && a == base + 3 * j + 2
  {
    if offers == [] {
    } else {
      var n := |offers| - 1;
      if !(Streamed(offers[n], loaded) && offers[n].trans.value.sid == t) {
        NewIbbsFrom(ibbs, offers[..n], loaded, base, t);
        assert forall j :: 0 <= j < n ==> offers[..n][j] == offers[j];
      }
    }
  }

  lemma EventBelow(h: Hub, loaded: Loaded, e: Event, c: Content)
    requires Below(h) && Listed(Handle(h, loaded, e).0.book, c)
    ensures HalvesWithin(c, 0, Handle(h, loaded, e).0.next)
  {
    hide AddAll, Handle;
    OriginOf(h, loaded, e, c);
    NextGrows(h, loaded, e);
    if e.Initiate? && Brought(h, loaded, e, c) {
      StoredWithin(e.offers, loaded, h.next, c);
    }
  }

  lemma IbbsBelow(h: Hub, loaded: Loaded, e: Event, t: string)
    requires Below(h) && t in Handle(h, loaded, e).0.ibbs
    ensures Handle(h, loaded, e).0.ibbs[t] < Handle(h, loaded, e).0.next
  {
    hide Meant, AddAll, AcceptAll, NewIbbs, NewFiles, NewSizes, StopFiles, SetHashes, Without, Stops, UpToBare,
         ReusesError;
    if e.Initiate? && Handle(h, loaded, e).0.ibbs != h.ibbs {
      NewIbbsFrom(h.ibbs, e.offers, loaded, h.next, t);
    }
  }

  lemma {:induction false} RunIsBelow(loaded: Loaded, events: seq<Event>)
    ensures Below(Run(loaded, events))
  {
    if events == [] {
    } else {
      hide Handle, HalvesWithin;
      var n := |events| - 1;
      var h, e := Run(loaded, events[..n]), events[n];
      var g := Run(loaded, events);
      assert g == Handle(h, loaded, e).0;
      RunIsBelow(loaded, events[..n]);
      forall c | Listed(g.book, c)
        ensures HalvesWithin(c, 0, g.next)
      {
        EventBelow(h, loaded, e, c);
      }
      forall t | t in g.ibbs
        ensures g.ibbs[t] < g.next
      {
        IbbsBelow(h, loaded, e, t);
      }
    }
  }

  // ---------------------------------------------------------------- what an accepted offer gets

  lemma {:induction false} DescribedIs(offers: seq<Offer>, loaded: Loaded, base: Address, c: Content)
    ensures c in Described(offers, loaded, base) <==>
              exists j :: 0 <= j < |offers| && Accepted(offers[j], loaded) && c == Whole(offers[j], base + 3 * j)
  {
    if offers == [] {
    } else {
      var n := |offers| - 1;
      var prior := offers[..n];
      DescribedIs(prior, loaded, base, c);
      assert forall j :: 0 <= j < n ==> prior[j] == offers[j];
      if j :| 0 <= j < |offers| && Accepted(offers[j], loaded) && c == Whole(offers[j], base + 3 * j) && j < n {
        assert Accepted(prior[j], loaded) && c == Whole(prior[j], base + 3 * j);
      }
      if j :| 0 <= j < |prior| && Accepted(prior[j], loaded) && c == Whole(prior[j], base + 3 * j) {
        assert Accepted(offers[j], loaded) && c == Whole(offers[j], base + 3 * j);
      }
    }
  }

  lemma {:induction false} NewFilesAt(files: map<Address, File>, offers: seq<Offer>, loaded: Loaded, base: Address,
                                      i: nat)
    requires i < |offers| && GetsApp(offers[i], loaded)
    ensures var a, o := base + 3 * i + 1, offers[i].app.value;
            var after := NewFiles(files, offers, loaded, base);
            a in after && after[a] == File(true, NewSink(o.size, o.hash), 0)
  {
    var n := |offers| - 1;
    if i < n {
      NewFilesAt(files, offers[..n], loaded, base, i);
    }
  }

  lemma {:induction false} NewIbbsAt(ibbs: map<string, Address>, offers: seq<Offer>, loaded: Loaded, base: Address,
                                     i: nat)
    requires i < |offers| && Streamed(offers[i], loaded)
    requires forall j :: i < j < |offers| && Streamed(offers[j], loaded) ==>
               offers[j].trans.value.sid != offers[i].trans.value.sid
    ensures var t := offers[i].trans.value.sid;
            var after := NewIbbs(ibbs, offers, loaded, base);
            t in after && after[t] == base + 3 * i + 2
  {
    var n := |offers| - 1;
    if i < n {
      NewIbbsAt(ibbs, offers[..n], loaded, base, i);
    }
  }

  /** The place of the i-th offer of a session-initiate. */
  function PlaceOf(h: Hub, e: Event, i: nat): Place
    requires e.Initiate? && i < |e.offers| && e.offers[i].trans.Some?
  {
    Place(e.sid, e.from, e.offers[i].trans.value.sid, h.next + 3 * i + 1, h.next + 3 * i + 2)
  }

  /** No later acceptable offer names the same bytestream. */
  ghost predicate LastOnStream(offers: seq<Offer>, loaded: Loaded, i: nat)
    requires i < |offers| && Streamed(offers[i], loaded)
  {
    forall j :: i < j < |offers| && Streamed(offers[j], loaded) ==>
      offers[j].trans.value.sid != offers[i].trans.value.sid
  }

  /** A proper initiate without clashing names, and in which the error variable is not used again, is survived.
      After it every accepted offer of an In-Band Bytestream has a file of its own, empty, of the offered size and
      digest, in the session of the offers, and is in its place if and only if no later offer names the same
      bytestream. */
  lemma InitiateIsReady(h: Hub, loaded: Loaded, e: Event, i: nat)
    requires Unique(h.book) && Below(h) && !h.gone
    requires e.Initiate? && Proper(h, e) && NoClash(e.offers, loaded) && !ReusesError(e.offers, loaded)
    requires i < |e.offers| && Streamed(e.offers[i], loaded)
    ensures var g, o, p := Handle(h, loaded, e).0, e.offers[i], PlaceOf(h, e, i);
            && !g.gone
            && (Home(g, p) <==> LastOnStream(e.offers, loaded, i))
            && p.file in g.files
            && ViewOf(g, p) == View(File(true, NewSink(o.app.value.size, o.app.value.hash), 0),
                                    Some(Session(e.sid, INCOMING, e.from, e.to, Described(e.offers, loaded, h.next))))
  {
    var g, p := Handle(h, loaded, e).0, PlaceOf(h, e, i);
    hide *;
    InitiateStores(h, loaded, e);
    InitiateGives(h, loaded, e, i);
    InitiateIsFresh(h, e);
    HandleMap(h, loaded, e);
    StreamIsReady(h, loaded, e, i);
    SessionIsReady(h, loaded, e, i);
    HomeIs(g, p);
    ViewIs(g, p);
  }

  lemma InitiateIsFresh(h: Hub, e: Event)
    requires e.Initiate?
    ensures FreshSid(h, e)
  {
  }

  lemma InitiateGives(h: Hub, loaded: Loaded, e: Event, i: nat)
    requires !Handle(h, loaded, e).0.gone
    requires e.Initiate? && Proper(h, e) && i < |e.offers| && Streamed(e.offers[i], loaded)
    ensures var g, p, o := Handle(h, loaded, e).0, PlaceOf(h, e, i), e.offers[i].app.value;
            && g.ibbs == NewIbbs(h.ibbs, e.offers, loaded, h.next)
            && p.file < g.next && p.trans < g.next
            && p.file in g.files && g.files[p.file] == File(true, NewSink(o.size, o.hash), 0)
  {
    hide Described, NewFiles, NewIbbs, NewSizes, AddAll, ReusesError;
    NewFilesAt(h.files, e.offers, loaded, h.next, i);
  }

  lemma StreamIsReady(h: Hub, loaded: Loaded, e: Event, i: nat)
    requires Below(h) && e.Initiate? && i < |e.offers| && Streamed(e.offers[i], loaded)
    ensures OwnStream(NewIbbs(h.ibbs, e.offers, loaded, h.next), PlaceOf(h, e, i)) <==>
              LastOnStream(e.offers, loaded, i)
  {
    hide NewIbbs, AddAll;
    var after, p := NewIbbs(h.ibbs, e.offers, loaded, h.next), PlaceOf(h, e, i);
    forall t | t in after && after[t] == p.trans
      ensures t == p.ibb
    {
      NewIbbsFrom(h.ibbs, e.offers, loaded, h.next, t);
    }
    if LastOnStream(e.offers, loaded, i) {
      NewIbbsAt(h.ibbs, e.offers, loaded, h.next, i);
    } else {
      StreamIsTaken(h.ibbs, e.offers, loaded, h.next, i);
    }
  }

  /** A later offer that names the bytestream takes it. */
  lemma {:induction false} StreamIsTaken(ibbs: map<string, Address>, offers: seq<Offer>, loaded: Loaded, base: Address,
                                         i: nat)
    requires i < |offers| && Streamed(offers[i], loaded) && !LastOnStream(offers, loaded, i)
    ensures var t, after := offers[i].trans.value.sid, NewIbbs(ibbs, offers, loaded, base);
            t in after && after[t] != base + 3 * i + 2
  {
    var n := |offers| - 1;
    var t, last := offers[i].trans.value.sid, offers[n];
    if !(Streamed(last, loaded) && last.trans.value.sid == t) {
      assert forall j :: 0 <= j < n ==> offers[..n][j] == offers[j];
      StreamIsTaken(ibbs, offers[..n], loaded, base, i);
    }
  }

  lemma SessionIsReady(h: Hub, loaded: Loaded, e: Event, i: nat)
    requires Unique(h.book) && Below(h) && e.Initiate? && Proper(h, e) && NoClash(e.offers, loaded)
    requires i < |e.offers| && Streamed(e.offers[i], loaded)
    ensures var m, p := MapAfter(h, loaded, e), PlaceOf(h, e, i);
            && Fits(m, p)
            && SessionOf(m, p) ==
                 Some(Session(e.sid, INCOMING, e.from, e.to, Described(e.offers, loaded, h.next)))
  {
    hide AddAll, Described, AsMap, Unique, Fold;
    var m, p := AsMap(h.book), PlaceOf(h, e, i);
    StoredAsDescribedIff(e.offers, loaded, h.next);
    var contents := Described(e.offers, loaded, h.next);
    DescribedIs(e.offers, loaded, h.next, Whole(e.offers[i], h.next + 3 * i));
    assert HasFile(contents, p.file);
    forall c | c in contents
      ensures FitsOne(KeyAt(p), c, p)
    {
      DescribedIs(e.offers, loaded, h.next, c);
    }
    forall k, c | k in m && c in m[k].contents
      ensures FitsOne(k, c, p)
    {
      ListedInMap(h.book, k, c);
    }
    FitsPut(m, KeyAt(p), Session(e.sid, INCOMING, e.from, e.to, contents), p);
  }

  lemma ListedInMap(book: Book, k: Key, c: Content)
    requires k in AsMap(book) && c in AsMap(book)[k].contents
    ensures Listed(book, c)
  {
    InMap(book, k);
    var i :| 0 <= i < |book| && book[i] == AsMap(book)[k];
  }
}
