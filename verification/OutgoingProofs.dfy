/** What one move does to an outgoing transfer, seen from the session layer. */
module OutgoingProofs {
  import opened Bytes
  import opened Folding
  import opened Sessions
  import opened Offers
  import opened SharedError
  import opened Handlers
  import opened HandlerTheorems
  import opened Isolation
  import opened Outgoing
  import S = Sender

  // ---------------------------------------------------------------- the pipeline

  lemma {:induction false} PullKeeps(env: S.Env, s: S.Sender)
    requires s.pos <= |env.file| && s.md5.Some?
    ensures S.Pull(env, s).blocksize == s.blocksize && S.Pull(env, s).active == s.active
    decreases |env.file| - s.pos
  {
    var (r, k) := S.ReadRetry(env, s.pos, s.attempts, S.READ_TRIES);
    if r.Normal? {
      var t := s.(attempts := k, stalled := false);
      var u := S.Enqueue(S.CountRead(t, r.data), r.data);
      if |u.queue| < u.blocksize {
        PullKeeps(env, u);
      }
    }
  }

  // ---------------------------------------------------------------- a session-accept

  lemma {:induction false} SingleAccept(c: Content, sizes: map<Address, nat>, items: seq<AcceptItem>, s: S.Sender,
                                        t: Address)
    requires c.trans == Some(t) && t in sizes && c.state != ENDED
    requires s.listed && s.blocksize == sizes[t] && s.active == (c.state == ACTIVE)
    ensures var a, r := AcceptAll(Accepting([c], sizes, false), items), AcceptItems(s, c.name, items);
            && !a.dead && a.contents == [c.(state := if r.active then ACTIVE else c.state)] && t in a.sizes
            && r == s.(active := r.active, blocksize := a.sizes[t]) && (s.active ==> r.active)
  {
    if items == [] {
      assert c == c.(state := if s.active then ACTIVE else c.state);
    } else {
      var prior, item := items[..|items| - 1], items[|items| - 1];
      SingleAccept(c, sizes, prior, s, t);
      var a := AcceptAll(Accepting([c], sizes, false), prior);
      if item.name == c.name {
        FindContentAt(a.contents, item.name, 0);
      }
    }
  }

  lemma {:induction false} SizesElsewhere(a: Accepting, items: seq<AcceptItem>, t: Address)
    requires t in a.sizes && forall c :: c in a.contents ==> c.trans != Some(t)
    ensures var r := AcceptAll(a, items);
            && t in r.sizes && r.sizes[t] == a.sizes[t]
            && forall c :: c in r.contents ==> c.trans != Some(t)
  {
    if items == [] {
    } else {
      SizesElsewhere(a, items[..|items| - 1], t);
    }
  }

  // ---------------------------------------------------------------- block sizes, and the kind of a file

  lemma {:induction false} NewSizesKeep(sizes: map<Address, nat>, offers: seq<Offer>, loaded: Loaded, base: Address,
                                        t: Address)
    requires t in sizes && t < base
    ensures var after := NewSizes(sizes, offers, loaded, base);
            t in after && after[t] == sizes[t]
  {
    if offers == [] {
    } else {
      NewSizesKeep(sizes, offers[..|offers| - 1], loaded, base, t);
    }
  }

  /** The sizes after an accept of this session. */
  ghost function AcceptedSizes(h: Hub, e: Event, p: Place): map<Address, nat>
    requires e.Accept? && KeyAt(p) in AsMap(h.book)
  {
    AcceptAll(Accepting(AsMap(h.book)[KeyAt(p)].contents, h.sizes, false), e.items).sizes
  }

  /** The block size of the transfer changes only by an accept of its session while it is listed there. */
  lemma SizeStep(h: Hub, loaded: Loaded, e: Event, p: Place)
    requires Settled(h, p) && p.trans in h.sizes
    ensures var sizes := React(h, loaded, e).0.sizes;
            if e.Accept? && e.wellFormed && OwnEvent(e, p) && SessionOf(AsMap(h.book), p).Some?
            then sizes == AcceptedSizes(h, e, p)
            else p.trans in sizes && sizes[p.trans] == h.sizes[p.trans]
  {
    hide Meant, AddAll, AcceptAll, NewIbbs, NewFiles, NewSizes, SetHashes, StopFiles, Stops, UpToBare, ReusesError,
         AsMap, Unique, Fold, Without, FindByTransport;
    if e.Initiate? {
      NewSizesKeep(h.sizes, e.offers, loaded, h.next, p.trans);
    } else if e.Accept? {
      var i := Find(h.book, e.sid, e.from);
      FindIsLookup(h.book, e.sid, e.from);
      if i.Some? && !(OwnEvent(e, p) && SessionOf(AsMap(h.book), p).Some?) {
        var contents := h.book[i.value].contents;
        assert forall c :: c in contents ==> FitsOne(Key(e.sid, Fold(e.from)), c, p);
        SizesElsewhere(Accepting(contents, h.sizes, false), e.items, p.trans);
      }
    }
  }

  /** A file keeps its direction. */
  lemma KindStep(h: Hub, loaded: Loaded, e: Event, a: Address)
    requires a in h.files && a < h.next
    ensures var files := React(h, loaded, e).0.files;
            a in files && files[a].incoming == h.files[a].incoming
  {
    hide Meant, AddAll, AcceptAll, NewIbbs, NewFiles, NewSizes, SetHashes, StopFiles, Stops, UpToBare, ReusesError,
         Without, FindByTransport, Fold;
    match e
    case Initiate(_, _, _, _, _, _) => NewFilesKeep(h.files, e.offers, loaded, h.next, a);
    case NewOutgoing(_, _, _, _, _, _) =>
    case Accept(_, _, _, _) =>
    case SessionInfo(sid, from, info) =>
      var i := Find(h.book, sid, from);
      if i.Some? && info.Some? {
        SetHashesAt(h.files, h.book[i.value].contents, info.value.value, a);
      }
    case Terminate(sid, from) =>
      var i := Find(h.book, sid, from);
      if i.Some? {
        StopFilesAt(h.files, h.book[i.value].contents, a);
      }
    case SentAll(_, _, _) =>
    case BlockAcked(_, _, _) =>
    case Packet(_, _, _) =>
  }

  /** What any event that is survived leaves of an outgoing transfer. */
  lemma HubStep(h: Hub, loaded: Loaded, e: Event, p: Place)
    requires Settled(h, p) && p.trans in h.sizes && FreshSid(h, e) && !Handle(h, loaded, e).0.gone
    ensures var g := Handle(h, loaded, e).0;
            && Settled(g, p) && g.files[p.file].incoming == h.files[p.file].incoming
            && SessionOf(AsMap(g.book), p) == ViewStep(ViewOf(h, p), e, p).session
            && (if e.Accept? && e.wellFormed && OwnEvent(e, p) && SessionOf(AsMap(h.book), p).Some?
                then g.sizes == AcceptedSizes(h, e, p)
                else p.trans in g.sizes && g.sizes[p.trans] == h.sizes[p.trans])
  {
    hide *;
    HomeIs(h, p);
    HandleIs(h, loaded, e);
    HandleMap(h, loaded, e);
    SessionStep(h, loaded, e, p);
    SizeStep(h, loaded, e, p);
    KindStep(h, loaded, e, p.file);
    NextGrows(h, loaded, e);
    HomeIs(Handle(h, loaded, e).0, p);
  }
}
