/**
  The session layer as the code runs it: lists searched and changed in place, one handler for each action. Where a
  handler does something that is fatal, it ends there, and its contract says nothing about the state it leaves.
 */
module Jingle {
  import opened Bytes
  import opened Folding
  import opened Ibb
  import opened Sessions
  import opened Offers
  import opened SharedError
  import opened Sink
  import opened Handlers

  lemma FindAt(book: Book, sid: string, from: string, i: nat)
    requires i < |book| && KeyOf(book[i]) == Key(sid, Fold(from))
    requires forall j :: 0 <= j < i ==> KeyOf(book[j]) != Key(sid, Fold(from))
    ensures Find(book, sid, from) == Some(i)
  {
  }

  // ---------------------------------------------------------------- the rest of a list

  lemma ContentsFrom(contents: seq<Content>, j: nat, t: Address)
    requires j < |contents|
    ensures FirstWithTransport(contents[j..], t) ==
              if contents[j].trans == Some(t) then Some(contents[j]) else FirstWithTransport(contents[j + 1..], t)
  {
    assert contents[j..][0] == contents[j] && contents[j..][1..] == contents[j + 1..];
  }

  lemma NoContents(contents: seq<Content>, j: nat, t: Address)
    requires j == |contents|
    ensures FirstWithTransport(contents[j..], t) == None
  {
  }

  lemma SessionsFrom(book: Book, i: nat, t: Address)
    requires i < |book|
    ensures var r := FirstWithTransport(book[i].contents, t);
            FindByTransport(book[i..], t) == if r.Some? then r else FindByTransport(book[i + 1..], t)
  {
    assert book[i..][0] == book[i] && book[i..][1..] == book[i + 1..];
  }

  lemma NoSessions(book: Book, i: nat, t: Address)
    requires i == |book|
    ensures FindByTransport(book[i..], t) == None
  {
  }

  /** After a NULL read the rest of the items changes nothing. */
  lemma {:induction false} NothingAfterNull(a: Accepting, items: seq<AcceptItem>, k: nat)
    requires k <= |items| && AcceptAll(a, items[..k]).dead
    ensures AcceptAll(a, items) == AcceptAll(a, items[..k])
  {
    if k == |items| {
      assert items[..k] == items;
    } else {
      var n := |items| - 1;
      assert items[..n][..k] == items[..k];
      NothingAfterNull(a, items[..n], k);
    }
  }

  lemma SetHashesNone(files: map<Address, File>, contents: seq<Content>, value: string)
    ensures SetHashes(files, contents[..0], value) == files
  {
  }

  lemma SetHashesNext(files: map<Address, File>, contents: seq<Content>, k: nat, value: string)
    requires k < |contents|
    ensures SetHashes(files, contents[..k + 1], value) ==
              SetHash(SetHashes(files, contents[..k], value), contents[k].app, value)
  {
    assert contents[..k + 1][..k] == contents[..k];
  }

  lemma EndsFatally(effects: seq<Effect>)
    requires effects != [] && effects[|effects| - 1] == NullRead
    ensures Fatal(effects)
  {
  }

  lemma {:induction false} BareAt(contents: seq<Content>, n: nat)
    requires n < |contents| && contents[n].app.None? && forall j :: 0 <= j < n ==> contents[j].app.Some?
    ensures UpToBare(contents) == contents[..n] && !AppsThere(contents)
  {
    assert contents[n] in contents;
    if n > 0 {
      BareAt(contents[1..], n - 1);
      assert [contents[0]] + contents[1..][..n - 1] == contents[..n];
    }
  }

  lemma NoneIsBare(contents: seq<Content>)
    requires forall j :: 0 <= j < |contents| ==> contents[j].app.Some?
    ensures UpToBare(contents) == contents && AppsThere(contents)
  {
  }

  lemma ErrorAtStart(before: ErrorState, offers: seq<Offer>, loaded: Loaded)
    ensures ErrorAfter(before, offers[..0], loaded) == before
  {
  }

  lemma ErrorNext(before: ErrorState, offers: seq<Offer>, loaded: Loaded, k: nat)
    requires k < |offers|
    ensures ErrorAfter(before, offers[..k + 1], loaded) ==
              ErrorStep(ErrorAfter(before, offers[..k], loaded), offers[k], loaded)
  {
    assert offers[..k + 1][..k] == offers[..k];
  }

  /** A freed error that has been used once makes all that follows undefined. */
  lemma {:induction false} ReusedStays(before: ErrorState, offers: seq<Offer>, loaded: Loaded, k: nat)
    requires k <= |offers| && ErrorAfter(before, offers[..k], loaded) == Reused
    ensures ErrorAfter(before, offers, loaded) == Reused
  {
    if k == |offers| {
      assert offers[..k] == offers;
    } else {
      var n := |offers| - 1;
      assert offers[..n][..k] == offers[..k];
      ReusedStays(before, offers[..n], loaded, k);
    }
  }

  class Jingle {
    const loaded: Loaded
    var sessions: Book
    var ibbs: map<string, Address>
    var sizes: map<Address, nat>
    var files: map<Address, File>
    var next: Address

    constructor (loaded: Loaded)
      ensures View() == EMPTY_HUB && this.loaded == loaded
    {
      this.loaded := loaded;
      sessions, ibbs, sizes, files, next := [], map[], map[], map[], 0;
    }

    function View(): Hub
      reads this
    {
      Hub(sessions, ibbs, sizes, files, next, false)
    }

    // ---------------------------------------------------------------- searches

    method FindBySid(sid: string, from: string) returns (r: Option<nat>)
      ensures r == Find(sessions, sid, from)
    {
      var i := 0;
      while i < |sessions|
        invariant 0 <= i <= |sessions|
        invariant forall j :: 0 <= j < i ==> KeyOf(sessions[j]) != Key(sid, Fold(from))
      {
        if sessions[i].sid == sid && Fold(Peer(sessions[i])) == Fold(from) {
          FindAt(sessions, sid, from, i);
          return Some(i);
        }
        i := i + 1;
      }
      return None;
    }

    method FindSessionContent(s: Session, name: string) returns (r: Option<nat>)
      ensures r == FindContent(s.contents, name)
    {
      var i := 0;
      while i < |s.contents|
        invariant 0 <= i <= |s.contents|
        invariant forall j :: 0 <= j < i ==> s.contents[j].name != name
      {
        if s.contents[i].name == name {
          FindContentAt(s.contents, name, i);
          return Some(i);
        }
        i := i + 1;
      }
      return None;
    }

    method ContentByTransport(t: Address) returns (r: Option<Content>)
      ensures r == FindByTransport(sessions, t)
    {
      hide FindByTransport, FirstWithTransport;
      var i := 0;
      while i < |sessions|
        invariant 0 <= i <= |sessions|
        invariant FindByTransport(sessions, t) == FindByTransport(sessions[i..], t)
      {
        var j := 0;
        while j < |sessions[i].contents|
          invariant 0 <= j <= |sessions[i].contents|
          invariant FirstWithTransport(sessions[i].contents, t) == FirstWithTransport(sessions[i].contents[j..], t)
        {
          ContentsFrom(sessions[i].contents, j, t);
          if sessions[i].contents[j].trans == Some(t) {
            SessionsFrom(sessions, i, t);
            return Some(sessions[i].contents[j]);
          }
          j := j + 1;
        }
        NoContents(sessions[i].contents, j, t);
        SessionsFrom(sessions, i, t);
        i := i + 1;
      }
      NoSessions(sessions, i, t);
      return None;
    }

    // ---------------------------------------------------------------- changes to a content list

    ghost predicate OnlyContents(before: Book, i: nat, contents: seq<Content>)
      reads this
    {
      i < |before| && sessions == before[i := before[i].(contents := contents)]
    }

    /** `session_remove_sessioncontent`: the number of contents left, or 0 when there is none of that name. */
    method RemoveContent(i: nat, name: string) returns (left: nat)
      requires i < |sessions|
      modifies this`sessions
      ensures var c := old(sessions)[i].contents;
              var j := FindContent(c, name);
              if j.None? then sessions == old(sessions) && left == 0
              else OnlyContents(old(sessions), i, c[..j.value] + c[j.value + 1..]) && left == |c| - 1
    {
      var s := sessions[i];
      var j := FindSessionContent(s, name);
      if j.None? {
        return 0;
      }
      var contents := s.contents[..j.value] + s.contents[j.value + 1..];
      sessions := sessions[i := s.(contents := contents)];
      return |contents|;
    }

    method ChangeState(i: nat, name: string, state: ContentState)
      requires i < |sessions|
      modifies this`sessions
      ensures var c := old(sessions)[i].contents;
              var j := FindContent(c, name);
              if j.None? then sessions == old(sessions)
              else OnlyContents(old(sessions), i, c[j.value := c[j.value].(state := state)])
    {
      var s := sessions[i];
      var j := FindSessionContent(s, name);
      if j.Some? {
        sessions := sessions[i := s.(contents := s.contents[j.value := s.contents[j.value].(state := state)])];
      }
    }

    /** A half goes to the first content of that name. */
    method AttachApp(i: nat, name: string, app: Address)
      requires i < |sessions|
      modifies this`sessions
      ensures OnlyContents(old(sessions), i, SetApp(old(sessions)[i].contents, name, app))
    {
      var s := sessions[i];
      var j := FindSessionContent(s, name);
      if j.Some? {
        sessions := sessions[i := s.(contents := s.contents[j.value := s.contents[j.value].(app := Some(app))])];
      }
    }

    method AttachTrans(i: nat, name: string, trans: Address)
      requires i < |sessions|
      modifies this`sessions
      ensures OnlyContents(old(sessions), i, SetTrans(old(sessions)[i].contents, name, trans))
    {
      var s := sessions[i];
      var j := FindSessionContent(s, name);
      if j.Some? {
        sessions := sessions[i := s.(contents := s.contents[j.value := s.contents[j.value].(trans := Some(trans))])];
      }
    }

    /** `session_add_content_from_jinglecontent`: whether the content was added, and the caller's error variable. */
    method AddContent(i: nat, o: Offer, at: Address, err: ErrorState) returns (added: bool, err': ErrorState)
      requires i < |sessions| && Known(o, loaded)
      modifies this`sessions, this`ibbs, this`sizes, this`files
      ensures OnlyContents(old(sessions), i, AddOffer(old(sessions)[i].contents, o, loaded, at))
      ensures files == NewFile(old(files), o, loaded, at)
      ensures ibbs == NewIbb(old(ibbs), o, loaded, at)
      ensures sizes == NewSize(old(sizes), o, loaded, at)
      ensures added == Accepted(o, loaded) && err' == if added then err else Propagate(err)
    {
      hide SetApp, SetTrans;
      var s := sessions[i];
      sessions := sessions[i := s.(contents := s.contents + [Content(at, o.name, PENDING, None, None)])];
      if o.app.None? {
        sessions := sessions[i := s];
        return false, Propagate(err);
      }
      files := files[at + 1 := File(true, NewSink(o.app.value.size, o.app.value.hash), 0)];
      AttachApp(i, o.name, at + 1);
      if o.trans.None? {
        sessions := sessions[i := s.(contents := sessions[i].contents[..|s.contents|])];
        return false, Propagate(err);
      }
      if o.trans.value.IbbOffer? {
        ibbs := ibbs[o.trans.value.sid := at + 2];
        sizes := sizes[at + 2 := o.trans.value.blocksize];
      }
      AttachTrans(i, o.name, at + 2);
      return true, err;
    }

    // ---------------------------------------------------------------- the handlers

    method HandleInitiate(e: Event) returns (effects: seq<Effect>)
      requires e.Initiate?
      modifies this
      ensures effects == OnInitiate(old(View()), loaded, e).1
      ensures !Fatal(effects) ==> View() == OnInitiate(old(View()), loaded, e).0
    {
      hide AddAll, NewIbbs, NewFiles, NewSizes, ErrorAfter;
      if !e.inRoster {
        return [Refuse("service-unavailable")];
      }
      // a creator that is invalid sets the error, and the check passes
      var err := CheckError(e.offers);
      if !e.wellFormed || e.offers == [] {
        return [Refuse("bad-request")];
      }
      var valid := HasSessionDisposition(e.offers);
      if !valid {
        return [Refuse("bad-request")];
      }
      var present := FindBySid(e.sid, e.from);
      if present.Some? {
        return [Refuse("unexpected-request")];
      }
      var i := |sessions|;
      sessions := sessions + [Session(e.sid, INCOMING, e.from, e.to, [])];
      err := AddContents(i, e.offers, err);
      if err == Reused {
        return [Ack, FreedRead];
      }
      assert sessions == old(sessions) + [sessions[i]];
      if sessions[i].contents == [] {
        sessions := sessions[..i];
        return [Ack, SendTerminate(e.to, "unsupported-applications")];
      }
      var complete := AllComplete(sessions[i].contents);
      return [Ack, if complete then AskUser else NullRead];
    }

    /** The loop that puts the question to the user together: it reads both halves of every content, and does not
        get past one that lacks a half. */
    method AllComplete(contents: seq<Content>) returns (complete: bool)
      ensures complete <==> forall c :: c in contents ==> Complete(c)
    {
      for k := 0 to |contents|
        invariant forall j :: 0 <= j < k ==> Complete(contents[j])
      {
        if contents[k].app.None? || contents[k].trans.None? {
          assert contents[k] in contents;
          return false;
        }
      }
      return true;
    }

    method HasSessionDisposition(offers: seq<Offer>) returns (valid: bool)
      ensures valid == SessionDisposition(offers)
    {
      var k := 0;
      valid := false;
      while k < |offers| && !valid
        invariant 0 <= k <= |offers|
        invariant valid ==> SessionDisposition(offers)
        invariant !valid ==> forall j :: 0 <= j < k ==>
          offers[j].disposition != Some("session") && offers[j].disposition != None
      {
        valid := offers[k].disposition == Some("session") || offers[k].disposition == None;
        k := k + 1;
      }
    }

    /** The loop over the offers of a session-initiate. It ends when the freed error is used; then nothing is said
        about the rest. */
    method AddContents(i: nat, offers: seq<Offer>, before: ErrorState) returns (err: ErrorState)
      requires i < |sessions| && sessions[i].contents == [] && before != Reused
      modifies this
      ensures err == Reused <==> ErrorAfter(before, offers, loaded) == Reused
      ensures err != Reused ==>
        && OnlyContents(old(sessions), i, AddAll(offers, loaded, old(next)))
        && files == NewFiles(old(files), offers, loaded, old(next))
        && ibbs == NewIbbs(old(ibbs), offers, loaded, old(next))
        && sizes == NewSizes(old(sizes), offers, loaded, old(next))
        && next == old(next) + 3 * |offers|
    {
      hide AddOffer, NewFile, NewIbb, NewSize, ErrorStep, ErrorAfter;
      var base, k := next, 0;
      err := before;
      ErrorAtStart(before, offers, loaded);
      while k < |offers| && err != Reused
        invariant 0 <= k <= |offers|
        invariant OnlyContents(old(sessions), i, AddAll(offers[..k], loaded, base))
        invariant files == NewFiles(old(files), offers[..k], loaded, base)
        invariant ibbs == NewIbbs(old(ibbs), offers[..k], loaded, base)
        invariant sizes == NewSizes(old(sizes), offers[..k], loaded, base)
        invariant err == ErrorAfter(before, offers[..k], loaded)
        invariant next == base
      {
        assert offers[..k + 1][..k] == offers[..k];
        ErrorNext(before, offers, loaded, k);
        err := AddIfKnown(i, offers[k], base + 3 * k, err);
        k := k + 1;
      }
      if err == Reused {
        ReusedStays(before, offers, loaded, k);
        return;
      }
      assert offers[..k] == offers;
      next := base + 3 * |offers|;
    }

    /** One turn of that loop: both namespaces must be registered, and an error that is set is reported and freed,
        whoever has set it. */
    method AddIfKnown(i: nat, o: Offer, at: Address, before: ErrorState) returns (err: ErrorState)
      requires i < |sessions|
      modifies this`sessions, this`ibbs, this`sizes, this`files
      ensures OnlyContents(old(sessions), i, AddOffer(old(sessions)[i].contents, o, loaded, at))
      ensures files == NewFile(old(files), o, loaded, at)
      ensures ibbs == NewIbb(old(ibbs), o, loaded, at)
      ensures sizes == NewSize(old(sizes), o, loaded, at)
      ensures err == ErrorStep(before, o, loaded)
    {
      err := before;
      if o.appNs !in loaded.apps || o.transNs !in loaded.transports {
        return;
      }
      var added;
      added, err := AddContent(i, o, at, err);
      if err != Clear || !added {
        err := Report(err);
      }
    }

    method HandleAccept(e: Event) returns (effects: seq<Effect>)
      requires e.Accept?
      modifies this`sessions, this`sizes
      ensures (View(), effects) == OnAccept(old(View()), e)
    {
      hide AcceptOne;
      var i := FindBySid(e.sid, e.from);
      if i.None? {
        return [Refuse("item-not-found")];
      }
      if !e.wellFormed {
        return [Refuse("bad-request")];
      }
      ghost var before := sessions;
      ghost var start := Accepting(before[i.value].contents, sizes, false);
      var k, dead := 0, false;
      while k < |e.items| && !dead
        invariant 0 <= k <= |e.items|
        invariant AcceptAll(start, e.items[..k]).dead == dead
        invariant AcceptAll(start, e.items[..k]).sizes == sizes
        invariant OnlyContents(before, i.value, AcceptAll(start, e.items[..k]).contents)
      {
        assert e.items[..k + 1][..k] == e.items[..k];
        dead := AcceptContent(i.value, e.items[k]);
        k := k + 1;
      }
      if dead {
        NothingAfterNull(start, e.items, k);
      }
      assert dead || e.items[..k] == e.items;
      return if dead then [Ack, NullRead] else [Ack];
    }

    /** One content of a session-accept; `dead` tells that its transport was read through NULL. */
    method AcceptContent(i: nat, item: AcceptItem) returns (dead: bool)
      requires i < |sessions|
      modifies this`sessions, this`sizes
      ensures var a := AcceptOne(Accepting(old(sessions)[i].contents, old(sizes), false), item);
              OnlyContents(old(sessions), i, a.contents) && sizes == a.sizes && dead == a.dead
    {
      var j := FindSessionContent(sessions[i], item.name);
      if j.None? {
        return false;
      }
      ChangeState(i, item.name, ACTIVE);
      var trans := sessions[i].contents[j.value].trans;
      if trans.None? {
        return true;
      }
      if item.ibb && trans.value in sizes {
        sizes := sizes[trans.value := AcceptedBlockSize(sizes[trans.value], AskedSize(item))];
      }
      return false;
    }

    /** `handle` of the file transfer: 0 stands for handled, 1 for not handled. */
    method AppHandle(app: Option<Address>, info: Info) returns (status: nat)
      modifies this`files
      ensures status == (if IsHash(info) then 0 else 1)
      ensures files == if IsHash(info) then SetHash(old(files), app, info.value) else old(files)
    {
      if info.xmlns == INFO_NS && info.name == "hash" {
        if app.Some? && app.value in files {
          var f := files[app.value];
          files := files[app.value := f.(sink := f.sink.(hash := Some(info.value)))];
        }
        return 0;
      }
      return 1;
    }

    method HandleSessionInfo(e: Event) returns (effects: seq<Effect>)
      requires e.SessionInfo?
      modifies this`files
      ensures effects == OnSessionInfo(old(View()), e).1
      ensures !Fatal(effects) ==> View() == OnSessionInfo(old(View()), e).0
    {
      var i := FindBySid(e.sid, e.from);
      if i.None? {
        return [Refuse("item-not-found")];
      }
      if e.info.None? {
        return [Ack];
      }
      hide SetHashes, SetHash, IsHash;
      var contents, k := sessions[i.value].contents, 0;
      SetHashesNone(files, contents, e.info.value.value);
      while k < |contents|
        invariant 0 <= k <= |contents|
        invariant k > 0 ==> IsHash(e.info.value)
        invariant forall j :: 0 <= j < k ==> contents[j].app.Some?
        invariant files == if IsHash(e.info.value) then SetHashes(old(files), contents[..k], e.info.value.value)
                           else old(files)
      {
        if contents[k].app.None? {
          assert contents[k] in contents;
          return [NullRead];
        }
        var status := AppHandle(contents[k].app, e.info.value);
        if status != 0 {
          return [Ack];
        }
        SetHashesNext(old(files), contents, k, e.info.value.value);
        k := k + 1;
      }
      assert contents[..k] == contents;
      return [Refuse("feature-not-implemented")];
    }

    method HandleTerminate(e: Event) returns (effects: seq<Effect>)
      requires e.Terminate?
      modifies this`sessions, this`files
      ensures effects == OnTerminate(old(View()), e).1
      ensures !Fatal(effects) ==> View() == OnTerminate(old(View()), e).0
    {
      hide Stops, StopFiles, UpToBare, Fatal;
      var r := FindBySid(e.sid, e.from);
      if r.None? {
        return [Refuse("item-not-found")];
      }
      var i := r.value;
      ghost var s := sessions[i];
      var dead;
      effects, dead := StopContents(i, e.from);
      if dead {
        effects := effects + [NullRead];
        assert Fatal(effects) by { EndsFatally(effects); }
        return;
      }
      sessions := sessions[..i] + sessions[i + 1..];
      assert sessions == Without(old(sessions), i);
      effects := effects + [Ack];
      assert [] + [Ack] == [Ack];
    }

    /** The loop over the contents of a terminated session: each one is removed, and stopped when the peer's name
        is spelled as stored; `dead` tells that an application half was read through NULL. */
    method StopContents(i: nat, from: string) returns (effects: seq<Effect>, dead: bool)
      requires i < |sessions|
      modifies this`sessions, this`files
      ensures var s := old(sessions)[i];
              && dead == (from == Peer(s) && !AppsThere(s.contents))
              && effects == (if from == Peer(s) then Stops(UpToBare(s.contents)) else [])
              && (!dead ==>
                    && OnlyContents(old(sessions), i, [])
                    && files == if from == Peer(s) then StopFiles(old(files), s.contents) else old(files))
    {
      effects := [];
      ghost var s, done := sessions[i], 0;
      ghost var all := s.contents;
      while sessions[i].contents != []
        invariant 0 <= done <= |all|
        invariant OnlyContents(old(sessions), i, all[done..])
        invariant from == Peer(s) ==> forall j :: 0 <= j < done ==> all[j].app.Some?
        invariant effects == if from == Peer(s) then Stops(all[..done]) else []
        invariant files == if from == Peer(s) then StopFiles(old(files), all[..done]) else old(files)
        decreases |sessions[i].contents|
      {
        var c := sessions[i].contents[0];
        if from == Peer(sessions[i]) {
          if c.app.None? {
            BareAt(all, done);
            return effects, true;
          }
          effects := effects + [Stop(c.app.value)];
          if c.app.value in files {
            var f := files[c.app.value];
            files := files[c.app.value := f.(sink := Stopped(f.sink))];
          }
        }
        FindContentAt(all[done..], c.name, 0);
        var _ := RemoveContent(i, c.name);
        assert all[..done + 1][..done] == all[..done];
        assert all[done..][..0] + all[done..][1..] == all[done + 1..];
        done := done + 1;
      }
      assert all[..done] == all;
      if from == Peer(s) {
        NoneIsBare(all);
      }
      return effects, false;
    }

    /** The end of a sent file. */
    method HandleSentAll(e: Event) returns (effects: seq<Effect>)
      requires e.SentAll?
      modifies this`sessions
      ensures (View(), effects) == OnSentAll(old(View()), e)
    {
      var i := FindBySid(e.sid, e.from);
      if i.None? {
        return [];
      }
      var s := sessions[i.value];
      var j := FindSessionContent(s, e.name);
      if j.None? {
        return [];
      }
      ChangeState(i.value, e.name, ENDED);
      FindContentAt(sessions[i.value].contents, e.name, j.value);
      var left := RemoveContent(i.value, e.name);
      ghost var rest := s.contents[..j.value] + s.contents[j.value + 1..];
      assert sessions == old(sessions)[i.value := s.(contents := rest)];
      if left == 0 {
        sessions := sessions[..i.value] + sessions[i.value + 1..];
        assert sessions == Without(old(sessions), i.value);
        return [SendTerminate(s.to, "success")];
      }
      return [];
    }

    /** `jingle_ibb_handle_ack_iq_send`, up to where a content that sends goes on. */
    method HandleBlockAcked(e: Event) returns (effects: seq<Effect>)
      requires e.BlockAcked?
      ensures (View(), effects) == OnBlockAcked(View(), e)
    {
      var i := FindBySid(e.sid, e.from);
      if i.None? {
        return [];
      }
      var j := FindSessionContent(sessions[i.value], e.name);
      if j.None? {
        return [NullRead];
      }
      var c := sessions[i.value].contents[j.value];
      if c.trans.None? || c.app.None? {
        return [NullRead];
      }
      if c.trans.value !in sizes {
        return [WrongStruct];
      }
      if c.app.value in files && files[c.app.value].incoming {
        return [];
      }
      return [Resume(e.name)];
    }

    /** `jingle_ibb_handle_iq` and `handle_trans_data`. */
    method HandlePacket(e: Event) returns (effects: seq<Effect>)
      requires e.Packet?
      modifies this`files
      ensures (View(), effects) == OnPacket(old(View()), e)
    {
      if e.sid !in ibbs {
        return [];
      }
      var c := ContentByTransport(ibbs[e.sid]);
      if c.None? {
        return [Ack];
      }
      if c.value.app.Some? && c.value.app.value in files && files[c.value.app.value].incoming {
        var f := files[c.value.app.value];
        f := f.(sink := HandleBlock(f.sink, e.payload, e.fault), blocks := f.blocks + 1);
        files := files[c.value.app.value := f];
      }
      return [Ack];
    }
  }
}
