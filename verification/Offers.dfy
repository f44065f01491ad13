/**
  What a session-initiate leaves behind: the contents stored for a list of offers, compared with the contents the
  offers describe.
 */
module Offers {
  import opened Bytes
  import opened Sessions

  datatype FileOffer = FileOffer(size: nat, hash: Option<string>)

  /** A bytestream with the block size its module has stored, or a SOCKS5 bytestream, which is in no table. */
  datatype TransOffer = IbbOffer(sid: string, blocksize: nat) | S5bOffer(sid: string)

  /** A content element; `app` and `trans` are what the modules make of its two halves, None being an error. */
  datatype Offer = Offer(name: string, disposition: Option<string>, creator: Option<string>, appNs: string,
                         transNs: string, app: Option<FileOffer>, trans: Option<TransOffer>)

  /** The namespaces the loaded modules have registered. */
  datatype Loaded = Loaded(apps: set<string>, transports: set<string>)

  predicate Known(o: Offer, loaded: Loaded) {
    o.appNs in loaded.apps && o.transNs in loaded.transports
  }

  predicate GetsApp(o: Offer, loaded: Loaded) {
    Known(o, loaded) && o.app.Some?
  }

  predicate Accepted(o: Offer, loaded: Loaded) {
    GetsApp(o, loaded) && o.trans.Some?
  }

  /** An acceptable offer of a bytestream that is found by its identifier. */
  predicate Streamed(o: Offer, loaded: Loaded) {
    Accepted(o, loaded) && o.trans.value.IbbOffer?
  }

  // ---------------------------------------------------------------- the contents

  /** The halves are attached to the first content of that name. */
  function SetApp(contents: seq<Content>, name: string, app: Address): (r: seq<Content>)
    ensures |r| == |contents|
  {
    var i := FindContent(contents, name);
    if i.None? then contents else contents[i.value := contents[i.value].(app := Some(app))]
  }

  function SetTrans(contents: seq<Content>, name: string, trans: Address): (r: seq<Content>)
    ensures |r| == |contents|
  {
    var i := FindContent(contents, name);
    if i.None? then contents else contents[i.value := contents[i.value].(trans := Some(trans))]
  }

  /** The content and its two halves are allocated at `at`, `at + 1` and `at + 2`. A content whose half cannot be
      parsed is taken off the end of the list again. */
  function AddOffer(contents: seq<Content>, o: Offer, loaded: Loaded, at: Address): seq<Content> {
    if !Known(o, loaded) then contents
    else if o.app.None? then contents
    else
      var withApp := SetApp(contents + [Content(at, o.name, PENDING, None, None)], o.name, at + 1);
      if o.trans.None? then withApp[..|contents|] else SetTrans(withApp, o.name, at + 2)
  }

  function AddAll(offers: seq<Offer>, loaded: Loaded, base: Address): seq<Content> {
    if offers == [] then []
    else
      var n := |offers| - 1;
      AddOffer(AddAll(offers[..n], loaded, base), offers[n], loaded, base + 3 * n)
  }

  /** A pending content with its own two halves. */
  function Whole(o: Offer, at: Address): Content {
    Content(at, o.name, PENDING, Some(at + 1), Some(at + 2))
  }

  /** What one offer describes: a content if it is acceptable. */
  function DescribedOne(o: Offer, loaded: Loaded, at: Address): seq<Content> {
    if Accepted(o, loaded) then [Whole(o, at)] else []
  }

  /** Exactly the acceptable offers, in order, each with its own halves. */
  function Described(offers: seq<Offer>, loaded: Loaded, base: Address): seq<Content> {
    if offers == [] then []
    else
      var n := |offers| - 1;
      Described(offers[..n], loaded, base) + DescribedOne(offers[n], loaded, base + 3 * n)
  }

  /** An earlier acceptable offer has the same name. */
  ghost predicate Clashes(offers: seq<Offer>, loaded: Loaded, j: nat)
    requires j < |offers|
  {
    && GetsApp(offers[j], loaded)
    && exists i :: 0 <= i < j && Accepted(offers[i], loaded) && offers[i].name == offers[j].name
  }

  ghost predicate NoClash(offers: seq<Offer>, loaded: Loaded) {
    forall j :: 0 <= j < |offers| ==> !Clashes(offers, loaded, j)
  }

  lemma NoClashSnoc(offers: seq<Offer>, last: Offer, loaded: Loaded)
    ensures NoClash(offers + [last], loaded) <==>
              NoClash(offers, loaded) && !Clashes(offers + [last], loaded, |offers|)
  {
    var all := offers + [last];
    forall j | 0 <= j < |offers|
      ensures Clashes(all, loaded, j) <==> Clashes(offers, loaded, j)
    {
      assert forall i :: 0 <= i <= j ==> all[i] == offers[i];
    }
  }

  /** What is stored and what is described differ only in the halves; every address stems from the offers. */
  ghost predicate Aligned(stored: seq<Content>, described: seq<Content>, limit: Address) {
    && |stored| == |described|
    && (forall k :: 0 <= k < |stored| ==> stored[k].name == described[k].name)
    && (forall k :: 0 <= k < |described| ==> described[k].app.Some? && described[k].app.value < limit)
  }

  /** Adding an offer changes halves of earlier contents at most, and appends a pending content at the given address
      exactly when the offer is acceptable. */
  lemma AddOfferShape(contents: seq<Content>, o: Offer, loaded: Loaded, at: Address)
    ensures var after := AddOffer(contents, o, loaded, at);
            && |after| == |contents| + (if Accepted(o, loaded) then 1 else 0)
            && (forall k :: 0 <= k < |contents| ==> SameButHalves(contents[k], after[k], at))
            && (Accepted(o, loaded) ==> SameButHalves(Content(at, o.name, PENDING, None, None), after[|contents|], at))
  {
    var bare := Content(at, o.name, PENDING, None, None);
    if GetsApp(o, loaded) {
      var withApp := SetApp(contents + [bare], o.name, at + 1);
      assert forall k :: 0 <= k < |contents| ==> SameButHalves(contents[k], withApp[k], at);
      assert SameButHalves(bare, withApp[|contents|], at);
    }
  }

  predicate SameButHalves(before: Content, after: Content, at: Address) {
    && after.at == before.at && after.name == before.name && after.state == before.state
    && (after.app == before.app || after.app == Some(at + 1))
    && (after.trans == before.trans || after.trans == Some(at + 2))
  }

  lemma AlignedStep(stored: seq<Content>, described: seq<Content>, o: Offer, loaded: Loaded, at: Address)
    requires Aligned(stored, described, at)
    ensures Aligned(AddOffer(stored, o, loaded, at), described + DescribedOne(o, loaded, at), at + 3)
  {
    hide AddOffer, Accepted;
    AddOfferShape(stored, o, loaded, at);
  }

  lemma LastOffer(offers: seq<Offer>, loaded: Loaded, base: Address)
    requires offers != []
    ensures var n := |offers| - 1;
            && AddAll(offers, loaded, base) ==
                 AddOffer(AddAll(offers[..n], loaded, base), offers[n], loaded, base + 3 * n)
            && Described(offers, loaded, base) ==
                 Described(offers[..n], loaded, base) + DescribedOne(offers[n], loaded, base + 3 * n)
  {
  }

  lemma AlignedSnoc(offers: seq<Offer>, loaded: Loaded, base: Address)
    requires offers != []
    requires var n := |offers| - 1;
             Aligned(AddAll(offers[..n], loaded, base), Described(offers[..n], loaded, base), base + 3 * n)
    ensures Aligned(AddAll(offers, loaded, base), Described(offers, loaded, base), base + 3 * |offers|)
  {
    hide *;
    var n := |offers| - 1;
    LastOffer(offers, loaded, base);
    AlignedStep(AddAll(offers[..n], loaded, base), Described(offers[..n], loaded, base), offers[n], loaded,
                base + 3 * n);
    assert base + 3 * n + 3 == base + 3 * |offers|;
  }

  lemma {:induction false} AddAllAligned(offers: seq<Offer>, loaded: Loaded, base: Address)
    ensures Aligned(AddAll(offers, loaded, base), Described(offers, loaded, base), base + 3 * |offers|)
  {
    hide AddOffer, Accepted;
    if offers == [] {
    } else {
      AddAllAligned(offers[..|offers| - 1], loaded, base);
      AlignedSnoc(offers, loaded, base);
    }
  }

  /** An acceptable offer of this name. */
  ghost predicate Named(offers: seq<Offer>, loaded: Loaded, name: string) {
    exists i :: 0 <= i < |offers| && Accepted(offers[i], loaded) && offers[i].name == name
  }

  ghost predicate HasName(contents: seq<Content>, name: string) {
    exists k :: 0 <= k < |contents| && contents[k].name == name
  }

  lemma NamedSnoc(prior: seq<Offer>, last: Offer, loaded: Loaded, name: string)
    ensures Named(prior + [last], loaded, name) <==>
              Named(prior, loaded, name) || (Accepted(last, loaded) && last.name == name)
  {
    var all := prior + [last];
    assert all[|prior|] == last && forall i :: 0 <= i < |prior| ==> all[i] == prior[i];
    if i :| 0 <= i < |prior| && Accepted(prior[i], loaded) && prior[i].name == name {
      assert Accepted(all[i], loaded) && all[i].name == name;
    }
  }

  lemma HasNameSnoc(contents: seq<Content>, c: Content, name: string)
    ensures HasName(contents + [c], name) <==> HasName(contents, name) || c.name == name
    ensures contents + [] == contents
  {
    var all := contents + [c];
    assert all[|contents|] == c && forall k :: 0 <= k < |contents| ==> all[k] == contents[k];
  }

  lemma {:induction false} NameIsStored(offers: seq<Offer>, loaded: Loaded, base: Address, name: string)
    ensures HasName(Described(offers, loaded, base), name) <==> Named(offers, loaded, name)
  {
    if offers == [] {
    } else {
      hide HasName, Named, Accepted;
      var n := |offers| - 1;
      assert offers == offers[..n] + [offers[n]];
      NameIsStored(offers[..n], loaded, base, name);
      NamedSnoc(offers[..n], offers[n], loaded, name);
      HasNameSnoc(Described(offers[..n], loaded, base), Whole(offers[n], base + 3 * n), name);
    }
  }

  lemma NameIsNew(stored: seq<Content>, o: Offer, loaded: Loaded, at: Address)
    requires GetsApp(o, loaded) && FindContent(stored, o.name).None?
    ensures AddOffer(stored, o, loaded, at) == stored + DescribedOne(o, loaded, at)
  {
    var bare := Content(at, o.name, PENDING, None, None);
    var all := stored + [bare];
    FindContentAt(all, o.name, |stored|);
    var withApp := SetApp(all, o.name, at + 1);
    assert withApp == stored + [bare.(app := Some(at + 1))];
    assert withApp[..|stored|] == stored;
    FindContentAt(withApp, o.name, |stored|);
  }

  /** The first content of that name gets the new application half, and the new content gets none. */
  lemma NameIsTaken(stored: seq<Content>, o: Offer, loaded: Loaded, at: Address)
    requires GetsApp(o, loaded) && FindContent(stored, o.name).Some?
    ensures var i := FindContent(stored, o.name).value;
            var after := AddOffer(stored, o, loaded, at);
            if Accepted(o, loaded) then |after| == |stored| + 1 && after[|stored|].app.None?
            else |after| == |stored| && after[i].app == Some(at + 1)
  {
    var i := FindContent(stored, o.name).value;
    var all := stored + [Content(at, o.name, PENDING, None, None)];
    FindContentAt(all, o.name, i);
    FindContentAt(SetApp(all, o.name, at + 1), o.name, i);
  }

  /** One offer keeps the stored contents right exactly when they were right and its name is new; what has once
      gone wrong is never repaired. */
  lemma AddOfferStep(stored: seq<Content>, described: seq<Content>, o: Offer, loaded: Loaded, at: Address)
    requires Aligned(stored, described, at)
    ensures var next := described + DescribedOne(o, loaded, at);
            AddOffer(stored, o, loaded, at) == next <==>
              stored == described && (GetsApp(o, loaded) ==> FindContent(stored, o.name).None?)
  {
    if GetsApp(o, loaded) {
      hide AddOffer, SetApp, SetTrans;
      if FindContent(stored, o.name).None? {
        NameIsNew(stored, o, loaded, at);
        assert (stored + [Whole(o, at)])[..|stored|] == stored;
        assert (described + [Whole(o, at)])[..|stored|] == described;
      } else {
        NameIsTaken(stored, o, loaded, at);
      }
    }
  }

  /** A clash with the last offer shows in the contents stored for the earlier ones. */
  lemma ClashIsStored(prior: seq<Offer>, last: Offer, loaded: Loaded, base: Address)
    ensures Clashes(prior + [last], loaded, |prior|) <==>
              GetsApp(last, loaded) && FindContent(AddAll(prior, loaded, base), last.name).Some?
  {
    hide GetsApp, Accepted, AddAll, Described;
    var stored, described := AddAll(prior, loaded, base), Described(prior, loaded, base);
    AddAllAligned(prior, loaded, base);
    NameIsStored(prior, loaded, base, last.name);
    var all := prior + [last];
    assert forall i :: 0 <= i < |prior| ==> all[i] == prior[i];
    assert FindContent(stored, last.name).Some? <==> HasName(described, last.name);
  }

  /** The stored contents are exactly the acceptable offers, in order, all pending and each with its own two
      halves, if and only if no offer that gets as far as its application half carries the name of an earlier
      acceptable one. */
  lemma {:induction false} StoredAsDescribedIff(offers: seq<Offer>, loaded: Loaded, base: Address)
    ensures AddAll(offers, loaded, base) == Described(offers, loaded, base) <==> NoClash(offers, loaded)
  {
    hide AddOffer, Clashes, Aligned;
    if offers == [] {
    } else {
      var n := |offers| - 1;
      var prior, last := offers[..n], offers[n];
      assert offers == prior + [last];
      StoredAsDescribedIff(prior, loaded, base);
      AddAllAligned(prior, loaded, base);
      AddOfferStep(AddAll(prior, loaded, base), Described(prior, loaded, base), last, loaded, base + 3 * n);
      NoClashSnoc(prior, last, loaded);
      ClashIsStored(prior, last, loaded, base);
    }
  }

  /** Two offers with one name: the first content ends up with the halves of the second, which has none. */
  lemma ClashExample(o: Offer, loaded: Loaded)
    requires Accepted(o, loaded)
    ensures var stored := AddAll([o, o], loaded, 0);
            && stored == [Content(0, o.name, PENDING, Some(4), Some(5)), Content(3, o.name, PENDING, None, None)]
  {
    assert [o, o][..1] == [o] && [o][..0] == [];
    assert AddAll([o], loaded, 0) == [Whole(o, 0)];
    var two := [Whole(o, 0), Content(3, o.name, PENDING, None, None)];
    assert AddAll([o], loaded, 0) + [Content(3, o.name, PENDING, None, None)] == two;
    FindContentAt(two, o.name, 0);
  }
}
