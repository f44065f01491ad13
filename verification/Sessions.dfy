/**
  The list of sessions, searched by session identifier and peer, and the list of contents in each of them,
  searched by name or by the address of the transport.
 */
module Sessions {
  import opened Bytes
  import opened Folding

  datatype Origin = INCOMING | OUTGOING

  datatype ContentState = ACTIVE | PENDING | ENDED

  /** The address of a struct. */
  type Address = nat

  /** A SessionContent; the application and the transport half are set one after the other. */
  datatype Content = Content(at: Address, name: string, state: ContentState,
                             app: Option<Address>, trans: Option<Address>)

  datatype Session = Session(sid: string, origin: Origin, from: string, to: string, contents: seq<Content>)

  type Book = seq<Session>

  function Peer(s: Session): string {
    if s.origin == INCOMING then s.from else s.to
  }

  // ---------------------------------------------------------------- sessions

  datatype Key = Key(sid: string, peer: string)

  function KeyOf(s: Session): Key {
    Key(s.sid, Fold(Peer(s)))
  }

  /** The session has this identifier and this peer: who started it if it came in, whom it was sent to if not. */
  predicate Meant(s: Session, sid: string, from: string) {
    s.sid == sid && SameName(match s.origin case INCOMING => s.from case OUTGOING => s.to, from)
  }

  lemma KeyIff(s: Session, sid: string, from: string)
    ensures KeyOf(s) == Key(sid, Fold(from)) <==> Meant(s, sid, from)
  {
    FoldIff(Peer(s), from);
  }

  /** The index of the first session with this identifier and, up to ASCII case, this peer. */
  function Find(book: Book, sid: string, from: string): (r: Option<nat>)
    ensures r.Some? ==> r.value < |book| && Meant(book[r.value], sid, from)
    ensures r.Some? ==> forall i :: 0 <= i < r.value ==> !Meant(book[i], sid, from)
    ensures r.None? ==> forall i :: 0 <= i < |book| ==> !Meant(book[i], sid, from)
    ensures r.Some? ==> KeyOf(book[r.value]) == Key(sid, Fold(from))
    ensures r.Some? ==> forall i :: 0 <= i < r.value ==> KeyOf(book[i]) != Key(sid, Fold(from))
    ensures r.None? ==> forall i :: 0 <= i < |book| ==> KeyOf(book[i]) != Key(sid, Fold(from))
  {
    if book == [] then None
    else
      KeyIff(book[0], sid, from);
      if book[0].sid == sid && Fold(Peer(book[0])) == Fold(from) then Some(0)
      else
        var r := Find(book[1..], sid, from);
        if r.None? then None else Some(r.value + 1)
  }

  ghost predicate Unique(book: Book) {
    forall i, j :: 0 <= i < j < |book| ==> KeyOf(book[i]) != KeyOf(book[j])
  }

  /** The list, seen as the map it stands for. */
  ghost function AsMap(book: Book): map<Key, Session> {
    if book == [] then map[] else AsMap(book[..|book| - 1])[KeyOf(book[|book| - 1]) := book[|book| - 1]]
  }

  lemma {:induction false} AsMapAt(book: Book, i: nat)
    requires Unique(book) && i < |book|
    ensures KeyOf(book[i]) in AsMap(book) && AsMap(book)[KeyOf(book[i])] == book[i]
  {
    if i < |book| - 1 {
      AsMapAt(book[..|book| - 1], i);
      assert book[..|book| - 1][i] == book[i];
    }
  }

  lemma {:induction false} NotInMap(book: Book, k: Key)
    requires forall i :: 0 <= i < |book| ==> KeyOf(book[i]) != k
    ensures k !in AsMap(book)
  {
    if book == [] {
    } else {
      NotInMap(book[..|book| - 1], k);
    }
  }

  /** Searching the list is looking up in the map. */
  lemma FindIsLookup(book: Book, sid: string, from: string)
    requires Unique(book)
    ensures var r, k := Find(book, sid, from), Key(sid, Fold(from));
            (r.Some? <==> k in AsMap(book)) && (r.Some? ==> AsMap(book)[k] == book[r.value])
  {
    var r := Find(book, sid, from);
    if r.Some? {
      AsMapAt(book, r.value);
    } else {
      NotInMap(book, Key(sid, Fold(from)));
    }
  }

  function Without(book: Book, i: nat): Book
    requires i < |book|
  {
    book[..i] + book[i + 1..]
  }

  lemma {:induction false} AsMapAppend(a: Book, b: Book)
    ensures AsMap(a + b) == AsMap(a) + AsMap(b)
  {
    if b == [] {
      assert a + b == a;
    } else {
      assert (a + b)[..|a + b| - 1] == a + b[..|b| - 1];
      AsMapAppend(a, b[..|b| - 1]);
    }
  }

  /** A session in the middle of the list: what the rest of the list knows about its key. */
  lemma AsMapAround(book: Book, i: nat)
    requires Unique(book) && i < |book|
    ensures var a, b, k := AsMap(book[..i]), AsMap(book[i + 1..]), KeyOf(book[i]);
            && k !in a && k !in b
            && AsMap(book) == a + map[k := book[i]] + b
  {
    hide KeyOf, AsMap;
    var a, b := book[..i], book[i + 1..];
    assert book == a + [book[i]] + b;
    AsMapAppend(a + [book[i]], b);
    AsMapAppend(a, [book[i]]);
    AsMapOne(book[i]);
    NotInMap(a, KeyOf(book[i]));
    NotInMap(b, KeyOf(book[i]));
  }

  lemma AsMapOne(s: Session)
    ensures AsMap([s]) == map[KeyOf(s) := s]
  {
    assert [s][..0] == [];
    assert AsMap([s]) == AsMap([])[KeyOf(s) := s];
  }

  lemma WithoutUnique(book: Book, i: nat)
    requires Unique(book) && i < |book|
    ensures Unique(Without(book, i))
    ensures forall j :: 0 <= j < |Without(book, i)| ==> KeyOf(Without(book, i)[j]) != KeyOf(book[i])
  {
    hide KeyOf;
    var rest := Without(book, i);
    assert forall j :: 0 <= j < |rest| ==> rest[j] == book[if j < i then j else j + 1];
  }

  lemma KeyIs(s: Session)
    ensures KeyOf(s) == Key(s.sid, Fold(Peer(s)))
  {
  }

  lemma MapMiddle(a: map<Key, Session>, b: map<Key, Session>, k: Key, s: Session)
    requires k !in a && k !in b
    ensures (a + map[k := s] + b) - {k} == a + b
  {
  }

  /** Deleting a listed session removes exactly its key: afterwards the search finds nothing. */
  lemma DeleteIsRemove(book: Book, i: nat)
    requires Unique(book) && i < |book|
    ensures Unique(Without(book, i))
    ensures AsMap(Without(book, i)) == AsMap(book) - {KeyOf(book[i])}
    ensures Find(Without(book, i), book[i].sid, Peer(book[i])).None?
  {
    hide AsMap, Unique, KeyOf;
    WithoutUnique(book, i);
    AsMapAround(book, i);
    AsMapAppend(book[..i], book[i + 1..]);
    MapMiddle(AsMap(book[..i]), AsMap(book[i + 1..]), KeyOf(book[i]), book[i]);
    assert KeyOf(book[i]) == Key(book[i].sid, Fold(Peer(book[i]))) by { KeyIs(book[i]); }
  }

  /** Appending a session adds its key, and keeps the keys distinct exactly when it was not there before. */
  lemma AppendIsUpdate(book: Book, s: Session)
    requires Unique(book)
    ensures Unique(book + [s]) <==> Find(book, s.sid, Peer(s)).None?
    ensures AsMap(book + [s]) == AsMap(book)[KeyOf(s) := s]
  {
    var r := Find(book, s.sid, Peer(s));
    if r.Some? {
      assert KeyOf((book + [s])[r.value]) == KeyOf((book + [s])[|book|]);
    }
    assert (book + [s])[..|book|] == book;
  }

  /** Replacing a session by one with the same key. */
  lemma ReplaceIsUpdate(book: Book, i: nat, s: Session)
    requires Unique(book) && i < |book| && KeyOf(s) == KeyOf(book[i])
    ensures Unique(book[i := s])
    ensures AsMap(book[i := s]) == AsMap(book)[KeyOf(s) := s]
  {
    hide KeyOf, AsMap;
    var after := book[i := s];
    assert forall j :: 0 <= j < |book| ==> KeyOf(after[j]) == KeyOf(book[j]);
    AsMapAround(book, i);
    AsMapAround(after, i);
    assert after[..i] == book[..i] && after[i + 1..] == book[i + 1..];
  }

  // ---------------------------------------------------------------- contents

  /** The index of the first content with this name. */
  function FindContent(contents: seq<Content>, name: string): (r: Option<nat>)
    ensures r.Some? ==> r.value < |contents| && contents[r.value].name == name
    ensures r.Some? ==> forall i :: 0 <= i < r.value ==> contents[i].name != name
    ensures r.None? ==> forall i :: 0 <= i < |contents| ==> contents[i].name != name
  {
    if contents == [] then None
    else if contents[0].name == name then Some(0)
    else
      var r := FindContent(contents[1..], name);
      if r.None? then None else Some(r.value + 1)
  }

  lemma FindContentAt(contents: seq<Content>, name: string, i: nat)
    requires i < |contents| && contents[i].name == name
    requires forall j :: 0 <= j < i ==> contents[j].name != name
    ensures FindContent(contents, name) == Some(i)
  {
  }

  /** The first content in any session whose transport is this struct. */
  function FindByTransport(book: Book, t: Address): (r: Option<Content>)
    ensures r.Some? ==> r.value.trans == Some(t) && exists s :: s in book && r.value in s.contents
    ensures r.None? ==> forall s, c :: s in book && c in s.contents ==> c.trans != Some(t)
  {
    if book == [] then None
    else
      var r := FirstWithTransport(book[0].contents, t);
      if r.Some? then r else FindByTransport(book[1..], t)
  }

  function FirstWithTransport(contents: seq<Content>, t: Address): (r: Option<Content>)
    ensures r.Some? ==> r.value.trans == Some(t) && r.value in contents
    ensures r.None? ==> forall c :: c in contents ==> c.trans != Some(t)
  {
    if contents == [] then None
    else if contents[0].trans == Some(t) then Some(contents[0])
    else FirstWithTransport(contents[1..], t)
  }
}
