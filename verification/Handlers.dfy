/**
  The handlers of incoming Jingle actions and of In-Band Bytestream packets, as functions from the state of one
  party to its next state and to what it sends or does.
 */
module Handlers {
  import opened Bytes
  import opened Ibb
  import opened Sessions
  import opened Offers
  import opened SharedError
  import opened Sink

  const INFO_NS := "urn:xmpp:jingle:apps:file-transfer:info:1"

  /** A JingleFT. Blocks reach the disk of an incoming one only. */
  datatype File = File(incoming: bool, sink: Sink, blocks: nat)

  /** One party: its session list, the table of bytestreams, their block sizes, the file transfers ever made (they
      outlive their sessions), and the next free address; `gone` says that the program has died. */
  datatype Hub = Hub(book: Book, ibbs: map<string, Address>, sizes: map<Address, nat>, files: map<Address, File>,
                     next: Address, gone: bool)

  datatype Effect =
    | Ack
    | Refuse(condition: string)
    | SendTerminate(to: string, reason: string)
    | AskUser
    | Stop(file: Address)
    | Resume(name: string)   // the pipeline of this content goes on
    | NullRead               // a NULL pointer is dereferenced
    | FreedRead              // an error that has been freed is read and freed again
    | WrongStruct            // a SOCKS5 bytestream is read as if it were an In-Band Bytestream

  /** What the program does not survive, or what makes its further behaviour undefined. */
  predicate Fatal(effects: seq<Effect>) {
    NullRead in effects || FreedRead in effects || WrongStruct in effects
  }

  datatype Info = Info(xmlns: string, name: string, value: string)

  /** A content of a session-accept: whether its transport element is one of an In-Band Bytestream, and the block
      size given there. */
  datatype AcceptItem = AcceptItem(name: string, ibb: bool, blocksize: Option<int>)

  /** The transport of a session this party starts. */
  datatype TransKind = IBB | S5B

  datatype Event =
    | Initiate(sid: string, from: string, to: string, inRoster: bool, wellFormed: bool, offers: seq<Offer>)
    | NewOutgoing(sid: string, from: string, to: string, name: string, size: nat, kind: Option<TransKind>)
    | Accept(sid: string, from: string, wellFormed: bool, items: seq<AcceptItem>)
    | SessionInfo(sid: string, from: string, info: Option<Info>)
    | Terminate(sid: string, from: string)
    | SentAll(sid: string, from: string, name: string)   // the file of this outgoing content has ended
    | BlockAcked(sid: string, from: string, name: string)   // the reply to a block of this outgoing content
    | Packet(sid: string, payload: bytes, fault: WriteChoice)

  // ---------------------------------------------------------------- session-initiate

  predicate SessionDisposition(offers: seq<Offer>) {
    exists i :: 0 <= i < |offers| && (offers[i].disposition == Some("session") || offers[i].disposition == None)
  }

  /** The structs the modules allocate while they parse an offer. */
  function NewFile(files: map<Address, File>, o: Offer, loaded: Loaded, at: Address): map<Address, File> {
    if GetsApp(o, loaded) then files[at + 1 := File(true, NewSink(o.app.value.size, o.app.value.hash), 0)] else files
  }

  function NewIbb(ibbs: map<string, Address>, o: Offer, loaded: Loaded, at: Address): map<string, Address> {
    if Streamed(o, loaded) then ibbs[o.trans.value.sid := at + 2] else ibbs
  }

  function NewSize(sizes: map<Address, nat>, o: Offer, loaded: Loaded, at: Address): map<Address, nat> {
    if Streamed(o, loaded) then sizes[at + 2 := o.trans.value.blocksize] else sizes
  }

  function NewFiles(files: map<Address, File>, offers: seq<Offer>, loaded: Loaded, base: Address): map<Address, File> {
    if offers == [] then files
    else
      var n := |offers| - 1;
      NewFile(NewFiles(files, offers[..n], loaded, base), offers[n], loaded, base + 3 * n)
  }

  function NewIbbs(ibbs: map<string, Address>, offers: seq<Offer>, loaded: Loaded, base: Address)
    : map<string, Address>
  {
    if offers == [] then ibbs
    else
      var n := |offers| - 1;
      NewIbb(NewIbbs(ibbs, offers[..n], loaded, base), offers[n], loaded, base + 3 * n)
  }

  function NewSizes(sizes: map<Address, nat>, offers: seq<Offer>, loaded: Loaded, base: Address): map<Address, nat> {
    if offers == [] then sizes
    else
      var n := |offers| - 1;
      NewSize(NewSizes(sizes, offers[..n], loaded, base), offers[n], loaded, base + 3 * n)
  }

  /** Both halves are there. */
  predicate Complete(c: Content) {
    c.app.Some? && c.trans.Some?
  }

  /** The checks in front of the acknowledgement. `wellFormed` covers the name, the senders and the two children of
      every content; an invalid creator passes. */
  predicate Proper(h: Hub, e: Event)
    requires e.Initiate?
  {
    e.inRoster && e.wellFormed && e.offers != [] && SessionDisposition(e.offers) && Find(h.book, e.sid, e.from).None?
  }

  function OnInitiate(h: Hub, loaded: Loaded, e: Event): (Hub, seq<Effect>)
    requires e.Initiate?
  {
    if !e.inRoster then (h, [Refuse("service-unavailable")])
    else if !e.wellFormed || e.offers == [] || !SessionDisposition(e.offers) then (h, [Refuse("bad-request")])
    else if Find(h.book, e.sid, e.from).Some? then (h, [Refuse("unexpected-request")])
    else
      var contents := AddAll(e.offers, loaded, h.next);
      var g := h.(ibbs := NewIbbs(h.ibbs, e.offers, loaded, h.next),
                  sizes := NewSizes(h.sizes, e.offers, loaded, h.next),
                  files := NewFiles(h.files, e.offers, loaded, h.next), next := h.next + 3 * |e.offers|);
      (if contents == [] then g else g.(book := h.book + [Session(e.sid, INCOMING, e.from, e.to, contents)]),
       [Ack,
        if ReusesError(e.offers, loaded) then FreedRead
        else if contents == [] then SendTerminate(e.to, "unsupported-applications")
        // what the user is asked is put together from both halves of every content
        else if forall c :: c in contents ==> Complete(c) then AskUser
        else NullRead])
  }

  function OutgoingContent(at: Address, name: string, kind: Option<TransKind>): Content {
    Content(at, name, PENDING, Some(at + 1), if kind.Some? then Some(at + 2) else None)
  }

  /** A session this party starts itself, with a fresh identifier and one file. */
  function OnNewOutgoing(h: Hub, e: Event): Hub
    requires e.NewOutgoing?
  {
    h.(book := h.book + [Session(e.sid, OUTGOING, e.from, e.to, [OutgoingContent(h.next, e.name, e.kind)])],
       sizes := if e.kind == Some(IBB) then h.sizes[h.next + 2 := BLOCK_SIZE_MAX] else h.sizes,
       files := h.files[h.next + 1 := File(false, NewSink(e.size, None), 0)],
       next := h.next + 3)
  }

  // ---------------------------------------------------------------- session-accept

  /** Contents and block sizes while the loop goes on, and whether it has read through NULL. */
  datatype Accepting = Accepting(contents: seq<Content>, sizes: map<Address, nat>, dead: bool)

  /** What the attribute is parsed to; one that is missing counts as 0. */
  function AskedSize(item: AcceptItem): int {
    if item.blocksize.Some? then item.blocksize.value else 0
  }

  /** The content becomes active, then its transport may lower the block size. */
  function AcceptOne(a: Accepting, item: AcceptItem): (r: Accepting)
    ensures |r.contents| == |a.contents|
  {
    var i := FindContent(a.contents, item.name);
    if a.dead || i.None? then a
    else
      var c := a.contents[i.value];
      var b := a.(contents := a.contents[i.value := c.(state := ACTIVE)]);
      if c.trans.None? then b.(dead := true)
      else if item.ibb && c.trans.value in a.sizes then
        b.(sizes := a.sizes[c.trans.value := AcceptedBlockSize(a.sizes[c.trans.value], AskedSize(item))])
      else b
  }

  function AcceptAll(a: Accepting, items: seq<AcceptItem>): (r: Accepting)
    ensures |r.contents| == |a.contents|
  {
    if items == [] then a else AcceptOne(AcceptAll(a, items[..|items| - 1]), items[|items| - 1])
  }

  function OnAccept(h: Hub, e: Event): (Hub, seq<Effect>)
    requires e.Accept?
  {
    var i := Find(h.book, e.sid, e.from);
    if i.None? then (h, [Refuse("item-not-found")])
    else if !e.wellFormed then (h, [Refuse("bad-request")])
    else
      var s := h.book[i.value];
      var a := AcceptAll(Accepting(s.contents, h.sizes, false), e.items);
      (h.(book := h.book[i.value := s.(contents := a.contents)], sizes := a.sizes),
       if a.dead then [Ack, NullRead] else [Ack])
  }

  // ---------------------------------------------------------------- session-info

  predicate IsHash(info: Info) {
    info.xmlns == INFO_NS && info.name == "hash"
  }

  function SetHash(files: map<Address, File>, app: Option<Address>, value: string): map<Address, File> {
    if app.Some? && app.value in files
    then files[app.value := files[app.value].(sink := files[app.value].sink.(hash := Some(value)))]
    else files
  }

  function SetHashes(files: map<Address, File>, contents: seq<Content>, value: string): map<Address, File> {
    if contents == [] then files
    else SetHash(SetHashes(files, contents[..|contents| - 1], value), contents[|contents| - 1].app, value)
  }

  /** Every content has its application half. */
  predicate AppsThere(contents: seq<Content>) {
    forall c :: c in contents ==> c.app.Some?
  }

  /** "Handled" is the status 0 and taken for false: a digest is offered to every content and refused in the end,
      everything else is acknowledged by the first content. The application half is read without a test. */
  function OnSessionInfo(h: Hub, e: Event): (Hub, seq<Effect>)
    requires e.SessionInfo?
  {
    var i := Find(h.book, e.sid, e.from);
    if i.None? then (h, [Refuse("item-not-found")])
    else if e.info.None? then (h, [Ack])
    else
      var contents := h.book[i.value].contents;
      if contents == [] then (h, [Refuse("feature-not-implemented")])
      else if !IsHash(e.info.value) then (h, [if contents[0].app.Some? then Ack else NullRead])
      else (h.(files := SetHashes(h.files, contents, e.info.value.value)),
            [if AppsThere(contents) then Refuse("feature-not-implemented") else NullRead])
  }

  // ---------------------------------------------------------------- session-terminate

  function StopFile(files: map<Address, File>, app: Option<Address>): map<Address, File> {
    if app.Some? && app.value in files
    then files[app.value := files[app.value].(sink := Stopped(files[app.value].sink))]
    else files
  }

  function StopFiles(files: map<Address, File>, contents: seq<Content>): map<Address, File> {
    if contents == [] then files
    else StopFile(StopFiles(files, contents[..|contents| - 1]), contents[|contents| - 1].app)
  }

  function Stops(contents: seq<Content>): seq<Effect> {
    if contents == [] then []
    else Stops(contents[..|contents| - 1])
         + if contents[|contents| - 1].app.Some? then [Stop(contents[|contents| - 1].app.value)] else []
  }

  /** The contents in front of the first one without application half. */
  function UpToBare(contents: seq<Content>): (r: seq<Content>)
    ensures r <= contents && AppsThere(r)
    ensures if |r| == |contents| then AppsThere(contents) else contents[|r|].app.None?
  {
    if contents == [] || contents[0].app.None? then [] else [contents[0]] + UpToBare(contents[1..])
  }

  /** The session is found whatever the case of the peer's name, but its contents are stopped only when the name
      is spelled as it was stored; the application half is read without a test. */
  function OnTerminate(h: Hub, e: Event): (Hub, seq<Effect>)
    requires e.Terminate?
  {
    var i := Find(h.book, e.sid, e.from);
    if i.None? then (h, [Refuse("item-not-found")])
    else
      var s := h.book[i.value];
      var g := h.(book := Without(h.book, i.value));
      if e.from == Peer(s) then
        (g.(files := StopFiles(h.files, s.contents)),
         Stops(UpToBare(s.contents)) + [if AppsThere(s.contents) then Ack else NullRead])
      else (g, [Ack])
  }

  // ---------------------------------------------------------------- the end of a sent file, and packets

  /** The content is marked as ended and removed; the session goes with its last content. */
  function OnSentAll(h: Hub, e: Event): (Hub, seq<Effect>)
    requires e.SentAll?
  {
    var i := Find(h.book, e.sid, e.from);
    if i.None? then (h, [])
    else
      var s := h.book[i.value];
      var j := FindContent(s.contents, e.name);
      if j.None? then (h, [])
      else if |s.contents| == 1 then (h.(book := Without(h.book, i.value)), [SendTerminate(s.to, "success")])
      else (h.(book := h.book[i.value := s.(contents := s.contents[..j.value] + s.contents[j.value + 1..])]), [])
  }

  /** The reply to a block looks its session up first, then its content, and reads the transport of that. If that
      content is one that receives, its queue is empty and its application does nothing when it is asked for more. */
  function OnBlockAcked(h: Hub, e: Event): (Hub, seq<Effect>)
    requires e.BlockAcked?
  {
    var i := Find(h.book, e.sid, e.from);
    if i.None? then (h, [])
    else
      var contents := h.book[i.value].contents;
      var j := FindContent(contents, e.name);
      if j.None? then (h, [NullRead])
      else
        var c := contents[j.value];
        if !Complete(c) then (h, [NullRead])
        else if c.trans.value !in h.sizes then (h, [WrongStruct])
        else if c.app.value in h.files && h.files[c.app.value].incoming then (h, [])
        else (h, [Resume(e.name)])
  }

  function OnPacket(h: Hub, e: Event): (Hub, seq<Effect>)
    requires e.Packet?
  {
    if e.sid !in h.ibbs then (h, [])
    else
      var c := FindByTransport(h.book, h.ibbs[e.sid]);
      if c.None? then (h, [Ack])
      else (h.(files := WriteBlock(h.files, c.value.app, e.payload, e.fault)), [Ack])
  }

  function WriteBlock(files: map<Address, File>, app: Option<Address>, data: bytes, w: WriteChoice)
    : map<Address, File>
  {
    if app.Some? && app.value in files && files[app.value].incoming then
      var f := files[app.value];
      files[app.value := f.(sink := HandleBlock(f.sink, data, w), blocks := f.blocks + 1)]
    else files
  }

  // ---------------------------------------------------------------- all events

  function React(h: Hub, loaded: Loaded, e: Event): (Hub, seq<Effect>) {
    match e
    case Initiate(_, _, _, _, _, _) => OnInitiate(h, loaded, e)
    case NewOutgoing(_, _, _, _, _, _) => (OnNewOutgoing(h, e), [])
    case Accept(_, _, _, _) => OnAccept(h, e)
    case SessionInfo(_, _, _) => OnSessionInfo(h, e)
    case Terminate(_, _) => OnTerminate(h, e)
    case SentAll(_, _, _) => OnSentAll(h, e)
    case BlockAcked(_, _, _) => OnBlockAcked(h, e)
    case Packet(_, _, _) => OnPacket(h, e)
  }

  /** A party that has died does nothing any more, and what it knew does not change. */
  function Handle(h: Hub, loaded: Loaded, e: Event): (Hub, seq<Effect>) {
    if h.gone then (h, [])
    else
      var (g, effects) := React(h, loaded, e);
      if Fatal(effects) then (h.(gone := true), effects) else (g, effects)
  }

  const EMPTY_HUB := Hub([], map[], map[], map[], 0, false)

  /** The state after a list of events. */
  function Process(h: Hub, loaded: Loaded, events: seq<Event>): Hub {
    if events == [] then h
    else Handle(Process(h, loaded, events[..|events| - 1]), loaded, events[|events| - 1]).0
  }

  function Run(loaded: Loaded, events: seq<Event>): Hub {
    Process(EMPTY_HUB, loaded, events)
  }
}
