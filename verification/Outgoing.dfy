/**
  The sending side of a party with many transfers: every outgoing transfer is the lone sender of `Transfer`, whatever
  else the party hears or does, until the peer ends its session.
 */
module Outgoing {
  import opened Bytes
  import opened Folding
  import opened Sessions
  import opened Offers
  import opened Handlers
  import opened Isolation
  import S = Sender

  /** The session layer of a party, and the senders of its outgoing files by the address of the application half. The
      block size is kept by the session layer, as are the state of a content and whether it is listed. */
  datatype Office = Office(hub: Hub, senders: map<Address, S.Sender>)

  datatype Move =
    | Hear(e: Event)                                      // any event but the two that the senders cause
    | Started(sid: string, from: string, name: string)   // the transport of an accepted content is ready
    | Acked(sid: string, from: string, name: string)     // the reply to a data stanza

  /** What each outgoing file and each attempt to read it are. */
  type Drawer = Address -> S.Env

  function ListedContent(h: Hub, sid: string, from: string, name: string): Option<Content> {
    var i := Find(h.book, sid, from);
    if i.None? then None
    else
      var j := FindContent(h.book[i.value].contents, name);
      if j.None? then None else Some(h.book[i.value].contents[j.value])
  }

  /** The content is one that a sender belongs to. */
  predicate Sends(o: Office, c: Content) {
    Complete(c) && c.app.value in o.senders && c.trans.value in o.hub.sizes
  }

  function SenderNow(o: Office, c: Content): S.Sender
    requires Sends(o, c)
  {
    o.senders[c.app.value].(blocksize := o.hub.sizes[c.trans.value], active := c.state == ACTIVE, listed := true)
  }

  /** What the pipeline leaves behind; when the file has ended its content is taken off the list. */
  function PutBack(o: Office, loaded: Loaded, c: Content, t: S.Sender, sid: string, from: string): Office
    requires c.app.Some?
  {
    var p := o.(senders := o.senders[c.app.value := t]);
    if t.listed then p else p.(hub := Handle(p.hub, loaded, SentAll(sid, from, c.name)).0)
  }

  function OnStarted(o: Office, loaded: Loaded, files: Drawer, m: Move): Office
    requires m.Started?
  {
    var c := ListedContent(o.hub, m.sid, m.from, m.name);
    if o.hub.gone || c.None? || !Sends(o, c.value) then o
    else
      var env, s := files(c.value.app.value), SenderNow(o, c.value);
      if !s.active || s.md5.Some? || s.pos > |env.file| then o
      else PutBack(o, loaded, c.value, S.OnStart(env, s), m.sid, m.from)
  }

  function OnAcked(o: Office, loaded: Loaded, files: Drawer, m: Move): Office
    requires m.Acked?
  {
    var (g, effects) := Handle(o.hub, loaded, BlockAcked(m.sid, m.from, m.name));
    var c := ListedContent(o.hub, m.sid, m.from, m.name);
    if effects != [Resume(m.name)] || c.None? || !Sends(o, c.value) then o.(hub := g)
    else
      var env, s := files(c.value.app.value), SenderNow(o, c.value);
      if s.md5.None? || s.pos > |env.file| then o else PutBack(o, loaded, c.value, S.OnDataAck(env, s), m.sid, m.from)
  }

  function StopSender(s: S.Sender, size: nat): S.Sender {
    s.(state := if s.transmit < size then S.ERROR else S.ENDING)
  }

  function OnHeard(o: Office, loaded: Loaded, files: Drawer, e: Event): Office {
    var (g, effects) := Handle(o.hub, loaded, e);
    if o.hub.gone || e.SentAll? || e.BlockAcked? then o
    else if e.NewOutgoing? then Office(g, o.senders[o.hub.next + 1 := S.NEW_SENDER])
    else
      Office(g, map a | a in o.senders ::
                  if Stop(a) in effects then StopSender(o.senders[a], |files(a).file|) else o.senders[a])
  }

  function Go(o: Office, loaded: Loaded, files: Drawer, m: Move): Office {
    match m
    case Hear(e) => OnHeard(o, loaded, files, e)
    case Started(_, _, _) => OnStarted(o, loaded, files, m)
    case Acked(_, _, _) => OnAcked(o, loaded, files, m)
  }

  function GoAll(o: Office, loaded: Loaded, files: Drawer, moves: seq<Move>): Office {
    if moves == [] then o
    else Go(GoAll(o, loaded, files, moves[..|moves| - 1]), loaded, files, moves[|moves| - 1])
  }

  // ---------------------------------------------------------------- one transfer on its own

  /** Where an outgoing transfer lives; it is in no table of bytestreams. */
  datatype Post = Post(at: Place, name: string)

  predicate OwnMove(m: Move, q: Post) {
    match m
    case Hear(e) => OwnEvent(e, q.at) && !e.Packet?
    case Started(sid, from, name) => Key(sid, Fold(from)) == KeyAt(q.at) && name == q.name
    case Acked(sid, from, name) => Key(sid, Fold(from)) == KeyAt(q.at) && name == q.name
  }

  function AcceptItems(s: S.Sender, name: string, items: seq<AcceptItem>): S.Sender {
    if items == [] then s
    else
      var t, item := AcceptItems(s, name, items[..|items| - 1]), items[|items| - 1];
      if item.name != name || !t.listed then t
      else if item.ibb then S.OnAccept(t, AskedSize(item))
      else t.(active := true)
  }

  /** The lone sender; a content that has gone counts as active. */
  function LoneStep(env: S.Env, s: S.Sender, m: Move, q: Post): S.Sender {
    if !s.listed || !OwnMove(m, q) then s
    else
      match m
      case Hear(Accept(_, _, wellFormed, items)) => if wellFormed then AcceptItems(s, q.name, items) else s
      case Hear(Terminate(_, from)) =>
        (if from == q.at.peer then StopSender(s, |env.file|) else s).(listed := false, active := true)
      case Hear(_) => s
      case Started(_, _, _) =>
        if s.active && s.md5.None? && s.pos <= |env.file| then S.OnStart(env, s) else s
      case Acked(_, _, _) =>
        if s.md5.Some? && s.pos <= |env.file| then S.OnDataAck(env, s) else s
  }

  function LoneAfter(env: S.Env, s: S.Sender, moves: seq<Move>, q: Post): S.Sender {
    if moves == [] then s
    else LoneStep(env, LoneAfter(env, s, moves[..|moves| - 1], q), moves[|moves| - 1], q)
  }

  // ---------------------------------------------------------------- the transfer among others

  /** As long as it is listed, the content is the only one of its session. */
  ghost predicate Alone(r: Option<Session>, q: Post) {
    r.Some? ==>
      && Peer(r.value) == q.at.peer
      && |r.value.contents| == 1
      && var c := r.value.contents[0];
      && c.name == q.name && c.app == Some(q.at.file) && c.trans == Some(q.at.trans) && c.state != ENDED
  }

  ghost function SessionAt(o: Office, q: Post): Option<Session> {
    SessionOf(AsMap(o.hub.book), q.at)
  }

  /** The sender of the transfer, with what the session layer keeps of it. */
  ghost function SenderAt(o: Office, q: Post): S.Sender
    requires q.at.file in o.senders && q.at.trans in o.hub.sizes && Alone(SessionAt(o, q), q)
  {
    var s, r := o.senders[q.at.file], SessionAt(o, q);
    s.(blocksize := o.hub.sizes[q.at.trans], listed := r.Some?,
       active := if r.Some? then r.value.contents[0].state == ACTIVE else true)
  }

  ghost predicate InPost(o: Office, files: Drawer, q: Post) {
    && Settled(o.hub, q.at) && !o.hub.files[q.at.file].incoming
    && q.at.file in o.senders && q.at.trans in o.hub.sizes && Alone(SessionAt(o, q), q)
    && var s := SenderAt(o, q);
    && s.pos <= |files(q.at.file).file| && (s.md5.Some? ==> s.active)
  }
}
