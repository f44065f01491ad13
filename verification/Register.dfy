/**
  The registered application and transport modules, and the choice of a transport for an application: repeated
  with one list of forbidden namespaces, it enumerates the transports by priority.
 */
module Register {
  import opened Bytes

  const APP_PREFIX := "urn:xmpp:jingle:apps:"
  const TRANSPORT_PREFIX := "urn:xmpp:jingle:transports:"

  datatype TransportType = STREAMING | DATAGRAM

  datatype App = App(xmlns: string, transtype: TransportType)

  datatype Transport = Transport(xmlns: string, transtype: TransportType, priority: nat)

  /** What the selection comes to. With a list to extend and no winner left, the code reads through NULL. */
  datatype Choice = Chosen(xmlns: string) | NoTransport | NullDereference

  function FindApp(apps: seq<App>, xmlns: string): (r: Option<App>)
    ensures r.Some? ==> exists k :: 0 <= k < |apps| && FirstApp(apps, xmlns, k) && r.value == apps[k]
    ensures r.None? ==> forall a :: a in apps ==> a.xmlns != xmlns
  {
    if apps == [] then None
    else if apps[0].xmlns == xmlns then
      assert FirstApp(apps, xmlns, 0);
      Some(apps[0])
    else
      var r := FindApp(apps[1..], xmlns);
      assert forall k :: 0 <= k < |apps| - 1 && FirstApp(apps[1..], xmlns, k) ==> FirstApp(apps, xmlns, k + 1);
      r
  }

  /** The application registered first under this namespace. */
  ghost predicate FirstApp(apps: seq<App>, xmlns: string, k: nat)
    requires k < |apps|
  {
    apps[k].xmlns == xmlns && forall j :: 0 <= j < k ==> apps[j].xmlns != xmlns
  }

  // ---------------------------------------------------------------- one selection

  predicate Eligible(t: Transport, kind: TransportType, forbid: seq<string>) {
    t.xmlns !in forbid && t.transtype == kind && t.priority > 0
  }

  /** Entry i wins: no eligible entry has a higher priority, and no earlier one the same. */
  ghost predicate Wins(ts: seq<Transport>, kind: TransportType, forbid: seq<string>, i: nat)
    requires i < |ts|
  {
    && Eligible(ts[i], kind, forbid)
    && forall j :: 0 <= j < |ts| && Eligible(ts[j], kind, forbid) ==>
         ts[j].priority < ts[i].priority || (ts[j].priority == ts[i].priority && i <= j)
  }

  ghost predicate NoneLeft(ts: seq<Transport>, kind: TransportType, forbid: seq<string>) {
    forall j :: 0 <= j < |ts| ==> !Eligible(ts[j], kind, forbid)
  }

  /** The index of the winner, if there is one. */
  function Winner(ts: seq<Transport>, kind: TransportType, forbid: seq<string>): (r: Option<nat>)
    ensures r.Some? ==> r.value < |ts| && Wins(ts, kind, forbid, r.value)
    ensures r.None? ==> NoneLeft(ts, kind, forbid)
  {
    if ts == [] then None
    else
      var n := |ts| - 1;
      var best := Winner(ts[..n], kind, forbid);
      if Eligible(ts[n], kind, forbid) && (best.None? || ts[n].priority > ts[best.value].priority) then Some(n)
      else best
  }

  /** What a selection comes to, and the forbidden namespaces after it. */
  function Choose(apps: seq<App>, ts: seq<Transport>, appXmlns: string, forbid: Option<seq<string>>)
    : (r: (Choice, Option<seq<string>>))
  {
    var app := FindApp(apps, appXmlns);
    var banned := if forbid.Some? then forbid.value else [];
    if app.None? then (NoTransport, forbid)
    else
      var w := Winner(ts, app.value.transtype, banned);
      if w.None? then (if forbid.Some? then NullDereference else NoTransport, forbid)
      else (Chosen(ts[w.value].xmlns), if forbid.Some? then Some(banned + [ts[w.value].xmlns]) else None)
  }

  /** The choice is the namespace of the eligible transport that no eligible one beats, for the type of the
      application, and if there is a list it is added to its end; otherwise the list stays as it was. */
  lemma ChooseIff(apps: seq<App>, ts: seq<Transport>, appXmlns: string, forbid: Option<seq<string>>, xmlns: string)
    ensures var (choice, forbid') := Choose(apps, ts, appXmlns, forbid);
            var banned := if forbid.Some? then forbid.value else [];
            && (choice == Chosen(xmlns) <==>
                  exists k, i :: 0 <= k < |apps| && FirstApp(apps, appXmlns, k)
                                 && 0 <= i < |ts| && Wins(ts, apps[k].transtype, banned, i) && ts[i].xmlns == xmlns)
            && (choice == Chosen(xmlns) ==> forbid' == if forbid.Some? then Some(forbid.value + [xmlns]) else None)
            && (!choice.Chosen? ==> forbid' == forbid)
  {
    hide Winner, Eligible;
    var banned := if forbid.Some? then forbid.value else [];
    var app := FindApp(apps, appXmlns);
    forall k, i | 0 <= k < |apps| && FirstApp(apps, appXmlns, k) && 0 <= i < |ts|
                  && Wins(ts, apps[k].transtype, banned, i)
      ensures Choose(apps, ts, appXmlns, forbid).0 == Chosen(ts[i].xmlns)
    {
      FirstAppIsFound(apps, appXmlns, k);
      WinnerIsUnique(ts, apps[k].transtype, banned, i);
    }
  }

  lemma FirstAppIsFound(apps: seq<App>, xmlns: string, k: nat)
    requires k < |apps| && FirstApp(apps, xmlns, k)
    ensures FindApp(apps, xmlns) == Some(apps[k])
  {
    assert apps[k] in apps;
  }

  lemma WinnerIsUnique(ts: seq<Transport>, kind: TransportType, forbid: seq<string>, i: nat)
    requires i < |ts| && Wins(ts, kind, forbid, i)
    ensures Winner(ts, kind, forbid) == Some(i)
  {
  }

  /** The better one is taken, whichever was registered first. */
  lemma PriorityExample(app: App, low: Transport, high: Transport)
    requires low.transtype == high.transtype == app.transtype && 0 < low.priority < high.priority
    ensures Choose([app], [low, high], app.xmlns, None) == (Chosen(high.xmlns), None)
    ensures Choose([app], [high, low], app.xmlns, None) == (Chosen(high.xmlns), None)
  {
    FirstAppIsFound([app], app.xmlns, 0);
    WinnerIsUnique([low, high], app.transtype, [], 1);
    WinnerIsUnique([high, low], app.transtype, [], 0);
  }

  /** A selection reads through NULL exactly when it has a list to extend, the application is registered, and
      every transport of its type is forbidden or has no priority. */
  lemma NullDereferenceIff(apps: seq<App>, ts: seq<Transport>, appXmlns: string, forbid: Option<seq<string>>)
    ensures Choose(apps, ts, appXmlns, forbid).0.NullDereference? <==>
              && forbid.Some?
              && var app := FindApp(apps, appXmlns);
                 app.Some? && NoneLeft(ts, app.value.transtype, forbid.value)
  {
    if forbid.Some? && FindApp(apps, appXmlns).Some? {
      var w := Winner(ts, FindApp(apps, appXmlns).value.transtype, forbid.value);
      assert w.Some? ==> !NoneLeft(ts, FindApp(apps, appXmlns).value.transtype, forbid.value);
    }
  }

  /** The failing input: the only transport has been tried and was refused. */
  lemma TriedAllExample(app: App, t: Transport)
    requires t.transtype == app.transtype && t.priority > 0
    ensures var (choice, forbid) := Choose([app], [t], app.xmlns, Some([]));
            choice == Chosen(t.xmlns) && Choose([app], [t], app.xmlns, forbid).0 == NullDereference
  {
    assert [t][..0] == [];
    assert Winner([], app.transtype, []) == None;
    assert Eligible(t, app.transtype, []) && Winner([t], app.transtype, []) == Some(0);
    NullDereferenceIff([app], [t], app.xmlns, Some([] + [t.xmlns]));
  }

  class Registry {
    var apps: seq<App>
    var transports: seq<Transport>

    constructor ()
      ensures apps == [] && transports == []
    {
      apps, transports := [], [];
    }

    method RegisterApp(xmlns: string, transtype: TransportType)
      modifies this`apps
      ensures apps == if "urn:xmpp:jingle:apps:" <= xmlns then old(apps) + [App(xmlns, transtype)] else old(apps)
    {
      if !(APP_PREFIX <= xmlns) {
        return;
      }
      apps := apps + [App(xmlns, transtype)];
    }

    method RegisterTransport(xmlns: string, transtype: TransportType, priority: nat)
      modifies this`transports
      ensures transports ==
        if "urn:xmpp:jingle:transports:" <= xmlns then old(transports) + [Transport(xmlns, transtype, priority)]
        else old(transports)
    {
      if !(TRANSPORT_PREFIX <= xmlns) {
        return;
      }
      transports := transports + [Transport(xmlns, transtype, priority)];
    }

    /** Removes the first entry of that namespace. */
    method UnregisterTransport(xmlns: string)
      modifies this`transports
      ensures (forall t :: t in old(transports) ==> t.xmlns != xmlns) ==> transports == old(transports)
      ensures forall i :: 0 <= i < |old(transports)| && old(transports)[i].xmlns == xmlns
                && (forall j :: 0 <= j < i ==> old(transports)[j].xmlns != xmlns)
                ==> transports == old(transports)[..i] + old(transports)[i + 1..]
    {
      var i := 0;
      while i < |transports|
        invariant 0 <= i <= |transports|
        invariant transports == old(transports)
        invariant forall j :: 0 <= j < i ==> transports[j].xmlns != xmlns
      {
        if transports[i].xmlns == xmlns {
          transports := transports[..i] + transports[i + 1..];
          return;
        }
        i := i + 1;
      }
    }

    /** `jingle_transport_for_app`; without a list of forbidden namespaces nothing is forbidden or remembered. */
    method TransportForApp(appXmlns: string, forbid: Option<seq<string>>)
      returns (choice: Choice, forbid': Option<seq<string>>)
      ensures (choice, forbid') == Choose(apps, transports, appXmlns, forbid)
    {
      var app := FindApp(apps, appXmlns);
      if app.None? {
        return NoTransport, forbid;
      }
      var kind, banned := app.value.transtype, if forbid.Some? then forbid.value else [];
      var bestprio, best: Option<nat> := 0, None;
      var i := 0;
      while i < |transports|
        invariant 0 <= i <= |transports|
        invariant best == Winner(transports[..i], kind, banned)
        invariant bestprio == if best.Some? then transports[best.value].priority else 0
      {
        var t := transports[i];
        if t.xmlns !in banned {
          if t.transtype == kind && t.priority > bestprio {
            bestprio, best := t.priority, Some(i);
          }
        }
        assert transports[..i + 1][..i] == transports[..i];
        i := i + 1;
      }
      assert transports[..i] == transports;
      if best.None? {
        return if forbid.Some? then NullDereference else NoTransport, forbid;
      }
      var xmlns := transports[best.value].xmlns;
      choice := Chosen(xmlns);
      forbid' := if forbid.Some? then Some(banned + [xmlns]) else None;
    }
  }

  // ---------------------------------------------------------------- repeated selection

  /** What at most n selections in a row name, each one given the list that the one before it has returned. */
  function Selections(apps: seq<App>, ts: seq<Transport>, appXmlns: string, forbid: seq<string>, n: nat): seq<string>
    decreases n
  {
    var (choice, forbid') := Choose(apps, ts, appXmlns, Some(forbid));
    if n == 0 || !choice.Chosen? || forbid'.None? then []
    else [choice.xmlns] + Selections(apps, ts, appXmlns, forbid'.value, n - 1)
  }

  /** The eligible entries of one priority, in the order of their registration. */
  function OfPriority(ts: seq<Transport>, kind: TransportType, forbid: seq<string>, p: nat): seq<string> {
    if ts == [] then []
    else (if Eligible(ts[0], kind, forbid) && ts[0].priority == p then [ts[0].xmlns] else [])
         + OfPriority(ts[1..], kind, forbid, p)
  }

  /** The stable sort by descending priority, from priority p down to 1. */
  function ByPriority(ts: seq<Transport>, kind: TransportType, forbid: seq<string>, p: nat): seq<string> {
    if p == 0 then [] else OfPriority(ts, kind, forbid, p) + ByPriority(ts, kind, forbid, p - 1)
  }

  ghost predicate Distinct(ts: seq<Transport>) {
    forall i, j :: 0 <= i < j < |ts| ==> ts[i].xmlns != ts[j].xmlns
  }

  lemma {:induction false} OfPriorityNone(ts: seq<Transport>, kind: TransportType, forbid: seq<string>, p: nat)
    requires forall i :: 0 <= i < |ts| && ts[i].priority == p ==> !Eligible(ts[i], kind, forbid)
    ensures OfPriority(ts, kind, forbid, p) == []
  {
    if ts == [] {
    } else {
      OfPriorityNone(ts[1..], kind, forbid, p);
    }
  }

  /** Forbidding a namespace makes no difference where it does not occur. */
  lemma {:induction false} OfPriorityElsewhere(ts: seq<Transport>, kind: TransportType, forbid: seq<string>, p: nat,
                                               xmlns: string)
    requires forall i :: 0 <= i < |ts| && ts[i].xmlns == xmlns ==> ts[i].priority != p
    ensures OfPriority(ts, kind, forbid + [xmlns], p) == OfPriority(ts, kind, forbid, p)
  {
    if ts == [] {
    } else {
      OfPriorityElsewhere(ts[1..], kind, forbid, p, xmlns);
    }
  }

  /** Forbidding the first entry of a priority takes it off the front. */
  lemma {:induction false} OfPriorityFirst(ts: seq<Transport>, kind: TransportType, forbid: seq<string>, i: nat)
    requires Distinct(ts) && i < |ts| && Eligible(ts[i], kind, forbid)
    requires forall j :: 0 <= j < i && ts[j].priority == ts[i].priority ==> !Eligible(ts[j], kind, forbid)
    ensures OfPriority(ts, kind, forbid, ts[i].priority)
         == [ts[i].xmlns] + OfPriority(ts, kind, forbid + [ts[i].xmlns], ts[i].priority)
    decreases i
  {
    if i == 0 {
      OfPriorityElsewhere(ts[1..], kind, forbid, ts[0].priority, ts[0].xmlns);
    } else {
      OfPriorityFirst(ts[1..], kind, forbid, i - 1);
    }
  }

  lemma {:induction false} ByPriorityNone(ts: seq<Transport>, kind: TransportType, forbid: seq<string>, p: nat)
    requires NoneLeft(ts, kind, forbid)
    ensures ByPriority(ts, kind, forbid, p) == []
  {
    if p == 0 {
    } else {
      OfPriorityNone(ts, kind, forbid, p);
      ByPriorityNone(ts, kind, forbid, p - 1);
    }
  }

  lemma OfPriorityWinner(ts: seq<Transport>, kind: TransportType, forbid: seq<string>, i: nat, p: nat)
    requires Distinct(ts) && i < |ts| && Wins(ts, kind, forbid, i)
    ensures OfPriority(ts, kind, forbid, p)
         == (if p == ts[i].priority then [ts[i].xmlns] else []) + OfPriority(ts, kind, forbid + [ts[i].xmlns], p)
    ensures p > ts[i].priority ==> OfPriority(ts, kind, forbid, p) == []
  {
    hide OfPriority;
    if p > ts[i].priority {
      OfPriorityNone(ts, kind, forbid, p);
      OfPriorityNone(ts, kind, forbid + [ts[i].xmlns], p);
    } else if p == ts[i].priority {
      OfPriorityFirst(ts, kind, forbid, i);
    } else {
      OfPriorityElsewhere(ts, kind, forbid, p, ts[i].xmlns);
    }
  }

  /** The winner is the first of the sorted list, and forbidding it leaves the rest of the list. */
  lemma {:induction false} WinnerIsFirst(ts: seq<Transport>, kind: TransportType, forbid: seq<string>, i: nat, p: nat)
    requires Distinct(ts) && i < |ts| && Wins(ts, kind, forbid, i)
    ensures ByPriority(ts, kind, forbid, p)
         == (if ts[i].priority <= p then [ts[i].xmlns] else []) + ByPriority(ts, kind, forbid + [ts[i].xmlns], p)
  {
    if p == 0 {
    } else {
      hide *;
      var rest := forbid + [ts[i].xmlns];
      WinnerIsFirst(ts, kind, forbid, i, p - 1);
      OfPriorityWinner(ts, kind, forbid, i, p);
      FromTop(ts, kind, forbid, p);
      FromTop(ts, kind, rest, p);
      Regroup([ts[i].xmlns], OfPriority(ts, kind, forbid, p), ByPriority(ts, kind, forbid, p - 1),
              OfPriority(ts, kind, rest, p), ByPriority(ts, kind, rest, p - 1),
              p == ts[i].priority, p > ts[i].priority);
    }
  }

  lemma FromTop(ts: seq<Transport>, kind: TransportType, forbid: seq<string>, p: nat)
    requires p > 0
    ensures ByPriority(ts, kind, forbid, p) == OfPriority(ts, kind, forbid, p) + ByPriority(ts, kind, forbid, p - 1)
  {
  }

  lemma Regroup(x: seq<string>, a: seq<string>, b: seq<string>, c: seq<string>, d: seq<string>, here: bool,
                below: bool)
    requires a == (if here then x else []) + c && b == (if below then x else []) + d
    requires !(here && below) && (below ==> a == [])
    ensures a + b == (if here || below then x else []) + (c + d)
  {
    assert [] + c == c && [] + d == d;
    assert below ==> c == [] && [] + b == b && [] + d == d;
    assert here ==> a + b == x + (c + d);
  }

  /** Repeated selection goes through all transports of the wanted type, each exactly once, by descending priority
      and by registration among equals; after the last one a selection reads through NULL. */
  lemma {:induction false} SelectionsAreSorted(apps: seq<App>, ts: seq<Transport>, app: App, forbid: seq<string>,
                                               n: nat, top: nat)
    requires FindApp(apps, app.xmlns) == Some(app) && Distinct(ts)
    requires forall i :: 0 <= i < |ts| ==> ts[i].priority <= top
    ensures var s, all := Selections(apps, ts, app.xmlns, forbid, n), ByPriority(ts, app.transtype, forbid, top);
            && s == all[..Min(n, |all|)]
            && (n >= |all| ==>
                  && NoneLeft(ts, app.transtype, forbid + s)
                  && Choose(apps, ts, app.xmlns, Some(forbid + s)).0 == NullDereference)
    decreases n
  {
    hide Distinct, Wins, NoneLeft, ByPriority, Winner, FindApp, FirstApp;
    var kind, w := app.transtype, Winner(ts, app.transtype, forbid);
    if w.None? {
      ByPriorityNone(ts, kind, forbid, top);
      assert forbid + [] == forbid;
    } else {
      var xmlns := ts[w.value].xmlns;
      WinnerIsFirst(ts, kind, forbid, w.value, top);
      if n > 0 {
        SelectionsAreSorted(apps, ts, app, forbid + [xmlns], n - 1, top);
        var rest := Selections(apps, ts, app.xmlns, forbid + [xmlns], n - 1);
        assert forbid + [xmlns] + rest == forbid + ([xmlns] + rest);
      }
    }
  }

  ghost predicate OfType(ts: seq<Transport>, kind: TransportType, xmlns: string) {
    exists k :: 0 <= k < |ts| && ts[k].xmlns == xmlns && ts[k].transtype == kind
  }

  lemma {:induction false} SelectionsDiffer(apps: seq<App>, ts: seq<Transport>, app: App, forbid: seq<string>, n: nat)
    requires FindApp(apps, app.xmlns) == Some(app)
    ensures var s := Selections(apps, ts, app.xmlns, forbid, n);
            && (forall x :: x in s ==> x !in forbid && OfType(ts, app.transtype, x))
            && (forall i, j :: 0 <= i < j < |s| ==> s[i] != s[j])
    decreases n
  {
    hide FindApp;
    var w := Winner(ts, app.transtype, forbid);
    if n > 0 && w.Some? {
      var xmlns := ts[w.value].xmlns;
      var rest := Selections(apps, ts, app.xmlns, forbid + [xmlns], n - 1);
      SelectionsDiffer(apps, ts, app, forbid + [xmlns], n - 1);
      var s := Selections(apps, ts, app.xmlns, forbid, n);
      assert s == [xmlns] + rest;
      assert xmlns in forbid + [xmlns];
      assert forall i :: 0 < i < |s| ==> s[i] == rest[i - 1] && s[i] in rest;
    }
  }

  /** Enough selections from an empty list name every transport of the type once and nothing else. */
  lemma EachExactlyOnce(apps: seq<App>, ts: seq<Transport>, app: App, n: nat, top: nat)
    requires FindApp(apps, app.xmlns) == Some(app) && Distinct(ts)
    requires forall i :: 0 <= i < |ts| ==> 1 <= ts[i].priority <= top
    requires n >= |ByPriority(ts, app.transtype, [], top)|
    ensures var s := Selections(apps, ts, app.xmlns, [], n);
            && (forall i, j :: 0 <= i < j < |s| ==> s[i] != s[j])
            && (forall k :: 0 <= k < |ts| ==> (ts[k].transtype == app.transtype <==> ts[k].xmlns in s))
  {
    var kind, s := app.transtype, Selections(apps, ts, app.xmlns, [], n);
    SelectionsAreSorted(apps, ts, app, [], n, top);
    SelectionsDiffer(apps, ts, app, [], n);
    assert [] + s == s;
    forall k | 0 <= k < |ts|
      ensures ts[k].transtype == kind <==> ts[k].xmlns in s
    {
      assert !Eligible(ts[k], kind, s);
      if ts[k].xmlns in s {
        assert OfType(ts, kind, ts[k].xmlns);
        var j :| 0 <= j < |ts| && ts[j].xmlns == ts[k].xmlns && ts[j].transtype == kind;
        assert j == k;
      }
    }
  }

  /** Entry i comes before entry j. */
  ghost predicate Before(ts: seq<Transport>, i: nat, j: nat)
    requires i < |ts| && j < |ts|
  {
    ts[i].priority > ts[j].priority || (ts[i].priority == ts[j].priority && i < j)
  }

  /** The entry behind a namespace that is named. */
  ghost predicate Behind(ts: seq<Transport>, kind: TransportType, forbid: seq<string>, xmlns: string, i: nat) {
    i < |ts| && ts[i].xmlns == xmlns && Eligible(ts[i], kind, forbid)
  }

  /** The order without the sorted list: of two namespaces named, the first one stands for the entry with the higher
      priority, or with the same and registered earlier. */
  lemma {:induction false} SelectionsDescend(apps: seq<App>, ts: seq<Transport>, app: App, forbid: seq<string>, n: nat,
                                             i: nat, j: nat, q: nat)
    requires FindApp(apps, app.xmlns) == Some(app)
    requires i < j < |Selections(apps, ts, app.xmlns, forbid, n)|
    requires Behind(ts, app.transtype, forbid, Selections(apps, ts, app.xmlns, forbid, n)[j], q)
    ensures exists p :: Behind(ts, app.transtype, forbid, Selections(apps, ts, app.xmlns, forbid, n)[i], p)
                        && Before(ts, p, q)
    decreases n
  {
    hide FindApp;
    var s, w := Selections(apps, ts, app.xmlns, forbid, n), Winner(ts, app.transtype, forbid).value;
    var xmlns := ts[w].xmlns;
    var rest := Selections(apps, ts, app.xmlns, forbid + [xmlns], n - 1);
    assert s == [xmlns] + rest;
    SelectionsDiffer(apps, ts, app, forbid + [xmlns], n - 1);
    assert s[j] == rest[j - 1] && s[j] in rest;
    assert xmlns in forbid + [xmlns];
    if i == 0 {
      assert Wins(ts, app.transtype, forbid, w) && ts[q].xmlns != xmlns;
      assert Behind(ts, app.transtype, forbid, s[0], w) && Before(ts, w, q);
    } else {
      SelectionsDescend(apps, ts, app, forbid + [xmlns], n - 1, i - 1, j - 1, q);
      assert s[i] == rest[i - 1];
      var p :| Behind(ts, app.transtype, forbid + [xmlns], rest[i - 1], p) && Before(ts, p, q);
      assert Behind(ts, app.transtype, forbid, s[i], p);
    }
  }
}
