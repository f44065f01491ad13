/** The one error variable that all offers of a session-initiate share. */
module SharedError {
  import opened Offers

  /** The error the handler of a session-initiate hands to the check of the contents and then to every offer. It is
      freed after it has been reported, and never cleared. */
  datatype ErrorState =
    | Clear
    | Pending   // an error is set and has not been reported
    | Freed     // the variable points to an error that has been freed
    | Reused    // a freed error has been read

  /** An invalid creator sets the error, and the content passes the check all the same. */
  predicate BadCreator(o: Offer) {
    o.creator.Some? && o.creator.value != "initiator" && o.creator.value != "responder"
  }

  predicate SomeBadCreator(offers: seq<Offer>) {
    exists i :: 0 <= i < |offers| && BadCreator(offers[i])
  }

  function CheckError(offers: seq<Offer>): ErrorState {
    if SomeBadCreator(offers) then Pending else Clear
  }

  /** g_propagate_error: over an error that is set it reads that one for a warning. */
  function Propagate(err: ErrorState): ErrorState {
    match err
    case Clear => Pending
    case Pending => Pending
    case _ => Reused
  }

  /** An error is printed and freed, whichever offer it came from. */
  function Report(err: ErrorState): ErrorState {
    match err
    case Clear => Clear
    case Pending => Freed
    case _ => Reused
  }

  function ErrorStep(err: ErrorState, o: Offer, loaded: Loaded): ErrorState {
    if !Known(o, loaded) then err
    else if Accepted(o, loaded) then Report(err)
    else Report(Propagate(err))
  }

  function ErrorAfter(err: ErrorState, offers: seq<Offer>, loaded: Loaded): ErrorState {
    if offers == [] then err
    else ErrorStep(ErrorAfter(err, offers[..|offers| - 1], loaded), offers[|offers| - 1], loaded)
  }

  /** This offer is reported to have failed. */
  predicate Reported(o: Offer, loaded: Loaded, bad: bool) {
    Known(o, loaded) && (bad || !Accepted(o, loaded))
  }

  ghost predicate SomeReported(offers: seq<Offer>, loaded: Loaded, bad: bool) {
    exists i :: 0 <= i < |offers| && Reported(offers[i], loaded, bad)
  }

  /** An offer of known kinds comes after one that is reported to have failed. */
  ghost predicate KnownAfterReport(offers: seq<Offer>, loaded: Loaded, bad: bool) {
    exists i, j :: 0 <= i < j < |offers| && Reported(offers[i], loaded, bad) && Known(offers[j], loaded)
  }

  lemma ReportedSnoc(prior: seq<Offer>, last: Offer, loaded: Loaded, bad: bool)
    ensures var all := prior + [last];
            && (SomeReported(all, loaded, bad) <==> SomeReported(prior, loaded, bad) || Reported(last, loaded, bad))
            && (KnownAfterReport(all, loaded, bad) <==>
                  KnownAfterReport(prior, loaded, bad) || (SomeReported(prior, loaded, bad) && Known(last, loaded)))
  {
    hide Reported, Known;
    var all := prior + [last];
    assert all[|prior|] == last && forall i :: 0 <= i < |prior| ==> all[i] == prior[i];
    if i :| 0 <= i < |prior| && Reported(prior[i], loaded, bad) {
      assert Reported(all[i], loaded, bad);
      assert Known(last, loaded) ==> Known(all[|prior|], loaded);
    }
    if i, j :| 0 <= i < j < |prior| && Reported(prior[i], loaded, bad) && Known(prior[j], loaded) {
      assert Reported(all[i], loaded, bad) && Known(all[j], loaded);
    }
  }

  lemma {:induction false} ErrorIs(offers: seq<Offer>, loaded: Loaded, bad: bool)
    ensures var err := ErrorAfter(if bad then Pending else Clear, offers, loaded);
            if KnownAfterReport(offers, loaded, bad) then err == Reused
            else if SomeReported(offers, loaded, bad) then err == Freed
            else err == if bad then Pending else Clear
  {
    if offers == [] {
    } else {
      hide SomeReported, KnownAfterReport;
      var prior, last := offers[..|offers| - 1], offers[|offers| - 1];
      assert offers == prior + [last];
      ErrorIs(prior, loaded, bad);
      ReportedSnoc(prior, last, loaded, bad);
    }
  }

  /** The handler reads an error it has freed: what happens from there on is undefined. */
  predicate ReusesError(offers: seq<Offer>, loaded: Loaded) {
    ErrorAfter(CheckError(offers), offers, loaded) == Reused
  }

  /** This happens exactly when an offer whose namespaces are registered comes after another one that could not be
      accepted, or after any other one if some content has an invalid creator. */
  lemma ReusesErrorIff(offers: seq<Offer>, loaded: Loaded)
    ensures ReusesError(offers, loaded) <==>
              exists i, j :: 0 <= i < j < |offers| && Known(offers[i], loaded) && Known(offers[j], loaded)
                             && (SomeBadCreator(offers) || !Accepted(offers[i], loaded))
  {
    var bad := SomeBadCreator(offers);
    ErrorIs(offers, loaded, bad);
    if i, j :| 0 <= i < j < |offers| && Known(offers[i], loaded) && Known(offers[j], loaded)
               && (bad || !Accepted(offers[i], loaded)) {
      assert Reported(offers[i], loaded, bad);
    }
    if KnownAfterReport(offers, loaded, bad) {
      var i, j :| 0 <= i < j < |offers| && Reported(offers[i], loaded, bad) && Known(offers[j], loaded);
      assert Known(offers[i], loaded) && (bad || !Accepted(offers[i], loaded));
    }
  }
}
