/** Where a URL and a document are in the pipeline, over every history of acquisitions, analyses and
    crashes. */
module Lifecycle {
  import opened Options

  datatype State = Discovered | Downloading | Downloaded | Validated | Processing | Processed | Failed | Quarantined

  /** The allowed moves. */
  function Transitions(state: State): set<State> {
    match state
    case Discovered => {Downloading, Failed}
    case Downloading => {Downloaded, Failed, Quarantined}
    case Downloaded => {Validated, Failed, Quarantined}
    case Validated => {Processing, Failed}
    case Processing => {Processed, Failed, Quarantined}
    case Processed => {}
    case Failed => {Downloading, Processing}
    case Quarantined => {}
  }

  predicate CanTransition(from: State, to: State) {
    to in Transitions(from)
  }

  /** A path of moves from one state to another. */
  ghost predicate Legal(from: State, trail: seq<State>)
    decreases |trail|
  {
    trail == [] || (CanTransition(from, trail[0]) && Legal(trail[0], trail[1..]))
  }

  /** What the table allows, state by state: content is stored only out of a download, read only once validated or after
      a failure, and done only after reading; any state but a finished or a quarantined one can fail; a failure is
      retried by downloading or reading again; nothing leaves a finished or a quarantined state. */
  lemma TableMeans(from: State, to: State)
    ensures to == Discovered ==> !CanTransition(from, to)
    ensures to == Downloading ==> (CanTransition(from, to) <==> from in {Discovered, Failed})
    ensures to == Downloaded ==> (CanTransition(from, to) <==> from == Downloading)
    ensures to == Validated ==> (CanTransition(from, to) <==> from == Downloaded)
    ensures to == Processing ==> (CanTransition(from, to) <==> from in {Validated, Failed})
    ensures to == Processed ==> (CanTransition(from, to) <==> from == Processing)
    ensures to == Failed ==> (CanTransition(from, to) <==> from !in {Processed, Quarantined, Failed})
    ensures to == Quarantined ==> (CanTransition(from, to) <==> from in {Downloading, Downloaded, Processing})
  {
  }

  // ---- One URL ----

  /** How fetching, storing and recording went. A failed fetch lists the status of each request, where there was
      one; an uncaught exception is any that no branch handles. */
  datatype Fetch =
    | Cancelled
    | Unsafe(error: string)
    | FetchFailed(error: string, statuses: seq<Option<nat>>)
    | StoreFailed(error: string)
    | ProvenanceConflict
    | Uncaught
    | Stored(document: nat, status: nat, requests: nat)

  datatype Url = Url(state: State, attempts: nat, document: Option<nat>, error: Option<string>, httpStatus: Option<nat>)

  datatype Acquisition = Returned(state: State, alreadyAcquired: bool) | IllegalTransition | FetchCancelled | Conflict | Raised

  /** What an acquisition returns or raises, and what it leaves in the row. */
  function Acquired(url: Url, fetch: Fetch): (Acquisition, Url) {
    if url.state == Downloaded && url.document.Some? then (Returned(Downloaded, true), url)
    else if !CanTransition(url.state, Downloading) then (IllegalTransition, url)
    else
      match fetch
      case Cancelled => (FetchCancelled, url.(state := Discovered))
      case Unsafe(error) => (Returned(Quarantined, false), url.(state := Quarantined, attempts := url.attempts + 1, error := Some(error)))
      case FetchFailed(error, statuses) =>
        (Returned(Failed, false),
         url.(state := Failed, attempts := url.attempts + 1, error := Some(error),
              httpStatus := if statuses == [] then url.httpStatus else statuses[|statuses| - 1]))
      case StoreFailed(error) => (Returned(Failed, false), url.(state := Failed, attempts := url.attempts + 1, error := Some(error)))
      case ProvenanceConflict => (Conflict, url.(state := Downloading))
      case Uncaught => (Raised, url.(state := Downloading))
      case Stored(document, status, requests) =>
        (Returned(Downloaded, false),
         Url(Downloaded, if requests == 0 then 1 else requests, Some(document), None, Some(status)))
  }

  /** The states an acquisition passes through. */
  ghost function Trail(url: Url, fetch: Fetch): seq<State> {
    var (outcome, after) := Acquired(url, fetch);
    if outcome.IllegalTransition? || (outcome.Returned? && outcome.alreadyAcquired) then []
    else if outcome.Conflict? || outcome.Raised? then [Downloading]
    else [Downloading, after.state]
  }

  class FrontierRow {
    var url: Url
    /** Every state the row was given, in order. */
    ghost var trail: seq<State>

    constructor ()
      ensures url == Url(Discovered, 0, None, None, None) && trail == []
    {
      url := Url(Discovered, 0, None, None, None);
      trail := [];
    }

    method Advance(target: State) returns (moved: bool)
      modifies this
      ensures moved == CanTransition(old(url).state, target)
      ensures url == if moved then old(url).(state := target) else old(url)
      ensures trail == if moved then old(trail) + [target] else old(trail)
    {
      moved := target in Transitions(url.state);
      if moved {
        url := url.(state := target);
        trail := trail + [target];
      }
    }

    method Finish(state: State, error: string, statuses: seq<Option<nat>>) returns (outcome: Acquisition)
      requires url.state == Downloading && state in {Failed, Quarantined}
      modifies this
      ensures outcome == Returned(state, false) && trail == old(trail) + [state]
      ensures url == old(url).(state := state, attempts := old(url).attempts + 1, error := Some(error),
                               httpStatus := if statuses == [] then old(url).httpStatus else statuses[|statuses| - 1])
    {
      var _ := Advance(state);
      url := url.(attempts := url.attempts + 1, error := Some(error));
      if statuses != [] { url := url.(httpStatus := statuses[|statuses| - 1]); }
      outcome := Returned(state, false);
    }

    method Acquire(fetch: Fetch) returns (outcome: Acquisition)
      modifies this
      ensures (outcome, url) == Acquired(old(url), fetch)
      ensures trail == old(trail) + Trail(old(url), fetch)
    {
      if url.state == Downloaded && url.document.Some? { return Returned(Downloaded, true); }
      var begun := Advance(Downloading);
      if !begun { return IllegalTransition; }
      match fetch
      case Cancelled =>
        url := url.(state := Discovered);
        trail := trail + [Discovered];
        return FetchCancelled;
      case Unsafe(error) =>
        outcome := Finish(Quarantined, error, []);
      case FetchFailed(error, statuses) =>
        outcome := Finish(Failed, error, statuses);
      case StoreFailed(error) =>
        outcome := Finish(Failed, error, []);
      case ProvenanceConflict =>
        return Conflict;
      case Uncaught =>
        return Raised;
      case Stored(document, status, requests) =>
        var _ := Advance(Downloaded);
        url := url.(document := Some(document), httpStatus := Some(status), error := None,
                    attempts := if 1 < requests then requests else 1);
        outcome := Returned(Downloaded, false);
    }
  }

  /** Acquisition after acquisition, whatever each one meets. */
  function AfterFetches(fetches: seq<Fetch>): Url {
    if fetches == [] then Url(Discovered, 0, None, None, None)
    else Acquired(AfterFetches(fetches[..|fetches| - 1]), fetches[|fetches| - 1]).1
  }

  /** A returned acquisition never leaves the row mid-download. One that raises does, unless it was cancelled
      or never begun, and every later acquisition of that row is then refused. */
  lemma NeverLeftDownloading(url: Url, fetch: Fetch)
    ensures var (outcome, after) := Acquired(url, fetch);
            && (outcome.Returned? ==> after.state != Downloading && after.state == outcome.state)
            && (after.state == Downloading <==> url.state == Downloading || (Trail(url, fetch) != [] && fetch in {ProvenanceConflict, Uncaught}))
            && (url.state == Downloading ==> outcome.IllegalTransition? && after == url)
  {
  }

  /** Over every history: a row is stuck mid-download exactly when some acquisition of it, begun from a state
      that allows it, ended in a conflict or an uncaught exception. */
  lemma {:induction false} StuckIff(fetches: seq<Fetch>)
    ensures AfterFetches(fetches).state == Downloading <==> exists k :: 0 <= k < |fetches| && BeginsAndRaises(fetches, k)
  {
    if fetches != [] {
      var last := |fetches| - 1;
      var front := fetches[..last];
      StuckIff(front);
      HistoryInvariant(front);
      forall k | 0 <= k < last ensures BeginsAndRaises(fetches, k) <==> BeginsAndRaises(front, k) {
        assert front[..k] == fetches[..k];
      }
      if k :| 0 <= k < last && BeginsAndRaises(front, k) { assert BeginsAndRaises(fetches, k); }
      if BeginsAndRaises(fetches, last) { assert AfterFetches(fetches).state == Downloading; }
    }
  }

  ghost predicate BeginsAndRaises(fetches: seq<Fetch>, k: nat)
    requires k < |fetches|
  {
    AfterFetches(fetches[..k]).state in {Discovered, Failed} && fetches[k] in {ProvenanceConflict, Uncaught}
  }

  /** Every move is an edge of the table, except a cancellation's reset. */
  lemma MovesAreEdges(url: Url, fetch: Fetch)
    ensures Legal(url.state, Trail(url, fetch)) <==> !Acquired(url, fetch).0.FetchCancelled?
  {
    var trail := Trail(url, fetch);
    assert trail == [] || trail == [Downloading] || trail == [Downloading, trail[1]];
    if |trail| == 2 {
      var rest := trail[1..];
      assert rest == [trail[1]] && rest[1..] == [];
      assert Legal(Downloading, rest) <==> CanTransition(Downloading, trail[1]);
    }
  }

  /** A cancellation leaves the row as it was exactly when the row was not a retry. */
  lemma CancellationRestoresIff(url: Url)
    requires CanTransition(url.state, Downloading)
    ensures Acquired(url, Cancelled).1 == url <==> url.state == Discovered
    ensures Acquired(url, Cancelled).1.attempts == url.attempts
  {
  }

  /** Over every history: a downloaded URL names its document and only a downloaded one does, the row is in
      one of five states, and attempts were made unless it is as discovered. */
  lemma {:induction false} HistoryInvariant(fetches: seq<Fetch>)
    ensures var url := AfterFetches(fetches);
            && (url.state == Downloaded <==> url.document.Some?)
            && url.state in {Discovered, Downloading, Downloaded, Failed, Quarantined}
            && (url.state in {Downloaded, Failed, Quarantined} ==> url.attempts >= 1)
            && (url.error.Some? <==> url.attempts >= 1 && url.state != Downloaded)
  {
    if fetches != [] { HistoryInvariant(fetches[..|fetches| - 1]); }
  }

  ghost predicate Begins(fetches: seq<Fetch>, k: nat)
    requires k < |fetches|
  {
    AfterFetches(fetches[..k]).state in {Discovered, Failed}
  }

  /** Acquisition `k` stored the document this row names, with its status and its requests, and none later changed
      the row. */
  ghost predicate IsDownloadOf(fetches: seq<Fetch>, k: nat, url: Url) {
    && k < |fetches| && Begins(fetches, k) && fetches[k].Stored?
    && url.document == Some(fetches[k].document) && url.httpStatus == Some(fetches[k].status) && url.error == None
    && url.attempts == (if fetches[k].requests > 1 then fetches[k].requests else 1)
    && forall j :: k < j <= |fetches| ==> AfterFetches(fetches[..j]) == url
  }

  /** Acquisition `k` failed as this row says, and none later changed the row. Unsafe content is set apart; a failed
      fetch leaves the status of its last request, if it made one. */
  ghost predicate IsFailureOf(fetches: seq<Fetch>, k: nat, url: Url) {
    && k < |fetches| && Begins(fetches, k)
    && (url.state == Quarantined <==> fetches[k].Unsafe?)
    && (url.state == Failed <==> fetches[k].FetchFailed? || fetches[k].StoreFailed?)
    && (fetches[k].Unsafe? || fetches[k].FetchFailed? || fetches[k].StoreFailed?) && url.error == Some(fetches[k].error)
    && url.httpStatus == (if fetches[k].FetchFailed? && fetches[k].statuses != [] then fetches[k].statuses[|fetches[k].statuses| - 1]
                          else AfterFetches(fetches[..k]).httpStatus)
    && forall j :: k < j <= |fetches| ==> AfterFetches(fetches[..j]) == url
  }

  /** Over every history, a downloaded row records the download that made it so, and a failed or quarantined one
      its last failure. */
  lemma {:induction false} RowRecordsWhatHappened(fetches: seq<Fetch>)
    ensures var url := AfterFetches(fetches);
            && (url.state == Downloaded <==> exists k :: IsDownloadOf(fetches, k, url))
            && (url.state in {Failed, Quarantined} <==> exists k :: IsFailureOf(fetches, k, url))
  {
    hide IsDownloadOf, IsFailureOf, AfterFetches, Begins;
    HistoryInvariant(fetches);
    OnlyWhatHappened(fetches);
    if fetches == [] {
      assert AfterFetches(fetches).state == Discovered by { StartsDiscovered(); }
    } else {
      var n := |fetches| - 1;
      RowRecordsWhatHappened(fetches[..n]);
      if Begins(fetches, n) {
        LastIsRecorded(fetches);
      } else {
        StillRecorded(fetches);
        var url := AfterFetches(fetches);
        if k :| IsDownloadOf(fetches[..n], k, url) { assert IsDownloadOf(fetches, k, url); }
        if k :| IsFailureOf(fetches[..n], k, url) { assert IsFailureOf(fetches, k, url); }
      }
    }
  }

  lemma StartsDiscovered()
    ensures AfterFetches([]).state == Discovered
  {
  }

  /** What is recorded tells the state. */
  lemma OnlyWhatHappened(fetches: seq<Fetch>)
    ensures forall k :: IsDownloadOf(fetches, k, AfterFetches(fetches)) ==> AfterFetches(fetches).state == Downloaded
    ensures forall k :: IsFailureOf(fetches, k, AfterFetches(fetches)) ==> AfterFetches(fetches).state in {Failed, Quarantined}
  {
    HistoryInvariant(fetches);
    assert fetches[..|fetches|] == fetches;
  }

  lemma LastIsRecorded(fetches: seq<Fetch>)
    requires fetches != [] && Begins(fetches, |fetches| - 1)
    ensures var url, n := AfterFetches(fetches), |fetches| - 1;
            && (url.state == Downloaded ==> IsDownloadOf(fetches, n, url))
            && (url.state in {Failed, Quarantined} ==> IsFailureOf(fetches, n, url))
  {
    HistoryInvariant(fetches[..|fetches| - 1]);
    assert fetches[..|fetches|] == fetches;
    assert forall j :: |fetches| - 1 < j <= |fetches| ==> fetches[..j] == fetches;
  }

  lemma StillRecorded(fetches: seq<Fetch>)
    requires fetches != [] && !Begins(fetches, |fetches| - 1)
    ensures var front, url := fetches[..|fetches| - 1], AfterFetches(fetches);
            && url == AfterFetches(front)
            && (forall k :: IsDownloadOf(front, k, url) ==> IsDownloadOf(fetches, k, url))
            && (forall k :: IsFailureOf(front, k, url) ==> IsFailureOf(fetches, k, url))
  {
    var n := |fetches| - 1;
    HistoryInvariant(fetches[..n]);
    hide Acquired;
    assert fetches[..|fetches|] == fetches;
    assert forall j :: 0 <= j <= n ==> fetches[..n][..j] == fetches[..j];
    assert AfterFetches(fetches) == AfterFetches(fetches[..n]) by { Unbegun(fetches); }
  }

  lemma Unbegun(fetches: seq<Fetch>)
    requires fetches != [] && !Begins(fetches, |fetches| - 1)
    ensures AfterFetches(fetches) == AfterFetches(fetches[..|fetches| - 1])
  {
    HistoryInvariant(fetches[..|fetches| - 1]);
  }

  /** Once downloaded or quarantined, a URL is never changed again, however often it is acquired. */
  lemma {:induction false} SettledForGood(fetches: seq<Fetch>, k: nat)
    requires k <= |fetches| && AfterFetches(fetches[..k]).state in {Downloaded, Quarantined, Processed}
    ensures AfterFetches(fetches) == AfterFetches(fetches[..k])
  {
    if k < |fetches| {
      var front := fetches[..|fetches| - 1];
      assert front[..k] == fetches[..k];
      SettledForGood(front, k);
      HistoryInvariant(front);
    } else {
      assert fetches[..k] == fetches;
    }
  }

  /** Attempts count failures until a download overwrites them with the requests that one took. */
  function Failures(fetches: seq<Fetch>): nat {
    if fetches == [] then 0
    else
      var front, fetch := fetches[..|fetches| - 1], fetches[|fetches| - 1];
      var outcome := Acquired(AfterFetches(front), fetch).0;
      Failures(front) + if outcome.Returned? && outcome.state in {Failed, Quarantined} then 1 else 0
  }

  lemma {:induction false} AttemptsCountFailures(fetches: seq<Fetch>)
    ensures AfterFetches(fetches).state != Downloaded ==> AfterFetches(fetches).attempts == Failures(fetches)
  {
    if fetches != [] {
      AttemptsCountFailures(fetches[..|fetches| - 1]);
      HistoryInvariant(fetches[..|fetches| - 1]);
    }
  }

  // ---- The queue: claims, leases, refusals, retries and crashes ----

  datatype Lease = Free | Held | Lapsed

  /** What is committed about one queued URL, and how many workers have claimed it and not yet dealt with it. */
  datatype Queued = Queued(url: Url, lease: Lease, deadLettered: bool, holders: nat)

  /** The attempts allowed, and whether the URL is a listing page: read and never stored. */
  datatype Setting = Setting(maxAttempts: nat, listing: bool)

  /** A worker deals with a URL in one transaction, without looking at the lease again. It drops the URL when
      it crashes, or when another URL makes it raise; what was committed stays. */
  datatype Event =
    | Claim
    | Refuse
    | Handle(fetch: Fetch)
    | ReadPage(failure: Option<string>)
    | GiveBack
    | Drop
    | LeaseLapses
    | ReclaimExpired

  predicate Claimable(row: Queued, maxAttempts: nat) {
    row.url.state in {Discovered, Failed} && !row.deadLettered && row.url.attempts < maxAttempts && row.lease != Held
  }

  predicate Enabled(s: Setting, row: Queued, event: Event) {
    match event
    case Claim => Claimable(row, s.maxAttempts)
    case Handle(_) => row.holders > 0 && !s.listing
    case ReadPage(_) => row.holders > 0 && s.listing
    case Refuse => row.holders > 0
    case GiveBack => row.holders > 0
    case Drop => row.holders > 0
    case LeaseLapses => row.lease == Held
    case ReclaimExpired => true
  }

  function Left(row: Queued): Queued {
    row.(holders := if row.holders == 0 then 0 else row.holders - 1)
  }

  function Settled(row: Queued, maxAttempts: nat): Queued {
    row.(lease := Free, deadLettered := row.deadLettered || (row.url.state == Failed && row.url.attempts >= maxAttempts))
  }

  function Retired(row: Queued, reason: string): Queued {
    row.(url := row.url.(error := Some(reason)), deadLettered := true)
  }

  function Reclaimed(row: Queued, maxAttempts: nat): Queued {
    if row.url.state == Downloading && row.lease == Lapsed
    then row.(url := row.url.(state := Failed, attempts := row.url.attempts + 1, error := Some("lease_expired")),
              lease := Free, deadLettered := row.url.attempts + 1 >= maxAttempts)
    else row
  }

  function Next(row: Queued, event: Event, maxAttempts: nat): Queued {
    match event
    case Claim => row.(lease := Held, holders := row.holders + 1)
    case Refuse => Settled(Retired(Left(row), "robots_disallowed"), maxAttempts)
    case Handle(fetch) =>
      var (outcome, url) := Acquired(row.url, fetch);
      if outcome.Returned? then Settled(Left(row).(url := url), maxAttempts) else Left(row)
    case ReadPage(None) => Settled(Retired(Left(row), "page_read"), maxAttempts)
    case ReadPage(Some(error)) =>
      Settled(Left(row).(url := row.url.(state := Failed, attempts := row.url.attempts + 1, error := Some(error))), maxAttempts)
    case GiveBack => Left(row).(lease := Free)
    case Drop => Left(row)
    case LeaseLapses => row.(lease := Lapsed)
    case ReclaimExpired => Reclaimed(row, maxAttempts)
  }

  const NEW := Queued(Url(Discovered, 0, None, None, None), Free, false, 0)

  function AfterEvents(s: Setting, events: seq<Event>): Queued {
    if events == [] then NEW
    else Next(AfterEvents(s, events[..|events| - 1]), events[|events| - 1], s.maxAttempts)
  }

  /** A sequence of events each of which could happen where it does. */
  predicate IsHistory(s: Setting, events: seq<Event>) {
    events == []
    || (IsHistory(s, events[..|events| - 1]) && Enabled(s, AfterEvents(s, events[..|events| - 1]), events[|events| - 1]))
  }

  predicate RecordsFailure(row: Queued, event: Event) {
    (event.Handle? && Acquired(row.url, event.fetch).0 == Returned(Failed, false)) || (event.ReadPage? && event.failure.Some?)
  }

  function RecordedFailures(s: Setting, events: seq<Event>): nat {
    if events == [] then 0
    else
      var front := events[..|events| - 1];
      RecordedFailures(s, front) + if RecordsFailure(AfterEvents(s, front), events[|events| - 1]) then 1 else 0
  }

  /** Leases that lapsed while a worker still held the URL. */
  function Overtaken(s: Setting, events: seq<Event>): nat {
    if events == [] then 0
    else
      var front := events[..|events| - 1];
      Overtaken(s, front) + if events[|events| - 1].LeaseLapses? && AfterEvents(s, front).holders > 0 then 1 else 0
  }

  predicate IsRetirement(event: Event) {
    event.Refuse? || (event.ReadPage? && event.failure.None?)
  }

  predicate Retires(events: seq<Event>) {
    exists k :: 0 <= k < |events| && IsRetirement(events[k])
  }

  /** What every queue history keeps: no committed row is mid-download, only a downloaded one names a document,
      and attempts are the recorded failures for as long as the URL can still be claimed. */
  lemma {:induction false} HistoriesAreConsistent(s: Setting, events: seq<Event>)
    requires IsHistory(s, events)
    ensures var row, failures := AfterEvents(s, events), RecordedFailures(s, events);
            && row.url.state in {Discovered, Downloaded, Failed, Quarantined}
            && (row.url.state == Downloaded <==> row.url.document.Some?)
            && (row.url.state == Discovered ==> failures == 0)
            && (row.url.state == Failed ==> failures > 0)
            && (row.url.state in {Discovered, Failed} ==> row.url.attempts == failures)
            && (s.listing ==> row.url.state in {Discovered, Failed})
  {
    if events != [] { HistoriesAreConsistent(s, events[..|events| - 1]); }
  }

  /** A URL is set aside exactly when robots.txt forbade it, or its page was read, or it failed as often as
      allowed. */
  lemma {:induction false} SetAsideIff(s: Setting, events: seq<Event>)
    requires IsHistory(s, events) && s.maxAttempts >= 1
    ensures AfterEvents(s, events).deadLettered <==> Retires(events) || RecordedFailures(s, events) >= s.maxAttempts
  {
    if events != [] {
      var front, event := events[..|events| - 1], events[|events| - 1];
      SetAsideIff(s, front);
      HistoriesAreConsistent(s, front);
      HistoriesAreConsistent(s, events);
      assert Retires(events) <==> Retires(front) || IsRetirement(event) by {
        if Retires(front) {
          var k :| 0 <= k < |front| && IsRetirement(front[k]);
          assert IsRetirement(events[k]);
        }
        if Retires(events) && !IsRetirement(event) {
          var k :| 0 <= k < |events| && IsRetirement(events[k]);
          assert IsRetirement(front[k]);
        }
      }
    }
  }

  /** Recovery of expired leases never finds anything to recover. */
  lemma NothingIsEverReclaimed(s: Setting, events: seq<Event>)
    requires IsHistory(s, events)
    ensures Reclaimed(AfterEvents(s, events), s.maxAttempts) == AfterEvents(s, events)
  {
    HistoriesAreConsistent(s, events);
  }

  /** Why a row is as it is: in any history, what the last thing that happened to it wrote down. */
  lemma LastEventIsWritten(s: Setting, events: seq<Event>, event: Event)
    requires IsHistory(s, events + [event])
    ensures var was, row := AfterEvents(s, events), AfterEvents(s, events + [event]);
            && (event.Refuse? ==> row.url == was.url.(error := Some("robots_disallowed")) && row.deadLettered && row.lease == Free)
            && (event.ReadPage? && event.failure.Some? ==>
                  row.url == was.url.(state := Failed, attempts := was.url.attempts + 1, error := event.failure) && row.lease == Free)
            && (event.ReadPage? && event.failure.None? ==>
                  row.url == was.url.(error := Some("page_read")) && row.deadLettered && row.lease == Free)
            && (event in {GiveBack, Claim, Drop, LeaseLapses} ==> row.url == was.url && row.deadLettered == was.deadLettered)
            && (event == GiveBack ==> row.lease == Free) && (event == Claim ==> row.lease == Held)
            && (event == Drop ==> row.lease == was.lease) && (event == LeaseLapses ==> row.lease == Lapsed)
            && (event.Handle? ==> row.url == was.url || row.url == Acquired(was.url, event.fetch).1)
            && row.holders == was.holders + (if event == Claim then 1 else if event in {LeaseLapses, ReclaimExpired} then 0 else -1)
  {
    assert (events + [event])[..|events|] == events;
  }

  /** Recovery fails and charges exactly the rows mid-download under a lapsed lease. */
  lemma RecoversIff(row: Queued, maxAttempts: nat)
    ensures Reclaimed(row, maxAttempts) != row <==> row.url.state == Downloading && row.lease == Lapsed
    ensures Reclaimed(row, maxAttempts) != row ==>
              && Reclaimed(row, maxAttempts).url == row.url.(state := Failed, attempts := row.url.attempts + 1, error := Some("lease_expired"))
              && Reclaimed(row, maxAttempts).lease == Free
              && (Reclaimed(row, maxAttempts).deadLettered <==> row.url.attempts + 1 >= maxAttempts)
  {
  }

  /** A page that was read is left as discovered exactly when reading it never failed before. */
  lemma ReadPageIsDiscoveredIff(s: Setting, events: seq<Event>)
    requires IsHistory(s, events + [ReadPage(None)])
    ensures var row := AfterEvents(s, events + [ReadPage(None)]);
            && row.deadLettered && row.url.error == Some("page_read")
            && row.url.state in {Discovered, Failed}
            && (row.url.state == Discovered <==> RecordedFailures(s, events) == 0)
  {
    assert (events + [ReadPage(None)])[..|events|] == events;
    HistoriesAreConsistent(s, events);
  }

  /** Every worker holding the URL but the last to claim it lost its lease first. */
  lemma {:induction false} HoldersAreOvertaken(s: Setting, events: seq<Event>)
    requires IsHistory(s, events)
    ensures var row := AfterEvents(s, events);
            row.holders <= Overtaken(s, events) + if row.lease == Held then 1 else 0
  {
    if events != [] {
      HoldersAreOvertaken(s, events[..|events| - 1]);
      HistoriesAreConsistent(s, events[..|events| - 1]);
    }
  }

  /** The failures recorded are at most those allowed, and one more for each lease that lapsed under a worker. */
  lemma {:induction false} RecordedFailuresAreBounded(s: Setting, events: seq<Event>)
    requires IsHistory(s, events) && s.maxAttempts >= 1
    ensures RecordedFailures(s, events) + AfterEvents(s, events).holders <= s.maxAttempts + Overtaken(s, events)
  {
    if events != [] {
      var front := events[..|events| - 1];
      RecordedFailuresAreBounded(s, front);
      HoldersAreOvertaken(s, events);
      HistoriesAreConsistent(s, front);
    }
  }

  // -- The bound is attained --

  function Failure(s: Setting): Event {
    if s.listing then ReadPage(Some("timeout")) else Handle(FetchFailed("timeout", []))
  }

  /** Attempt after attempt fails, each under its own lease. */
  function Spent(s: Setting, n: nat): seq<Event> {
    if n == 0 then [] else Spent(s, n - 1) + [Claim] + [Failure(s)]
  }

  /** Then worker after worker claims the URL and loses its lease before coming to it. */
  function Piled(s: Setting, n: nat, late: nat): seq<Event> {
    if late == 0 then Spent(s, n) + [Claim] else Piled(s, n, late - 1) + [LeaseLapses] + [Claim]
  }

  /** Then all of them come to it. */
  function Drained(s: Setting, n: nat, late: nat, k: nat): seq<Event> {
    if k == 0 then Piled(s, n, late) else Drained(s, n, late, k - 1) + [Failure(s)]
  }

  lemma OneMore(s: Setting, events: seq<Event>, event: Event)
    requires IsHistory(s, events) && Enabled(s, AfterEvents(s, events), event)
    ensures IsHistory(s, events + [event])
    ensures AfterEvents(s, events + [event]) == Next(AfterEvents(s, events), event, s.maxAttempts)
    ensures RecordedFailures(s, events + [event]) ==
            RecordedFailures(s, events) + if RecordsFailure(AfterEvents(s, events), event) then 1 else 0
    ensures Overtaken(s, events + [event]) ==
            Overtaken(s, events) + if event.LeaseLapses? && AfterEvents(s, events).holders > 0 then 1 else 0
  {
    assert (events + [event])[..|events|] == events;
  }

  lemma Outset(s: Setting)
    ensures IsHistory(s, []) && AfterEvents(s, []) == NEW && RecordedFailures(s, []) == 0 == Overtaken(s, [])
  {
  }

  lemma {:induction false} SpentIsHistory(s: Setting, n: nat)
    requires n < s.maxAttempts
    ensures var events := Spent(s, n); var row := AfterEvents(s, events);
            && IsHistory(s, events) && Claimable(row, s.maxAttempts) && row.lease == Free && row.holders == 0
            && row.url.attempts == n == RecordedFailures(s, events) && Overtaken(s, events) == 0
  {
    hide AfterEvents, IsHistory, RecordedFailures, Overtaken;
    if n == 0 {
      Outset(s);
    } else {
      SpentIsHistory(s, n - 1);
      OneMore(s, Spent(s, n - 1), Claim);
      OneMore(s, Spent(s, n - 1) + [Claim], Failure(s));
    }
  }

  lemma {:induction false} PiledIsHistory(s: Setting, n: nat, late: nat)
    requires n < s.maxAttempts
    ensures var events := Piled(s, n, late); var row := AfterEvents(s, events);
            && IsHistory(s, events) && row.url.state in {Discovered, Failed} && !row.deadLettered
            && row.lease == Held && row.holders == late + 1
            && row.url.attempts == n == RecordedFailures(s, events) && Overtaken(s, events) == late
  {
    hide AfterEvents, IsHistory, RecordedFailures, Overtaken;
    if late == 0 {
      SpentIsHistory(s, n);
      OneMore(s, Spent(s, n), Claim);
    } else {
      PiledIsHistory(s, n, late - 1);
      OneMore(s, Piled(s, n, late - 1), LeaseLapses);
      OneMore(s, Piled(s, n, late - 1) + [LeaseLapses], Claim);
    }
  }

  lemma {:induction false} DrainedIsHistory(s: Setting, n: nat, late: nat, k: nat)
    requires n < s.maxAttempts && k <= late + 1
    ensures var events := Drained(s, n, late, k); var row := AfterEvents(s, events);
            && IsHistory(s, events) && row.url.state in {Discovered, Failed} && row.holders == late + 1 - k
            && RecordedFailures(s, events) == n + k && Overtaken(s, events) == late
  {
    hide AfterEvents, IsHistory, RecordedFailures, Overtaken;
    if k == 0 {
      PiledIsHistory(s, n, late);
    } else {
      DrainedIsHistory(s, n, late, k - 1);
      OneMore(s, Drained(s, n, late, k - 1), Failure(s));
    }
  }

  ghost predicate AlwaysWithinAllowance(s: Setting, late: nat) {
    forall events :: IsHistory(s, events) && Overtaken(s, events) <= late ==> RecordedFailures(s, events) <= s.maxAttempts
  }

  /** No history exceeds the allowed failures by more than the leases overtaken, and some history does by
      exactly that many, on documents and on listing pages. */
  lemma BoundIsAttained(s: Setting, late: nat)
    requires s.maxAttempts >= 1
    ensures exists events :: IsHistory(s, events) && Overtaken(s, events) == late && RecordedFailures(s, events) == s.maxAttempts + late
  {
    DrainedIsHistory(s, s.maxAttempts - 1, late, late + 1);
  }

  /** So the allowance is kept exactly as long as no lease lapses under a worker. */
  lemma AllowanceIsKeptIff(s: Setting, late: nat)
    requires s.maxAttempts >= 1
    ensures AlwaysWithinAllowance(s, late) <==> late == 0
  {
    if late > 0 {
      BoundIsAttained(s, late);
    } else {
      forall events | IsHistory(s, events) && Overtaken(s, events) <= late
        ensures RecordedFailures(s, events) <= s.maxAttempts
      {
        RecordedFailuresAreBounded(s, events);
      }
    }
  }

  // -- A URL that kills its worker --

  /** A round of it: claimed, begun, lost in a crash, lapsed and recovered. The begin is or is not committed
      before the crash. */
  function Round(row: Queued, commitsBegin: bool, maxAttempts: nat): Queued {
    if !Claimable(row, maxAttempts) then row
    else
      var claimed := Next(row, Claim, maxAttempts);
      var begun := if commitsBegin then claimed.(url := claimed.url.(state := Downloading)) else claimed;
      Next(Next(Next(begun, Drop, maxAttempts), LeaseLapses, maxAttempts), ReclaimExpired, maxAttempts)
  }

  function Rounds(n: nat, commitsBegin: bool, maxAttempts: nat): Queued {
    if n == 0 then NEW else Round(Rounds(n - 1, commitsBegin, maxAttempts), commitsBegin, maxAttempts)
  }

  /** It is set aside, after exactly the allowed rounds, if and only if the begin is committed. */
  lemma {:induction false} PoisonIsSetAsideIff(n: nat, commitsBegin: bool, maxAttempts: nat)
    requires maxAttempts >= 1
    ensures var row := Rounds(n, commitsBegin, maxAttempts);
            && (row.deadLettered <==> commitsBegin && n >= maxAttempts)
            && (Claimable(row, maxAttempts) <==> !row.deadLettered)
            && row.url.attempts == if !commitsBegin then 0 else if n < maxAttempts then n else maxAttempts
  {
    if n > 0 { PoisonIsSetAsideIff(n - 1, commitsBegin, maxAttempts); }
  }

  lemma NewIsClaimable(maxAttempts: nat)
    requires maxAttempts >= 1
    ensures Claimable(NEW, maxAttempts)
  {
  }

  lemma CrashLeavesNoTrace(row: Queued, maxAttempts: nat)
    requires Claimable(row, maxAttempts) && row.holders == 0
    ensures var round := Round(row, false, maxAttempts);
            round == row.(lease := Lapsed) && Claimable(round, maxAttempts)
  {
  }

  function CrashRounds(n: nat): seq<Event> {
    if n == 0 then [] else CrashRounds(n - 1) + [Claim] + [Drop] + [LeaseLapses] + [ReclaimExpired]
  }

  /** The runner does not commit it: such a URL is charged nothing and can be claimed again after any number
      of rounds. */
  lemma {:induction false} PoisonUrlIsNeverSetAside(s: Setting, n: nat)
    requires s.maxAttempts >= 1
    ensures var events := CrashRounds(n);
            && IsHistory(s, events) && AfterEvents(s, events).holders == 0
            && AfterEvents(s, events) == Rounds(n, false, s.maxAttempts)
            && Claimable(AfterEvents(s, events), s.maxAttempts) && AfterEvents(s, events).url == NEW.url
  {
    hide AfterEvents, IsHistory, RecordedFailures, Overtaken, RecordsFailure, Claimable, Acquired;
    if n == 0 {
      Outset(s);
      NewIsClaimable(s.maxAttempts);
    } else {
      PoisonUrlIsNeverSetAside(s, n - 1);
      var events := CrashRounds(n - 1);
      CrashLeavesNoTrace(AfterEvents(s, events), s.maxAttempts);
      OneMore(s, events, Claim);
      OneMore(s, events + [Claim], Drop);
      OneMore(s, events + [Claim] + [Drop], LeaseLapses);
      OneMore(s, events + [Claim] + [Drop] + [LeaseLapses], ReclaimExpired);
    }
  }

  // ---- One document under analysis ----

  datatype Step = Begin | Complete | RecordFailure

  datatype Analysis = Moved | Skipped | Refused

  /** Moving to a target, tolerating a document already past it. */
  function Advanced(state: State, target: State): (Analysis, seq<State>) {
    if state == target || state == Processed then (Skipped, [])
    else if state == Downloaded && target == Processing then (Moved, [Validated, Processing])
    else if CanTransition(state, target) then (Moved, [target])
    else (Refused, [])
  }

  function Taken(state: State, step: Step): (Analysis, seq<State>) {
    match step
    case Begin => Advanced(state, Processing)
    case Complete => Advanced(state, Processed)
    case RecordFailure => if CanTransition(state, Failed) then (Moved, [Failed]) else (Skipped, [])
  }

  function Last(state: State, trail: seq<State>): State {
    if trail == [] then state else trail[|trail| - 1]
  }

  class DocumentRow {
    var state: State
    ghost var trail: seq<State>

    constructor ()
      ensures state == Downloaded && trail == []
    {
      state, trail := Downloaded, [];
    }

    method Move(target: State)
      modifies this
      ensures state == target && trail == old(trail) + [target]
    {
      state, trail := target, trail + [target];
    }

    method Advance(target: State) returns (outcome: Analysis)
      modifies this
      ensures outcome == Advanced(old(state), target).0
      ensures trail == old(trail) + Advanced(old(state), target).1
      ensures state == Last(old(state), Advanced(old(state), target).1)
    {
      if state == target || state == Processed { return Skipped; }
      if state == Downloaded && target == Processing { Move(Validated); }
      if !CanTransition(state, target) { return Refused; }
      Move(target);
      outcome := Moved;
    }

    method RecordAnalysisFailure() returns (moved: bool)
      modifies this
      ensures moved == CanTransition(old(state), Failed)
      ensures trail == old(trail) + Taken(old(state), RecordFailure).1
      ensures state == Last(old(state), Taken(old(state), RecordFailure).1)
    {
      if !CanTransition(state, Failed) { return false; }
      Move(Failed);
      moved := true;
    }
  }

  function AfterSteps(steps: seq<Step>): State {
    if steps == [] then Downloaded
    else
      var state := AfterSteps(steps[..|steps| - 1]);
      Last(state, Taken(state, steps[|steps| - 1]).1)
  }

  /** However analysis steps, failures and re-reads follow each other, every move is an edge of the table. */
  lemma AnalysisMovesAreEdges(steps: seq<Step>, step: Step)
    ensures Legal(AfterSteps(steps), Taken(AfterSteps(steps), step).1)
  {
    var state, trail := AfterSteps(steps), Taken(AfterSteps(steps), step).1;
    assert trail == [] || trail == [trail[0]] || (state == Downloaded && trail == [Validated, Processing]);
    if state == Downloaded && step == Begin { assert trail[1..] == [Processing]; }
  }

  /** What each step does to a document, wherever earlier steps left it: analysis begins through validation or again
      after a failure, and is not begun twice; it completes only what it began; and a failure takes back what is not
      done. */
  lemma StepsMean(steps: seq<Step>)
    ensures var state := AfterSteps(steps);
            && Taken(state, Begin) == (match state
                                       case Downloaded => (Moved, [Validated, Processing])
                                       case Failed => (Moved, [Processing])
                                       case _ => (Skipped, []))
            && Taken(state, Complete) == (match state
                                          case Processing => (Moved, [Processed])
                                          case Processed => (Skipped, [])
                                          case _ => (Refused, []))
            && Taken(state, RecordFailure) == (match state
                                               case Downloaded => (Moved, [Failed])
                                               case Processing => (Moved, [Failed])
                                               case _ => (Skipped, []))
  {
    FailureIsRecordedIff(steps);
  }

  /** A processed document stays processed, and a failure is recorded exactly when it is news: not about a
      processed or quarantined document, and not twice. */
  lemma {:induction false} ProcessedForGood(steps: seq<Step>, k: nat)
    requires k <= |steps| && AfterSteps(steps[..k]) == Processed
    ensures AfterSteps(steps) == Processed
  {
    if k < |steps| {
      assert steps[..|steps| - 1][..k] == steps[..k];
      ProcessedForGood(steps[..|steps| - 1], k);
    } else {
      assert steps[..k] == steps;
    }
  }

  lemma {:induction false} FailureIsRecordedIff(steps: seq<Step>)
    ensures AfterSteps(steps) in {Downloaded, Processing, Processed, Failed}
    ensures Taken(AfterSteps(steps), RecordFailure).0 == Moved <==> AfterSteps(steps) in {Downloaded, Processing}
    ensures AfterSteps(steps) != Processed ==> Taken(AfterSteps(steps), Begin).0 != Refused
  {
    if steps != [] { FailureIsRecordedIff(steps[..|steps| - 1]); }
  }
}
