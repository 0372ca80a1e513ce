/** Transcribing a scan: concurrent workers, a deadline that may cut them off, and an ordered result. */
module Transcription {
  import opened Sequences
  import opened PageBudget

  datatype Image = Image(number: nat, bytes: seq<bv8>)

  /** One scanned document and everything that bounds its transcription. `read` is the OCR engine. */
  datatype Job = Job(images: seq<Image>, pageCount: nat, read: seq<bv8> -> string, maxChars: int, workers: nat)

  /** Page images come from distinct pages of the document, in page order. */
  ghost predicate WellFormed(job: Job) {
    && (forall i :: 0 <= i < |job.images| ==> 1 <= job.images[i].number <= job.pageCount)
    && (forall i, j :: 0 <= i < j < |job.images| ==> job.images[i].number < job.images[j].number)
  }

  // ---- The worker pool ----

  datatype Status = Queued | Running | Finished | Cancelled

  datatype Phase = Collecting | Sweeping(next: nat) | Closed(deadlineHit: bool)

  /** Where each page's worker stands, and what the collector holds. */
  datatype Pool = Pool(status: seq<Status>, transcribed: map<nat, string>, abandoned: nat, phase: Phase)

  datatype Event =
    | Start(page: nat)
    | Finish(page: nat)
    | Collect(page: nat)
    | Deadline
    | Sweep
    | CloseSwept
    | CloseComplete

  function Opened(job: Job): Pool {
    Pool(seq(|job.images|, i => Queued), map[], 0, Collecting)
  }

  function Busy(status: seq<Status>): nat {
    if status == [] then 0 else Busy(status[1..]) + if status[0] == Running then 1 else 0
  }

  predicate Enabled(job: Job, p: Pool, e: Event) {
    && |p.status| == |job.images|
    && match e
       case Start(i) => i < |p.status| && p.status[i] == Queued && Busy(p.status) < job.workers
       case Finish(i) => i < |p.status| && p.status[i] == Running
       case Collect(i) =>
         p.phase == Collecting && i < |p.status| && p.status[i] == Finished && job.images[i].number !in p.transcribed
       case Deadline => p.phase == Collecting && exists i :: 0 <= i < |job.images| && job.images[i].number !in p.transcribed
       case Sweep => p.phase.Sweeping? && p.phase.next < |p.status|
       case CloseSwept => p.phase == Sweeping(|p.status|)
       case CloseComplete => p.phase == Collecting && forall i :: 0 <= i < |job.images| ==> job.images[i].number in p.transcribed
  }

  /** Workers start and finish in any order and at any time; the collector takes completions in any
      order; the sweep after a deadline cancels what has not started, keeps what has finished and lets
      go of what is still running. */
  function Apply(job: Job, p: Pool, e: Event): Pool
    requires Enabled(job, p, e)
  {
    match e
    case Start(i) => p.(status := p.status[i := Running])
    case Finish(i) => p.(status := p.status[i := Finished])
    case Collect(i) => p.(transcribed := p.transcribed[job.images[i].number := job.read(job.images[i].bytes)])
    case Deadline => p.(phase := Sweeping(0))
    case Sweep =>
      var i := p.phase.next;
      var number := job.images[i].number;
      var swept := p.(phase := Sweeping(i + 1));
      if p.status[i] == Queued then swept.(status := p.status[i := Cancelled], abandoned := p.abandoned + 1)
      else if p.status[i] == Finished && number !in p.transcribed
      then swept.(transcribed := p.transcribed[number := job.read(job.images[i].bytes)])
      else swept
    case CloseSwept => p.(phase := Closed(true))
    case CloseComplete => p.(phase := Closed(false))
  }

  ghost predicate Happens(job: Job, p: Pool, e: Event, q: Pool) {
    Enabled(job, p, e) && q == Apply(job, p, e)
  }

  /** One interleaving: the events in the order they happened, and the pool before and after each. */
  ghost predicate IsRun(job: Job, events: seq<Event>, pools: seq<Pool>) {
    && |pools| == |events| + 1 && pools[0] == Opened(job)
    && forall k :: 0 <= k < |events| ==> Happens(job, pools[k], events[k], pools[k + 1])
  }

  /** What every interleaving keeps. */
  ghost predicate Sound(job: Job, p: Pool) {
    && |p.status| == |job.images|
    && (forall n :: n in p.transcribed ==> exists i: nat :: TakenFrom(job, p, n, i))
    && (p.phase == Collecting ==> Cancelled !in p.status)
    && (p.phase.Sweeping? ==> p.phase.next <= |p.status|)
    && (p.phase == Closed(false) ==> forall i :: 0 <= i < |job.images| ==> job.images[i].number in p.transcribed)
  }

  ghost predicate TakenFrom(job: Job, p: Pool, n: nat, i: nat) {
    && i < |job.images| && i < |p.status| && n in p.transcribed
    && job.images[i].number == n && p.status[i] == Finished && p.transcribed[n] == job.read(job.images[i].bytes)
  }

  lemma StepKeepsSound(job: Job, p: Pool, e: Event)
    requires Sound(job, p) && Enabled(job, p, e)
    ensures Sound(job, Apply(job, p, e))
  {
    var q := Apply(job, p, e);
    forall n | n in q.transcribed ensures exists i :: TakenFrom(job, q, n, i) {
      if n in p.transcribed {
        var i: nat :| TakenFrom(job, p, n, i);
        assert TakenFrom(job, q, n, i);
      } else if e.Collect? {
        assert TakenFrom(job, q, n, e.page);
      } else {
        assert TakenFrom(job, q, n, p.phase.next);
      }
    }
  }

  lemma {:induction false} RunsAreSound(job: Job, events: seq<Event>, pools: seq<Pool>, k: nat)
    requires IsRun(job, events, pools) && k < |pools|
    ensures Sound(job, pools[k])
  {
    if k > 0 {
      RunsAreSound(job, events, pools, k - 1);
      assert Happens(job, pools[k - 1], events[k - 1], pools[k - 1 + 1]);
      StepKeepsSound(job, pools[k - 1], events[k - 1]);
    }
  }

  ghost function Those(status: seq<Status>, s: Status): set<nat> {
    set i | 0 <= i < |status| && status[i] == s
  }

  lemma {:induction false} BusyCounts(status: seq<Status>)
    ensures Busy(status) == |Those(status, Running)|
  {
    if status != [] {
      var front, last := status[..|status| - 1], |status| - 1;
      BusyCounts(front);
      BusySum(front, status[last]);
      assert status == front + [status[last]];
      assert Those(status, Running) == Those(front, Running) + if status[last] == Running then {last} else {};
    }
  }

  lemma {:induction false} BusySum(status: seq<Status>, s: Status)
    ensures Busy(status + [s]) == Busy(status) + if s == Running then 1 else 0
  {
    if status != [] {
      assert (status + [s])[1..] == status[1..] + [s];
      BusySum(status[1..], s);
    }
  }

  /** No more pages are read at once than there are workers, and what the sweep counts are the pages it cancelled. */
  lemma {:induction false} WorkersAreEnough(job: Job, events: seq<Event>, pools: seq<Pool>, k: nat)
    requires IsRun(job, events, pools) && k < |pools|
    ensures |pools[k].status| == |job.images|
    ensures |Those(pools[k].status, Running)| <= job.workers
    ensures pools[k].abandoned == |Those(pools[k].status, Cancelled)|
  {
    hide Busy;
    if k == 0 {
      assert Those(pools[0].status, Running) == {} == Those(pools[0].status, Cancelled);
    } else {
      WorkersAreEnough(job, events, pools, k - 1);
      assert Happens(job, pools[k - 1], events[k - 1], pools[k - 1 + 1]);
      RunsAreSound(job, events, pools, k - 1);
      BusyCounts(pools[k - 1].status);
      StatusesMove(job, pools[k - 1], events[k - 1]);
    }
  }

  lemma StatusesMove(job: Job, p: Pool, e: Event)
    requires Enabled(job, p, e)
    ensures var q := Apply(job, p, e);
            && (e.Start? ==> |Those(q.status, Running)| == |Those(p.status, Running)| + 1 && |Those(q.status, Cancelled)| == |Those(p.status, Cancelled)|)
            && (!e.Start? ==> |Those(q.status, Running)| <= |Those(p.status, Running)|)
            && |Those(q.status, Cancelled)| - |Those(p.status, Cancelled)| == q.abandoned - p.abandoned
  {
    hide Busy;
    match e {
      case Start(i) =>
        Moves(p.status, i, Running, Running);
        Moves(p.status, i, Running, Cancelled);
      case Finish(i) =>
        Moves(p.status, i, Finished, Running);
        Moves(p.status, i, Finished, Cancelled);
      case Sweep =>
        if p.status[p.phase.next] == Queued {
          Moves(p.status, p.phase.next, Cancelled, Running);
          Moves(p.status, p.phase.next, Cancelled, Cancelled);
        }
      case _ =>
    }
  }

  /** One page changing its status changes two counts by one. */
  lemma Moves(status: seq<Status>, i: nat, to: Status, s: Status)
    requires i < |status| && status[i] != to
    ensures |Those(status[i := to], s)| == |Those(status, s)| + (if s == to then 1 else if s == status[i] then -1 else 0)
  {
    hide Those;
    InThose(status, s);
    InThose(status[i := to], s);
    var before, after := Those(status, s), Those(status[i := to], s);
    if s == to {
      OneLess(after, before, i);
    } else if s == status[i] {
      OneLess(before, after, i);
    } else {
      assert after == before;
    }
  }

  lemma OneLess(larger: set<nat>, smaller: set<nat>, i: nat)
    requires i in larger && i !in smaller && forall j :: j != i ==> (j in larger <==> j in smaller)
    ensures |larger| == |smaller| + 1
  {
    assert larger == smaller + {i};
  }

  lemma InThose(status: seq<Status>, s: Status)
    ensures forall i: nat :: i in Those(status, s) <==> i < |status| && status[i] == s
  {
  }

  /** The sweep leaves no page queued behind it: what never started is cancelled, every page of it by the end. */
  lemma {:induction false} NothingStaysQueued(job: Job, events: seq<Event>, pools: seq<Pool>, k: nat)
    requires IsRun(job, events, pools) && k < |pools|
    ensures |pools[k].status| == |job.images|
    ensures pools[k].phase.Sweeping? ==> forall i :: 0 <= i < |pools[k].status| && i < pools[k].phase.next ==> pools[k].status[i] != Queued
    ensures pools[k].phase == Closed(true) ==> Queued !in pools[k].status
  {
    if k > 0 {
      NothingStaysQueued(job, events, pools, k - 1);
      RunsAreSound(job, events, pools, k - 1);
      assert Happens(job, pools[k - 1], events[k - 1], pools[k - 1 + 1]);
    }
  }

  /** The page is finished, and collected or still ahead of the sweep. */
  ghost predicate IsKept(job: Job, p: Pool, i: nat) {
    && i < |job.images| && |p.status| == |job.images| && p.status[i] == Finished && (p.phase.Sweeping? || p.phase == Closed(true))
    && (job.images[i].number in p.transcribed || (p.phase.Sweeping? && p.phase.next <= i))
  }

  lemma StaysKept(job: Job, p: Pool, e: Event, i: nat)
    requires Enabled(job, p, e) && IsKept(job, p, i)
    ensures IsKept(job, Apply(job, p, e), i)
  {
    hide Busy;
  }

  /** And it keeps what was done: a page finished when the deadline fired is in the result when the pool closes. */
  lemma {:induction false} FinishedInTimeIsKept(job: Job, events: seq<Event>, pools: seq<Pool>, j: nat, k: nat, i: nat)
    requires IsRun(job, events, pools) && j < k < |pools| && events[j] == Deadline
    requires i < |job.images| && i < |pools[j].status| && pools[j].status[i] == Finished
    ensures IsKept(job, pools[k], i)
    ensures pools[k].phase.Closed? ==> job.images[i].number in pools[k].transcribed
  {
    hide Busy;
    assert Happens(job, pools[k - 1], events[k - 1], pools[k - 1 + 1]);
    if j < k - 1 {
      FinishedInTimeIsKept(job, events, pools, j, k - 1, i);
      StaysKept(job, pools[k - 1], events[k - 1], i);
    }
  }

  lemma {:induction false} IdleHasRoom(status: seq<Status>)
    requires Running !in status
    ensures Busy(status) == 0
  {
    if status != [] {
      assert status[0] in status;
      IdleHasRoom(status[1..]);
    }
  }

  /** No interleaving gets stuck: until the pool is closed, some event can happen. */
  lemma SomeEventIsEnabled(job: Job, events: seq<Event>, pools: seq<Pool>, k: nat) returns (e: Event)
    requires IsRun(job, events, pools) && k < |pools| && !pools[k].phase.Closed? && job.workers >= 1
    ensures Enabled(job, pools[k], e)
  {
    var p := pools[k];
    RunsAreSound(job, events, pools, k);
    if p.phase.Sweeping? {
      e := if p.phase.next < |p.status| then Sweep else CloseSwept;
    } else if i :| 0 <= i < |job.images| && job.images[i].number !in p.transcribed {
      assert p.status[i] in p.status;
      if p.status[i] == Finished {
        e := Collect(i);
      } else if p.status[i] == Running {
        e := Finish(i);
      } else if j :| 0 <= j < |p.status| && p.status[j] == Running {
        e := Finish(j);
      } else {
        IdleHasRoom(p.status);
        e := Start(i);
      }
    } else {
      e := CloseComplete;
    }
  }

  // ---- The ordered result ----

  /** The transcribed pages, in page order. */
  ghost function Offered(images: seq<Image>, transcribed: map<nat, string>): seq<PageText> {
    if images == [] then []
    else (if images[0].number in transcribed then [PageText(images[0].number, transcribed[images[0].number])] else [])
         + Offered(images[1..], transcribed)
  }

  /** Results are reassembled and the character budget spent in page order. */
  method Assemble(images: seq<Image>, transcribed: map<nat, string>, maxChars: int, cutOff: bool)
    returns (pages: seq<PageText>, truncated: bool)
    ensures pages == Spend(Offered(images, transcribed), maxChars).pages
    ensures truncated == (cutOff || Spend(Offered(images, transcribed), maxChars).cut)
  {
    pages, truncated := [], cutOff;
    var budget := maxChars;
    ghost var spent := Spend(Offered(images, transcribed), maxChars);
    assert images[0..] == images;
    var index := 0;
    while index < |images|
      invariant 0 <= index <= |images|
      invariant spent.pages == pages + Spend(Offered(images[index..], transcribed), budget).pages
      invariant (cutOff || spent.cut) == (truncated || Spend(Offered(images[index..], transcribed), budget).cut)
    {
      assert images[index..][1..] == images[index + 1..];
      var number := images[index].number;
      index := index + 1;
      if number !in transcribed {
        assert Offered(images[index - 1..], transcribed) == Offered(images[index..], transcribed);
        continue;
      }
      if budget <= 0 {
        truncated := true;
        break;
      }
      ghost var before, rest := pages, Offered(images[index..], transcribed);
      ghost var offered := [PageText(number, transcribed[number])] + rest;
      assert offered[1..] == rest;
      var text := transcribed[number];
      if |text| > budget {
        text := text[..budget];
        truncated := true;
      }
      budget := budget - |text|;
      pages := pages + [PageText(number, text)];
      Associative(before, [PageText(number, text)], Spend(rest, budget).pages);
    }
  }

  ghost function ResultFrom(job: Job, transcribed: map<nat, string>, cutOff: bool): DocumentText {
    if job.images == [] then DocumentText([], 0, false)
    else
      var spent := Spend(Offered(job.images, transcribed), job.maxChars);
      DocumentText(spent.pages, |spent.pages|, cutOff || spent.cut || job.pageCount > |spent.pages|)
  }

  /** The result of a run, from whatever the pool collected. */
  ghost function ResultOf(job: Job, p: Pool): DocumentText {
    ResultFrom(job, p.transcribed, p.phase == Closed(true) && p.abandoned > 0)
  }

  /** The serial path: one page after another until the clock, read before each page, has run out. */
  method TranscribeSerially(job: Job, expired: seq<bool>) returns (result: DocumentText)
    requires WellFormed(job) && |expired| == |job.images|
    ensures exists transcribed, cutOff :: Correct(job, transcribed) && result == ResultFrom(job, transcribed, cutOff)
    ensures true !in expired ==> result == SerialResult(job)
  {
    var transcribed: map<nat, string> := map[];
    if job.images == [] {
      result := DocumentText([], 0, false);
      assert Correct(job, transcribed) && result == ResultFrom(job, transcribed, false);
      return;
    }
    var abandoned, deadlineHit := 0, false;
    var index := 0;
    while index < |job.images|
      invariant 0 <= index <= |job.images|
      invariant !deadlineHit ==> forall i :: 0 <= i < index ==> job.images[i].number in transcribed
      invariant deadlineHit ==> true in expired
      invariant !deadlineHit ==> abandoned == 0
      invariant Correct(job, transcribed)
    {
      if expired[index] {
        deadlineHit := true;
        abandoned := |job.images| - |transcribed|;
        break;
      }
      KeepsCorrect(job, transcribed, index);
      transcribed := transcribed[job.images[index].number := job.read(job.images[index].bytes)];
      index := index + 1;
    }
    var pages, truncated := Assemble(job.images, transcribed, job.maxChars, deadlineHit && abandoned > 0);
    result := DocumentText(pages, |pages|, truncated || job.pageCount > |pages|);
    assert result == ResultFrom(job, transcribed, deadlineHit && abandoned > 0);
    if true !in expired { AllCollected(job, transcribed); }
  }

  // ---- What transcription promises ----

  /** Every page of the scan, fully transcribed. */
  ghost function AllPages(job: Job): seq<PageText> {
    seq(|job.images|, i requires 0 <= i < |job.images| => PageText(job.images[i].number, job.read(job.images[i].bytes)))
  }

  /** What one worker, never interrupted, produces. */
  ghost function SerialResult(job: Job): DocumentText {
    if job.images == [] then DocumentText([], 0, false)
    else
      var spent := Spend(AllPages(job), job.maxChars);
      DocumentText(spent.pages, |spent.pages|, spent.cut || job.pageCount > |spent.pages|)
  }

  /** Each text held is the engine's reading of that page's own image. */
  ghost predicate Correct(job: Job, transcribed: map<nat, string>) {
    forall i :: 0 <= i < |job.images| && job.images[i].number in transcribed ==>
      transcribed[job.images[i].number] == job.read(job.images[i].bytes)
  }

  lemma KeepsCorrect(job: Job, transcribed: map<nat, string>, i: nat)
    requires WellFormed(job) && Correct(job, transcribed) && i < |job.images|
    ensures Correct(job, transcribed[job.images[i].number := job.read(job.images[i].bytes)])
  {
    forall j | 0 <= j < |job.images| && j != i ensures job.images[j].number != job.images[i].number {
      assert if i < j then job.images[i].number < job.images[j].number else job.images[j].number < job.images[i].number;
    }
  }

  lemma SamePage(job: Job, i: nat, j: nat)
    requires WellFormed(job) && i < |job.images| && j < |job.images|
    ensures job.images[i].number == job.images[j].number <==> i == j
  {
  }

  lemma SoundIsCorrect(job: Job, p: Pool)
    requires WellFormed(job) && Sound(job, p)
    ensures Correct(job, p.transcribed)
  {
    forall i | 0 <= i < |job.images| && job.images[i].number in p.transcribed
      ensures p.transcribed[job.images[i].number] == job.read(job.images[i].bytes)
    {
      var j: nat :| TakenFrom(job, p, job.images[i].number, j);
      SamePage(job, i, j);
    }
  }

  lemma {:induction false} OfferedFrom(job: Job, transcribed: map<nat, string>, from: nat)
    requires Correct(job, transcribed) && from <= |job.images|
    ensures |Offered(job.images[from..], transcribed)| <= |job.images| - from
    ensures |Offered(job.images[from..], transcribed)| == |job.images| - from ==>
              Offered(job.images[from..], transcribed) == AllPages(job)[from..]
    ensures (forall i :: from <= i < |job.images| ==> job.images[i].number in transcribed) ==>
              |Offered(job.images[from..], transcribed)| == |job.images| - from
    decreases |job.images| - from
  {
    if from < |job.images| {
      OfferedFrom(job, transcribed, from + 1);
      assert job.images[from..][1..] == job.images[from + 1..];
      assert AllPages(job)[from..] == [AllPages(job)[from]] + AllPages(job)[from + 1..];
    }
  }

  lemma AllCollected(job: Job, transcribed: map<nat, string>)
    requires Correct(job, transcribed)
    requires forall i :: 0 <= i < |job.images| ==> job.images[i].number in transcribed
    ensures Offered(job.images, transcribed) == AllPages(job)
  {
    OfferedFrom(job, transcribed, 0);
    assert job.images[0..] == job.images && AllPages(job)[0..] == AllPages(job);
  }

  /** Parallel is serial: whatever order workers start, finish and are collected in, a run the deadline
      does not cut off gives exactly the serial result. */
  lemma EveryInterleavingGivesTheSerialResult(job: Job, events: seq<Event>, pools: seq<Pool>, k: nat)
    requires WellFormed(job) && IsRun(job, events, pools) && k < |pools| && pools[k].phase == Closed(false)
    ensures ResultOf(job, pools[k]) == SerialResult(job)
  {
    RunsAreSound(job, events, pools, k);
    SoundIsCorrect(job, pools[k]);
    AllCollected(job, pools[k].transcribed);
  }

  /** Nor does a deadline that cost no page change anything: if every page was collected after all, the result is the
      serial one. */
  lemma HarmlessDeadlineGivesTheSerialResult(job: Job, events: seq<Event>, pools: seq<Pool>, k: nat)
    requires WellFormed(job) && IsRun(job, events, pools) && k < |pools| && pools[k].phase == Closed(true)
    requires forall i :: 0 <= i < |job.images| ==> job.images[i].number in pools[k].transcribed
    ensures ResultOf(job, pools[k]) == SerialResult(job)
  {
    RunsAreSound(job, events, pools, k);
    SoundIsCorrect(job, pools[k]);
    AllCollected(job, pools[k].transcribed);
    WorkersAreEnough(job, events, pools, k);
    var p := pools[k];
    forall i | 0 <= i < |p.status| ensures p.status[i] != Cancelled {
      var j: nat :| TakenFrom(job, p, job.images[i].number, j);
      SamePage(job, i, j);
    }
    assert Those(p.status, Cancelled) == {};
  }

  /** In every run, cut off or not, the text kept is the beginning of what was transcribed, never longer
      than the budget. */
  lemma EveryRunStaysInBudget(job: Job, p: Pool)
    ensures |TextOf(ResultOf(job, p).pages)| <= if job.maxChars > 0 then job.maxChars else 0
    ensures TextOf(ResultOf(job, p).pages) <= TextOf(Offered(job.images, p.transcribed))
  {
    KeptIsPrefix(Offered(job.images, p.transcribed), job.maxChars);
  }

  ghost predicate IsWhole(job: Job, document: DocumentText) {
    && document.pages == AllPages(job) && |document.pages| == job.pageCount
    && forall i :: 0 <= i < |document.pages| ==> document.pages[i].number == i + 1
  }

  lemma {:induction false} NumbersFill(job: Job, i: nat)
    requires WellFormed(job) && i < |job.images|
    ensures i + 1 <= job.images[i].number <= job.pageCount - (|job.images| - 1 - i)
    decreases |job.images| - i
  {
    NumberAtLeast(job, i);
    if i + 1 < |job.images| { NumbersFill(job, i + 1); }
  }

  lemma {:induction false} NumberAtLeast(job: Job, i: nat)
    requires WellFormed(job) && i < |job.images|
    ensures i + 1 <= job.images[i].number
  {
    if i > 0 { NumberAtLeast(job, i - 1); }
  }

  /** With at least one page image, a result that is not marked truncated holds every page 1..n with its
      full transcription, even if the deadline fired on the way. */
  lemma NotTruncatedMeansWhole(job: Job, transcribed: map<nat, string>, cutOff: bool)
    requires WellFormed(job) && job.images != [] && Correct(job, transcribed)
    requires !ResultFrom(job, transcribed, cutOff).truncated
    ensures IsWhole(job, ResultFrom(job, transcribed, cutOff))
  {
    var offered := Offered(job.images, transcribed);
    KeptPagesInOrder(offered, job.maxChars);
    OfferedFrom(job, transcribed, 0);
    assert job.images[0..] == job.images && AllPages(job)[0..] == AllPages(job);
    NumbersFill(job, 0);
    forall i | 0 <= i < |job.images| ensures job.images[i].number == i + 1 {
      NumbersFill(job, i);
    }
  }

  lemma DeadlinePagesAreNotLost(job: Job, events: seq<Event>, pools: seq<Pool>, k: nat)
    requires WellFormed(job) && job.images != [] && IsRun(job, events, pools) && k < |pools|
    requires !ResultOf(job, pools[k]).truncated
    ensures IsWhole(job, ResultOf(job, pools[k]))
  {
    RunsAreSound(job, events, pools, k);
    SoundIsCorrect(job, pools[k]);
    NotTruncatedMeansWhole(job, pools[k].transcribed, pools[k].phase == Closed(true) && pools[k].abandoned > 0);
  }

  ghost predicate TruncationIsHonest(job: Job) {
    forall transcribed, cutOff | Correct(job, transcribed) :: HonestResult(job, ResultFrom(job, transcribed, cutOff))
  }

  ghost predicate HonestResult(job: Job, document: DocumentText) {
    !document.truncated ==> IsWhole(job, document)
  }

  /** The exception: a document with pages but no page image is reported as whole and empty. The flag can
      be trusted exactly when there is a page image to read or no page at all. */
  lemma TruncationHonestIff(job: Job)
    requires WellFormed(job)
    ensures TruncationIsHonest(job) <==> job.images != [] || job.pageCount == 0
  {
    if job.images == [] {
      assert Correct(job, map[]);
      assert HonestResult(job, ResultFrom(job, map[], false)) <==> job.pageCount == 0;
      assert TruncationIsHonest(job) ==> HonestResult(job, ResultFrom(job, map[], false));
    } else {
      forall transcribed, cutOff | Correct(job, transcribed)
        ensures HonestResult(job, ResultFrom(job, transcribed, cutOff))
      {
        if !ResultFrom(job, transcribed, cutOff).truncated { NotTruncatedMeansWhole(job, transcribed, cutOff); }
      }
    }
  }

  /** For example, a scan of five pages whose images could not be extracted. */
  lemma UnreadScanLooksComplete(read: seq<bv8> -> string)
    ensures var job := Job([], 5, read, 100, 3);
            WellFormed(job) && !SerialResult(job).truncated && !IsWhole(job, SerialResult(job))
  {
  }
}
