/**
 * The SOAP endpoint the QuickBooks Web Connector talks to (`QbwcService`): authentication,
 * the request/response loop driven through the session's pending-job list, and the calls
 * that end a session. The session and job tables are fields of the service: sessions by
 * ticket, jobs as rows in entity-id order. The worker factory and the XML parser are
 * parameters of the service, and an XML request is returned as the element tree that would
 * be printed.
 */
module Service {
  import opened Wrappers
  import opened Php
  import opened Columns
  import opened QbxmlParser
  import opened QbxmlLaws
  import opened Sessions
  import opened Jobs
  import opened Workers
  import Configs
  import Versions

  /** `AUTHENTICATE_NOT_VALID_USER` */
  const NotValidUser := "nvu"
  /** `AUTHENTICATE_NO_WORK` */
  const NoWork := "none"

  /** The message of the exception `getByName` throws for an unknown job name. */
  function JobMissing(name: string): string
  {
    "Job with name \"" + name + "\" does not exist."
  }

  // ---------------------------------------------------------------------------
  // The job table

  /** `getByName`: the first row with this name. */
  function FindJob(jobs: seq<JobRow>, name: string): (r: Option<nat>)
    ensures r.Some? ==> r.value < |jobs| && jobs[r.value].name == name
    ensures r.Some? ==> forall k :: 0 <= k < r.value ==> jobs[k].name != name
    ensures r.None? <==> forall k :: 0 <= k < |jobs| ==> jobs[k].name != name
  {
    if jobs == [] then None
    else if jobs[0].name == name then Some(0)
    else match FindJob(jobs[1..], name)
      case None => None
      case Some(k) => Some(k + 1)
  }

  /** The filter of `getPendingJobs`: the company's enabled jobs. */
  predicate IsPending(j: JobRow, company: string)
  {
    j.company == company && j.enabled
  }

  /** The names of `getPendingJobs($company)`, in entity-id order. */
  function PendingJobNames(jobs: seq<JobRow>, company: string): (names: seq<string>)
    ensures |names| <= |jobs|
    ensures forall n :: n in names <==> exists k :: 0 <= k < |jobs| && IsPending(jobs[k], company) && jobs[k].name == n
  {
    if jobs == [] then []
    else
      var front := jobs[..|jobs| - 1];
      var last := jobs[|jobs| - 1];
      assert forall k :: 0 <= k < |front| ==> front[k] == jobs[k];
      PendingJobNames(front, company) + (if IsPending(last, company) then [last.name] else [])
  }

  /** The positions of the company's enabled rows, in increasing order. */
  function PendingIndices(jobs: seq<JobRow>, company: string): (ks: seq<nat>)
    ensures forall i, j :: 0 <= i < j < |ks| ==> ks[i] < ks[j]
    ensures forall i :: 0 <= i < |ks| ==> ks[i] < |jobs|
    ensures forall k :: 0 <= k < |jobs| ==> (k in ks <==> IsPending(jobs[k], company))
  {
    if jobs == [] then []
    else
      var front := jobs[..|jobs| - 1];
      assert forall k :: 0 <= k < |front| ==> front[k] == jobs[k];
      PendingIndices(front, company) + (if IsPending(jobs[|jobs| - 1], company) then [|jobs| - 1] else [])
  }

  /**
   * The pending names are the names of the company's enabled rows, one per row and in row
   * order: the i-th name belongs to the i-th such row.
   */
  lemma {:induction false} PendingJobNamesInOrder(jobs: seq<JobRow>, company: string)
    ensures |PendingJobNames(jobs, company)| == |PendingIndices(jobs, company)|
    ensures forall i :: 0 <= i < |PendingIndices(jobs, company)| ==>
      PendingJobNames(jobs, company)[i] == jobs[PendingIndices(jobs, company)[i]].name
  {
    if jobs != [] {
      var front := jobs[..|jobs| - 1];
      PendingJobNamesInOrder(front, company);
      var names, ks := PendingJobNames(front, company), PendingIndices(front, company);
      var last := jobs[|jobs| - 1];
      var moreNames := if IsPending(last, company) then [last.name] else [];
      var moreIndices := if IsPending(last, company) then [|jobs| - 1] else [];
      assert PendingJobNames(jobs, company) == names + moreNames;
      assert PendingIndices(jobs, company) == ks + moreIndices;
      forall i | 0 <= i < |ks + moreIndices|
        ensures (names + moreNames)[i] == jobs[(ks + moreIndices)[i]].name
      {
        if i < |ks| {
          assert jobs[ks[i]] == front[ks[i]];
        }
      }
    }
  }

  /** The first pending name, which becomes the current job, is the name of the first enabled row of the company. */
  lemma FirstPendingJob(jobs: seq<JobRow>, company: string, k: nat)
    requires k < |jobs| && IsPending(jobs[k], company)
    requires forall j :: 0 <= j < k ==> !IsPending(jobs[j], company)
    ensures PendingJobNames(jobs, company) != []
    ensures PendingJobNames(jobs, company)[0] == jobs[k].name
  {
    PendingJobNamesInOrder(jobs, company);
    var ks := PendingIndices(jobs, company);
    assert k in ks;
    var m :| 0 <= m < |ks| && ks[m] == k;
    if m > 0 {
      assert IsPending(jobs[ks[0]], company);
    }
  }

  // ---------------------------------------------------------------------------
  // Moving through the pending jobs

  /** `array_shift` of a list: the list without its first element ([] stays []). */
  function Shift(xs: seq<string>): (r: seq<string>)
    ensures xs == [] ==> r == []
    ensures xs != [] ==> [xs[0]] + r == xs
  {
    if xs == [] then [] else xs[1..]
  }

  /** `moveToNextJob`: the head of the pending list is dropped; an empty rest ends the session at 100%. */
  function MovedToNextJob(s: SessionRow): SessionRow
  {
    var rest := Shift(PendingJobs(s));
    if rest == [] then s.(currentJob := None, pendingJobs := Encoded([]), progress := 100)
    else
      var moved := s.(pendingJobs := Encoded(rest), currentJob := Some(rest[0]));
      if moved.initialJobCount > 0 then moved.(progress := Progress(moved.initialJobCount, |rest|)) else moved
  }

  /** What is left to do of a session: its pending jobs, plus one while it is not complete. */
  function Measure(s: SessionRow): nat
  {
    |PendingJobs(s)| + (if s.progress >= 100 then 0 else 1)
  }

  /** With at least one job still pending, progress stays below 100. */
  lemma ProgressBelowFull(initial: int, remaining: int)
    requires initial > 0 && remaining >= 1
    ensures Progress(initial, remaining) < 100
  {
    var p := Progress(initial, remaining);
    if remaining <= initial {
      MulCancel(p, 100, initial);
    } else {
      MulCancel(p - 1, 0, initial);
    }
  }

  /** Moving on from an incomplete session strictly shrinks what is left: `getNextRequest` terminates. */
  lemma MoveDecreases(s: SessionRow)
    requires s.progress < 100
    ensures Measure(MovedToNextJob(s)) < Measure(s)
  {
    var rest := Shift(PendingJobs(s));
    if rest != [] && s.initialJobCount > 0 {
      ProgressBelowFull(s.initialJobCount, |rest|);
    }
  }

  /**
   * The shape `authenticate` gives a session and that moving on keeps: the current job heads
   * the pending list, and progress is the share of the initial jobs no longer pending.
   */
  predicate Consistent(s: SessionRow)
  {
    var pending := PendingJobs(s);
    && pending != []
    && s.currentJob == Some(pending[0])
    && |pending| <= s.initialJobCount
    && s.progress == Progress(s.initialJobCount, |pending|)
  }

  /** The state `moveToNextJob` leaves when the last job is done. */
  predicate Finished(s: SessionRow)
  {
    s.currentJob == None && s.pendingJobs == Encoded([]) && s.progress == 100
  }

  /**
   * Moving on from a consistent session either finishes it or gives a consistent session one
   * job shorter, whose progress has not gone down and is still below 100.
   */
  lemma MoveKeepsConsistent(s: SessionRow)
    requires Consistent(s)
    ensures var s' := MovedToNextJob(s);
      || (Finished(s') && |PendingJobs(s)| == 1)
      || (Consistent(s') && PendingJobs(s') == PendingJobs(s)[1..]
          && s.progress <= s'.progress < 100)
  {
    var pending := PendingJobs(s);
    var rest := Shift(pending);
    if rest != [] {
      ProgressMonotone(s.initialJobCount, |rest|, |pending|);
      ProgressBelowFull(s.initialJobCount, |rest|);
    }
  }

  /** Progress of a session none of whose jobs is done yet. */
  lemma ProgressAtStart(n: int)
    requires n > 0
    ensures Progress(n, n) == 0
  {
    var p := Progress(n, n);
    MulCancel(p, 0, n);
    MulCancel(-1, p, n);
  }

  /** The row `authenticate` saves for a user and company with pending jobs `names`. */
  function NewSession(ticket: string, user: string, company: string, names: seq<string>): SessionRow
    requires names != []
  {
    FreshRow.(ticket := ticket, user := user, company := company, progress := 0,
              pendingJobs := Encoded(names), initialJobCount := |names|, currentJob := Some(names[0]))
  }

  /** A freshly authenticated session is consistent, at 0%, with every pending job still to do. */
  lemma NewSessionConsistent(ticket: string, user: string, company: string, names: seq<string>)
    requires names != []
    ensures Consistent(NewSession(ticket, user, company, names))
    ensures PendingJobs(NewSession(ticket, user, company, names)) == names
    ensures !HasError(NewSession(ticket, user, company, names))
  {
    ProgressAtStart(|names|);
  }

  // ---------------------------------------------------------------------------
  // Choosing the next request

  /** What `getNextRequest` hands back: a request to print, nothing, or a PHP `Error` that escapes. */
  datatype Sent = Request(doc: Element) | NoRequest | Crash(fault: Fault)

  /** The in-memory session after `getNextRequest`, the saved job table and what was handed back. */
  datatype Step = Step(session: SessionRow, jobs: seq<JobRow>, sent: Sent)

  /** Two rows of one job that differ at most in their cached requests and request cursors. */
  predicate SameDefinition(a: JobRow, b: JobRow)
  {
    a.name == b.name && a.company == b.company && a.workerClass == b.workerClass && a.enabled == b.enabled
      && a.requestsProvidedWhenJobAdded == b.requestsProvidedWhenJobAdded && a.data == b.data
  }

  /** `setRequestsForSession` followed by saving the job at `i`. */
  function CacheRequests(jobs: seq<JobRow>, i: nat, user: string, company: string, requests: Entries): (r: seq<JobRow>)
    requires i < |jobs|
    ensures |r| == |jobs| && forall k :: 0 <= k < |jobs| ==> SameDefinition(r[k], jobs[k])
  {
    jobs[i := jobs[i].(requests := WithRequests(jobs[i].requests, SessionKey(user, company), requests))]
  }

  /** `advanceNextRequest` followed by saving the job at `i`. */
  function AdvanceCursor(jobs: seq<JobRow>, i: nat, user: string, company: string): (r: seq<JobRow>)
    requires i < |jobs|
    ensures |r| == |jobs| && forall k :: 0 <= k < |jobs| ==> SameDefinition(r[k], jobs[k])
  {
    var j := jobs[i];
    jobs[i := j.(requestIndex := WithIndex(j.requestIndex, SessionKey(user, company), RequestIndexFor(j, user, company) + 1))]
  }

  /** The requests `getNextRequest` works from: the cached list, or the worker's when none is cached. */
  function PreparedRequests(j: JobRow, user: string, company: string, kind: WorkerKind): (r: Entries)
    ensures r != []
  {
    var cached := RequestsFor(j, user, company);
    if cached == [] then Requests(kind, JobData(j)) else cached
  }

  /** The job table after that step: a newly made list is cached under the session's key and saved. */
  function PreparedJobs(jobs: seq<JobRow>, i: nat, user: string, company: string, kind: WorkerKind): (r: seq<JobRow>)
    requires i < |jobs|
    ensures |r| == |jobs| && forall k :: 0 <= k < |jobs| ==> SameDefinition(r[k], jobs[k])
  {
    if RequestsFor(jobs[i], user, company) == [] then
      CacheRequests(jobs, i, user, company, Requests(kind, JobData(jobs[i])))
    else jobs
  }

  /** `arrayToQbxml($request)`: the parameter is typed `array`, so any other value is refused. */
  function Emit(request: Value, continueOnError: bool): Sent
  {
    match request
    case VArr(es) =>
      (match ArrayToQbxml(es, continueOnError)
       case Ok(doc) => Request(doc)
       case Fail(f) => Crash(f))
    case _ => Crash(ArgumentType)
  }

  /**
   * `getNextRequest`. A complete session, or one with an error under stop-on-error, or one
   * without a current job, is set to 100% and gets nothing. Otherwise the current job's
   * requests for this user and company are taken from the cache, or made by its worker and
   * cached; the request at this session's cursor is sent and the cursor advanced; past the
   * end, the session moves to its next job and tries again. An exception (unknown job, no
   * worker) is recorded as the session's error.
   */
  function NextRequest(s: SessionRow, jobs: seq<JobRow>, continueOnError: bool,
                       create: string -> Result<WorkerKind>): Step
    decreases Measure(s)
  {
    if s.progress >= 100 || (HasError(s) && !continueOnError) then Step(s.(progress := 100), jobs, NoRequest)
    else if EmptyOpt(s.currentJob) then Step(s.(progress := 100), jobs, NoRequest)
    else
      var name := s.currentJob.value;
      match FindJob(jobs, name)
      case None => Step(s.(error := Some(JobMissing(name))), jobs, NoRequest)
      case Some(i) =>
        match GetWorker(jobs[i], create)
        case Failure(e) => Step(s.(error := Some(e)), jobs, NoRequest)
        case Success(kind) =>
          var requests := PreparedRequests(jobs[i], s.user, s.company, kind);
          var jobs1 := PreparedJobs(jobs, i, s.user, s.company, kind);
          var index := RequestIndexFor(jobs1[i], s.user, s.company);
          if !IsSet(requests, KInt(index)) then
            MoveDecreases(s);
            NextRequest(MovedToNextJob(s), jobs1, continueOnError, create)
          else
            Step(s, AdvanceCursor(jobs1, i, s.user, s.company), Emit(Get(requests, KInt(index)).value, continueOnError))
  }

  /** `getNextRequest` once the current job and its worker are found: serve from its requests, or move on. */
  lemma NextRequestAtJob(s: SessionRow, jobs: seq<JobRow>, continueOnError: bool,
                         create: string -> Result<WorkerKind>, i: nat, kind: WorkerKind)
    requires s.progress < 100 && (!HasError(s) || continueOnError) && !EmptyOpt(s.currentJob)
    requires FindJob(jobs, s.currentJob.value) == Some(i)
    requires GetWorker(jobs[i], create) == Success(kind)
    ensures var requests := PreparedRequests(jobs[i], s.user, s.company, kind);
      var jobs1 := PreparedJobs(jobs, i, s.user, s.company, kind);
      var index := RequestIndexFor(jobs1[i], s.user, s.company);
      NextRequest(s, jobs, continueOnError, create)
        == if !IsSet(requests, KInt(index)) then NextRequest(MovedToNextJob(s), jobs1, continueOnError, create)
           else Step(s, AdvanceCursor(jobs1, i, s.user, s.company), Emit(Get(requests, KInt(index)).value, continueOnError))
  {
  }

  /** The stop rule: a complete session, or an errored one under stop-on-error, gets nothing and changes nothing else. */
  lemma NextRequestStops(s: SessionRow, jobs: seq<JobRow>, continueOnError: bool, create: string -> Result<WorkerKind>)
    requires s.progress >= 100 || (HasError(s) && !continueOnError) || EmptyOpt(s.currentJob)
    ensures NextRequest(s, jobs, continueOnError, create) == Step(s.(progress := 100), jobs, NoRequest)
  {
  }

  /**
   * `getNextRequest` touches only the request caches and cursors of the job table, which keeps
   * its rows.
   */
  lemma {:induction false} NextRequestKeepsDefinitions(s: SessionRow, jobs: seq<JobRow>, continueOnError: bool,
                                                        create: string -> Result<WorkerKind>)
    ensures var r := NextRequest(s, jobs, continueOnError, create);
      |r.jobs| == |jobs| && forall k :: 0 <= k < |jobs| ==> SameDefinition(r.jobs[k], jobs[k])
    decreases Measure(s)
  {
    if !(s.progress >= 100 || (HasError(s) && !continueOnError)) && !EmptyOpt(s.currentJob) {
      var found := FindJob(jobs, s.currentJob.value);
      if found.Some? {
        var i := found.value;
        var worker := GetWorker(jobs[i], create);
        if worker.Success? {
          var requests := PreparedRequests(jobs[i], s.user, s.company, worker.value);
          var jobs1 := PreparedJobs(jobs, i, s.user, s.company, worker.value);
          var index := RequestIndexFor(jobs1[i], s.user, s.company);
          NextRequestAtJob(s, jobs, continueOnError, create, i, worker.value);
          if !IsSet(requests, KInt(index)) {
            MoveDecreases(s);
            NextRequestKeepsDefinitions(MovedToNextJob(s), jobs1, continueOnError, create);
          }
        }
      }
    }
  }

  /** `getNextRequest` never changes which ticket, user and company the session belongs to. */
  lemma {:induction false} NextRequestKeepsOwner(s: SessionRow, jobs: seq<JobRow>, continueOnError: bool,
                                                  create: string -> Result<WorkerKind>)
    ensures var r := NextRequest(s, jobs, continueOnError, create);
      r.session.ticket == s.ticket && r.session.user == s.user && r.session.company == s.company
    decreases Measure(s)
  {
    if !(s.progress >= 100 || (HasError(s) && !continueOnError)) && !EmptyOpt(s.currentJob) {
      var found := FindJob(jobs, s.currentJob.value);
      if found.Some? {
        var i := found.value;
        var worker := GetWorker(jobs[i], create);
        if worker.Success? {
          var requests := PreparedRequests(jobs[i], s.user, s.company, worker.value);
          var jobs1 := PreparedJobs(jobs, i, s.user, s.company, worker.value);
          var index := RequestIndexFor(jobs1[i], s.user, s.company);
          NextRequestAtJob(s, jobs, continueOnError, create, i, worker.value);
          if !IsSet(requests, KInt(index)) {
            MoveDecreases(s);
            NextRequestKeepsOwner(MovedToNextJob(s), jobs1, continueOnError, create);
          }
        }
      }
    }
  }

  /** When nothing is sent, the session is complete or carries an error for `getLastError`. */
  lemma {:induction false} NoRequestMeansDoneOrError(s: SessionRow, jobs: seq<JobRow>, continueOnError: bool,
                                                      create: string -> Result<WorkerKind>)
    ensures var r := NextRequest(s, jobs, continueOnError, create);
      r.sent.NoRequest? ==> r.session.progress == 100 || HasError(r.session)
    decreases Measure(s)
  {
    if !(s.progress >= 100 || (HasError(s) && !continueOnError)) && !EmptyOpt(s.currentJob) {
      var name := s.currentJob.value;
      var found := FindJob(jobs, name);
      if found.Some? {
        var i := found.value;
        var worker := GetWorker(jobs[i], create);
        if worker.Success? {
          var requests := PreparedRequests(jobs[i], s.user, s.company, worker.value);
          var jobs1 := PreparedJobs(jobs, i, s.user, s.company, worker.value);
          var index := RequestIndexFor(jobs1[i], s.user, s.company);
          NextRequestAtJob(s, jobs, continueOnError, create, i, worker.value);
          if !IsSet(requests, KInt(index)) {
            MoveDecreases(s);
            NoRequestMeansDoneOrError(MovedToNextJob(s), jobs1, continueOnError, create);
          }
        } else {
          assert worker.error != "" && worker.error != "0" by {
            if EmptyString(jobs[i].workerClass) {
              assert worker.error[0] == 'W';
            } else {
              assert worker.error[0] == 'F';
            }
          }
        }
      } else {
        assert JobMissing(name)[0] == 'J';
      }
    }
  }

  /**
   * A job seen for the first time by this user and company: its worker's requests are cached
   * under the session's key and the first of them is sent, with the cursor moved to 1.
   */
  lemma FirstRequestOfJob(s: SessionRow, jobs: seq<JobRow>, continueOnError: bool,
                          create: string -> Result<WorkerKind>, i: nat)
    requires s.progress < 100 && (!HasError(s) || continueOnError)
    requires s.currentJob.Some? && !EmptyString(s.currentJob.value)
    requires FindJob(jobs, s.currentJob.value) == Some(i)
    requires GetWorker(jobs[i], create).Success?
    requires jobs[i].requests.Encoded? && jobs[i].requestIndex.Encoded?
    requires RequestsFor(jobs[i], s.user, s.company) == []
    requires RequestIndexFor(jobs[i], s.user, s.company) == 0
    ensures var requests := Requests(GetWorker(jobs[i], create).value, JobData(jobs[i]));
      var r := NextRequest(s, jobs, continueOnError, create);
      && r.session == s
      && |r.jobs| == |jobs|
      && RequestsFor(r.jobs[i], s.user, s.company) == requests
      && RequestIndexFor(r.jobs[i], s.user, s.company) == 1
      && (forall k :: 0 <= k < |jobs| && k != i ==> r.jobs[k] == jobs[k])
      && r.sent == (match ArrayToQbxml(requests[0].1.entries, continueOnError)
                    case Ok(doc) => Request(doc)
                    case Fail(f) => Crash(f))
  {
    var kind := GetWorker(jobs[i], create).value;
    var requests := Requests(kind, JobData(jobs[i]));
    var jobs1 := CacheRequests(jobs, i, s.user, s.company, requests);
    FirstRequestStep(s, jobs, continueOnError, create, i);
    assert RequestsFor(jobs1[i], s.user, s.company) == requests by {
      RequestsWriteRead(jobs[i], s.user, s.company, requests);
    }
    assert RequestIndexFor(AdvanceCursor(jobs1, i, s.user, s.company)[i], s.user, s.company) == 1 by {
      assert jobs1[i].requestIndex == jobs[i].requestIndex;
      CursorWriteRead(jobs1[i], s.user, s.company, 1);
    }
  }

  /** The step `FirstRequestOfJob` takes: cache the worker's requests, send the first, advance the cursor. */
  lemma FirstRequestStep(s: SessionRow, jobs: seq<JobRow>, continueOnError: bool,
                         create: string -> Result<WorkerKind>, i: nat)
    requires s.progress < 100 && (!HasError(s) || continueOnError)
    requires s.currentJob.Some? && !EmptyString(s.currentJob.value)
    requires FindJob(jobs, s.currentJob.value) == Some(i)
    requires GetWorker(jobs[i], create).Success?
    requires jobs[i].requests.Encoded? && jobs[i].requestIndex.Encoded?
    requires RequestsFor(jobs[i], s.user, s.company) == []
    requires RequestIndexFor(jobs[i], s.user, s.company) == 0
    ensures var requests := Requests(GetWorker(jobs[i], create).value, JobData(jobs[i]));
      var jobs1 := CacheRequests(jobs, i, s.user, s.company, requests);
      NextRequest(s, jobs, continueOnError, create)
        == Step(s, AdvanceCursor(jobs1, i, s.user, s.company), Emit(requests[0].1, continueOnError))
  {
    var kind := GetWorker(jobs[i], create).value;
    var requests := Requests(kind, JobData(jobs[i]));
    var jobs1 := CacheRequests(jobs, i, s.user, s.company, requests);
    assert PreparedRequests(jobs[i], s.user, s.company, kind) == requests;
    assert PreparedJobs(jobs, i, s.user, s.company, kind) == jobs1;
    assert jobs1[i].requestIndex == jobs[i].requestIndex;
    assert RequestIndexFor(jobs1[i], s.user, s.company) == 0;
    assert IsSet(requests, KInt(0)) by {
      assert requests[0].0 == KInt(0);
      assert IndexOf(requests, KInt(0)) == Some(0);
    }
    NextRequestAtJob(s, jobs, continueOnError, create, i, kind);
  }

  /**
   * With the requests cached and the cursor on one of them, that request is sent, the cursor
   * moves on by one and the session itself is not changed.
   */
  lemma CachedRequestSent(s: SessionRow, jobs: seq<JobRow>, continueOnError: bool,
                          create: string -> Result<WorkerKind>, i: nat)
    requires s.progress < 100 && (!HasError(s) || continueOnError)
    requires s.currentJob.Some? && !EmptyString(s.currentJob.value)
    requires FindJob(jobs, s.currentJob.value) == Some(i)
    requires GetWorker(jobs[i], create).Success?
    requires !jobs[i].requestIndex.Undecodable?
    requires RequestsFor(jobs[i], s.user, s.company) != []
    requires IsSet(RequestsFor(jobs[i], s.user, s.company), KInt(RequestIndexFor(jobs[i], s.user, s.company)))
    ensures var index := RequestIndexFor(jobs[i], s.user, s.company);
      var r := NextRequest(s, jobs, continueOnError, create);
      && r.session == s
      && r.jobs == AdvanceCursor(jobs, i, s.user, s.company)
      && RequestIndexFor(r.jobs[i], s.user, s.company) == index + 1
      && RequestsFor(r.jobs[i], s.user, s.company) == RequestsFor(jobs[i], s.user, s.company)
      && (r.sent.Request? ==> Get(RequestsFor(jobs[i], s.user, s.company), KInt(index)).value.VArr?)
  {
    var index := RequestIndexFor(jobs[i], s.user, s.company);
    CursorWriteRead(jobs[i], s.user, s.company, index + 1);
  }

  /** The cursor has run past the cached list: the session moves to its next job and the choice starts over. */
  lemma ExhaustedJobMovesOn(s: SessionRow, jobs: seq<JobRow>, continueOnError: bool,
                            create: string -> Result<WorkerKind>, i: nat)
    requires s.progress < 100 && (!HasError(s) || continueOnError)
    requires s.currentJob.Some? && !EmptyString(s.currentJob.value)
    requires FindJob(jobs, s.currentJob.value) == Some(i)
    requires GetWorker(jobs[i], create).Success?
    requires RequestsFor(jobs[i], s.user, s.company) != []
    requires !IsSet(RequestsFor(jobs[i], s.user, s.company), KInt(RequestIndexFor(jobs[i], s.user, s.company)))
    ensures NextRequest(s, jobs, continueOnError, create) == NextRequest(MovedToNextJob(s), jobs, continueOnError, create)
  {
  }

  // ---------------------------------------------------------------------------
  // Reading a response

  /** What `processResponse` leaves: the updated in-memory session, or a PHP `Error` that escapes. */
  datatype Processed = Processed(session: SessionRow) | Escaped(fault: Fault)

  /** The four columns `parseResponseHeader` resets before it reads anything. */
  function ClearedStatus(s: SessionRow): SessionRow
  {
    s.(iteratorId := None, error := None, statusCode := None, statusSeverity := None)
  }

  /** `$xmlAttributes[$k] ?? $default` */
  function Attribute(attributes: Value, k: string, default: Value): Value
  {
    Index(attributes, KStr(k)).GetOr(default)
  }

  /**
   * `parseResponseHeader`. The top-level `xml_attributes` of the decoded response give the
   * status: an "Error" or "Warn" severity becomes the session's error, code and severity; a
   * positive remaining count outside an error carries the iterator id over. An iterator id
   * that is neither null nor a string is refused by the typed setter.
   */
  function HeaderParsed(s: SessionRow, response: Entries): Processed
  {
    var cleared := ClearedStatus(s);
    var attributes := Index(VArr(response), KStr("xml_attributes")).GetOr(VArr([]));
    if Empty(attributes) then Processed(cleared)
    else
      var code := Attribute(attributes, "statusCode", VNull);
      var severity := Attribute(attributes, "statusSeverity", VNull);
      var message := Attribute(attributes, "statusMessage", VStr(""));
      var remaining := Attribute(attributes, "iteratorRemainingCount", VInt(0));
      var iteratorValue := Attribute(attributes, "iteratorID", VNull);
      var flagged :=
        if severity == VStr("Error") || severity == VStr("Warn") then
          var heading := if severity == VStr("Error") then "QBWC ERROR: " else "QBWC WARN: ";
          cleared.(error := Some(heading + ToStr(code) + " - " + ToStr(message)),
                   statusCode := Some(ToStr(code)), statusSeverity := Some(severity.s))
        else cleared;
      if GreaterThanZero(remaining) && severity != VStr("Error") then
        match iteratorValue
        case VNull => Processed(flagged.(iteratorId := None))
        case VStr(id) => Processed(flagged.(iteratorId := Some(id)))
        case _ => Escaped(ArgumentType)
      else Processed(flagged)
  }

  /** A response without top-level attributes resets the four status columns and sets nothing. */
  lemma HeaderWithoutAttributes(s: SessionRow, response: Entries)
    requires Get(response, KStr("xml_attributes")).None?
    ensures HeaderParsed(s, response) == Processed(ClearedStatus(s))
    ensures !HasError(ClearedStatus(s))
  {
  }

  /**
   * An "Error" status becomes the session's error text, code and severity, and the iterator
   * id is dropped whatever the remaining count says.
   */
  lemma HeaderError(s: SessionRow, response: Entries, attributes: Value)
    requires Index(VArr(response), KStr("xml_attributes")) == Some(attributes) && !Empty(attributes)
    requires Attribute(attributes, "statusSeverity", VNull) == VStr("Error")
    ensures var code := Attribute(attributes, "statusCode", VNull);
      var message := Attribute(attributes, "statusMessage", VStr(""));
      HeaderParsed(s, response) == Processed(ClearedStatus(s).(
        error := Some("QBWC ERROR: " + ToStr(code) + " - " + ToStr(message)),
        statusCode := Some(ToStr(code)), statusSeverity := Some("Error")))
    ensures HasError(HeaderParsed(s, response).session)
  {
    var code := Attribute(attributes, "statusCode", VNull);
    var message := Attribute(attributes, "statusMessage", VStr(""));
    assert |"QBWC ERROR: " + ToStr(code) + " - " + ToStr(message)| > 1;
  }

  /**
   * A "Warn" status is recorded like an error, and with more records to iterate the iterator
   * id is kept; an id that is not a string is refused by the typed setter.
   */
  lemma HeaderWarn(s: SessionRow, response: Entries, attributes: Value)
    requires Index(VArr(response), KStr("xml_attributes")) == Some(attributes) && !Empty(attributes)
    requires Attribute(attributes, "statusSeverity", VNull) == VStr("Warn")
    requires GreaterThanZero(Attribute(attributes, "iteratorRemainingCount", VInt(0)))
    ensures var code := Attribute(attributes, "statusCode", VNull);
      var message := Attribute(attributes, "statusMessage", VStr(""));
      var warned := ClearedStatus(s).(
        error := Some("QBWC WARN: " + ToStr(code) + " - " + ToStr(message)),
        statusCode := Some(ToStr(code)), statusSeverity := Some("Warn"));
      match Attribute(attributes, "iteratorID", VNull)
      case VNull => HeaderParsed(s, response) == Processed(warned)
      case VStr(id) => HeaderParsed(s, response) == Processed(warned.(iteratorId := Some(id)))
      case _ => HeaderParsed(s, response) == Escaped(ArgumentType)
  {
  }

  /** Any other severity (an "Info", say) leaves the error columns reset. */
  lemma HeaderInfoIgnored(s: SessionRow, response: Entries)
    requires var severity := Attribute(Index(VArr(response), KStr("xml_attributes")).GetOr(VArr([])), "statusSeverity", VNull);
      severity != VStr("Error") && severity != VStr("Warn")
    ensures HeaderParsed(s, response).Processed? ==>
      var h := HeaderParsed(s, response).session;
      h.error == None && h.statusCode == None && h.statusSeverity == None
  {
  }

  /**
   * `processResponse`. An empty response changes nothing. Otherwise the text is decoded (a
   * parse failure becomes the session's error), the header read, and the current job's worker
   * given the response together with the request sent last, found one before the cursor.
   */
  function ProcessedResponse(s: SessionRow, jobs: seq<JobRow>, text: string,
                             create: string -> Result<WorkerKind>, parse: string -> Document): Processed
  {
    if EmptyString(text) then Processed(s)
    else
      match QbxmlToArray(parse(text))
      case Raised(message) => Processed(s.(error := Some(message)))
      case Crashed(f) => Escaped(f)
      case Decoded(response) =>
        match HeaderParsed(s, response)
        case Escaped(f) => Escaped(f)
        case Processed(s1) => HandledByJob(s1, jobs, response, create)
  }

  /**
   * The end of `processResponse`: the current job's worker is given the decoded response
   * together with the request last sent, the one before the cursor.
   */
  function HandledByJob(s: SessionRow, jobs: seq<JobRow>, response: Entries,
                        create: string -> Result<WorkerKind>): Processed
  {
    if EmptyOpt(s.currentJob) then Processed(s)
    else
      var name := s.currentJob.value;
      match FindJob(jobs, name)
      case None => Processed(s.(error := Some(JobMissing(name))))
      case Some(i) =>
        match GetWorker(jobs[i], create)
        case Failure(e) => Processed(s.(error := Some(e)))
        case Success(kind) =>
          var requests := RequestsFor(jobs[i], s.user, s.company);
          var request := Index(VArr(requests), KInt(RequestIndexFor(jobs[i], s.user, s.company) - 1));
          if request.Some? && !request.value.VArr? then Escaped(ArgumentType)
          else
            match HandleResponse(kind, response)
            case Stopped(f) => Escaped(f)
            case Completed(_, _) => Processed(s)
  }

  /**
   * The header is looked for only at the top of the decoded response. The root element of a
   * reply carries no attributes, so a well-formed reply resets the error columns wherever its
   * status attributes are, and an error the Web Connector reported alongside it is wiped.
   */
  lemma ReplyClearsTransportError(s: SessionRow, jobs: seq<JobRow>, text: string,
                                  create: string -> Result<WorkerKind>, parse: string -> Document)
    requires !EmptyString(text)
    requires parse(text).WellFormed? && parse(text).root.attrs == []
    requires NoChildKey(parse(text).root.children, KStr("xml_attributes"))
    requires EmptyOpt(s.currentJob)
    ensures QbxmlToArray(parse(text)).Decoded? ==> ProcessedResponse(s, jobs, text, create, parse) == Processed(ClearedStatus(s))
  {
    var root := parse(text).root;
    if DecodeElement(root).Ok? {
      DecodeNoAttributes(root);
    }
  }

  /** A response that does not parse leaves the parser's message as the session's error. */
  lemma MalformedReplyRecorded(s: SessionRow, jobs: seq<JobRow>, text: string,
                               create: string -> Result<WorkerKind>, parse: string -> Document)
    requires !EmptyString(text) && parse(text).Malformed?
    ensures ProcessedResponse(s, jobs, text, create, parse)
      == Processed(s.(error := Some("Failed to parse QBXML: " + NotXmlMessage)))
    ensures HasError(ProcessedResponse(s, jobs, text, create, parse).session)
  {
    var e := "Failed to parse QBXML: " + NotXmlMessage;
    assert |e| > 1;
  }

  /** A session after `receiveResponseXML` has recorded a non-empty `hresult`. */
  function WithTransportError(s: SessionRow, hresult: string, message: string): SessionRow
  {
    if EmptyString(hresult) then s
    else s.(error := Some(message), statusCode := Some(hresult), statusSeverity := Some("Error"))
  }

  /** The number `receiveResponseXML` returns: the progress, or -1 for an errored session under stop-on-error. */
  function ReturnedProgress(s: SessionRow, continueOnError: bool): (r: int)
    ensures !continueOnError && HasError(s) ==> r == -1
    ensures continueOnError || !HasError(s) ==> r == s.progress
  {
    if continueOnError || !HasError(s) then s.progress else -1
  }

  /**
   * An error reported by the Web Connector with an empty response stops the session under
   * stop-on-error; under continue-on-error the progress is returned as it was.
   */
  lemma TransportErrorStops(s: SessionRow, jobs: seq<JobRow>, hresult: string, message: string,
                            create: string -> Result<WorkerKind>, parse: string -> Document, continueOnError: bool)
    requires !EmptyString(hresult) && !EmptyString(message)
    ensures var p := ProcessedResponse(WithTransportError(s, hresult, message), jobs, "", create, parse);
      && p == Processed(WithTransportError(s, hresult, message))
      && ReturnedProgress(p.session, continueOnError) == (if continueOnError then s.progress else -1)
  {
  }

  // ---------------------------------------------------------------------------
  // The service

  /** `version_compare($client, $min, '>=')`: numeric dotted versions by their parts, other forms by `atLeast`. */
  predicate VersionAccepted(client: string, min: string, atLeast: (string, string) -> bool)
  {
    if Versions.NumericVersion(client) && Versions.NumericVersion(min) then Versions.AtLeast(client, min)
    else atLeast(client, min)
  }

  /**
   * For numeric versions: the minimum itself and any version extending it with more parts are
   * accepted, and acceptance is transitive along the version order.
   */
  lemma NumericVersionsAccepted(client: string, min: string, other: string, atLeast: (string, string) -> bool)
    requires Versions.NumericVersion(client) && Versions.NumericVersion(min) && Versions.NumericVersion(other)
    ensures VersionAccepted(min, min, atLeast)
    ensures (exists extra :: extra != [] && Versions.Parts(client) == Versions.Parts(min) + extra)
      ==> VersionAccepted(client, min, atLeast)
    ensures VersionAccepted(client, other, atLeast) && VersionAccepted(other, min, atLeast)
      ==> VersionAccepted(client, min, atLeast)
    ensures VersionAccepted(client, min, atLeast) && VersionAccepted(min, client, atLeast)
      ==> Versions.Parts(client) == Versions.Parts(min)
  {
    if exists extra :: extra != [] && Versions.Parts(client) == Versions.Parts(min) + extra {
      var extra :| extra != [] && Versions.Parts(client) == Versions.Parts(min) + extra;
      Versions.LongerIsNewer(Versions.Parts(min), extra);
    }
    if VersionAccepted(client, other, atLeast) && VersionAccepted(other, min, atLeast) {
      Versions.CompareTransitive(Versions.Parts(client), Versions.Parts(other), Versions.Parts(min));
    }
    Versions.CompareFlips(Versions.Parts(client), Versions.Parts(min));
  }

  /** The warning `clientVersion` gives a client older than the minimum. */
  function UpgradeWarning(clientVersion: string, supported: string): (r: string)
    ensures |r| > 1 && r[0] == 'W' && r[1] == ':'
  {
    "W:Client version " + clientVersion + " not supported. Please upgrade to " + supported + " or later."
  }

  /** What `receiveResponseXML` returns: a number, or a PHP `Error` that ends the call. */
  datatype Reply = Answer(value: int) | Fatal(fault: Fault)

  class QbwcService {
    /** The session table, by ticket. */
    var sessions: map<string, SessionRow>
    /** The job table, in entity-id order. */
    var jobs: seq<JobRow>
    const config: Configs.Config
    /** The object manager: a worker for a class name, or its exception's message. */
    const create: string -> Result<WorkerKind>
    /** SimpleXML's reading of a response text. */
    const parse: string -> Document

    constructor (config: Configs.Config, sessions: map<string, SessionRow>, jobs: seq<JobRow>,
                 create: string -> Result<WorkerKind>, parse: string -> Document)
      ensures this.config == config && this.sessions == sessions && this.jobs == jobs
      ensures this.create == create && this.parse == parse
    {
      this.config := config;
      this.sessions := sessions;
      this.jobs := jobs;
      this.create := create;
      this.parse := parse;
    }

    /** `getContinueOnError` */
    predicate ContinueOnError()
    {
      Configs.ContinueOnError(config.settings)
    }

    /** `serverVersion`: the configured version, "1.0.0" when it is unset or PHP-empty. */
    function ServerVersion(): (r: string)
      ensures EmptyOpt(Configs.Setting(config.settings, Configs.ServerVersionPath)) ==> r == "1.0.0"
      ensures !EmptyOpt(Configs.Setting(config.settings, Configs.ServerVersionPath)) ==>
        r == config.settings[Configs.ServerVersionPath]
    {
      Configs.ServerVersion(config.settings)
    }

    /**
     * `clientVersion`: "" accepts the client; a warning naming the supported version asks for
     * an upgrade. Numeric dotted versions are compared as `version_compare` does; for any
     * other form, `atLeast` stands for `version_compare(..., '>=')`.
     */
    function ClientVersion(clientVersion: string, atLeast: (string, string) -> bool): (r: string)
      ensures var min := Configs.MinimumClientVersion(config.settings);
        r == "" <==> EmptyString(min) || VersionAccepted(clientVersion, min, atLeast)
      ensures r != "" ==> r == UpgradeWarning(clientVersion, Configs.SupportedClientVersion(config.settings))
    {
      var min := Configs.MinimumClientVersion(config.settings);
      if EmptyString(min) || VersionAccepted(clientVersion, min, atLeast) then ""
      else UpgradeWarning(clientVersion, Configs.SupportedClientVersion(config.settings))
    }

    /**
     * `authenticate`, with `ticket` the freshly generated ticket. Rejected credentials give
     * "nvu"; a company without pending jobs gives "none" and nothing is saved; otherwise a new
     * session over the pending job names is saved and the ticket returned with the company.
     */
    method Authenticate(username: string, password: string, ticket: string) returns (r: (string, string))
      modifies this
      ensures jobs == old(jobs)
      ensures config.Authenticate(username, password).None? ==>
        r == ("", NotValidUser) && sessions == old(sessions)
      ensures config.Authenticate(username, password).Some? ==>
        var company := config.Authenticate(username, password).value;
        var names := PendingJobNames(jobs, company);
        && (names == [] ==> r == ("", NoWork) && sessions == old(sessions))
        && (names != [] ==>
              r == (ticket, company) && sessions == old(sessions)[ticket := NewSession(ticket, username, company, names)])
    {
      var companyFile := config.Authenticate(username, password);
      if companyFile.None? {
        return ("", NotValidUser);
      }
      var company := companyFile.value;
      var session := new Session(FreshRow);
      session.SetTicket(ticket);
      session.SetUser(username);
      session.SetCompany(company);
      session.SetProgress(0);
      var names := PendingJobNames(jobs, company);
      if names == [] {
        return ("", NoWork);
      }
      session.SetPendingJobsArray(names);
      session.SetInitialJobCount(|names|);
      session.SetCurrentJob(Some(names[0]));
      sessions := sessions[ticket := session.Row()];
      r := (ticket, company);
    }

    /** `moveToNextJob` on the in-memory session. */
    method MoveToNextJob(session: Session)
      modifies session
      ensures session.Row() == MovedToNextJob(old(session.Row()))
    {
      var pending := PendingJobs(session.Row());
      var rest := Shift(pending);
      if rest == [] {
        session.SetCurrentJob(None);
        session.SetPendingJobsArray([]);
        session.SetProgress(100);
      } else {
        session.SetPendingJobsArray(rest);
        session.SetCurrentJob(Some(rest[0]));
        session.CalculateProgress();
      }
    }

    /** `getNextRequest`: the session object moves on in memory; job changes are saved as they happen. */
    method GetNextRequest(session: Session) returns (sent: Sent)
      modifies this, session
      ensures var step := NextRequest(old(session.Row()), old(jobs), ContinueOnError(), create);
        session.Row() == step.session && jobs == step.jobs && sent == step.sent
      ensures sessions == old(sessions)
      decreases Measure(session.Row()), 2
    {
      var row := session.Row();
      if row.progress >= 100 || (HasError(row) && !ContinueOnError()) {
        session.SetProgress(100);
        return NoRequest;
      }
      if EmptyOpt(row.currentJob) {
        session.SetProgress(100);
        return NoRequest;
      }
      var name := row.currentJob.value;
      var found := FindJob(jobs, name);
      if found.None? {
        session.SetError(Some(JobMissing(name)));
        return NoRequest;
      }
      var i := found.value;
      var worker := GetWorker(jobs[i], create);
      if worker.Failure? {
        session.SetError(Some(worker.error));
        return NoRequest;
      }
      NextRequestAtJob(row, jobs, ContinueOnError(), create, i, worker.value);
      sent := ServeJob(session, i, worker.value);
    }

    /**
     * The part of `getNextRequest` after the current job and its worker are found: the request
     * at this session's cursor is sent and the cursor saved one further on, or, past the end of
     * the job's requests, the session moves on and the choice starts over.
     */
    method ServeJob(session: Session, i: nat, kind: WorkerKind) returns (sent: Sent)
      requires i < |jobs| && session.progress < 100
      modifies this, session
      ensures var s := old(session.Row());
        var requests := PreparedRequests(old(jobs)[i], s.user, s.company, kind);
        var jobs1 := PreparedJobs(old(jobs), i, s.user, s.company, kind);
        var index := RequestIndexFor(jobs1[i], s.user, s.company);
        var step := if !IsSet(requests, KInt(index)) then NextRequest(MovedToNextJob(s), jobs1, ContinueOnError(), create)
                    else Step(s, AdvanceCursor(jobs1, i, s.user, s.company), Emit(Get(requests, KInt(index)).value, ContinueOnError()));
        session.Row() == step.session && jobs == step.jobs && sent == step.sent
      ensures sessions == old(sessions)
      decreases Measure(session.Row()), 1
    {
      var row := session.Row();
      var job := new Job(jobs[i]);
      var requests := PrepareRequests(job, i, row.user, row.company, kind);
      var index := RequestIndexFor(job.Row(), row.user, row.company);
      if !IsSet(requests, KInt(index)) {
        sent := RetryNextJob(session);
        return;
      }
      SaveAdvancedCursor(job, i, row.user, row.company);
      sent := Emit(Get(requests, KInt(index)).value, ContinueOnError());
    }

    /** Past the end of the current job's requests: `moveToNextJob`, then `getNextRequest` again. */
    method RetryNextJob(session: Session) returns (sent: Sent)
      requires session.progress < 100
      modifies this, session
      ensures var step := NextRequest(MovedToNextJob(old(session.Row())), old(jobs), ContinueOnError(), create);
        session.Row() == step.session && jobs == step.jobs && sent == step.sent
      ensures sessions == old(sessions)
      decreases Measure(session.Row()), 0
    {
      var row := session.Row();
      MoveToNextJob(session);
      MoveDecreases(row);
      sent := GetNextRequest(session);
    }

    /** `setRequestIndexForSession($index + 1)` on the loaded job, then the job is saved. */
    method SaveAdvancedCursor(job: Job, i: nat, user: string, company: string)
      requires i < |jobs| && job.Row() == jobs[i]
      modifies this, job
      ensures jobs == AdvanceCursor(old(jobs), i, user, company)
      ensures sessions == old(sessions)
    {
      job.AdvanceNextRequest(user, company);
      jobs := jobs[i := job.Row()];
    }

    /**
     * The middle of `getNextRequest` for the job at `i`, loaded as `job`: the cached requests,
     * or the worker's, which are then cached on the job and the job saved.
     */
    method PrepareRequests(job: Job, i: nat, user: string, company: string, kind: WorkerKind) returns (requests: Entries)
      requires i < |jobs| && job.Row() == jobs[i]
      modifies this, job
      ensures requests == PreparedRequests(old(jobs)[i], user, company, kind)
      ensures jobs == PreparedJobs(old(jobs), i, user, company, kind) && job.Row() == jobs[i]
      ensures sessions == old(sessions)
    {
      requests := RequestsFor(job.Row(), user, company);
      if requests == [] {
        requests := Requests(kind, JobData(job.Row()));
        if requests != [] {
          job.SetRequestsForSession(user, company, requests);
          jobs := jobs[i := job.Row()];
        }
      }
    }

    /**
     * `sendRequestXML`: the next request for the ticket's session, or nothing for an unknown
     * ticket or a finished session. The session is never saved here: whatever `getNextRequest`
     * did to it (moving on, progress, an error) is lost, while its job changes are kept.
     */
    method SendRequestXML(ticket: string) returns (sent: Sent)
      modifies this
      ensures sessions == old(sessions)
      ensures ticket !in old(sessions) ==> sent == NoRequest && jobs == old(jobs)
      ensures ticket in old(sessions) ==>
        var step := NextRequest(old(sessions)[ticket], old(jobs), ContinueOnError(), create);
        sent == step.sent && jobs == step.jobs
    {
      if ticket !in sessions {
        return NoRequest;
      }
      var session := new Session(sessions[ticket]);
      sent := GetNextRequest(session);
    }

    /** `parseResponseHeader` on the in-memory session; `None` unless a typed setter raises. */
    method ParseResponseHeader(session: Session, response: Entries) returns (fault: Option<Fault>)
      modifies session
      ensures var h := HeaderParsed(old(session.Row()), response);
        && (h.Processed? ==> fault.None? && session.Row() == h.session)
        && (h.Escaped? ==> fault == Some(h.fault))
    {
      session.SetIteratorId(None);
      session.SetError(None);
      session.SetStatusCode(None);
      session.SetStatusSeverity(None);
      var attributes := Index(VArr(response), KStr("xml_attributes")).GetOr(VArr([]));
      if Empty(attributes) {
        return None;
      }
      var code := Attribute(attributes, "statusCode", VNull);
      var severity := Attribute(attributes, "statusSeverity", VNull);
      var message := Attribute(attributes, "statusMessage", VStr(""));
      var remaining := Attribute(attributes, "iteratorRemainingCount", VInt(0));
      var iteratorValue := Attribute(attributes, "iteratorID", VNull);
      if severity == VStr("Error") || severity == VStr("Warn") {
        var heading := if severity == VStr("Error") then "QBWC ERROR: " else "QBWC WARN: ";
        session.SetError(Some(heading + ToStr(code) + " - " + ToStr(message)));
        session.SetStatusCode(Some(ToStr(code)));
        session.SetStatusSeverity(Some(severity.s));
      }
      if GreaterThanZero(remaining) && severity != VStr("Error") {
        match iteratorValue {
          case VNull => session.SetIteratorId(None);
          case VStr(id) => session.SetIteratorId(Some(id));
          case _ => return Some(ArgumentType);
        }
      }
      return None;
    }

    /** `processResponse` on the in-memory session; `None` unless a PHP `Error` escapes. */
    method ProcessResponse(session: Session, text: string) returns (fault: Option<Fault>)
      modifies session
      ensures var p := ProcessedResponse(old(session.Row()), jobs, text, create, parse);
        && (p.Processed? ==> fault.None? && session.Row() == p.session)
        && (p.Escaped? ==> fault == Some(p.fault))
    {
      if EmptyString(text) {
        return None;
      }
      var decoded := QbxmlToArray(parse(text));
      match decoded {
        case Raised(message) =>
          session.SetError(Some(message));
          return None;
        case Crashed(f) =>
          return Some(f);
        case Decoded(response) =>
          fault := ParseResponseHeader(session, response);
          if fault.Some? {
            return;
          }
          fault := HandleWithJob(session, response);
      }
    }

    /** The end of `processResponse` on the in-memory session. */
    method HandleWithJob(session: Session, response: Entries) returns (fault: Option<Fault>)
      modifies session
      ensures var p := HandledByJob(old(session.Row()), jobs, response, create);
        && (p.Processed? ==> fault.None? && session.Row() == p.session)
        && (p.Escaped? ==> fault == Some(p.fault))
    {
      var current := session.currentJob;
      if EmptyOpt(current) {
        return None;
      }
      var name := current.value;
      var found := FindJob(jobs, name);
      if found.None? {
        session.SetError(Some(JobMissing(name)));
        return None;
      }
      var job := jobs[found.value];
      var worker := GetWorker(job, create);
      if worker.Failure? {
        session.SetError(Some(worker.error));
        return None;
      }
      var requests := RequestsFor(job, session.user, session.company);
      var request := Index(VArr(requests), KInt(RequestIndexFor(job, session.user, session.company) - 1));
      if request.Some? && !request.value.VArr? {
        return Some(ArgumentType);
      }
      var handled := Handle(worker.value, response);
      if handled.Stopped? {
        return Some(handled.fault);
      }
      return None;
    }

    /**
     * `receiveResponseXML`: a reported error is recorded, the response processed and the
     * session saved; the answer is the progress, or -1 to stop. An unknown ticket gives -1;
     * a PHP `Error` ends the call before anything is saved.
     */
    method ReceiveResponseXML(ticket: string, response: string, hresult: string, message: string) returns (r: Reply)
      modifies this
      ensures jobs == old(jobs)
      ensures ticket !in old(sessions) ==> r == Answer(-1) && sessions == old(sessions)
      ensures ticket in old(sessions) ==>
        var p := ProcessedResponse(WithTransportError(old(sessions)[ticket], hresult, message), jobs, response, create, parse);
        && (p.Escaped? ==> r == Fatal(p.fault) && sessions == old(sessions))
        && (p.Processed? ==>
              r == Answer(ReturnedProgress(p.session, ContinueOnError())) && sessions == old(sessions)[ticket := p.session])
    {
      if ticket !in sessions {
        return Answer(-1);
      }
      var session := new Session(sessions[ticket]);
      if !EmptyString(hresult) {
        session.SetError(Some(message));
        session.SetStatusCode(Some(hresult));
        session.SetStatusSeverity(Some("Error"));
      }
      var fault := ProcessResponse(session, response);
      if fault.Some? {
        return Fatal(fault.value);
      }
      sessions := sessions[ticket := session.Row()];
      if ContinueOnError() || !HasError(session.Row()) {
        r := Answer(session.progress);
      } else {
        r := Answer(-1);
      }
    }

    /** `closeConnection`: the session is deleted if there is one, and the answer is always "OK". */
    method CloseConnection(ticket: string) returns (r: string)
      modifies this
      ensures r == "OK" && ticket !in sessions
      ensures sessions == old(sessions) - {ticket} && jobs == old(jobs)
    {
      sessions := sessions - {ticket};
      r := "OK";
    }

    /** `connectionError`: the session is deleted if there is one, and the answer is always "done". */
    method ConnectionError(ticket: string, hresult: string, message: string) returns (r: string)
      modifies this
      ensures r == "done" && ticket !in sessions
      ensures sessions == old(sessions) - {ticket} && jobs == old(jobs)
    {
      sessions := sessions - {ticket};
      r := "done";
    }

    /** `getLastError`: the stored session's error, "" when it has none or the ticket is unknown. */
    function LastError(ticket: string): (r: string)
      reads this
      ensures ticket !in sessions || sessions[ticket].error.None? ==> r == ""
      ensures ticket in sessions && sessions[ticket].error.Some? ==> r == sessions[ticket].error.value
    {
      if ticket in sessions then sessions[ticket].error.GetOr("") else ""
    }
  }

  /**
   * An error recorded while choosing a request never reaches `getLastError`: for a current
   * job that does not exist, the in-memory session records the lookup's message, but the
   * stored session, which sending leaves untouched, still reports no error.
   */
  lemma UnknownJobErrorIsLost(service: QbwcService, ticket: string)
    requires ticket in service.sessions
    requires var s := service.sessions[ticket];
      && s.progress < 100 && s.error == None
      && s.currentJob.Some? && !EmptyString(s.currentJob.value)
      && FindJob(service.jobs, s.currentJob.value).None?
    ensures var s := service.sessions[ticket];
      var step := NextRequest(s, service.jobs, service.ContinueOnError(), service.create);
      && step.sent == NoRequest
      && step.session.error == Some(JobMissing(s.currentJob.value))
      && service.LastError(ticket) == ""
  {
  }
}
