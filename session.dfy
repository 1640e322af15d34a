/**
 * The session record of one Web Connector conversation (`Session`): its columns, the
 * progress arithmetic and the error and severity predicates. Ticket generation
 * (a SHA-256 of `uniqid`) is not modelled: tickets are opaque strings chosen by the caller.
 */
module Sessions {
  import opened Wrappers
  import opened Php
  import opened Columns

  /**
   * The columns of a session row, as the getters present them: `progress` and
   * `initialJobCount` are `(int)` casts (null reads as 0), the nullable columns are options.
   */
  datatype SessionRow = SessionRow(
    ticket: string,
    user: string,
    company: string,
    progress: int,
    currentJob: Option<string>,
    pendingJobs: Stored<seq<string>>,
    iteratorId: Option<string>,
    error: Option<string>,
    statusCode: Option<string>,
    statusSeverity: Option<string>,
    initialJobCount: int)

  /** A session as `SessionInterfaceFactory::create` makes it: every column null. */
  const FreshRow := SessionRow("", "", "", 0, None, Unset, None, None, None, None, 0)

  /** `getPendingJobsArray`: the decoded list, or [] when the column is empty or undecodable. */
  function PendingJobs(s: SessionRow): seq<string>
  {
    Decode(s.pendingJobs, [])
  }

  // ---------------------------------------------------------------------------
  // Progress

  /** `(int)` of a quotient: PHP truncates toward zero. The divisor is positive here. */
  function TruncDiv(a: int, b: int): int
    requires b > 0
  {
    if a >= 0 then a / b else -((-a) / b)
  }

  /**
   * The percentage `calculateProgress` stores for `remaining` of `initial` jobs left:
   * 100 * (initial - remaining) / initial, truncated toward zero.
   */
  function Progress(initial: int, remaining: int): (p: int)
    requires initial > 0
    ensures remaining <= initial ==> p * initial <= 100 * (initial - remaining) < (p + 1) * initial
    ensures remaining > initial ==> (p - 1) * initial < 100 * (initial - remaining) <= p * initial
  {
    TruncDiv(100 * (initial - remaining), initial)
  }

  /** Dividing both sides of a product comparison by a positive factor. */
  lemma MulCancel(a: int, b: int, c: int)
    requires c > 0
    ensures a * c <= b * c ==> a <= b
    ensures a * c < b * c ==> a < b
  {
  }

  /** With no more jobs left than at the start, progress is a percentage. */
  lemma ProgressBounds(initial: int, remaining: int)
    requires initial > 0 && 0 <= remaining <= initial
    ensures 0 <= Progress(initial, remaining) <= 100
  {
    var p := Progress(initial, remaining);
    assert p * initial <= 100 * initial;
    assert 0 * initial < (p + 1) * initial;
    MulCancel(p, 100, initial);
    MulCancel(0, p + 1, initial);
  }

  /** Progress reaches 100 exactly when no job is left. */
  lemma ProgressFull(initial: int, remaining: int)
    requires initial > 0 && 0 <= remaining <= initial
    ensures Progress(initial, remaining) == 100 <==> remaining == 0
  {
    var p := Progress(initial, remaining);
    MulCancel(p, 100, initial);
    MulCancel(100, p + 1, initial);
    if remaining > 0 {
      assert p * initial < 100 * initial;
    } else {
      assert 100 * initial < (p + 1) * initial;
    }
  }

  /** Fewer jobs left never means less progress. */
  lemma ProgressMonotone(initial: int, fewer: int, more: int)
    requires initial > 0 && 0 <= fewer <= more <= initial
    ensures Progress(initial, more) <= Progress(initial, fewer)
  {
    var p, q := Progress(initial, more), Progress(initial, fewer);
    assert p * initial < (q + 1) * initial;
    MulCancel(p, q + 1, initial);
  }

  /** Four jobs with two left is 50 percent; five with none left is 100. */
  lemma ProgressExamples()
    ensures Progress(4, 2) == 50
    ensures Progress(5, 0) == 100
    ensures Progress(3, 2) == 33
  {
  }

  // ---------------------------------------------------------------------------
  // Predicates

  /** `hasError`: the error column is not PHP-empty. */
  predicate HasError(s: SessionRow)
  {
    !EmptyOpt(s.error)
  }

  /** `responseIsError`: an error with the severity exactly "Error". */
  predicate ResponseIsError(s: SessionRow)
  {
    HasError(s) && s.statusSeverity == Some("Error")
  }

  /** `isCompleted` */
  predicate IsCompleted(s: SessionRow)
  {
    s.progress >= 100
  }

  /** `shouldStopOnError`: a response error while the policy is exactly "stopOnError". */
  predicate ShouldStopOnError(s: SessionRow, onErrorConfig: string)
  {
    ResponseIsError(s) && onErrorConfig == "stopOnError"
  }

  /** `getKey`: the session key the job cursors and request caches are indexed by. */
  function Key(s: SessionRow): seq<string>
  {
    [s.user, s.company]
  }

  /**
   * What the predicates mean for the columns: null, "" and "0" are no error; a "Warn"
   * severity is never a response error; stopping needs the exact policy string.
   */
  lemma PredicatesOnColumns(s: SessionRow, onErrorConfig: string)
    ensures HasError(s) <==> s.error != None && s.error != Some("") && s.error != Some("0")
    ensures ResponseIsError(s) <==> HasError(s) && s.statusSeverity == Some("Error")
    ensures s.statusSeverity == Some("Warn") ==> !ResponseIsError(s)
    ensures ShouldStopOnError(s, onErrorConfig) <==> ResponseIsError(s) && onErrorConfig == "stopOnError"
    ensures IsCompleted(s) <==> s.progress >= 100
    ensures Key(s) == [s.user, s.company]
  {
  }

  // ---------------------------------------------------------------------------
  // The record object

  /** A loaded session: the service changes it through setters and saves it, or does not. */
  class Session {
    var ticket: string
    var user: string
    var company: string
    var progress: int
    var currentJob: Option<string>
    var pendingJobs: Stored<seq<string>>
    var iteratorId: Option<string>
    var error: Option<string>
    var statusCode: Option<string>
    var statusSeverity: Option<string>
    var initialJobCount: int

    /** The row these fields would be saved as. */
    function Row(): SessionRow
      reads this
    {
      SessionRow(ticket, user, company, progress, currentJob, pendingJobs, iteratorId,
                 error, statusCode, statusSeverity, initialJobCount)
    }

    /** A session object holding `row` (the factory's fresh session, or one loaded by ticket). */
    constructor (row: SessionRow)
      ensures Row() == row
    {
      ticket, user, company := row.ticket, row.user, row.company;
      progress, currentJob, pendingJobs := row.progress, row.currentJob, row.pendingJobs;
      iteratorId, error := row.iteratorId, row.error;
      statusCode, statusSeverity := row.statusCode, row.statusSeverity;
      initialJobCount := row.initialJobCount;
    }

    method SetTicket(t: string)
      modifies this
      ensures Row() == old(Row()).(ticket := t)
    {
      ticket := t;
    }

    method SetUser(u: string)
      modifies this
      ensures Row() == old(Row()).(user := u)
    {
      user := u;
    }

    method SetCompany(c: string)
      modifies this
      ensures Row() == old(Row()).(company := c)
    {
      company := c;
    }

    method SetProgress(p: int)
      modifies this
      ensures Row() == old(Row()).(progress := p)
    {
      progress := p;
    }

    method SetCurrentJob(name: Option<string>)
      modifies this
      ensures Row() == old(Row()).(currentJob := name)
    {
      currentJob := name;
    }

    /** `setPendingJobsArray`: a list of names always serialises, so the column reads back as `jobs`. */
    method SetPendingJobsArray(jobs: seq<string>)
      modifies this
      ensures Row() == old(Row()).(pendingJobs := Encoded(jobs))
      ensures PendingJobs(Row()) == jobs
    {
      pendingJobs := Encoded(jobs);
    }

    method SetIteratorId(id: Option<string>)
      modifies this
      ensures Row() == old(Row()).(iteratorId := id)
    {
      iteratorId := id;
    }

    method SetError(e: Option<string>)
      modifies this
      ensures Row() == old(Row()).(error := e)
    {
      error := e;
    }

    method SetStatusCode(code: Option<string>)
      modifies this
      ensures Row() == old(Row()).(statusCode := code)
    {
      statusCode := code;
    }

    method SetStatusSeverity(severity: Option<string>)
      modifies this
      ensures Row() == old(Row()).(statusSeverity := severity)
    {
      statusSeverity := severity;
    }

    method SetInitialJobCount(n: int)
      modifies this
      ensures Row() == old(Row()).(initialJobCount := n)
    {
      initialJobCount := n;
    }

    /**
     * `calculateProgress`: with a positive initial count, progress becomes the truncated
     * percentage of jobs no longer pending; with none, progress is left alone.
     */
    method CalculateProgress()
      modifies this
      ensures old(initialJobCount) > 0 ==>
        Row() == old(Row()).(progress := Progress(old(initialJobCount), |PendingJobs(old(Row()))|))
      ensures old(initialJobCount) <= 0 ==> Row() == old(Row())
    {
      var initialCount := initialJobCount;
      var currentCount := |PendingJobs(Row())|;
      if initialCount > 0 {
        SetProgress(Progress(initialCount, currentCount));
      }
    }
  }
}
