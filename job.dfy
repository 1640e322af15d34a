/**
 * The job record (`Job`): a named unit of work for one company, the worker class that
 * builds its requests, and two maps indexed by the session key: the cached request
 * list of each session and the cursor into it. Instantiating the worker class is
 * reflection in the source; here it is a parameter `create`.
 */
module Jobs {
  import opened Wrappers
  import opened Php
  import opened Columns

  /** The columns of a job row. */
  datatype JobRow = JobRow(
    name: string,
    company: string,
    workerClass: string,
    enabled: bool,
    requestIndex: Stored<map<string, int>>,
    requests: Stored<map<string, Entries>>,
    requestsProvidedWhenJobAdded: bool,
    data: Stored<Entries>)

  /** `implode('_', [$user, $company])`: the session key, a plain join with '_'. */
  function SessionKey(user: string, company: string): string
  {
    user + "_" + company
  }

  /** The key for a request list stored without a user name. */
  function CompanyKey(company: string): string
  {
    "_" + company
  }

  /** The join is not injective: two different sessions can share one key. */
  lemma SessionKeyCollision()
    ensures SessionKey("a_b", "c") == SessionKey("a", "b_c")
  {
  }

  /** `getRequestIndexForSession`: the stored cursor, or 0 when nothing is stored, the key is absent or the column does not decode. */
  function RequestIndexFor(j: JobRow, user: string, company: string): (i: int)
    ensures j.requestIndex.Encoded? && SessionKey(user, company) in j.requestIndex.value
      ==> i == j.requestIndex.value[SessionKey(user, company)]
    ensures !j.requestIndex.Encoded? || SessionKey(user, company) !in j.requestIndex.value ==> i == 0
  {
    var indices := Decode(j.requestIndex, map[]);
    var key := SessionKey(user, company);
    if key in indices then indices[key] else 0
  }

  /**
   * The read-modify-write of `setRequestIndexForSession` on the column: an empty column
   * starts a new map; an undecodable one makes the serializer throw, which is caught and
   * leaves the column as it was.
   */
  function WithIndex(c: Stored<map<string, int>>, key: string, index: int): Stored<map<string, int>>
  {
    match c
    case Unset => Encoded(map[key := index])
    case Encoded(m) => Encoded(m[key := index])
    case Undecodable => Undecodable
  }

  /** `getRequestsForSession`: the list under the session key, else under the company key, else []. */
  function RequestsFor(j: JobRow, user: string, company: string): (r: Entries)
    ensures !j.requests.Encoded? ==> r == []
    ensures j.requests.Encoded? && SessionKey(user, company) in j.requests.value
      ==> r == j.requests.value[SessionKey(user, company)]
    ensures j.requests.Encoded? && SessionKey(user, company) !in j.requests.value && CompanyKey(company) in j.requests.value
      ==> r == j.requests.value[CompanyKey(company)]
    ensures j.requests.Encoded? && SessionKey(user, company) !in j.requests.value && CompanyKey(company) !in j.requests.value
      ==> r == []
  {
    var all := Decode(j.requests, map[]);
    if SessionKey(user, company) in all then all[SessionKey(user, company)]
    else if CompanyKey(company) in all then all[CompanyKey(company)]
    else []
  }

  /** The read-modify-write of `setRequestsForSession` on the column. */
  function WithRequests(c: Stored<map<string, Entries>>, key: string, requests: Entries): Stored<map<string, Entries>>
  {
    match c
    case Unset => Encoded(map[key := requests])
    case Encoded(m) => Encoded(m[key := requests])
    case Undecodable => Undecodable
  }

  /** `getJobData`: the decoded job data, or [] when the column is empty or does not decode. */
  function JobData(j: JobRow): (d: Entries)
    ensures !j.data.Encoded? ==> d == []
    ensures j.data.Encoded? ==> d == j.data.value
  {
    Decode(j.data, [])
  }

  /**
   * `getWorker`: no worker class is an exception naming the job; a class the object
   * manager cannot create is an exception naming the class and the manager's message.
   */
  function GetWorker<W>(j: JobRow, create: string -> Result<W>): (r: Result<W>)
    ensures EmptyString(j.workerClass) ==> r == Failure("Worker class not defined for job: " + j.name)
    ensures !EmptyString(j.workerClass) && create(j.workerClass).Success? ==> r == create(j.workerClass)
    ensures !EmptyString(j.workerClass) && create(j.workerClass).Failure?
      ==> r == Failure("Failed to create worker: " + j.workerClass + ". Error: " + create(j.workerClass).error)
  {
    if EmptyString(j.workerClass) then Failure("Worker class not defined for job: " + j.name)
    else match create(j.workerClass)
      case Success(w) => Success(w)
      case Failure(e) => Failure("Failed to create worker: " + j.workerClass + ". Error: " + e)
  }

  // ---------------------------------------------------------------------------
  // What the updates do to later reads

  /** After writing a cursor, reading it under the same session gives it back (unless the column does not decode). */
  lemma CursorWriteRead(j: JobRow, user: string, company: string, index: int)
    ensures var j' := j.(requestIndex := WithIndex(j.requestIndex, SessionKey(user, company), index));
      RequestIndexFor(j', user, company) == if j.requestIndex.Undecodable? then 0 else index
  {
  }

  /** Writing a cursor changes no other key's cursor. */
  lemma CursorWriteOthers(j: JobRow, user: string, company: string, index: int, user': string, company': string)
    requires SessionKey(user', company') != SessionKey(user, company)
    ensures var j' := j.(requestIndex := WithIndex(j.requestIndex, SessionKey(user, company), index));
      RequestIndexFor(j', user', company') == RequestIndexFor(j, user', company')
  {
  }

  /** Sessions whose keys collide share one cursor: advancing one moves the other. */
  lemma CursorShared(j: JobRow, index: int)
    requires !j.requestIndex.Undecodable?
    ensures var j' := j.(requestIndex := WithIndex(j.requestIndex, SessionKey("a_b", "c"), index));
      RequestIndexFor(j', "a", "b_c") == index
  {
    SessionKeyCollision();
    CursorWriteRead(j, "a", "b_c", index);
  }

  /** After writing a request list, the same session reads it back. */
  lemma RequestsWriteRead(j: JobRow, user: string, company: string, requests: Entries)
    requires !j.requests.Undecodable?
    ensures RequestsFor(j.(requests := WithRequests(j.requests, SessionKey(user, company), requests)), user, company) == requests
  {
  }

  /**
   * Writing a request list affects no session whose own key and company key both differ from
   * the written key. (A write for a user named "" lands on the company key of that company.)
   */
  lemma RequestsWriteOthers(j: JobRow, user: string, company: string, requests: Entries, user': string, company': string)
    requires SessionKey(user', company') != SessionKey(user, company)
    requires CompanyKey(company') != SessionKey(user, company)
    ensures RequestsFor(j.(requests := WithRequests(j.requests, SessionKey(user, company), requests)), user', company')
         == RequestsFor(j, user', company')
  {
  }

  /** A list written for the empty user name is the company-wide fallback for every user without a list of their own. */
  lemma EmptyUserIsFallback(j: JobRow, company: string, requests: Entries, user': string)
    requires j.requests.Encoded? && SessionKey(user', company) !in j.requests.value
    requires user' != ""
    ensures RequestsFor(j.(requests := WithRequests(j.requests, SessionKey("", company), requests)), user', company) == requests
  {
    assert SessionKey("", company) == CompanyKey(company);
    assert SessionKey(user', company) != CompanyKey(company) by {
      assert |SessionKey(user', company)| > |CompanyKey(company)|;
    }
  }

  // ---------------------------------------------------------------------------
  // The record object

  /** A loaded job; its setters read, change and re-serialise one column. */
  class Job {
    var name: string
    var company: string
    var workerClass: string
    var enabled: bool
    var requestIndex: Stored<map<string, int>>
    var requests: Stored<map<string, Entries>>
    var requestsProvidedWhenJobAdded: bool
    var data: Stored<Entries>

    /** The row these fields would be saved as. */
    function Row(): JobRow
      reads this
    {
      JobRow(name, company, workerClass, enabled, requestIndex, requests, requestsProvidedWhenJobAdded, data)
    }

    /** A job object holding a row of the job table. */
    constructor (row: JobRow)
      ensures Row() == row
    {
      name, company, workerClass, enabled := row.name, row.company, row.workerClass, row.enabled;
      requestIndex, requests := row.requestIndex, row.requests;
      requestsProvidedWhenJobAdded, data := row.requestsProvidedWhenJobAdded, row.data;
    }

    /** `setRequestIndexForSession`: only the cursor under this session's key changes. */
    method SetRequestIndexForSession(user: string, company: string, index: int)
      modifies this
      ensures Row() == old(Row()).(requestIndex := WithIndex(old(requestIndex), SessionKey(user, company), index))
    {
      requestIndex := WithIndex(requestIndex, SessionKey(user, company), index);
    }

    /** `setRequestsForSession`: only the list under this session's key changes. */
    method SetRequestsForSession(user: string, company: string, list: Entries)
      modifies this
      ensures Row() == old(Row()).(requests := WithRequests(old(requests), SessionKey(user, company), list))
    {
      requests := WithRequests(requests, SessionKey(user, company), list);
    }

    /** `advanceNextRequest`: this session's cursor, 0 when absent, plus one. */
    method AdvanceNextRequest(user: string, company: string)
      modifies this
      ensures Row() == old(Row()).(requestIndex :=
        WithIndex(old(requestIndex), SessionKey(user, company), RequestIndexFor(old(Row()), user, company) + 1))
      ensures !old(requestIndex).Undecodable? ==>
        RequestIndexFor(Row(), user, company) == RequestIndexFor(old(Row()), user, company) + 1
    {
      var currentIndex := RequestIndexFor(Row(), user, company);
      SetRequestIndexForSession(user, company, currentIndex + 1);
    }

    /** `reset`: all cursors go; cached requests go too unless they were given when the job was added. */
    method Reset()
      modifies this
      ensures Row() == old(Row()).(requestIndex := Unset,
                                   requests := if old(requestsProvidedWhenJobAdded) then old(requests) else Unset)
      ensures forall u, c :: RequestIndexFor(Row(), u, c) == 0
      ensures !old(requestsProvidedWhenJobAdded) ==> forall u, c :: RequestsFor(Row(), u, c) == []
    {
      requestIndex := Unset;
      if !requestsProvidedWhenJobAdded {
        requests := Unset;
      }
    }

    method Enable()
      modifies this
      ensures Row() == old(Row()).(enabled := true)
      ensures IsEnabled()
    {
      enabled := true;
    }

    method Disable()
      modifies this
      ensures Row() == old(Row()).(enabled := false)
      ensures !IsEnabled()
    {
      enabled := false;
    }

    /** `isEnabled`, the same as `getEnabled`. */
    predicate IsEnabled()
      reads this
    {
      enabled
    }
  }
}
