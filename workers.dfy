/**
 * The three demonstration workers: customer sync, invoice sync and product query. Each
 * builds its request list (`requests`), decides whether it would run (`shouldRun`, with
 * the clock reading passed in) and handles a decoded response (`handleResponse`). The
 * handlers only count and log; logging is not modelled, so a handler's outcome is the
 * count of records it went through, or the PHP `Error` that stopped it.
 */
module Workers {
  import opened Wrappers
  import opened Php
  import opened QbxmlParser

  datatype WorkerKind = CustomerSync | InvoiceSync | ProductQuery

  /** What a handler did: records processed and records that failed, or an uncaught `Error`. */
  datatype Handling = Completed(processed: nat, failed: nat) | Stopped(fault: Fault)

  // ---------------------------------------------------------------------------
  // Requests

  /** A query request keyed by its type, with a request ID and an iterator start, followed by `body`. */
  function QueryRequest(requestType: string, requestId: string, body: Entries): Value
  {
    var attributes := VArr([(KStr("requestID"), VStr(requestId)), (KStr("iterator"), VStr("Start"))]);
    VArr([(KStr(requestType), VArr([(KStr("xml_attributes"), attributes)] + body))])
  }

  /** `CustomerSyncWorker::requests`: one customer query, 100 per page, active and inactive. */
  function CustomerRequests(): Entries
  {
    [(KInt(0), QueryRequest("CustomerQueryRq", "1", [(KStr("MaxReturned"), VInt(100)), (KStr("ActiveStatus"), VStr("All"))]))]
  }

  /** `$jobData[$k] ?? null`, read only when the job data is truthy. */
  function JobSetting(data: Entries, k: string): Value
  {
    if data != [] then Index(VArr(data), KStr(k)).GetOr(VNull) else VNull
  }

  /**
   * The invoice query's fields after the one carrying the attributes: 50 per page; a truthy
   * `date_from` adds a date filter, which carries `date_to` too when that is truthy; line
   * items are always requested. Each field is a key not yet present, so each nested
   * assignment of the source appends.
   */
  function InvoiceQueryBody(dateFrom: Value, dateTo: Value): Entries
  {
    var filter := [(KStr("FromTxnDate"), dateFrom)] + (if Empty(dateTo) then [] else [(KStr("ToTxnDate"), dateTo)]);
    [(KStr("MaxReturned"), VInt(50))]
      + (if Empty(dateFrom) then [] else [(KStr("TxnDateRangeFilter"), VArr(filter))])
      + [(KStr("IncludeLineItems"), VBool(true))]
  }

  /** `InvoiceSyncWorker::requests`: one invoice query, filtered by the job data's dates. */
  function InvoiceRequests(data: Entries): Entries
  {
    [(KInt(0), QueryRequest("InvoiceQueryRq", "1", InvoiceQueryBody(JobSetting(data, "date_from"), JobSetting(data, "date_to"))))]
  }

  /**
   * `InvoiceSyncWorker::requests` as the source writes it: the query array is filled in by
   * nested assignments, the date filter only for a truthy `date_from`.
   */
  method BuildInvoiceRequests(data: Entries) returns (requests: Entries)
    ensures requests == InvoiceRequests(data)
  {
    var dateFrom := JobSetting(data, "date_from");
    var dateTo := JobSetting(data, "date_to");
    var query := [(KStr("MaxReturned"), VInt(50))];
    if !Empty(dateFrom) {
      var filter := BuildDateFilter(dateFrom, dateTo);
      assert IndexOf(query, KStr("TxnDateRangeFilter")).None?;
      query := Put(query, KStr("TxnDateRangeFilter"), VArr(filter));
    }
    assert IndexOf(query, KStr("IncludeLineItems")).None?;
    query := Put(query, KStr("IncludeLineItems"), VBool(true));
    assert query == InvoiceQueryBody(dateFrom, dateTo);
    requests := [(KInt(0), QueryRequest("InvoiceQueryRq", "1", query))];
  }

  /** The date filter of the invoice query, filled in by nested assignments. */
  method BuildDateFilter(dateFrom: Value, dateTo: Value) returns (filter: Entries)
    ensures filter == [(KStr("FromTxnDate"), dateFrom)] + (if Empty(dateTo) then [] else [(KStr("ToTxnDate"), dateTo)])
  {
    filter := Put([], KStr("FromTxnDate"), dateFrom);
    if !Empty(dateTo) {
      assert IndexOf(filter, KStr("ToTxnDate")).None?;
      filter := Put(filter, KStr("ToTxnDate"), dateTo);
    }
  }

  /** The invoice query carries a date filter exactly when `date_from` is truthy, and `ToTxnDate` only when `date_to` is too. */
  lemma InvoiceDateFilter(dateFrom: Value, dateTo: Value)
    ensures var body := InvoiceQueryBody(dateFrom, dateTo);
      var filter := Get(body, KStr("TxnDateRangeFilter"));
      && (filter.Some? <==> !Empty(dateFrom))
      && (filter.Some? ==> filter.value.VArr? && Get(filter.value.entries, KStr("FromTxnDate")) == Some(dateFrom))
      && (filter.Some? ==> (Get(filter.value.entries, KStr("ToTxnDate")).Some? <==> !Empty(dateTo)))
      && (filter.Some? && !Empty(dateTo) ==> Get(filter.value.entries, KStr("ToTxnDate")) == Some(dateTo))
      && Get(body, KStr("IncludeLineItems")) == Some(VBool(true))
      && Get(body, KStr("MaxReturned")) == Some(VInt(50))
  {
    var body := InvoiceQueryBody(dateFrom, dateTo);
    assert body[0] == (KStr("MaxReturned"), VInt(50));
    assert body[|body| - 1] == (KStr("IncludeLineItems"), VBool(true));
    if !Empty(dateFrom) {
      assert body[1].0 == KStr("TxnDateRangeFilter");
      var filter := [(KStr("FromTxnDate"), dateFrom)] + (if Empty(dateTo) then [] else [(KStr("ToTxnDate"), dateTo)]);
      assert filter[0] == (KStr("FromTxnDate"), dateFrom);
      if !Empty(dateTo) {
        assert filter[1] == (KStr("ToTxnDate"), dateTo);
      }
    }
  }

  /** The invoice request's query holds its attributes and then the body for the job data's dates. */
  lemma InvoiceRequestShape(data: Entries)
    ensures Dig(VArr(InvoiceRequests(data)), [KInt(0), KStr("InvoiceQueryRq")])
         == Some(VArr([(KStr("xml_attributes"), VArr([(KStr("requestID"), VStr("1")), (KStr("iterator"), VStr("Start"))]))]
                      + InvoiceQueryBody(JobSetting(data, "date_from"), JobSetting(data, "date_to"))))
  {
  }

  /** `ProductQueryWorker::requests`: inventory, service and non-inventory item queries, in that order. */
  function ProductRequests(): Entries
  {
    var body := [(KStr("MaxReturned"), VInt(100)), (KStr("ActiveStatus"), VStr("ActiveOnly"))];
    [(KInt(0), QueryRequest("ItemInventoryQueryRq", "1", body)),
     (KInt(1), QueryRequest("ItemServiceQueryRq", "2", body)),
     (KInt(2), QueryRequest("ItemNonInventoryQueryRq", "3", body))]
  }

  /** `requests($job, $session, $data)` of each worker; `data` is the job's decoded data. */
  function Requests(kind: WorkerKind, data: Entries): (r: Entries)
    ensures r != [] && IsListKeys(r)
    ensures forall i :: 0 <= i < |r| ==> r[i].1.VArr? && |r[i].1.entries| == 1
  {
    match kind
    case CustomerSync => CustomerRequests()
    case InvoiceSync => InvoiceRequests(data)
    case ProductQuery => ProductRequests()
  }

  // ---------------------------------------------------------------------------
  // shouldRun

  /** `InvoiceSyncWorker::shouldRun` for the hour `date('G')` reads: outside 06:00-20:59 only. */
  predicate InvoiceShouldRun(hour: int)
  {
    hour >= 21 || hour < 6
  }

  /** `ProductQueryWorker::shouldRun`: `force` strictly `true` in truthy job data, or a weekend day (`date('N')` 6 or 7). */
  predicate ProductShouldRun(data: Entries, dayOfWeek: int)
  {
    (data != [] && IsSet(data, KStr("force")) && Get(data, KStr("force")) == Some(VBool(true))) || dayOfWeek >= 6
  }

  /** `shouldRun` of each worker; the customer worker always runs. */
  predicate ShouldRun(kind: WorkerKind, data: Entries, hour: int, dayOfWeek: int)
  {
    match kind
    case CustomerSync => true
    case InvoiceSync => InvoiceShouldRun(hour)
    case ProductQuery => ProductShouldRun(data, dayOfWeek)
  }

  /** The run rules: customers always; invoices at night; products when forced or at the weekend. */
  lemma ShouldRunRules(data: Entries, hour: int, dayOfWeek: int)
    ensures ShouldRun(CustomerSync, data, hour, dayOfWeek)
    ensures 6 <= hour < 21 ==> !ShouldRun(InvoiceSync, data, hour, dayOfWeek)
    ensures 0 <= hour < 6 || 21 <= hour < 24 ==> ShouldRun(InvoiceSync, data, hour, dayOfWeek)
    ensures Get(data, KStr("force")) == Some(VBool(true)) ==> ShouldRun(ProductQuery, data, hour, dayOfWeek)
    ensures Get(data, KStr("force")) != Some(VBool(true)) ==> (ShouldRun(ProductQuery, data, hour, dayOfWeek) <==> dayOfWeek >= 6)
  {
  }

  // ---------------------------------------------------------------------------
  // Responses

  /** The values of an array in order, as `foreach` visits them. */
  function Values(es: Entries): (r: seq<Value>)
    ensures |r| == |es| && forall i :: 0 <= i < |es| ==> r[i] == es[i].1
  {
    if es == [] then [] else [es[0].1] + Values(es[1..])
  }

  /**
   * The records a handler loops over: `$response[$listKey] ?? []`, made a one-record list when
   * it is itself a record carrying `$idKey`; `foreach` over a non-array visits nothing.
   */
  function Records(response: Entries, listKey: string, idKey: string): seq<Value>
  {
    match Index(VArr(response), KStr(listKey))
    case Some(VArr(es)) => if IsSet(es, KStr(idKey)) then [VArr(es)] else Values(es)
    case _ => []
  }

  /** A single record carrying its identifier is treated as a one-record list; a list of records is visited in order. */
  lemma RecordsNormalised(response: Entries, listKey: string, idKey: string)
    ensures var v := Index(VArr(response), KStr(listKey));
      && (v.Some? && v.value.VArr? && IsSet(v.value.entries, KStr(idKey)) ==> Records(response, listKey, idKey) == [v.value])
      && (v.Some? && v.value.VArr? && !IsSet(v.value.entries, KStr(idKey)) ==>
            Records(response, listKey, idKey) == Values(v.value.entries))
      && (v.None? || !v.value.VArr? ==> Records(response, listKey, idKey) == [])
  {
  }

  /** `$response['xml_attributes']['iteratorRemainingCount'] ?? '0'` is exactly the string "0". */
  predicate BatchComplete(response: Entries)
  {
    Dig(VArr(response), [KStr("xml_attributes"), KStr("iteratorRemainingCount")]).GetOr(VStr("0")) == VStr("0")
  }

  /** Completion: no remaining count, or a remaining count of exactly "0" (an integer 0 or "00" is not complete). */
  lemma BatchCompleteCases(response: Entries)
    ensures Dig(VArr(response), [KStr("xml_attributes"), KStr("iteratorRemainingCount")]).None? ==> BatchComplete(response)
    ensures Dig(VArr(response), [KStr("xml_attributes"), KStr("iteratorRemainingCount")]) == Some(VStr("00")) ==> !BatchComplete(response)
    ensures Dig(VArr(response), [KStr("xml_attributes"), KStr("iteratorRemainingCount")]) == Some(VInt(0)) ==> !BatchComplete(response)
  {
  }

  /** `!$qbCustomer['ListID']` fails: the record has a truthy ListID. */
  predicate HasListId(record: Value)
  {
    !Empty(Index(record, KStr("ListID")).GetOr(VNull))
  }

  /** How many of the records `syncCustomer` accepts. */
  function Synced(records: seq<Value>): (n: nat)
    ensures n <= |records|
  {
    if records == [] then 0
    else Synced(records[..|records| - 1]) + (if HasListId(records[|records| - 1]) then 1 else 0)
  }

  predicate AllArrays(records: seq<Value>)
  {
    forall i :: 0 <= i < |records| ==> records[i].VArr?
  }

  /**
   * `CustomerSyncWorker::handleResponse`: each record is synced once; one without a truthy
   * ListID throws and is counted as an error; a record that is not an array is a `TypeError`
   * at the typed parameter of `syncCustomer`, which no `catch (\Exception)` stops.
   */
  function CustomerHandling(response: Entries): Handling
  {
    var records := Records(response, "CustomerRet", "ListID");
    if AllArrays(records) then Completed(Synced(records), |records| - Synced(records))
    else Stopped(ArgumentType)
  }

  /** Every record is either synced or counted as an error, whenever the batch completes. */
  lemma CustomerCountsAddUp(response: Entries)
    requires CustomerHandling(response).Completed?
    ensures CustomerHandling(response).processed + CustomerHandling(response).failed
         == |Records(response, "CustomerRet", "ListID")|
  {
  }

  /** The loop of `CustomerSyncWorker::handleResponse` with its two counters. */
  method HandleCustomerResponse(response: Entries) returns (h: Handling)
    ensures h == CustomerHandling(response)
  {
    h := SyncCustomers(Records(response, "CustomerRet", "ListID"));
  }

  /** The `foreach` over the normalised customer records. */
  method SyncCustomers(customers: seq<Value>) returns (h: Handling)
    ensures h == if AllArrays(customers) then Completed(Synced(customers), |customers| - Synced(customers))
                 else Stopped(ArgumentType)
  {
    var syncedCount, errorCount := 0, 0;
    var i := 0;
    while i < |customers|
      invariant 0 <= i <= |customers|
      invariant AllArrays(customers[..i])
      invariant syncedCount == Synced(customers[..i])
      invariant syncedCount + errorCount == i
    {
      if !customers[i].VArr? {
        return Stopped(ArgumentType);
      }
      assert customers[..i + 1][..i] == customers[..i];
      if HasListId(customers[i]) {
        syncedCount := syncedCount + 1;
      } else {
        errorCount := errorCount + 1;
      }
      i := i + 1;
    }
    assert customers[..i] == customers;
    return Completed(syncedCount, errorCount);
  }

  /**
   * The line items `processInvoice` loops over, or none when `count()` of a non-array
   * value raises a `TypeError`.
   */
  function LineItems(record: Value): Option<seq<Value>>
  {
    match Index(record, KStr("InvoiceLineRet")).GetOr(VArr([]))
    case VArr(es) => Some(if IsSet(es, KStr("TxnLineID")) then [VArr(es)] else Values(es))
    case _ => None
  }

  /**
   * `processInvoice` returns normally: the record is an array, its line items are an array,
   * and when there are line items the TxnID is a string and each item an array (the typed
   * parameters of `processLineItem`). It has no `throw`; every failure is a `TypeError`.
   */
  predicate InvoiceProcessable(record: Value)
  {
    && record.VArr?
    && LineItems(record).Some?
    && (LineItems(record).value != [] ==>
          Index(record, KStr("TxnID")).GetOr(VNull).VStr? && AllArrays(LineItems(record).value))
  }

  predicate AllProcessable(records: seq<Value>)
  {
    forall i :: 0 <= i < |records| ==> InvoiceProcessable(records[i])
  }

  /** `InvoiceSyncWorker::handleResponse`: every invoice is processed once, or a `TypeError` stops the batch. */
  function InvoiceHandling(response: Entries): Handling
  {
    var records := Records(response, "InvoiceRet", "TxnID");
    if AllProcessable(records) then Completed(|records|, 0) else Stopped(ArgumentType)
  }

  /** A completed invoice batch processed every record and counted no error: the error counter cannot move. */
  lemma InvoiceNeverCountsErrors(response: Entries)
    ensures InvoiceHandling(response).Completed? ==>
      InvoiceHandling(response) == Completed(|Records(response, "InvoiceRet", "TxnID")|, 0)
  {
  }

  /** The loop of `InvoiceSyncWorker::handleResponse` with its two counters. */
  method HandleInvoiceResponse(response: Entries) returns (h: Handling)
    ensures h == InvoiceHandling(response)
  {
    h := ProcessInvoices(Records(response, "InvoiceRet", "TxnID"));
  }

  /** The `foreach` over the normalised invoice records. */
  method ProcessInvoices(invoices: seq<Value>) returns (h: Handling)
    ensures h == if AllProcessable(invoices) then Completed(|invoices|, 0) else Stopped(ArgumentType)
  {
    var processedCount, errorCount := 0, 0;
    var i := 0;
    while i < |invoices|
      invariant 0 <= i <= |invoices|
      invariant AllProcessable(invoices[..i])
      invariant processedCount == i && errorCount == 0
    {
      if !InvoiceProcessable(invoices[i]) {
        return Stopped(ArgumentType);
      }
      processedCount := processedCount + 1;
      i := i + 1;
    }
    assert invoices[..i] == invoices;
    return Completed(processedCount, errorCount);
  }

  datatype ItemKind = InventoryItems | ServiceItems | NonInventoryItems

  /** The first of `ItemInventoryRet`, `ItemServiceRet`, `ItemNonInventoryRet` that is set, with its value. */
  function ProductDispatch(response: Entries): (r: Option<(ItemKind, Value)>)
    ensures r.None? <==> !IsSet(response, KStr("ItemInventoryRet")) && !IsSet(response, KStr("ItemServiceRet"))
                          && !IsSet(response, KStr("ItemNonInventoryRet"))
    ensures r.Some? && r.value.0 == ServiceItems ==> !IsSet(response, KStr("ItemInventoryRet"))
    ensures r.Some? && r.value.0 == NonInventoryItems ==>
      !IsSet(response, KStr("ItemInventoryRet")) && !IsSet(response, KStr("ItemServiceRet"))
    ensures r.Some? ==> r.value.1 != VNull
  {
    if IsSet(response, KStr("ItemInventoryRet")) then Some((InventoryItems, Get(response, KStr("ItemInventoryRet")).value))
    else if IsSet(response, KStr("ItemServiceRet")) then Some((ServiceItems, Get(response, KStr("ItemServiceRet")).value))
    else if IsSet(response, KStr("ItemNonInventoryRet")) then Some((NonInventoryItems, Get(response, KStr("ItemNonInventoryRet")).value))
    else None
  }

  /** The items a `process*Items(array $items)` loops over; a non-array argument is a `TypeError`. */
  function Items(v: Value): Option<seq<Value>>
  {
    match v
    case VArr(es) => Some(if IsSet(es, KStr("ListID")) then [VArr(es)] else Values(es))
    case _ => None
  }

  /** `ProductQueryWorker::handleResponse`: with no item list present it only logs a warning. */
  function ProductHandling(response: Entries): Handling
  {
    match ProductDispatch(response)
    case None => Completed(0, 0)
    case Some((_, v)) =>
      (match Items(v)
       case None => Stopped(ArgumentType)
       case Some(items) => Completed(|items|, 0))
  }

  /** `$request['xml_attributes']['requestID'] ?? 'unknown'`, read from the top level of the request. */
  function RequestIdOf(request: Option<Entries>): Value
  {
    match request
    case None => VStr("unknown")
    case Some(es) => Dig(VArr(es), [KStr("xml_attributes"), KStr("requestID")]).GetOr(VStr("unknown"))
  }

  /**
   * The request IDs sit one level down, inside each query, so the product worker reads the
   * ID of its own requests as 'unknown'.
   */
  lemma ProductRequestIdUnknown(i: nat)
    requires i < |ProductRequests()|
    ensures RequestIdOf(Some(ProductRequests()[i].1.entries)) == VStr("unknown")
  {
  }

  /** `handleResponse($response, $session, $job, $request, $data)` of each worker. */
  function HandleResponse(kind: WorkerKind, response: Entries): Handling
  {
    match kind
    case CustomerSync => CustomerHandling(response)
    case InvoiceSync => InvoiceHandling(response)
    case ProductQuery => ProductHandling(response)
  }

  /** Dispatch to the worker's handler. */
  method Handle(kind: WorkerKind, response: Entries) returns (h: Handling)
    ensures h == HandleResponse(kind, response)
  {
    match kind {
      case CustomerSync => h := HandleCustomerResponse(response);
      case InvoiceSync => h := HandleInvoiceResponse(response);
      case ProductQuery => h := ProductHandling(response);
    }
  }
}
