# QuickBooks Web Connector service, modelled in Dafny

This project models the core of a Magento module, plus a small TypeScript helper. The module
lets the QuickBooks Web Connector (QBWC) pull work from a shop over SOAP. It covers:

- **The SOAP engine** (`QbwcService`): `authenticate`, `sendRequestXML`, `receiveResponseXML`,
  `getLastError`, `closeConnection`, `connectionError`, `serverVersion` and `clientVersion`.
  It also covers the private steps behind them: choosing the next request, reading the status
  header of a response, processing a response, and moving on to the next job.
- **The stored entities.** A session is a row keyed by its ticket. It holds progress, the
  current job, the pending job names, an iterator id and the last status. A job is a row with
  a worker class, an enabled flag, and two JSON columns: per-session request cursors and
  per-session cached request lists. Both are read and written through PHP objects (`Session`,
  `Job`) whose setters update fields in place.
- **The qbXML codec** (`QbxmlParser`). It covers:
  - snake_case/PascalCase key conversion;
  - the array-to-element encoder with `xml_attributes` and list items as repeated siblings;
  - the element-to-array decoder, which folds repeated siblings into lists;
  - the request envelope and `createRequest`.

  The `Request` value object is modelled with it.
- **The three sample workers** (customers, invoices, products): the requests they build, when
  they run, and how they walk a response.
- **Configuration**: the settings with their defaults, the `(bool)` and `(int)` casts, the QWC
  file text, and the credential check. Also the file name of the QWC download.
- **The callback manager**, with its two handler lists.
- **Two helpers of the monitoring server** (`parseTimeRange` and `generateDiagnosis`).

PHP values are modelled as `Php.Value`. An array is an ordered list of key/value entries, and
`??`, `empty`, `isset`, `array_merge` and `$a[] = v` are written out. So are PHP 8's numeric
strings (whitespace, sign, decimal point, exponent), which decide loose `$s > 0` and `(int) $s`. PHP `Error`s
(a `TypeError` at a typed parameter, `[]` on a string) are not caught by `catch (\Exception)`.
They appear as crash or fatal outcomes. Exceptions that are caught appear as `Result.Failure`
or as an error string recorded on the session.

XML lexing and printing, the object manager, the password check, and a fresh ticket are not
visible to the model. They are parameters: `parse`, `render`, `create`, the authenticator and
`ticket`.

One SOAP call is one PHP request. So the service loads a fresh `Session` object from its row.
A job change is saved as soon as it is made. A session is saved only where the source calls
`save`.

## Model

| member | source | states |
|---|---|---|
| Service.FindJob | magento-module/Vendor/QuickbooksConnector/Model/JobRepository.php:152-165 | Finds the job by name: the first row carrying it, or none exactly when no row has the name. |
| Service.PendingJobNames | magento-module/Vendor/QuickbooksConnector/Model/ResourceModel/Job/Collection.php:122-128 | A name is pending for a company exactly when some enabled job of that company carries it. There are never more names than jobs. |
| Service.PendingIndices | magento-module/Vendor/QuickbooksConnector/Model/ResourceModel/Job/Collection.php:122-128 | The positions of the company's enabled jobs, strictly increasing: a row is among them exactly when it is an enabled job of that company. |
| Service.PendingJobNamesInOrder | magento-module/Vendor/QuickbooksConnector/Model/QbwcService.php:150-158 | The pending names are the names of those rows, one per row and in row order, so their count is the number of such rows. |
| Service.FirstPendingJob | magento-module/Vendor/QuickbooksConnector/Model/QbwcService.php:150-158 | The first pending name, which becomes the current job, is the name of the first enabled row of the company. |
| Service.MoveDecreases | magento-module/Vendor/QuickbooksConnector/Model/QbwcService.php:479-500 | Moving past the current job of an unfinished session strictly shrinks the work left, so the retry loop of `getNextRequest` ends. |
| Service.MoveKeepsConsistent | magento-module/Vendor/QuickbooksConnector/Model/QbwcService.php:479-500 | From a consistent session, moving on either finishes it at 100% with no current job, or drops exactly the head of the pending list. In the second case the current job is the new head, and progress has not gone down and stays below 100. |
| Service.NewSessionConsistent | magento-module/Vendor/QuickbooksConnector/Model/QbwcService.php:136-160 | A freshly authenticated session is at 0%. It is consistent, its current job is the first pending name, and it counts all its jobs as still to do. |
| Service.NextRequestStops | magento-module/Vendor/QuickbooksConnector/Model/QbwcService.php:314-321 | A complete session, or one stopped by an error under stop-on-error, gets no request. It is set to 100% and nothing else changes. |
| Service.NoRequestMeansDoneOrError | magento-module/Vendor/QuickbooksConnector/Model/QbwcService.php:312-369 | When no request is sent, the session is complete or carries a non-empty error message. |
| Service.NextRequestKeepsDefinitions | magento-module/Vendor/QuickbooksConnector/Model/QbwcService.php:312-369 | Choosing the next request keeps every job row and changes at most its cached requests and request cursors. |
| Service.NextRequestKeepsOwner | magento-module/Vendor/QuickbooksConnector/Model/QbwcService.php:312-369 | Choosing the next request never changes the ticket, user or company of the session. |
| Service.FirstRequestOfJob | magento-module/Vendor/QuickbooksConnector/Model/QbwcService.php:333-364 | On a job's first visit, its worker's requests are cached under the session key and the first one is sent. Afterwards the cursor reads 1. |
| Service.CachedRequestSent | magento-module/Vendor/QuickbooksConnector/Model/QbwcService.php:333-364 | With a cached list and the cursor inside it, the request under the cursor is sent and the cursor moves on by one. The session is unchanged. |
| Service.ExhaustedJobMovesOn | magento-module/Vendor/QuickbooksConnector/Model/QbwcService.php:347-353 | When the cursor has passed the cached list, the answer is the one for the session moved to its next job. |
| Service.HeaderWithoutAttributes | magento-module/Vendor/QuickbooksConnector/Model/QbwcService.php:426-440 | A response without top-level attributes clears the four status columns and sets nothing else. |
| Service.HeaderError | magento-module/Vendor/QuickbooksConnector/Model/QbwcService.php:441-469 | An "Error" status writes the error text with its code and severity, and drops the iterator id whatever the remaining count. |
| Service.HeaderWarn | magento-module/Vendor/QuickbooksConnector/Model/QbwcService.php:441-469 | A "Warn" status is recorded like an error. With records remaining, a string iterator id is kept; a non-string id is a fatal type error. |
| Service.HeaderInfoIgnored | magento-module/Vendor/QuickbooksConnector/Model/QbwcService.php:441-469 | Any other severity leaves the error, code and severity cleared. |
| Service.ReplyClearsTransportError | magento-module/Vendor/QuickbooksConnector/Model/QbwcService.php:380-469 | The header is read only at the top of the decoded reply. A well-formed reply without root attributes therefore clears the error columns, including an error reported by the Web Connector. |
| Service.MalformedReplyRecorded | magento-module/Vendor/QuickbooksConnector/Model/QbwcService.php:386-415 | A reply that does not parse leaves the parser's wrapped message as the session's error. |
| Service.ReturnedProgress | magento-module/Vendor/QuickbooksConnector/Model/QbwcService.php:234-241 | The answer of `receiveResponseXML` is -1 exactly for an errored session under stop-on-error, and otherwise the session's progress. |
| Service.TransportErrorStops | magento-module/Vendor/QuickbooksConnector/Model/QbwcService.php:211-246 | A reported error with an empty response answers -1 under stop-on-error. Under continue-on-error the answer is the unchanged progress. |
| Service.NumericVersionsAccepted | magento-module/Vendor/QuickbooksConnector/Model/QbwcService.php:104-116 | Among numeric versions, acceptance is reflexive, accepts any longer extension of the minimum, and is transitive and antisymmetric. |
| Service.UpgradeWarning | magento-module/Vendor/QuickbooksConnector/Model/QbwcService.php:109-115 | The upgrade answer is a non-empty warning starting with "W:". |
| Service.QbwcService.constructor | magento-module/Vendor/QuickbooksConnector/Model/QbwcService.php:71-85 | The service starts over the given stores, configuration and collaborators. |
| Service.QbwcService.ServerVersion | magento-module/Vendor/QuickbooksConnector/Model/QbwcService.php:92-97 | The configured server version, or "1.0.0" when it is unset or empty. |
| Service.QbwcService.ClientVersion | magento-module/Vendor/QuickbooksConnector/Model/QbwcService.php:104-116 | With no minimum configured, or a client at or above it, the answer is "". Otherwise it is a "W:" warning naming the supported version. |
| Service.QbwcService.Authenticate | magento-module/Vendor/QuickbooksConnector/Model/QbwcService.php:123-168 | Bad credentials give "nvu" and save nothing. A company without pending jobs gives "none" and saves nothing. Otherwise the ticket is answered with the company file and a fresh consistent session is stored under it. Jobs never change. |
| Service.QbwcService.MoveToNextJob | magento-module/Vendor/QuickbooksConnector/Model/QbwcService.php:479-500 | The in-memory session becomes the moved-on row. |
| Service.QbwcService.GetNextRequest | magento-module/Vendor/QuickbooksConnector/Model/QbwcService.php:312-369 | The chosen request, the session's new state and the saved jobs are exactly those of the request-choosing function, whose laws are the lemmas above. |
| Service.QbwcService.PrepareRequests | magento-module/Vendor/QuickbooksConnector/Model/QbwcService.php:333-346 | Gives the cached requests, or creates the worker's requests, caches them on the job and saves it. |
| Service.QbwcService.SendRequestXML | magento-module/Vendor/QuickbooksConnector/Model/QbwcService.php:175-204 | An unknown ticket gets no request. Otherwise the answer is the next request, the jobs are saved as chosen, and the stored sessions stay unchanged. |
| Service.QbwcService.ParseResponseHeader | magento-module/Vendor/QuickbooksConnector/Model/QbwcService.php:426-469 | The session becomes the header-parsed row, or a fault is returned when a typed setter refuses a value. |
| Service.QbwcService.ProcessResponse | magento-module/Vendor/QuickbooksConnector/Model/QbwcService.php:380-415 | The session becomes the processed row, or a fault escapes. |
| Service.QbwcService.ReceiveResponseXML | magento-module/Vendor/QuickbooksConnector/Model/QbwcService.php:211-246 | An unknown ticket answers -1. A fatal error leaves the stored sessions unchanged. Otherwise the processed session is saved under its ticket and the answer is its progress, or -1 to stop. |
| Service.QbwcService.CloseConnection | magento-module/Vendor/QuickbooksConnector/Model/QbwcService.php:253-266 | Always answers "OK", and the ticket's session is deleted. |
| Service.QbwcService.ConnectionError | magento-module/Vendor/QuickbooksConnector/Model/QbwcService.php:273-285 | Always answers "done", and the ticket's session is deleted. |
| Service.QbwcService.LastError | magento-module/Vendor/QuickbooksConnector/Model/QbwcService.php:292-301 | The stored session's error, or "" when there is none or the ticket is unknown. |
| Service.UnknownJobErrorIsLost | magento-module/Vendor/QuickbooksConnector/Model/QbwcService.php:175-204 | An error recorded while choosing a request (here a missing job) never reaches `getLastError`, because sending does not save the session. |
| Versions.SplitJoin | magento-module/Vendor/QuickbooksConnector/Model/QbwcService.php:109 | Splitting a version at '.' and joining it back gives the text unchanged. |
| Versions.Compare | magento-module/Vendor/QuickbooksConnector/Model/QbwcService.php:109 | The comparison answers -1, 0 or 1, and 0 exactly for equal part lists. |
| Versions.CompareFlips | magento-module/Vendor/QuickbooksConnector/Model/QbwcService.php:109 | Swapping the versions flips the sign of the comparison. |
| Versions.CompareTransitive | magento-module/Vendor/QuickbooksConnector/Model/QbwcService.php:109 | "Not older than" is transitive. |
| Versions.LongerIsNewer | magento-module/Vendor/QuickbooksConnector/Model/QbwcService.php:109 | A version extended by further parts is newer than itself. |
| Sessions.Progress | magento-module/Vendor/QuickbooksConnector/Model/Session.php:334-347 | The stored progress is 100 times the share of jobs done, rounded toward zero. |
| Sessions.ProgressBounds | magento-module/Vendor/QuickbooksConnector/Model/Session.php:334-347 | While no more jobs remain than at the start, progress lies between 0 and 100. |
| Sessions.ProgressFull | magento-module/Vendor/QuickbooksConnector/Model/Session.php:334-347 | Progress is 100 exactly when no job remains. |
| Sessions.ProgressMonotone | magento-module/Vendor/QuickbooksConnector/Model/Session.php:334-347 | Fewer remaining jobs never mean lower progress. |
| Sessions.ProgressExamples | magento-module/Vendor/QuickbooksConnector/Test/Unit/Model/SessionTest.php:126-179 | Two of four jobs left is 50, none of five left is 100, and two of three left is 33. |
| Sessions.PredicatesOnColumns | magento-module/Vendor/QuickbooksConnector/Model/Session.php:354-421 | Describes what the predicates mean for the columns. Null, "" and "0" are no error. Only an "Error" severity is a response error. Stopping needs exactly "stopOnError". Completion is progress of at least 100. The session key is user then company. |
| Sessions.Session.constructor | magento-module/Vendor/QuickbooksConnector/Model/Session.php:43-60 | The object holds the given row. |
| Sessions.Session.SetTicket | magento-module/Vendor/QuickbooksConnector/Model/Session.php:94-97 | Only the ticket changes. |
| Sessions.Session.SetUser | magento-module/Vendor/QuickbooksConnector/Model/Session.php:110-113 | Only the user changes. |
| Sessions.Session.SetCompany | magento-module/Vendor/QuickbooksConnector/Model/Session.php:126-129 | Only the company changes. |
| Sessions.Session.SetProgress | magento-module/Vendor/QuickbooksConnector/Model/Session.php:142-145 | Only the progress changes. |
| Sessions.Session.SetCurrentJob | magento-module/Vendor/QuickbooksConnector/Model/Session.php:158-161 | Only the current job changes. |
| Sessions.Session.SetPendingJobsArray | magento-module/Vendor/QuickbooksConnector/Model/Session.php:204-213 | Only the pending column changes, and it reads back as the list written. |
| Sessions.Session.SetIteratorId | magento-module/Vendor/QuickbooksConnector/Model/Session.php:226-229 | Only the iterator id changes. |
| Sessions.Session.SetError | magento-module/Vendor/QuickbooksConnector/Model/Session.php:242-245 | Only the error changes. |
| Sessions.Session.SetStatusCode | magento-module/Vendor/QuickbooksConnector/Model/Session.php:258-261 | Only the status code changes. |
| Sessions.Session.SetStatusSeverity | magento-module/Vendor/QuickbooksConnector/Model/Session.php:274-277 | Only the severity changes. |
| Sessions.Session.SetInitialJobCount | magento-module/Vendor/QuickbooksConnector/Model/Session.php:290-293 | Only the initial job count changes. |
| Sessions.Session.CalculateProgress | magento-module/Vendor/QuickbooksConnector/Model/Session.php:334-347 | With a positive initial count, progress becomes the truncated share of jobs no longer pending. With none, nothing changes. |
| Jobs.SessionKeyCollision | magento-module/Vendor/QuickbooksConnector/Model/Job.php:312-327 | The '_' join of user and company is not injective: ("a_b", "c") and ("a", "b_c") share a key. |
| Jobs.RequestIndexFor | magento-module/Vendor/QuickbooksConnector/Model/Job.php:312-327 | The cursor is the stored value when the decoded column holds the session key, and 0 otherwise. |
| Jobs.RequestsFor | magento-module/Vendor/QuickbooksConnector/Model/Job.php:360-387 | The request list comes from the session key, else the company key, else it is empty. |
| Jobs.GetWorker | magento-module/Vendor/QuickbooksConnector/Model/Job.php:288-302 | Without a worker class the exception names the job. A class that cannot be made gives an exception carrying the class and the cause. Otherwise the answer is the made worker. |
| Jobs.CursorWriteRead | magento-module/Vendor/QuickbooksConnector/Model/Job.php:312-350 | A written cursor reads back under the same session, unless the column does not decode. |
| Jobs.CursorWriteOthers | magento-module/Vendor/QuickbooksConnector/Model/Job.php:312-350 | Writing one session's cursor leaves every other key's cursor alone. |
| Jobs.CursorShared | magento-module/Vendor/QuickbooksConnector/Model/Job.php:312-350 | Sessions with colliding keys share one cursor. |
| Jobs.RequestsWriteRead | magento-module/Vendor/QuickbooksConnector/Model/Job.php:360-412 | A written request list reads back under the same session. |
| Jobs.RequestsWriteOthers | magento-module/Vendor/QuickbooksConnector/Model/Job.php:360-412 | Writing a list leaves alone every session whose own key and company key both differ from the one written. |
| Jobs.EmptyUserIsFallback | magento-module/Vendor/QuickbooksConnector/Model/Job.php:360-412 | A list written for the empty user is the company-wide fallback for users without their own. |
| Jobs.JobData | magento-module/Vendor/QuickbooksConnector/Model/Job.php:233-245 | The job data is the decoded column, or [] when the column is empty or does not decode. |
| Jobs.Job.constructor | magento-module/Vendor/QuickbooksConnector/Model/Job.php:50-69 | The object holds the given row. |
| Jobs.Job.SetRequestIndexForSession | magento-module/Vendor/QuickbooksConnector/Model/Job.php:336-350 | Only the cursor under this session key changes. |
| Jobs.Job.SetRequestsForSession | magento-module/Vendor/QuickbooksConnector/Model/Job.php:398-412 | Only the list under this session key changes. |
| Jobs.Job.AdvanceNextRequest | magento-module/Vendor/QuickbooksConnector/Model/Job.php:422-433 | The session's cursor becomes its old value (0 when absent) plus one. |
| Jobs.Job.Reset | magento-module/Vendor/QuickbooksConnector/Model/Job.php:442-451 | Every cursor reads 0 afterwards. Every cached list is gone unless the requests were given when the job was added. |
| Jobs.Job.Enable | magento-module/Vendor/QuickbooksConnector/Model/Job.php:460-463 | Only the flag changes, and the job is enabled. |
| Jobs.Job.Disable | magento-module/Vendor/QuickbooksConnector/Model/Job.php:472-475 | Only the flag changes, and the job is disabled. |
| Requests.NewRequest | magento-module/Vendor/QuickbooksConnector/Model/Request.php:40-59 | Input that is neither an array nor a string is refused with the fixed message. A string is kept verbatim. An array is built exactly when it encodes. |
| Requests.ToArray | magento-module/Vendor/QuickbooksConnector/Model/Request.php:78-95 | A request built from an array gives that array back. Only a request built from text can fail to decode. |
| Requests.ArrayInputRoundTrip | magento-module/Vendor/QuickbooksConnector/Model/Request.php:40-95 | An array input always builds, its array comes back unchanged, and its text is the printed envelope. |
| Requests.StringInputVerbatim | magento-module/Vendor/QuickbooksConnector/Model/Request.php:66-105 | For a string input, `getQbxml` and `__toString` both return the text unchanged. |
| Requests.StringInputToArray | magento-module/Vendor/QuickbooksConnector/Model/Request.php:78-95 | For text, `toArray` is the message-set part without its attributes when that part is an array, and the whole decoded tree when it is absent. |
| Requests.EnvelopeToArray | magento-module/Vendor/QuickbooksConnector/Model/Request.php:78-95 | The text of an envelope made by `arrayToQbxml` decodes back to the message set, minus its attributes. |
| QbxmlNames.UcWordsAt | magento-module/Vendor/QuickbooksConnector/Model/QbxmlParser.php:236-252 | `ucwords` upper-cases a character exactly at a word start and keeps every other character. |
| QbxmlNames.StripUnderscoresSpec | magento-module/Vendor/QuickbooksConnector/Model/QbxmlParser.php:236-252 | Removing underscores leaves no '_', and a text without '_' is unchanged. |
| QbxmlNames.SplitCamel | magento-module/Vendor/QuickbooksConnector/Model/QbxmlParser.php:260-276 | Splitting at lower-to-upper steps only inserts characters, so the result is never shorter than the input. |
| QbxmlNames.PascalSpecialNames | magento-module/Vendor/QuickbooksConnector/Model/QbxmlParser.php:236-252 | The three fixed names are recognised in any case. |
| QbxmlNames.ListIdPascal | magento-module/Vendor/QuickbooksConnector/Model/QbxmlParser.php:236-252 | The key `list_id` becomes `ListId`, not the `ListID` QuickBooks uses. |
| QbxmlNames.ListIdSnake | magento-module/Vendor/QuickbooksConnector/Model/QbxmlParser.php:260-276 | The element `ListID` becomes `list_id`, so it does not survive a round trip. |
| QbxmlNames.SnakeNameLower | magento-module/Vendor/QuickbooksConnector/Model/QbxmlParser.php:236-276 | A well-formed snake_case key is already lower-case. |
| QbxmlNames.GenericRoundTrip | magento-module/Vendor/QuickbooksConnector/Model/QbxmlParser.php:236-276 | Outside the fixed names, snake_case of the PascalCase of a well-formed key is the key. |
| QbxmlNames.SnakePascalRoundTrip | magento-module/Vendor/QuickbooksConnector/Model/QbxmlParser.php:236-276 | `toSnakeCase(toPascalCase(k))` is `k` for every well-formed key. |
| QbxmlNames.SpecialRoundTrip | magento-module/Vendor/QuickbooksConnector/Model/QbxmlParser.php:236-276 | Each fixed key maps to its element name and back. |
| QbxmlNames.PascalInjective | magento-module/Vendor/QuickbooksConnector/Model/QbxmlParser.php:236-252 | Distinct well-formed keys get distinct element names. |
| QbxmlParser.AddChild | magento-module/Vendor/QuickbooksConnector/Model/QbxmlParser.php:139-174 | Adding a child appends exactly that child and changes nothing else of the element. |
| QbxmlParser.UnescapeEscape | magento-module/Vendor/QuickbooksConnector/Model/QbxmlParser.php:169-172 | The text escaped before `addChild` is stored as it was given. |
| QbxmlParser.EscapeIsCharData | magento-module/Vendor/QuickbooksConnector/Model/QbxmlParser.php:169-172 | Escaped text holds no '<' or '>', and every '&' in it starts an entity reference. |
| QbxmlParser.AddAttributes | magento-module/Vendor/QuickbooksConnector/Model/QbxmlParser.php:143-148 | The attribute loop touches only the element's attributes. |
| QbxmlParser.EncodeItems | magento-module/Vendor/QuickbooksConnector/Model/QbxmlParser.php:155-163 | The list-item loop touches only the element's children. |
| QbxmlParser.ArrayToXml | magento-module/Vendor/QuickbooksConnector/Model/QbxmlParser.php:139-174 | The in-place loops build exactly the encoding function's element, or its fault. |
| QbxmlParser.AttributeEntries | magento-module/Vendor/QuickbooksConnector/Model/QbxmlParser.php:186-194 | An element with attributes yields at least one attribute entry, and never more entries than attributes. |
| QbxmlParser.DecodeElement | magento-module/Vendor/QuickbooksConnector/Model/QbxmlParser.php:182-228 | A successful decoding is a non-empty array. |
| QbxmlParser.XmlToArray | magento-module/Vendor/QuickbooksConnector/Model/QbxmlParser.php:182-228 | The in-place loops build exactly the decoding function's array, or its fault. |
| QbxmlParser.ReadAttributes | magento-module/Vendor/QuickbooksConnector/Model/QbxmlParser.php:186-194 | The attribute loop gives exactly the attribute entries. |
| QbxmlParser.StoreChild | magento-module/Vendor/QuickbooksConnector/Model/QbxmlParser.php:211-220 | Storing a child in place gives exactly the collecting function's result. |
| QbxmlParser.QbxmlToArray | magento-module/Vendor/QuickbooksConnector/Model/QbxmlParser.php:80-98 | A successful decoding is never empty. |
| QbxmlParser.ValidateMatchesDecode | magento-module/Vendor/QuickbooksConnector/Model/QbxmlParser.php:80-98 | Validation fails exactly when decoding raises the wrapped parse exception, and that message is fixed. |
| QbxmlParser.CreateRequest | magento-module/Vendor/QuickbooksConnector/Model/QbxmlParser.php:303-312 | One entry keyed by the request type. Its body is the data unchanged when there are no attributes; otherwise the attributes sit under `xml_attributes` and every other key keeps its value. |
| QbxmlLaws.WrapKeepsWrapped | magento-module/Vendor/QuickbooksConnector/Model/QbxmlParser.php:108-130 | A request already under `qbxml` is not wrapped again. |
| QbxmlLaws.WrapMessageSet | magento-module/Vendor/QuickbooksConnector/Model/QbxmlParser.php:108-130 | A request carrying its message set is wrapped once, in `qbxml`. |
| QbxmlLaws.WrapBareRequest | magento-module/Vendor/QuickbooksConnector/Model/QbxmlParser.php:108-130 | A bare request goes under `qbxml` and `qbxml_msgs_rq`, and the error policy comes first. The request's own attributes win, and every other string key keeps its value. |
| QbxmlLaws.NestedEnvelope | magento-module/Vendor/QuickbooksConnector/Model/QbxmlParser.php:53-70 | Encoding a request that is not already wrapped gives a `QBXML` root holding one element, itself named `QBXML`. |
| QbxmlLaws.EncodeAttributesOnly | magento-module/Vendor/QuickbooksConnector/Model/QbxmlParser.php:143-148 | An `xml_attributes` entry adds no child. |
| QbxmlLaws.AttributesAppended | magento-module/Vendor/QuickbooksConnector/Model/QbxmlParser.php:143-148 | Distinct, non-empty, new attribute names are appended in order, each with its value's string form. |
| QbxmlLaws.NumericArraySiblings | magento-module/Vendor/QuickbooksConnector/Model/QbxmlParser.php:155-163 | A non-empty list becomes one sibling per item, in order, each named after the key, and nothing else of the element changes. |
| QbxmlLaws.AssocArrayOneChild | magento-module/Vendor/QuickbooksConnector/Model/QbxmlParser.php:164-168 | Any other array, the empty one included, becomes exactly one nested element. |
| QbxmlLaws.ScalarChildText | magento-module/Vendor/QuickbooksConnector/Model/QbxmlParser.php:169-172 | A scalar becomes one text element whose stored text is the scalar's string form. |
| QbxmlLaws.IntegerKeyFails | magento-module/Vendor/QuickbooksConnector/Model/QbxmlParser.php:139-174 | An integer key outside `xml_attributes` is a `TypeError`. |
| QbxmlLaws.AttributeEntriesDistinct | magento-module/Vendor/QuickbooksConnector/Model/QbxmlParser.php:186-194 | Attributes with distinct names become one string entry each, in document order. |
| QbxmlLaws.DecodeChildLeaf | magento-module/Vendor/QuickbooksConnector/Model/QbxmlParser.php:197-208 | A leaf child decodes to its text. With attributes, the text is lost and only `xml_attributes` remains. |
| QbxmlLaws.RootNameIgnored | magento-module/Vendor/QuickbooksConnector/Model/QbxmlParser.php:182-228 | An element's own name plays no part in its decoding. |
| QbxmlLaws.DecodedKeysAreStrings | magento-module/Vendor/QuickbooksConnector/Model/QbxmlParser.php:182-228 | A decoded element has only string keys, so it is never taken for a list. |
| QbxmlLaws.DecodeAttributesFirst | magento-module/Vendor/QuickbooksConnector/Model/QbxmlParser.php:182-228 | An element's attributes come first, under `xml_attributes`, unless a child converts to that key. |
| QbxmlLaws.DecodeNoAttributes | magento-module/Vendor/QuickbooksConnector/Model/QbxmlParser.php:182-228 | Without attributes there is no `xml_attributes` entry, unless a child converts to it. |
| QbxmlLaws.RepeatedStructuredSiblings | magento-module/Vendor/QuickbooksConnector/Model/QbxmlParser.php:211-220 | Two or more structured siblings with one name become one list under the converted name, in document order. |
| QbxmlLaws.SingleChildUnwrapped | magento-module/Vendor/QuickbooksConnector/Model/QbxmlParser.php:211-220 | A single child stays unwrapped. |
| QbxmlLaws.RepeatedTextSiblingsFail | magento-module/Vendor/QuickbooksConnector/Model/QbxmlParser.php:211-220 | Two same-named text children, the first non-empty, end in an `Error`, because the first text is never wrapped in a list. |
| QbxmlLaws.RepeatedTextSiblingsCrash | magento-module/Vendor/QuickbooksConnector/Model/QbxmlParser.php:80-98 | At the top level that `Error` escapes `qbxmlToArray`. |
| Workers.BuildInvoiceRequests | magento-module/Sample/QuickbooksDemo/Model/Worker/InvoiceSyncWorker.php:67-106 | The nested assignments build exactly the invoice query of the specification function. |
| Workers.InvoiceDateFilter | magento-module/Sample/QuickbooksDemo/Model/Worker/InvoiceSyncWorker.php:67-106 | A date filter is present exactly when `date_from` is truthy, and carries `ToTxnDate` only when `date_to` is truthy too. |
| Workers.InvoiceRequestShape | magento-module/Sample/QuickbooksDemo/Model/Worker/InvoiceSyncWorker.php:67-106 | The invoice query holds its attributes, then the body for the job data's dates. |
| Workers.Requests | magento-module/Sample/QuickbooksDemo/Model/Worker/CustomerSyncWorker.php:83-100 | Every worker returns a non-empty list keyed 0..n-1, each entry holding a single query. |
| Workers.ShouldRunRules | magento-module/Sample/QuickbooksDemo/Model/Worker/ProductQueryWorker.php:276-296 | Customers always run. Invoices run exactly outside 06:00-20:59. Products run when forced with strictly `true`, and otherwise exactly at the weekend. |
| Workers.RecordsNormalised | magento-module/Sample/QuickbooksDemo/Model/Worker/CustomerSyncWorker.php:118-177 | A single record carrying its identifier is handled as a one-record list, and a list is visited in order. |
| Workers.BatchCompleteCases | magento-module/Sample/QuickbooksDemo/Model/Worker/CustomerSyncWorker.php:118-177 | No remaining count means the batch is complete. "00" or an integer 0 does not. |
| Workers.CustomerCountsAddUp | magento-module/Sample/QuickbooksDemo/Model/Worker/CustomerSyncWorker.php:118-222 | In a completed batch, every record is counted exactly once, as synced or as an error. |
| Workers.HandleCustomerResponse | magento-module/Sample/QuickbooksDemo/Model/Worker/CustomerSyncWorker.php:118-177 | The counting loop gives exactly the customer handling function's outcome. |
| Workers.InvoiceNeverCountsErrors | magento-module/Sample/QuickbooksDemo/Model/Worker/InvoiceSyncWorker.php:124-266 | A completed invoice batch processes every record and counts no error. |
| Workers.HandleInvoiceResponse | magento-module/Sample/QuickbooksDemo/Model/Worker/InvoiceSyncWorker.php:124-180 | The counting loop gives exactly the invoice handling function's outcome. |
| Workers.ProductDispatch | magento-module/Sample/QuickbooksDemo/Model/Worker/ProductQueryWorker.php:123-156 | The first set item list of inventory, service and non-inventory is chosen, in that priority, and none exactly when none is set. |
| Workers.ProductRequestIdUnknown | magento-module/Sample/QuickbooksDemo/Model/Worker/ProductQueryWorker.php:68-156 | The product worker reads the ID of each of its own requests as 'unknown'. |
| Workers.Handle | magento-module/Sample/QuickbooksDemo/Model/Worker/CustomerSyncWorker.php:118-177 | Dispatching gives exactly the handling function of the worker kind. |
| Configs.SettingOr | magento-module/Vendor/QuickbooksConnector/Model/Config.php:117-241 | A falsy setting gives the default, and any other gives the stored text. |
| Configs.DefaultsWhenUnset | magento-module/Vendor/QuickbooksConnector/Model/Config.php:117-241 | Every defaulting getter gives its fixed default when its setting is missing. |
| NumericStrings.Saturated | magento-module/Vendor/QuickbooksConnector/Model/Config.php:197 | A cast result always lies in the 64-bit range, and a value inside the range is kept. |
| NumericStrings.NumeralRoundTrip | magento-module/Vendor/QuickbooksConnector/Model/Config.php:197 | The scanner reads back any written numeral (sign, digits, point, fraction, exponent) after leading whitespace, and stops before text that cannot continue it. |
| NumericStrings.IntCastOfText | magento-module/Vendor/QuickbooksConnector/Model/Config.php:197 | `(int)` of a numeral truncates its value toward zero and saturates at the ends of the 64-bit range; a value too large for a double gives 0. |
| NumericStrings.IntCastOfIntToString | magento-module/Vendor/QuickbooksConnector/Model/Config.php:197 | `(int)` reads back any printed 64-bit integer, with whitespace before it and any non-numeric text after it. |
| NumericStrings.IntCastDropsFraction | magento-module/Vendor/QuickbooksConnector/Model/Config.php:197 | A decimal fraction is dropped toward zero, for either sign. |
| NumericStrings.IntCastScientific | magento-module/Vendor/QuickbooksConnector/Model/Config.php:197 | A number with an exponent is cast to its scaled value. |
| NumericStrings.IntCastThousandExample | magento-module/Vendor/QuickbooksConnector/Model/Config.php:197 | `(int) "1e3"` is 1000. |
| NumericStrings.IntCastTwentyFiveExample | magento-module/Vendor/QuickbooksConnector/Model/Config.php:197 | `(int) "2.5e1"` is 25. |
| NumericStrings.IntCastMinutesExample | magento-module/Vendor/QuickbooksConnector/Model/Config.php:197 | `(int) " 5 minutes"` is 5. |
| NumericStrings.IntCastFractionExample | magento-module/Vendor/QuickbooksConnector/Model/Config.php:197 | `(int) "1.9"` is 1. |
| NumericStrings.IntCastWordExample | magento-module/Vendor/QuickbooksConnector/Model/Config.php:197 | `(int) "abc"` is 0. |
| NumericStrings.NumericStringOfText | magento-module/Vendor/QuickbooksConnector/Model/QbwcService.php:465 | A numeral with whitespace on both sides is a numeric string, and its value is that numeral. |
| Php.GreaterThanZeroOfNumeral | magento-module/Vendor/QuickbooksConnector/Model/QbwcService.php:465 | A numeric string is greater than zero exactly when it is not negative and does not round to zero. |
| Php.GreaterThanZeroOfIntToString | magento-module/Vendor/QuickbooksConnector/Model/QbwcService.php:465 | A printed integer with whitespace around it is greater than zero exactly when the integer is. |
| Php.DecimalZeroExample | magento-module/Vendor/QuickbooksConnector/Model/QbwcService.php:465 | "0.0" is not greater than zero. |
| Php.ScaledZeroExample | magento-module/Vendor/QuickbooksConnector/Model/QbwcService.php:465 | "0e5" is not greater than zero. |
| Php.PaddedCountExample | magento-module/Vendor/QuickbooksConnector/Model/QbwcService.php:465 | " 5" and "5 " are greater than zero, and " 0" is not. |
| Php.WordComparisonExample | magento-module/Vendor/QuickbooksConnector/Model/QbwcService.php:465 | A non-numeric string such as "abc" is compared with "0" byte by byte and is greater; "" is not. |
| Configs.RunEveryNMinutes | magento-module/Vendor/QuickbooksConnector/Model/Config.php:190-198 | The interval is null exactly when the setting is falsy. |
| Configs.RunEveryNMinutesCases | magento-module/Vendor/QuickbooksConnector/Model/Config.php:190-198 | An unset, "" or "0" interval schedules nothing. A written non-zero 64-bit number comes back as itself, and "1e3" gives 1000. |
| Configs.QwcSchedulerAbsent | magento-module/Vendor/QuickbooksConnector/Model/Config.php:318-350 | The document's last line is just the closing tag exactly when there is no interval. |
| Configs.QwcSchedulerPresent | magento-module/Vendor/QuickbooksConnector/Model/Config.php:318-350 | With an interval, the document closes with a scheduler block carrying it. |
| Configs.Config.constructor | magento-module/Vendor/QuickbooksConnector/Model/Config.php:54-63 | The configuration starts with the given settings and no custom authenticator. |
| Configs.Config.SetAuthenticator | magento-module/Vendor/QuickbooksConnector/Model/Config.php:277-281 | Later authentications go to the given callback. |
| Configs.Config.Authenticate | magento-module/Vendor/QuickbooksConnector/Model/Config.php:292-308 | A custom authenticator decides alone. Otherwise both credentials must match the configured ones exactly, and the answer is the company file. |
| Configs.UnconfiguredCredentials | magento-module/Vendor/QuickbooksConnector/Model/Config.php:292-308 | With no credentials configured, only an empty name with an empty password is accepted. |
| QwcDownload.Sanitize | magento-module/Vendor/QuickbooksConnector/Controller/Qwc/Download.php:118-126 | One character per byte, each from `[A-Za-z0-9_-]`: a byte of the class is kept, any other becomes '_'. |
| QwcDownload.FilenameShape | magento-module/Vendor/QuickbooksConnector/Controller/Qwc/Download.php:118-126 | The name ends in ".qwc", and before it has one allowed character per byte of the app name. |
| QwcDownload.NonAsciiBecomesUnderscores | magento-module/Vendor/QuickbooksConnector/Controller/Qwc/Download.php:118-126 | A non-ASCII character turns into two to four underscores. |
| QwcDownload.AsciiSanitize | magento-module/Vendor/QuickbooksConnector/Controller/Qwc/Download.php:118-126 | An ASCII name keeps its allowed characters and turns each other character into one '_'. |
| QwcDownload.DefaultFilename | magento-module/Vendor/QuickbooksConnector/Controller/Qwc/Download.php:118-126 | Without a configured app name, the file is "Magento_QuickBooks_Connector.qwc". |
| Callbacks.Invoke | magento-module/Vendor/QuickbooksConnector/Model/CallbackManager.php:100-135 | The handlers called are a prefix of the list. It is the whole list unless an `Error` escaped, and then it ends at the handler that raised it. |
| Callbacks.InvokeStopsOnlyAtError | magento-module/Vendor/QuickbooksConnector/Model/CallbackManager.php:100-135 | Every handler called before the last one returned or threw an exception. |
| Callbacks.InvokeCallsAll | magento-module/Vendor/QuickbooksConnector/Model/CallbackManager.php:100-135 | When no handler raises an `Error`, every handler is called once, in order. |
| Callbacks.InvokeLogsEveryException | magento-module/Vendor/QuickbooksConnector/Model/CallbackManager.php:100-135 | The logged messages are exactly those of the called handlers that threw, in order. |
| Callbacks.InvokeAbortExtends | magento-module/Vendor/QuickbooksConnector/Model/CallbackManager.php:100-135 | Once an `Error` escapes, no later handler is called. |
| Callbacks.HasMatchesCount | magento-module/Vendor/QuickbooksConnector/Model/CallbackManager.php:191-224 | A `has*` predicate holds exactly when the matching count is positive, and an empty list calls nothing. |
| Callbacks.CallbackManager.constructor | magento-module/Vendor/QuickbooksConnector/Model/CallbackManager.php:44-52 | The manager starts with the two configured lists. |
| Callbacks.CallbackManager.RegisterSessionInitializer | magento-module/Vendor/QuickbooksConnector/Model/CallbackManager.php:65-70 | The initializer is appended and the other list is untouched. |
| Callbacks.CallbackManager.RegisterSessionCompleteHandler | magento-module/Vendor/QuickbooksConnector/Model/CallbackManager.php:83-88 | The handler is appended and the other list is untouched. |
| Callbacks.CallbackManager.InvokeEach | magento-module/Vendor/QuickbooksConnector/Model/CallbackManager.php:100-135 | The loop with a `try` around each call gives exactly the invocation function's effect. |
| Callbacks.CallbackManager.InvokeSessionInitializers | magento-module/Vendor/QuickbooksConnector/Model/CallbackManager.php:100-135 | Runs the initializer list. |
| Callbacks.CallbackManager.InvokeSessionComplete | magento-module/Vendor/QuickbooksConnector/Model/CallbackManager.php:149-184 | Runs the completion list. |
| Monitoring.ParseTimeRange | qbwc-mcp-server/src/index.ts:626-645 | Text of the pattern gives its number times the unit's hours; any other text gives 24. |
| Monitoring.ParseTimeRangeOfMatch | qbwc-mcp-server/src/index.ts:626-645 | A non-empty digit run followed by h, d, w or m gives the digits' value times 1, 24, 168 or 720 hours. |
| Monitoring.ParseTimeRangeUnits | qbwc-mcp-server/src/index.ts:626-645 | A decimal count followed by h, d, w or m reads back as the count times 1, 24, 168 or 720 hours. |
| Monitoring.ParseTimeRangeFallback | qbwc-mcp-server/src/index.ts:626-645 | Every text that is not a non-empty digit run followed by one unit letter gives 24 hours. |
| Monitoring.ParseTimeRangeSamples | qbwc-mcp-server/src/index.ts:626-645 | Samples of that fallback: "", "24", "1H", "1y", "h" and " 1h" each give 24. |
| Monitoring.Distinct | qbwc-mcp-server/src/index.ts:647-665 | Each value appears once, and exactly the values of the input appear. |
| Monitoring.DistinctKeepsFirstOccurrenceOrder | qbwc-mcp-server/src/index.ts:647-665 | The deduplicated values keep the order of their first occurrences. |
| Monitoring.DiagnosisPriority | qbwc-mcp-server/src/index.ts:647-665 | The diagnosis follows the priority 3100, 500, 3170, 3180, each recognised as text or number anywhere among the records. |
| Monitoring.KnownCodeSurvives | qbwc-mcp-server/src/index.ts:647-665 | A truthy code is among the distinct truthy codes exactly when some record carries it. |
| Monitoring.DiagnosisWithoutCodes | qbwc-mcp-server/src/index.ts:647-665 | No records means nothing found. Records whose codes are all falsy report zero codes. |
| Monitoring.DiagnosisCountsDistinct | qbwc-mcp-server/src/index.ts:647-665 | For any records without a known code, the summary lists the distinct truthy codes, and the count it reports is the number of different truthy values among the records. |
| Monitoring.DiagnosisOfRepeatedCode | qbwc-mcp-server/src/index.ts:647-665 | A sample: a repeated unknown code next to a record without one is reported as one code. |

## Left out

- Progress as a float: `calculateProgress` stores an `(int)` of a float quotient. The model uses exact integer arithmetic truncated toward zero, which can differ only where the float quotient is off by rounding.
- JSON (de)serialisation: the JSON columns are modelled as a value, empty or undecodable (`Columns.Stored`). The text and the serializer are not modelled.
- The repositories' storage: persistence, the ORM, instance caches and save failures. Sessions are a map by ticket and jobs a list of rows in id order, saved whole. A failing `save` is not modelled.
- `getPendingJobs`: the list of job names is taken as indexed from 0. If the framework's collection keys its items by entity id, `$jobNames[0] ?? null` would instead pick the job whose id is 0, usually none, and the first session would start without a current job. The collection class is not part of this model, so this reading is not settled here.
- Ticket generation (a hash of user, company and time) is a parameter of `Authenticate`.
- Callbacks.Invoke: a handler is identified by its class name, so two registered instances of one class, or one stateful handler called twice, behave alike in the model. No proved property depends on telling them apart.
- The random owner id of the QWC file and the configured authenticator callable are parameters.
- What a callback handler or a worker's product/customer/invoice processing does outside the loop (logging, writing shop data) is not modelled. Only returning, throwing and raising are.
- XML lexing and printing: parsing is a parameter giving a document tree or a failure, and `asXML` a rendering parameter. The element tree is what is sent.
- Service.QbwcService.ClientVersion: only numeric dotted versions are compared as `version_compare` does. For any other form, the comparison is a parameter.
- NumericStrings.IntCastOfText: a number that PHP reads as a double is cast here from its exact value, truncated. Where rounding to the nearest double moves the value across an integer, which needs more than about 15 significant digits (for instance just below 2^63), PHP's result can differ from the model's.
- Monitoring.ParseTimeRangeUnits: `parseInt` precision beyond 2^53 is not modelled. JavaScript values are limited to the forms error records carry.
- Logging throughout, the monitoring server's I/O and HTTP, the Magento admin controllers, console commands and UI data providers are not modelled.
- Clocks (`date('G')`, `date('N')`) enter the workers' run rules as parameters.
- Concurrent SOAP calls on one ticket are not modelled. Each call runs alone.
- Configs.QwcFileContent is stated by its definition, field by field. Only the scheduler block has lemmas.
- The request passed to a worker's `handleResponse` is checked only for its array type. Workers use it only for the product request id.
- Where the code and its documentation or tests differ, this model follows the code:
  - the invoice worker never counts an error;
  - the product worker's request id is always 'unknown';
  - the session callbacks are registered but never invoked by the service;
  - `list_id` becomes `ListId`;
  - the session is not saved after `sendRequestXML`;
  - status attributes are read only at the top level of a reply.
