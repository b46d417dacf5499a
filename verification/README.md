# Verification of the CouchDB driver's protocol cores

This project models the parts of the go-kivik CouchDB driver in which state, order and
failure have to fit together, and proves what those parts promise for every input, every
run and every interleaving:

* **Result iterators** (`iter.go`, `rows.go`, `changes.go`, `db.go`). A JSON text is split
  into lexemes (`Lexer`, `LexCut`, `Grammar`), the token machine of Go's `encoding/json` decoder runs
  over them (`Decoding`, `Stream`), and the iterators sit on top: `iter` in keyed, object
  and continuous mode (`IterSpec`, `Iter`, `Rows`) with its metadata (`Metadata`,
  `Sequences`), and `multiQueriesRows` with its shared decoder and its fallback
  (`MultiSpec`, `MultiRows`). `Members`, `Envelope`,
  `IterTheorems` and `MultiTheorems` prove which streams are drained to EOF, exactly, and
  what has been delivered by then; `IterErrors` and `MultiErrors` add which error every
  other stream leads to, and `MultiClosing` every sequence of calls of Next and Close.
* **The multipart document rewriter** (`db.go`): `Rewriter`, `RewriterTheorems` (complete
  documents), `Truncation` (documents that break off at any character, or are malformed) and
  `Multipart`, with sizes as decimal numerals (`Numerals`).
* **Two concurrent protocols** as transition systems over any number of threads
  (`Schedules`): the cancelable reader (`CancelableReader`) and the cookie login
  (`CookieAuth`).
* **Smaller cores**: document IDs in paths (`DocID`), the revision scan and the body it
  restores (`Revision`), replayed bodies (`Replay`), and the replication views
  (`Replication`).

Values of the JSON model follow RFC 8259, sections 2 to 7; percent-encoding follows
sections 2.1 and 2.3 of RFC 3986.

Code that changes state step by step is a class or a method with the same fields, loops and
branches, proved against a function on values; the theorems are about those functions.
`Iter.ReadRows`, `MultiRows.ReadQueries` and the `Rows.Read…` methods put the two together
from response text to rows.

## What turned out to differ from what the code says

* A keyed response that breaks off between a comma and the value of a member *behind* the
  rows is reported as a normal end (`IterTheorems.KeyedCutShort`). `KeyedExact` gives the
  complete list of streams that end in EOF.
* A multi-query response that breaks off in the metadata *before* the rows of any of its
  results, or right behind its first brace, is reported as a normal end too, because
  `begin` and `nextQuery` hand out the raw error (`MultiTheorems.MultiExact`,
  `MultiTheorems.CutResponseLooksComplete`). In the fallback the same holds for the
  metadata before the rows: besides what the plain iterator drains to EOF, exactly the
  responses that break off there end in EOF, without a row (`MultiTheorems.LegacyExact`,
  `MultiTheorems.CutFallbackLooksEmpty`).
* For responses with a `results` array, asking once more after that EOF tells the two apart: a
  complete response answers EOF again, one that was cut off answers an error
  (`MultiClosing.AgainExact`). In the fallback it does not: a response that was cut off behind
  its rows answers EOF again, and only one that was cut off before them answers an error
  (`MultiClosing.LegacyAgainExact`, `MultiClosing.CutFallbackAgain`).
* Next tests for exactly one Close. A second one, also the client's own after the iterator has
  closed itself at the end, makes Next go on without a decoder: it dereferences nil, or
  reports a gateway error if the iterator had never been used
  (`MultiClosing.EofAfterCloses`, `MultiClosing.AnswerAfterClose`,
  `MultiClosing.DrainedThenClosed`).
* An empty `results` array is an error, not an empty response (`EmptyResultsFail`).
* A `null` sequence ID is not skipped like other nulls: the getter then reports the text
  `null` (`Metadata.NullSequenceIsKept`).
* A Read that is under way while Close succeeds may return no bytes and no error
  (`CancelableReader.ReadUnderWayMayReturnNothing`). In any interleaving it does so exactly
  when the call that closed the reader was a Close and the wrapped Close gave no error
  (`CancelableReader.AbandonedReadReturns`).
* The rewriter accepts a document that breaks off behind a member, behind the comma after one,
  or anywhere behind its attachments, and a number that breaks off between two digits becomes
  another number (`Truncation.TruncationExact`, `Truncation.BreakOutcome`). Input without any
  lexeme becomes `<nil>` (`Truncation.BlankInput`).
* A document that breaks off behind a key or its colon makes the rewriter report a bare EOF,
  which the pipe takes for the end of the document: it is uploaded without an error
  (`Multipart.UploadedTruncated`, `Multipart.KeyOnlyIsUploaded`).
* A read failure, unlike the end of the input, is never swallowed by the rewriter or the pipe
  (`RewriterTheorems.FailureIsReported`, `Multipart.UploadedIsRead`).
* An attachment that is listed under two names is copied once: its second part is empty, or
  reading it again is an error (`Multipart.CopyParts`).
* The rewriter spoils documents whose keys need escaping, and no others
  (`RewriterTheorems.CopyExact`).
* The revision scan enters the first nested object or array and stops at its end, so a
  revision behind it is missed and one inside it is returned (`Revision.RevOfObject`,
  `Revision.RevExact`, `Revision.NestedObjectHidesRev`), although it is meant to search the
  body.
* A file attachment whose size is larger than what is left to read gets a stub length that
  differs from its part (`Multipart.MeasureKeepsContent`).

## Model

The main results come first, then what they rest on.

| member | source | states |
|---|---|---|
| IterTheorems.KeyedExact | iter.go:144-282 | for every stream: rows, metadata and EOF come out of it if and only if it is a response with these rows and this metadata, complete or cut off between a comma and the value of a later member |
| IterTheorems.ObjectExact | iter.go:233-239 | object mode reports EOF if and only if the stream begins with a complete object whose members are the rows |
| IterTheorems.ContinuousExact | iter.go:226-232 | a feed reports EOF if and only if it consists of complete values and ends without a read error; metadata is never touched |
| IterErrors.KeyedOutcome | iter.go:144-299 | for every stream whatsoever: the rows and the error that come out are those of the place where the stream goes wrong, be it ended, malformed or of the wrong type, before, among or behind the rows, and there always is such a place unless the response is complete |
| IterErrors.ObjectOutcome | iter.go:233-239 | the same in object mode |
| IterErrors.FeedOutcome | iter.go:226-232 | the same for a feed, whose errors are gateway errors |
| IterErrors.RowErrorRepeats | iter.go:156-166 | a row that cannot be decoded leaves the iterator open, and every later call reports the same error again, unless a comma stands before nothing |
| MultiTheorems.MultiExact | rows.go:217-304 | for every response with a results array: rows, marks and EOF come out of it if and only if it holds these results and is complete or cut off before the rows of the next one |
| MultiTheorems.LegacyExact | rows.go:231-270 | for every stream without a leading results member: rows and EOF come out of it if and only if the plain iterator drains it to EOF with these rows, or it breaks off in the metadata before the rows and there are none |
| MultiTheorems.LegacyRefinesPlain | rows.go:250-270 | on every such stream the fallback ends in the state, with the rows and with the end of a plain iterator whose body closes cleanly, and gives no end-of-query mark, except that errors before the rows are unwrapped |
| MultiClosing.AgainExact | rows.go:217-304 | outside the fallback, of the multi-query responses drained to EOF exactly the complete ones answer EOF to the next call, and the others an error |
| MultiClosing.LegacyAgainExact | rows.go:217-304 | in the fallback, a response drained to EOF answers EOF to the next call if and only if the reader closes cleanly and the plain iterator drains the response to EOF too, be it complete or cut off behind its rows |
| MultiClosing.EofAfterClosing | rows.go:217-238 | whatever calls of Next and Close came before, a closed iterator answers EOF from then on if and only if Close ran once, its own included, or it has fallen back |
| MultiClosing.EofAfterCloses | rows.go:306-309 | closing an open iterator n times makes every later call answer EOF if and only if n is one or it has fallen back |
| MultiClosing.CloseReports | rows.go:306-325 | whatever calls came before, the first Close reports the error that the reader ends with, else that of closing it, and every other Close none |
| MultiErrors.FaultAtResult | rows.go:281-304 | where the next result does not begin: all results before it, and the error of that place |
| MultiErrors.FaultInHead | rows.go:281-304 | where the members of a result go wrong before its rows: all results before it, and that error, not wrapped |
| RewriterTheorems.CopyExact | db.go:669-734 | the output parses to the same members with the first attachments value replaced if and only if every key written up to there is plain |
| Truncation.TruncationExact | db.go:669-734 | for every document that breaks off, which of the possible errors the copy reports, as an equivalence with the place where it breaks off |
| Truncation.BreakOutcome | db.go:685-731 | at each such place: the error, and where the output breaks off in the rewritten document |
| Truncation.MalformedDocument | db.go:685-731 | for every text that goes wrong or ends behind complete members before the attachments: the error of the first fault, and the members and perhaps a key written |
| Truncation.TrailingText | db.go:685-731 | what follows a complete object: numbers and names are dropped, and anything else but a string is an error |
| Multipart.CreateMultipart | db.go:484-521 | success means that the i-th part belongs to the i-th stub's file, with the stub's length except where a given size or a file's size differs or the content went out under an earlier name, and that the document is what the rewriter wrote, complete or up to a bare EOF; failure means an unreadable attachment or an error of the rewriter or of closing the input |
| Multipart.UploadedTruncated | db.go:614-630 | for every document cut at any character: it goes out without an error if and only if it does not break off inside a key or value before its attachments are complete, and it goes out as the rewritten document only if it was complete |
| CancelableReader.ReadReturns | iter.go:71-96 | in every interleaving: a Read that went through close returns the error of the call that closed the reader, none if and only if that was a Close and the wrapped Close gave none; any other fails only on a closed reader |
| CancelableReader.ReadDelivers | iter.go:76-96 | a Read that is not abandoned returns exactly the bytes that the wrapped Read gave, without an error if that gave none and through close if it did, whatever happens before and after |
| CancelableReader.CauseIsGenuine | iter.go:82-110 | the error that closes the reader is one that the wrapped reader gave to that very Read, or that it was abandoned |
| CancelableReader.GivesUpExactly | iter.go:82-88 | in every interleaving, a Read under way can be abandoned if and only if the caller's context is done or the reader is closed |
| CancelableReader.ClosedIsDone | iter.go:98-103 | a closed reader's context is done, in every interleaving |
| CancelableReader.AbandonedReadReturns | iter.go:82-88 | a Read that gives up because the context is done returns no bytes, and no error if and only if a clean Close closed the reader, whatever happens before and after |
| CancelableReader.ClosedOnce | iter.go:98-111 | in every interleaving the wrapped reader is closed at most once |
| CancelableReader.NoDeadlock | iter.go:57-119 | in every interleaving, with waiting writers keeping new readers out, a thread can move or waits for another one that holds or awaits the lock and can move |
| CancelableReader.CallsAreBounded | iter.go:71-119 | no call takes more than thirteen steps of its own |
| CookieAuth.AuthenticatesFirst | chttp/cookieauth.go:110-139 | a request without a cookie of its own, with the session cookie missing or about to expire, is not sent before its thread has taken the mutex and then found a cookie or had a login come back unfailed, in every interleaving |
| CookieAuth.LoginDecides | chttp/cookieauth.go:90-139 | a request whose login has failed ends without having been sent, and one whose login has not failed is sent |
| CookieAuth.ReplyDecides | chttp/cookieauth.go:94-107 | a request ends with the reply that it got, and one refused with 401 not before its thread has found the jar without the cookie or dropped that |
| CookieAuth.LoginsAreConserved | chttp/cookieauth.go:90-139 | logins that set the cookie minus cookies lost is one with a cookie in the jar and zero without, in every interleaving |
| CookieAuth.OneLogin | chttp/cookieauth.go:118-134 | at most one login request is under way, and its thread holds the mutex |
| CookieAuth.NoDeadlock | chttp/cookieauth.go:90-139 | every request can move or waits for a thread that can |
| Revision.RevExact | chttp/chttp.go:506-533 | the scan returns the document's revision, whatever it is, if and only if every member before it is a scalar other than the string `_rev` |
| Revision.RevSound | chttp/chttp.go:516-530 | on any input, a revision returned is the string behind a `_rev` string |
| DocID.DecodeDocID | chttp/encode.go:31-43 | percent-decoding gives back every ID |
| DocID.EncodeDocIDInjective | chttp/encode.go:31-43 | no two IDs share an encoding |
| Replication.LegacyView | replication.go:207-231 | after any run of updates: the first non-empty names, the last state and error, the last started and ended times |
| Replication.SchedulerView | scheduler.go:132-144 | after any run of updates: the identity of the first document that names a source, else of the last, and the last progress |
| Json.ScanExact | rows.go:55-64 | a lexeme stream is accepted as a value plus a rest exactly when it is that value's text followed by that rest |
| Json.BrokenOffIncomplete | rows.go:55-64 | a value that breaks off anywhere, inside a lexeme or between two, is incomplete and never malformed |
| Lexer.StrBodyOfMarshal | rows.go:254 | decoding a key that was marshalled again gives the key, whatever follows |
| Lexer.KindsOfPrint | db.go:710 | printing a value and lexing the text gives the value's lexemes |
| Grammar.StringGrammar | db.go:702 | a string is decoded if and only if it is written as section 7 of RFC 8259 has it, each character as itself, behind a backslash or by its number, and then to what that means |
| Grammar.NumberGrammar | rows.go:178-195 | a text is taken as a number if and only if it is made of the parts of section 6 of RFC 8259 |
| Grammar.StrCutExact | db.go:705-708 | a string counts as broken off if and only if more text can complete it |
| Grammar.LitCutExact | db.go:705-708 | and so does a name or number |
| LexCut.KindsOfPrefix | db.go:705-708 | a text cut at any character has the lexemes of the whole text up to there, the last one perhaps broken off |
| Stream.Decoder.Token | iter.go:286-299 | the token machine's step on the joined buffer and unread input, for every amount of read-ahead, losing no character, where a scalar that a failed read follows at once is not delivered |
| Stream.Decoder.Decode | rows.go:55-64 | one balanced value, the rest untouched, and the exact source text that was consumed |
| Metadata.StoreFits | rows.go:178-195 | a metadata member is accepted exactly when its value fits its field |
| Metadata.StoreAllFits | rows.go:178-195 | a run of metadata members is accepted exactly when each member fits |
| Metadata.StoreAllIsFinal | changes.go:79-90 | storing members in order leaves every field at its last non-null value, and the sequence fields at the last value of any kind |
| Metadata.ParseInt64Exact | rows.go:182-185 | exactly the decimal numerals of 64-bit integers are accepted, each with the value that the places of its digits give |
| Metadata.TrimTrims | seqid.go:23-27 | trimming takes away all quotes on either side and nothing else |
| Metadata.TrimmedIsUnique | chttp/chttp.go:460 | and there is only one way to do that |
| Metadata.NullSequenceIsKept | seqid.go:23-27 | counterexample: a null update_seq replaces an earlier one, and its text is null |
| Iter.Iter.ReadMeta | seqid.go:23-27 | the sequence ID becomes the source text of its value, as it stood in what was consumed, trimmed of its quotes, and no other member changes it |
| IterTheorems.ResponseIsObject | rows.go:76-82 | the responses considered are exactly JSON objects around the row array |
| IterTheorems.KeyedReads | iter.go:144-282 | a complete response gives all its rows in order, its final metadata, and is consumed up to its brace and no further |
| IterTheorems.KeyedCutShort | iter.go:254-257 | a response cut off behind its rows is drained to EOF as if it were complete |
| IterTheorems.ObjectReads | db.go:896-917 | object mode gives each key and value in order and consumes the object |
| IterTheorems.RevsDiffTokenIsText | db.go:898-911 | the type assertion on the key token cannot fail |
| IterTheorems.EofForever | iter.go:145-147 | after EOF every later call answers EOF and changes nothing |
| Iter.Iter.Next | iter.go:144-166 | one call is one step of the state machine, decoder and metadata included, for every read-ahead, and a new sequence ID is source text of what was left to read |
| Iter.Iter.Close | iter.go:275-282 | sets closed, closes the body at most once, and reports what the first closing of the cancelable reader stored, be it a failed read or the wrapped Close |
| Iter.ReadRows | rows_test.go:56-68 | calling Next until it fails is the run that the theorems speak of |
| Rows.ReadKeyedRows | rows.go:172-175 | from the text of a response: its rows, EOF or the error that closing stored, its final metadata, and as sequence ID a piece of the response that is source of the final value |
| Rows.ReadFeed | changes.go:63-71 | from the text of a feed: every change, then EOF |
| Rows.ReadRevsDiff | db.go:896-917 | from the text of a response: every id with its value, then EOF or the error that closing stored |
| MultiTheorems.MultiReads | rows.go:217-304 | a complete response of one or more results gives each result's rows and mark, numbered from zero, then EOF, and leaves the iterator closed once |
| MultiTheorems.QueriesAreObject | rows.go:240-279 | the responses considered are exactly JSON objects with a results array |
| MultiTheorems.QueryFollows | rows.go:231-236 | within one query the rows are the plain iterator's, and its EOF becomes the end-of-query mark |
| MultiTheorems.HeadErrorIsNoBracket | rows.go:290-299 | no error inside a result is mistaken for the end of the results |
| MultiTheorems.EmptyResultsFail | rows.go:271-278 | an empty results array is an error |
| MultiErrors.FaultAtOnce | rows.go:240-245 | a response that is no object: the error of its first lexeme, not wrapped |
| MultiErrors.FaultInKey | rows.go:246-249 | a response without a first key |
| MultiErrors.FaultInArray | rows.go:271-274 | a results member that is no array |
| MultiTheorems.CutResponseLooksComplete | rows.go:290-299 | counterexample: a response cut off in its second result ends like a response of one result |
| MultiTheorems.CutFallbackLooksEmpty | rows.go:240-270 | counterexample: a reply of one result set that breaks off behind its first key ends like an empty one |
| MultiTheorems.LegacyAfterEnd | rows.go:281-287 | the call after the fallback's EOF closes the reader and reports what that gave |
| MultiClosing.CutFallbackAgain | rows.go:281-287 | counterexample: a reply of one result set that is cut off behind its rows, and is no complete JSON value, answers EOF to the call behind its EOF |
| MultiClosing.DrainedStaysEof | rows.go:217-220 | an iterator that has closed itself at the end of a run answers EOF until Close is called |
| MultiClosing.AnswerAfterClose | rows.go:217-252 | what a call answers after any number of closes, in every state that calls lead to |
| MultiClosing.DrainedThenClosed | rows.go:306-312 | counterexample: a complete response drained to EOF and then closed answers a nil dereference to the next call |
| MultiClosing.UnusedThenClosed | rows.go:240-245 | counterexample: an iterator closed twice without having been used reports a gateway error |
| MultiRows.SpliceKinds | rows.go:254-264 | the spliced text reads as a brace, the same key, and what was left, wherever the buffer ended |
| MultiRows.MultiRows.Next | rows.go:217-238 | one call is one step of the state machine in every state, query index and metadata included |
| MultiRows.MultiRows.FallBack | rows.go:250-270 | continues on the whole input although part of it had been consumed and part buffered |
| MultiRows.MultiRows.Close | rows.go:306-325 | counts; the first call drains and closes, and the drain's error comes first |
| MultiRows.ReadMultiResponse | rows.go:217-304 | from the text of a response: all rows and marks of all queries, then EOF |
| Rewriter.CopyWithAttachmentStubs | db.go:669-734 | the streaming copy writes what the copy of the whole text is defined to be, for every read-ahead |
| RewriterTheorems.PlainKeyReads | db.go:702 | a key without quotes, backslashes and control characters is read back as itself |
| RewriterTheorems.UnplainKeyReads | db.go:702 | any other key is not, whatever is written behind it |
| RewriterTheorems.ReplacedAt | db.go:709-720 | exactly the first attachments member is replaced |
| Truncation.BeginsBreaks | db.go:685-731 | every way for an object's text to break off is one of the places that the theorems tell apart |
| Truncation.CutDocumentBegins | db.go:685-731 | and the text of a document cut at any character breaks off in such a place |
| Truncation.OnlyWholeIsWhole | db.go:669-734 | the output is the whole rewritten document if and only if the input was whole |
| Truncation.BlankInput | db.go:671-684 | counterexample: input without a lexeme is copied as text that is no JSON |
| Truncation.NotAnObject | db.go:671-684 | text that is no object is refused, and nothing is written |
| RewriterTheorems.FailureIsReported | db.go:687-734 | for every input, malformed or not, a reader that fails makes the copy fail, and not with EOF |
| Multipart.IncreasingIsUnique | db.go:496-502 | a set of names has one increasing order, so two ways of sorting agree |
| Multipart.IntTextIsNumeral | db.go:633-648 | a size is written as its decimal numeral without leading zeros |
| Multipart.IntTextReads | db.go:633-636 | and is read as that size if it is a 64-bit integer, and only then |
| Multipart.MeasureKeepsContent | db.go:541-576 | measuring loses no content, and the size is the byte count exactly when no other size was given and a file is read from its start |
| Multipart.ContentReports | db.go:505-518 | what each kind of content reports when it is read, and when it is read again behind its close |
| Multipart.AttachmentSize | db.go:541-557 | size and content afterwards; on error nothing changes except that a mere reader has been read |
| Multipart.AttachmentStubs | db.go:650-665 | a stub for every attachment with the size that it then has, or the error of one of them |
| Multipart.CopyParts | db.go:494-518 | one part for each name in increasing order, holding the attachment's bytes, or none if they went out under an earlier name; failure means an attachment that cannot be read, or not once more |
| Multipart.DocumentPart | db.go:614-630 | what comes out of the pipe, and that an EOF of the rewriter, of closing or of measuring is no error there |
| Multipart.NewMultipartAttachments | db.go:450-482 | the same, with the error of closing the input once more |
| Multipart.UploadedDocument | db.go:612-665 | the uploaded document is the original with its attachments replaced by stubs named in the order of the parts, each with the content type, the decimal numeral of the size, and that the content follows |
| Multipart.UploadedIsRead | db.go:614-630 | whatever goes out without an error was read to its EOF |
| Multipart.KeyOnlyIsUploaded | db.go:702-707 | counterexample: a document that ends behind its first key is uploaded as it is |
| CancelableReader.SettledForever | iter.go:98-111 | once closing is over, nothing changes closed, the stored error or the count |
| CancelableReader.LookersSeeSettled | iter.go:57-69 | nobody holding the read lock sees the reader half closed |
| CancelableReader.LateReadFails | iter.go:71-74 | a Read that starts when the reader is closed returns no bytes and an error, in every interleaving |
| CancelableReader.CloseReturns | iter.go:113-119 | every Close reports the error of the call that closed the reader, else what the wrapped Close gave, and never EOF |
| CancelableReader.ReadUnderWayMayReturnNothing | iter.go:82-88 | counterexample: a Read under way may return no bytes and no error |
| CookieAuth.NoSelfDeadlock | chttp/cookieauth.go:110-139 | the login request never asks for the mutex, nesting is one deep, and the mutex is released on every path |
| CookieAuth.FreshCookieSuffices | chttp/cookieauth.go:50-70 | with a cookie of its own, or a fresh session cookie, a request is sent at once and never holds the mutex |
| CookieAuth.EveryRequestDecides | chttp/cookieauth.go:90-117 | no request is sent without deciding whether it needs a login |
| CookieAuth.NobodySkipsTheReply | chttp/cookieauth.go:94-100 | a request at the transport, and a login from its beginning, is not over before a reply |
| CookieAuth.CookieChanges | chttp/cookieauth.go:99-106 | the cookie is lost only when it expires or to a thread that received a 401, and gained only by a login under the mutex |
| CookieAuth.RequestsAreBounded | chttp/cookieauth.go:90-139 | a request, its login included, takes at most fifteen steps of its own |
| DocID.EncodePartIsPercentEncode | chttp/encode.go:40-43 | query escaping with plus signs replaced is percent-encoding of exactly the bytes that are not unreserved |
| DocID.SlashOnlyInPrefix | chttp/encode.go:31-38 | a slash stands in the encoding exactly at the end of a kept prefix |
| DocID.EncodedByByte | chttp/encode.go:40-43 | behind the prefix each byte becomes itself if it is unreserved, else a percent sign and its two digits |
| DocID.KeptIsPrefix | chttp/encode.go:31-38 | what is kept of an ID is `_design/` or `_local/`, if it begins so |
| Revision.ReadRev | chttp/chttp.go:506-533 | the token loop computes the scan, for every read-ahead |
| Revision.ExtractRev | chttp/chttp.go:481-502 | whatever the scan found or consumed, the restored body reads exactly as the original did |
| Revision.ResponseError | chttp/errors.go:50-66 | an error status is an error that leaves the body used up and closed; any other status changes nothing |
| Revision.GetRev | chttp/chttp.go:449-473 | the error of the status, else the header's revision without its quotes if there is one, else the scan's with the body intact |
| Revision.RevOfObject | chttp/chttp.go:506-533 | what the scan finds in any object, by the object's structure |
| Revision.RevOfNoObject | chttp/chttp.go:506-515 | the error for every body that is no object |
| Revision.NestedObjectHidesRev | chttp/chttp.go:516-532 | counterexample: a nested object before the revision hides it |
| Replay.HttpRequestBody | chttp/trace.go:103-117 | message and clone get independent bodies that deliver what the original would have, error and close error included |
| Replay.HttpResponseBody | chttp/trace.go:79-91 | the same for responses |
| Replay.ReadsDeliver | chttp/trace.go:119-147 | for every sequence of buffer sizes the bytes arrive in order and complete |
| Replay.ReadsEnd | chttp/trace.go:137-143 | a read fills the buffer as far as the bytes go, and reports the replayed error, or EOF, exactly when everything has been delivered |
| Replication.Replication.SetFromReplicatorDoc | replication.go:207-231 | one document's effect on all fields of the view |
| Replication.Replication.UpdateMain | replication.go:188-195 | a document that cannot be fetched changes nothing |
| Replication.SchedulerReplication.SetFromDoc | scheduler.go:132-144 | one document's effect on identity and progress |
| Replication.FetchSchedulerReplication | scheduler.go:146-162 | against any finite run of answers: ready exactly when a source is known, giving up exactly on the first error other than the known bug |

## Left out

- Stream.Decoder.Decode: the decoder itself belongs to Go's standard library; its token machine is modelled from its documented behaviour, on lexemes. Two literals that touch without a space are one bad lexeme here, two values there.
- Lexer.StrBodyOfMarshal: UTF-8 and surrogate pairs in escapes are not modelled; each half of a pair decodes to the replacement character.
- Rows.ReadKeyedRows: if a response spells the same sequence ID in several ways, which of them the text comes from is stated for each member (by `Iter.Iter.ReadMeta`), not for the whole response.
- Iter.Iter.Close: whether a read has met the end of the body before closing is left open, so both reports that this allows are covered whenever nothing is left to read. The metadata object is a value held by the iterator, so its sharing between rows and iter is not modelled.
- Iter.Iter.ReadItem: a row is the value it was decoded from; typed decoding of rows, the fields that a reused row keeps, and the panic of a bulk result without docs are left out.
- MultiRows.MultiRows.FallBack: the spliced reader is one reader over the joined text instead of a lazy concatenation.
- MultiRows.MultiRows.Next: the text of its results' sequence IDs is stated for the iterators that it uses, not again for itself; a nil dereference is an answer of its own that changes nothing; a closed network reader goes on reporting its end instead of an error of its own.
- MultiRows.MultiRows.Close: the count of closes is unbounded; wrapping around after 2^32 calls is not modelled.
- CancelableReader.ClosedOnce: the critical sections are split into steps at each shared access that another thread could observe; the memory model below that is not.
- CookieAuth.LoginsAreConserved: only login replies set the session cookie, and the jar holds at most one; path and domain matching are left out, and whether every request carries the cookie is not claimed.
- Multipart.CreateMultipart: multipart boundaries, headers and temporary files, and errors of the writer are left out; what reading a closed attachment reports is a parameter of the attachment.
- Revision.ResponseError: the reason that is decoded into the error is left out.
- Replication.FetchSchedulerReplication: sleeping, the request path, and runs of answers that never end are left out.
- HTTP request building, URL parsing, compression and the endpoint wrappers: plumbing over libraries.
- The cached detection of the scheduler, and progress figures of replications.
- The kivik module with its state names and error types is not part of this model; the three state names are those that the tests use.
- Basic, JWT and proxy authentication.
