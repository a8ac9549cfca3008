# A verified model of the HTTP server

This project models the parts of the server in which something has to be argued: the hand-written
HTTP text codec, the base64 codec, the free-list allocator, the worker pool, the accept thread with
its asynchronous handlers, and the pausable message consumer. `dafny verify dfyconfig.toml` checks
everything.

The sequential code is modelled in its own form, as methods over fields, arrays and loops, each
proved equal to a function of its inputs or of the old state; what the code is for is then proved
about those functions. The concurrent code is modelled as step systems, with a program counter for
every thread, the locks, the wait sets and the notifications; the critical sections are the same
functions that the methods are proved against, and the results hold for every interleaving.

| file | models |
|---|---|
| `Text.dfy`, `Decimal.dfy` | `find`, `substr`, `getline`, `operator>>`, `trim`, `to_string`, `stoi` |
| `HttpRequest.dfy` | the request parser: head, body, cookies, multipart form, header lookup |
| `MessageHead.dfy` | printed messages, and the two scans that look for the end of the head |
| `RequestRoundTrip.dfy` | printing requests and cookies, and parsing them |
| `HeaderWords.dfy` | the words that header values are searched for, and header lines and cookies in other forms |
| `MultipartRoundTrip.dfy`, `MultipartRequest.dfy` | printing forms, the boundary parameter of a form request, and parsing them |
| `MultipartMalformed.dfy` | forms with missing markers, where the unsigned arithmetic wraps around |
| `HttpResponse.dfy` | the response printer, and its output read by the request parser |
| `HttpProtocolHandler.dfy` | one connection: partial writes, the reply, the socket and its close |
| `HttpReplies.dfy` | the status lines, the default headers, and the replies that no route handler makes |
| `HttpService.dfy` | the accept thread, the handlers, the connection pool and the descriptors |
| `HttpServiceLoop.dfy` | the rounds of the accept loop, and how every run of the service comes to rest |
| `Base64.dfy` | encoder and decoder |
| `MemoryPool.dfy`, `MemoryPoolAccounts.dfy` | allocator, reallocation, free list, and the count of blocks |
| `ThreadPool.dfy` | the bounded worker pool |
| `ThreadPoolStall.dfy`, `ThreadPoolStranded.dfy` | the load at which its wake-ups get lost, and at which a call is left waiting |
| `ThreadPoolCalls.dfy` | what becomes of the calls of `enqueue` and `stop`, and how every run of the pool comes to rest |
| `MessageConsumer.dfy`, `MessageConsumerStop.dfy` | the pausable consumer, and when `stop` ends it |
| `MessageConsumerWake.dfy` | what `resume` and the notifications do, and how every run of the consumer comes to rest |
| `BlockingFifo.dfy` | the two blocking queues |
| `Counting.dfy` | counting the elements of a sequence |

Parameters stand for what the code cannot decide itself: the order in which an `unordered_map` is
iterated (a sequence that lists every key once), the answers of `write` and of the wait before it,
the decompressor, the route table with its handlers, and which thread moves next.

## What the code does not do

These are proved of the code as it is, each with the condition under which the expected behaviour
holds and with an input or a run for which it does not.

- A multipart form comes back when its boundary is given as it is and is more than dashes. A boundary
  of dashes makes the parse throw, because the closing delimiter then holds the stored delimiter. A
  boundary in quotes, or one followed by another parameter, is stored with them, so that no part is
  found and the form is lost without an exception (`FormRoundTrip`, `FormComesBackIff`,
  `QuotedFormIsLost`, `BoundaryWithMoreIsLost`; `DashBoundaryThrows`, `QuotedBoundaryLosesTheField`).
- A form value or a file is kept up to its first line end, so it survives exactly when it has none
  (`KeptIsAllIff`, `SecondLineIsLost`).
- A form field whose name ends in `filename=` is taken for a file, and only such a field is
  (`FieldIsReadAsFieldIff`, `FieldReadAsFile`); the form results cover those names too, and say where
  such a part goes.
- The bearer token of a printed request is never found, because stored header values begin with a
  space (`PrintedBearerTokenIsLost`, `BearerTokenIff`, `BearerTokenNotFound`).
- Content-Length, Cookie and Content-Type are looked up as they are written, while Connection is looked
  up without regard to case; a length in lower case loses the body (`RequestRoundTrip`,
  `LowerCaseLengthLosesTheBody`).
- The header loop ends the head at the first LF CR LF of the text, the search at the first
  CR LF CR LF; they agree exactly when the former, if there is one, stands behind a CR
  (`ScansAgreeIff`, `ScansDisagreeOnBareLineFeed`).
- The reply to a keep-alive request announces keep-alive, and the socket is closed after it all the
  same (`KeepAliveIsEchoed`, `ServeConnection`).
- The content type that a response is made with is never sent; only the headers set one by one, the
  CORS defaults and the length are (`HttpResponse.ToString`, `HeadersRoundTrip`,
  `ContentTypeIsNotSent`).
- Header lookup picks an arbitrary one of several headers that differ in case only
  (`LookupIsOrderFreeIffUnambiguous`, `LookupDependsOnTheOrder`).
- A client whose handler could not be launched stays in the pool, where the handler of a later client finds
  it; so when everything is at rest, as many connections are left open, with nobody to serve them, as
  launches have failed (`HttpServiceLoop.AtRestMeansServed`, `FailedLaunchStrandsTheClient`).
- Two delimiters of a form with fewer than two characters between them, a part without a blank line, a
  line without a name and a form type without a boundary are read with sizes that have wrapped around
  (`ShortGapTakesTheRest`, `ContentWithoutBlankLine`, `NameWithoutMarker`, `BoundaryWithoutParameter`).
- In the worker pool one call above the capacity of the queue can absorb every notification, and
  the pool stalls with 100 tasks queued; at or below the capacity this cannot happen
  (`ThreadPoolStall.WakeupsAreSafeIff`, `WakeupsCanBeLost`).
- Taking a task notifies nobody, so a call that waits on the full queue can be left waiting on an empty
  one; again this cannot happen at or below the capacity (`CallsAreSafeIff`, `CallCanBeStranded`). So a
  run that comes to rest, as every run does without new calls, has served all its calls exactly at or
  below the capacity (`ThreadPoolCalls.PoolComesToRest`, `ThreadPoolCalls.RestIsServiceIff`).
- A message pushed straight to the queue of a consumer can be missed
  (`MessageConsumer.WakeupsAreSafeIff`, `PublishedMessageCanBeMissed`). Otherwise a consumer at rest has
  ended, is paused, or has delivered everything (`MessageConsumerWake.RestIsServiceIff`).
- `stop` ends a consumer by itself exactly when it finds it about to read the flag, or neither paused
  nor waiting on an empty queue (`StopEndsIff`). Then it does end in every run without a pause: it
  takes at most nine more steps, does not fall asleep again, and never waits for anything but its mutex
  (`StopEndsInEveryRun`). An idle consumer needs a message, and a paused one a resume, however many
  messages come (`StopMissesIdleConsumer`, `StopMissesPausedConsumer`).
- Giving a block back twice turns the free list of the allocator into a cycle
  (`MemoryPool.MemoryPool.Deallocate`, `DoubleFreeBreaksThePool`, `SmallestDoubleFree`).

## Model

| member | source | states |
|---|---|---|
| Text.FindIsFirst | src/Protocol/HttpModels/HttpRequest.cpp:80-84 | `find` gives the first occurrence at or after the start, and `npos` exactly when there is none |
| Text.FindAfter | src/Protocol/HttpModels/HttpRequest.cpp:178-182 | what is found in a text followed by a pattern is that pattern, unless one ends earlier |
| Text.LineOf | src/Protocol/HttpModels/HttpRequest.cpp:34-39 | `getline` splits a text at the first delimiter and takes the whole text when there is none |
| Text.TrimUndoesPadding | src/Core/Utils/StringUtils.cpp:24-31 | `trim` undoes any padding with blanks |
| Text.TrimRemovesOnlyBlanks | src/Core/Utils/StringUtils.cpp:24-31 | of any text, `trim` takes away blanks at the two ends, all of them and nothing else |
| Text.WordEndsAt | src/Protocol/HttpModels/HttpRequest.cpp:29-31 | a word read with `>>` ends at one of the six white-space characters, and at nothing else |
| Decimal.StoIReadsToString | src/Protocol/HttpModels/HttpRequest.cpp:64-66 | `stoi` of a printed number behind a space is that number, and throws exactly from 2^31 on |
| Decimal.StoIReadsSigned | src/Protocol/HttpModels/HttpRequest.cpp:66 | with any white space and either sign before it, a number is read exactly when it lies between -2^31 and 2^31 - 1 |
| Decimal.StoIRefuses | src/Protocol/HttpModels/HttpRequest.cpp:66 | a text without a digit behind its white space and sign throws `invalid_argument` |
| HttpRequest.HttpRequest.ParseHttpRequest | src/Protocol/HttpModels/HttpRequest.cpp:23-168 | the whole new state and the exception of a parse; a length that is no int leaves every member as it was |
| HttpRequest.HttpRequest.CollectHeaders | src/Protocol/HttpModels/HttpRequest.cpp:33-41 | the getline loop builds the header map and stops at a lone carriage return or with the text |
| HttpRequest.HttpRequest.ExtractBody | src/Protocol/HttpModels/HttpRequest.cpp:63-121 | the body is what follows the blank line, only with a Content-Length, inflated when an encoding says so |
| HttpRequest.HttpRequest.ParseCookies | src/Protocol/HttpModels/HttpRequest.cpp:135-158 | the cookie loop builds the map of trimmed pairs |
| HttpRequest.HttpRequest.HandleMultipartFormData | src/Protocol/HttpModels/HttpRequest.cpp:170-223 | fields replace the old form, files join the old uploads, and the first bad part throws after the files before it are stored |
| HttpRequest.HttpRequest.CollectParts | src/Protocol/HttpModels/HttpRequest.cpp:176-186 | the boundary loop takes the text between boundaries less its last two characters, with the unsigned wrap-around |
| HttpRequest.HttpRequest.GetHeaderValue | src/Protocol/HttpModels/HttpRequest.cpp:246-260 | the value of the first header in iteration order whose name matches without regard to case |
| HttpRequest.HttpRequest.KeepAlive | src/Protocol/HttpModels/HttpRequest.cpp:241-244 | keep-alive is asked for by a trimmed Connection value |
| HttpRequest.SameNameIff | src/Protocol/HttpModels/HttpRequest.cpp:247-254 | names match when they have the same characters up to the case of the letters A to Z |
| HttpRequest.LookupIsOrderFreeIffUnambiguous | src/Protocol/HttpModels/HttpRequest.cpp:250-257 | the lookup is independent of the iteration order exactly when all matching headers agree |
| HttpRequest.LookupDependsOnTheOrder | src/Protocol/HttpModels/HttpRequest.cpp:250-257 | a header map with two answers, one for each iteration order |
| MessageHead.HeadEndIsLoneCr | src/Protocol/HttpModels/HttpRequest.cpp:34-41 | the header loop ends just past the first LF CR LF of the text, and with the text when there is none |
| MessageHead.ScansAgreeIff | src/Protocol/HttpModels/HttpRequest.cpp:34-84 | the header loop and the blank-line search end the head at the same place exactly when the first LF CR LF, if any, stands behind a CR; without one neither finds an end |
| MessageHead.ScansDisagreeOnBareLineFeed | src/Protocol/HttpModels/HttpRequest.cpp:34-84 | a text whose head the loop ends and the search does not find |
| MessageHead.ScansAgreeOnCrlfText | src/Protocol/HttpModels/HttpRequest.cpp:34-84 | they agree on every text whose line feeds all follow a carriage return |
| MessageHead.HeaderLoopReadsOnlyTheHead | src/Protocol/HttpModels/HttpRequest.cpp:33-41 | the header map does not depend on anything behind the blank line |
| MessageHead.StoredIsLastWins | src/Protocol/HttpModels/HttpRequest.cpp:40 | of several headers of one name the last one counts, with its leading space and trailing CR |
| MessageHead.ReadPrintedHeaders | src/Protocol/HttpModels/HttpRequest.cpp:33-41 | reading printed header lines gives their last-wins map and ends just behind them |
| MessageHead.PrintedMessage | src/Protocol/HttpModels/HttpRequest.cpp:25-84 | of any printed message the parser gets the start line, the last-wins headers and the body, and both scans agree |
| RequestRoundTrip.RequestRoundTrip | src/Protocol/HttpModels/HttpRequest.cpp:23-168 | a printed request comes back: method, path without query, headers, cookies, no token, and the body exactly with a Content-Length; unless it is a form, nothing is thrown and the form of the object is left alone; or `stoi` throws its exception and nothing changed |
| RequestRoundTrip.PathHasNoQuery | src/Protocol/HttpModels/HttpRequest.cpp:43-49 | the path ends before the first question mark |
| RequestRoundTrip.CookieRoundTrip | src/Protocol/HttpModels/HttpRequest.cpp:135-165 | a request with a cookie-string of section 4.2.1 of RFC 6265 is parsed to the last-wins map of its cookies, unless `stoi` refuses the length |
| RequestRoundTrip.CookiesAreLastWins | src/Protocol/HttpModels/HttpRequest.cpp:155 | the map holds the last cookie of each name and no other name |
| RequestRoundTrip.KeepAliveRoundTrip | src/Protocol/HttpModels/HttpRequest.cpp:241-260 | a printed Connection header in any case and padding is recognised exactly when it says keep-alive, for every iteration order |
| RequestRoundTrip.PrintedBearerTokenIsLost | src/Protocol/HttpModels/HttpRequest.cpp:124-133 | the header map of a printed request never yields a token, so none is stored by its parse, as the round trip states |
| RequestRoundTrip.BearerTokenIff | src/Protocol/HttpModels/HttpRequest.cpp:124-133 | a token is found exactly when the stored value is the scheme, one space and the token |
| RequestRoundTrip.BearerTokenNotFound | src/Protocol/HttpModels/HttpRequest.cpp:124-133 | a request with a bearer token that is not found |
| RequestRoundTrip.LowerCaseLengthLosesTheBody | src/Protocol/HttpModels/HttpRequest.cpp:63-85 | a request with a lower-case length, whose body is lost |
| HeaderWords.CompressedIff | src/Protocol/HttpModels/HttpRequest.cpp:70-77 | a printed request counts as compressed exactly when its last Content-Encoding names gzip or deflate |
| HeaderWords.BodyIsInflatedIff | src/Protocol/HttpModels/HttpRequest.cpp:63-121 | and exactly then its body is inflated |
| HeaderWords.MultipartIff | src/Protocol/HttpModels/HttpRequest.cpp:172 | it is a form exactly when its last Content-Type names multipart/form-data |
| HeaderWords.NothingWithoutItsHeader | src/Protocol/HttpModels/HttpRequest.cpp:63-175 | without a Content-Length there is no body, without a Cookie header there are no cookies, and without a Content-Type nothing is thrown and the form is left alone |
| HeaderWords.KeepAliveIff | src/Protocol/HttpModels/HttpRequest.cpp:241-260 | for every header map whose Connection headers agree, keep-alive is asked for exactly when there is one and its trimmed value says so |
| HeaderWords.HeaderLineSplits | src/Protocol/HttpModels/HttpRequest.cpp:36-40 | a header line is split at its first colon, and one without a colon is a name with an empty value |
| HeaderWords.CookieIsTrimmed | src/Protocol/HttpModels/HttpRequest.cpp:142-155 | spaces and tabs around the name and the value of a cookie are trimmed, and carriage returns behind the value |
| HeaderWords.PieceWithoutEqualsIsSkipped | src/Protocol/HttpModels/HttpRequest.cpp:140-143 | a piece of a cookie header without an equals sign is no cookie |
| MultipartRoundTrip.SplitJoined | src/Protocol/HttpModels/HttpRequest.cpp:176-186 | blocks between clean delimiters are split off one by one, each without its last two characters |
| MultipartRoundTrip.ReadPrintedPart | src/Protocol/HttpModels/HttpRequest.cpp:190-219 | a printed part gives back its name, its file name and its content up to the first line end; a name that ends in `filename=` makes it a file |
| MultipartRoundTrip.FieldIsReadAsFieldIff | src/Protocol/HttpModels/HttpRequest.cpp:204-218 | a printed field is read as a field exactly when its name does not end in `filename=` |
| MultipartRequest.FieldReadAsFile | src/Protocol/HttpModels/HttpRequest.cpp:204-218 | a field that arrives as a file |
| MultipartRoundTrip.KeptIsAllIff | src/Protocol/HttpModels/HttpRequest.cpp:192-197 | a content survives whole exactly when it holds no CR LF |
| MultipartRequest.SecondLineIsLost | src/Protocol/HttpModels/HttpRequest.cpp:192-197 | a content of two lines that is cut |
| MultipartRoundTrip.CloseIsCleanIff | src/Protocol/HttpModels/HttpRequest.cpp:174-178 | the closing delimiter is mistaken for a delimiter exactly when the boundary is all dashes |
| MultipartRoundTrip.DelimiterOnlyInContent | src/Protocol/HttpModels/HttpRequest.cpp:174-178 | the delimiter made of a boundary, in quotes or not, occurs in a printed part exactly when its content holds it or its type ends in it |
| MultipartRoundTrip.MapIsLastWins | src/Protocol/HttpModels/HttpRequest.cpp:207-218 | the maps hold the last part of each name, files under their file name |
| MultipartRoundTrip.MapKeepsOthers | src/Protocol/HttpModels/HttpRequest.cpp:207-218 | and nothing else, but for the uploads that were there before |
| MultipartRoundTrip.FormRoundTrip | src/Protocol/HttpModels/HttpRequest.cpp:170-223 | a printed form of section 4 of RFC 7578, under a Content-Type with parameter text t: with t the boundary, its last-wins field and file maps come back, or with an all-dash boundary it throws after storing the files; with any other t that the body does not hold, nothing is found and nothing thrown |
| MultipartRequest.StrayDelimiterIff | src/Protocol/HttpModels/HttpRequest.cpp:174-178 | exactly where a form can hold the delimiter of another parameter text |
| MultipartRequest.QuotedFormIsLost | src/Protocol/HttpModels/HttpRequest.cpp:174-221 | with its boundary in quotes (section 4.1 of RFC 7578) a form is lost without an exception |
| MultipartRequest.BoundaryWithMoreIsLost | src/Protocol/HttpModels/HttpRequest.cpp:174-221 | and so it is with a parameter behind the boundary |
| MultipartRequest.FormComesBackIff | src/Protocol/HttpModels/HttpRequest.cpp:170-223 | a form comes back, with its boundary as it is, exactly when that is more than dashes, and in quotes, exactly when there was nothing to bring |
| MultipartRequest.QuotedBoundaryLosesTheField | src/Protocol/HttpModels/HttpRequest.cpp:174-221 | a form of one field that is lost |
| MultipartRequest.DashBoundaryThrows | src/Protocol/HttpModels/HttpRequest.cpp:174-192 | a form of one field that throws and stores nothing |
| MultipartRequest.BoundaryOfPrinted | src/Protocol/HttpModels/HttpRequest.cpp:172-174 | the boundary of a printed Content-Type is stored with the carriage return of its line |
| MultipartRequest.FormRequestRoundTrip | src/Protocol/HttpModels/HttpRequest.cpp:23-223 | from request text, compressed or not, to form maps, for a boundary given as it is or in any other way: when parsing succeeds, and what fields and files are there after it |
| MultipartMalformed.ShortGapTakesTheRest | src/Protocol/HttpModels/HttpRequest.cpp:178-186 | between delimiters with fewer than two characters between them the count wraps around, and the part is all that follows |
| MultipartMalformed.ContentWithoutBlankLine | src/Protocol/HttpModels/HttpRequest.cpp:192-198 | a part without a blank line is all head, its content starts at its fourth character, and below three characters it throws |
| MultipartMalformed.NameWithoutMarker | src/Protocol/HttpModels/HttpRequest.cpp:200-218 | a line that names nothing is a field named by what stands from its sixth character to a quote, and below five characters it throws |
| MultipartMalformed.BoundaryWithoutParameter | src/Protocol/HttpModels/HttpRequest.cpp:174 | without a boundary parameter the delimiter is made of the type from its ninth character on |
| HttpResponse.HttpResponse.constructor | src/Protocol/HttpModels/HttpResponse.cpp:11-12 | a new response has the given status, type and body and no headers |
| HttpResponse.HttpResponse.AddHeader | src/Protocol/HttpModels/HttpResponse.cpp:59-62 | one header is set or replaced |
| HttpResponse.HttpResponse.SetHeaders | src/Protocol/HttpModels/HttpResponse.cpp:51-57 | adding a map header by header, in any order, merges it into the headers |
| HttpResponse.HttpResponse.ToString | src/Protocol/HttpModels/HttpResponse.cpp:64-82 | the CORS defaults replace own headers of those names, and the text is a message of section 2.1 of RFC 9112 |
| HttpResponse.AddAllMerges | src/Protocol/HttpModels/HttpResponse.cpp:53-56 | the order of insertion does not matter |
| HttpResponse.CodesDiffer | src/Protocol/HttpModels/HttpResponse.hpp:18-41 | the printed code tells the status |
| HttpReplies.StatusLine | src/Protocol/HttpModels/HttpResponse.cpp:73-133 | every response begins with the version and the code and phrase of section 15 of RFC 9110 for its status |
| HttpReplies.DefaultsArrive | src/Protocol/HttpModels/HttpResponseUtils.hpp:67-75 | the three CORS defaults arrive with their values, in place of own ones |
| HttpResponse.ResponseRoundTrip | src/Protocol/HttpModels/HttpResponse.cpp:64-82 | for every iteration order, the parser gets back status code, every header with the defaults, and the body; or `stoi` refuses the length and nothing changes |
| HttpResponse.LengthRoundTrip | src/Protocol/HttpModels/HttpResponse.cpp:75 | without a length of its own a response is readable exactly when its body is below 2^31 characters, and the length that arrives is that of the body |
| HttpResponse.HeadersRoundTrip | src/Protocol/HttpModels/HttpResponse.cpp:67-79 | exactly the handler's headers, the defaults and the length arrive, the defaults in place of own ones |
| HttpResponse.ContentTypeIsNotSent | src/Protocol/HttpModels/HttpResponse.cpp:64-82 | two responses that differ in their content type print the same text |
| HttpProtocolHandler.DeliveredIsPrefix | src/Protocol/HttpProtocolHandler.cpp:192-212 | whatever the kernel answers, the peer gets a prefix of the response |
| HttpProtocolHandler.DeliveredWholeIff | src/Protocol/HttpProtocolHandler.cpp:192-212 | it gets all of it exactly when enough turns in a row do not fail |
| HttpProtocolHandler.DeliveredUpToFailure | src/Protocol/HttpProtocolHandler.cpp:192-212 | up to the turn that fails, it gets as much as the turns before it took |
| HttpProtocolHandler.Socket.Close | src/Networking/Socket.cpp:87-92 | closing is idempotent: one `::close`, for an open descriptor only |
| HttpProtocolHandler.Socket.Destroy | src/Networking/Socket.cpp:41-43 | the destructor closes what is still open |
| HttpProtocolHandler.Socket.Write | src/Protocol/HttpProtocolHandler.cpp:206 | a write takes a prefix of what is offered, or fails |
| HttpProtocolHandler.SendResponse | src/Protocol/HttpProtocolHandler.cpp:171-221 | the partial-write loop puts exactly the delivered prefix on the wire and closes the socket in every case |
| HttpProtocolHandler.OrdersExist | src/Protocol/HttpModels/HttpResponse.cpp:76-79 | every hash map can be iterated in some order, so the results on replies speak of something |
| HttpProtocolHandler.MakeReply | src/Protocol/HttpProtocolHandler.cpp:38-76 | the text of the reply, or the exception: unreadable, unparsable, unrouted, thrown by the handler, or empty; and keep-alive is noted exactly for a request that parses |
| HttpProtocolHandler.HandleRequest | src/Protocol/HttpProtocolHandler.cpp:38-76 | the reply is sent and the socket closed, or an exception leaves the socket untouched |
| HttpProtocolHandler.ServeConnection | src/Services/HttpService.cpp:109-116 | the descriptor of a handled connection is closed exactly once, whichever way it ends |
| HttpProtocolHandler.KeepAliveIsEchoed | src/Protocol/HttpProtocolHandler.cpp:51-67 | from any request that parses to its parsed reply: the handler's status, headers and body arrive unless it set a length that `stoi` refuses, with keep-alive exactly when the request asked for it or the handler set it |
| HttpReplies.NoRouteIsNotFound | src/Protocol/HttpProtocolHandler.cpp:50-66 | a request that parses and has no route gets 404 Not Found, which is what the same parser reads off the reply, with keep-alive exactly when it was asked for |
| HttpReplies.NothingReadIsBadGateway | src/Protocol/HttpProtocolHandler.cpp:71-75 | a client that sends nothing gets the code 502 |
| HttpReplies.NoReplyIff | src/Protocol/HttpProtocolHandler.cpp:38-76 | nothing is sent exactly when the read failed, the parse threw, or the route handler threw |
| BlockingFifo.ConnectionPool.AddConnection | src/Networking/ConnectionPool.cpp:11-15 | a connection goes to the back of the pool, and one waiter is notified |
| BlockingFifo.ConnectionPool.GetConnection | src/Networking/ConnectionPool.cpp:17-27 | the oldest connection is taken, or the caller waits on an empty pool |
| BlockingFifo.MessageQueue.Push | src/Core/Common/MessageQueue/MessageQueue.hpp:17-22 | a message goes to the back of the queue, and one waiter is notified |
| BlockingFifo.MessageQueue.Pop | src/Core/Common/MessageQueue/MessageQueue.hpp:24-36 | the oldest message is taken, or the caller waits on an empty queue |
| BlockingFifo.MessageQueue.Empty | src/Core/Common/MessageQueue/MessageQueue.hpp:38-41 | whether a message is queued |
| HttpService.HttpService.ProcessNewConnection | src/Services/HttpService.cpp:97-123 | an accepted connection is pooled, with a notification, before its handler is launched, and stays pooled when the launch throws |
| HttpService.HttpService.CleanUpConnectionFutures | src/Services/HttpService.cpp:125-132 | the erase loop keeps the unfinished futures in order |
| HttpService.UnreadyIff | src/Services/HttpService.cpp:125-132 | a clean-up forgets exactly the finished handlers |
| HttpService.ReachableInv | src/Services/HttpService.cpp:55-84 | the invariant of every interleaving, failed accepts included: pool order, one owner each, enough connections for all handlers, futures, closes, descriptors |
| HttpServiceLoop.RoundsComeBack | src/Services/HttpService.cpp:58-81 | in the loop, a round takes five steps of the accept thread for a client and two for a failed accept, and goes back to the head of the loop |
| HttpServiceLoop.RoundProgresses | src/Services/HttpService.cpp:58-81 | and until it is there the accept thread can take its next step, whatever the handlers do |
| HttpServiceLoop.AcceptorComesBack | src/Services/HttpService.cpp:58-81 | so in every run that stays in the loop the accept thread is at most four steps from its head and can take the next one |
| HttpServiceLoop.AnyNumberOfClientsIsServed | src/Services/HttpService.cpp:58-123 | for any descriptors some run accepts, serves and closes all these clients, with nothing left over, and is at the head of its loop |
| HttpServiceLoop.ServiceComesToRest | src/Services/HttpService.cpp:55-123 | a client makes for at most nine steps of all threads, and a failed accept for two: without new clients every run comes to rest |
| HttpServiceLoop.AtRestMeansServed | src/Services/HttpService.cpp:55-123 | a run at rest is at the head of its loop or has returned, every handler has finished, what they fetched is closed once, and in the loop exactly as many connections are left open in the pool as launches failed |
| HttpServiceLoop.RunCanReturn | src/Services/HttpService.cpp:58-85 | from every reachable state some continuation returns from `run` |
| HttpServiceLoop.FailedLaunchStrandsTheClient | src/Services/HttpService.cpp:105-119 | a run of one client whose launch failed, at rest with its connection open |
| HttpServiceLoop.HandlersTakeTurns | src/Networking/ConnectionPool.cpp:17-27 | a launched handler can fetch at once, and takes the oldest connection that no handler has had |
| HttpServiceLoop.HandlerClosesAtOnce | src/Services/HttpService.cpp:109-116 | a handler that closes, or whose request throws, closes its connection at once; one that does neither leaves it open |
| HttpServiceLoop.ReleasedIsClosed | src/Networking/Socket.cpp:41-43 | a connection that its handler lets go of is closed, unless the accept thread still holds it |
| HttpService.HandlersNeverStarve | src/Services/HttpService.cpp:97-123 | the pool holds at least a connection for each launched handler that has not fetched, so `getConnection` never blocks |
| HttpService.ConnectionsAreServedOnceInOrder | src/Networking/ConnectionPool.cpp:11-27 | connections are fetched in the order of acceptance, each by one handler |
| HttpService.NeverClosedTwice | src/Networking/Socket.cpp:41-92 | at any moment a connection has been closed at most once, and an open one has an owner and a descriptor of its own |
| HttpService.EverythingIsClosedOnReturn | src/Services/HttpService.cpp:58-85 | when `run` returns, all handlers have finished, what was left in the pool are the failed launches, and every descriptor got exactly one `::close` |
| HttpService.ReturnIsBounded | src/Services/HttpService.cpp:82-85 | once the accept loop is over, a measure on handlers, futures and pool bounds the steps of all threads that are left |
| HttpService.ReturnProgresses | src/Services/HttpService.cpp:82-85 | and until `run` has returned some thread can take one, so it does return |
| Base64.TableSpellsAlphabet | src/Crypto/AESCipher.cpp:107-110 | the table of the codec is the alphabet, position by position: A to Z, a to z, 0 to 9, plus and slash |
| Base64.LookupInvertsAlphabet | src/Crypto/AESCipher.cpp:107-128 | the lookup inverts the alphabet and yields 0xFF exactly outside it |
| Base64.EncoderKeepsTheBitString | src/Crypto/AESCipher.cpp:90-104 | the encoder only regroups bits: bit m of unit j is bit 6j + m of the input, followed by zeros |
| Base64.DecoderKeepsTheBitString | src/Crypto/AESCipher.cpp:123-159 | so does the decoder, on any text: bit m of byte i is bit 8i + m of the units it read |
| Base64.EncodedCharacters | src/Crypto/AESCipher.cpp:90-104 | an encoded text has four characters for every three bytes begun: one of the alphabet for each unit, and `=` in the places behind them |
| Base64.DecodeInvertsEncode | src/Crypto/AESCipher.cpp:90-160 | decoding an encoded byte sequence gives it back |
| Base64.DecodeReadsTheAlphabetPrefix | src/Crypto/AESCipher.cpp:123-159 | only the longest alphabet prefix matters, and its length fixes the number of bytes |
| Base64.FillerIsNeverEmitted | src/Crypto/AESCipher.cpp:141-157 | the filler of the tail group never reaches a byte that is emitted |
| Base64.EncodeInvertsDecodeIffCanonical | src/Crypto/AESCipher.cpp:90-160 | re-encoding a decoded text gives it back exactly when the text is canonical in the sense of section 4 of RFC 4648 |
| Base64.Base64Encode | src/Crypto/AESCipher.cpp:90-104 | the iterator copy and the padding loop compute the regrouped, spelled and padded units, padded with `=` to whole groups of four |
| Base64.LookupGroup | src/Crypto/AESCipher.cpp:126-128 | the buffer is looked up in place |
| Base64.CombineGroup | src/Crypto/AESCipher.cpp:130-132 | three bytes from four units |
| Base64.DecodeGroup | src/Crypto/AESCipher.cpp:125-138 | a full buffer appends its regrouped bytes |
| Base64.DecodeTail | src/Crypto/AESCipher.cpp:141-157 | the ragged tail appends the regrouping of the units that were read, with 0xFF in the rest of the buffer |
| Base64.Base64Decode | src/Crypto/AESCipher.cpp:106-160 | the buffered loop and the tail compute the regrouping of the alphabet prefix |
| MemoryPool.MemoryPool.constructor | src/Core/CoreMemory/MemoryPool.cpp:11-13 | a new pool is valid and holds nothing |
| MemoryPool.MemoryPool.Reserve | src/Core/CoreMemory/MemoryPool.cpp:26 | past the capacity every block moves to a new address with its `next` as it was; within it nothing moves |
| MemoryPool.MemoryPool.EmplaceFree | src/Core/CoreMemory/MemoryPool.cpp:29-31 | a block is appended and pushed on the free list, which stays inside the current storage |
| MemoryPool.MemoryPool.EmplaceAll | src/Core/CoreMemory/MemoryPool.cpp:28-32 | the growth loop cuts the new chunk into blocks and lists them all, last first |
| MemoryPool.MemoryPool.Grow | src/Core/CoreMemory/MemoryPool.cpp:23-33 | growing runs on an empty list only, and keeps the pool valid across the reallocation |
| MemoryPool.MemoryPool.PopFree | src/Core/CoreMemory/MemoryPool.cpp:35-37 | the node taken off the list lies in the current storage |
| MemoryPool.MemoryPool.Allocate | src/Core/CoreMemory/MemoryPool.cpp:17-38 | validity is kept, and result and new state are those of the specification |
| MemoryPool.MemoryPool.PushFree | src/Core/CoreMemory/MemoryPool.cpp:45-46 | pushing a block in use keeps the list; pushing a listed one leaves no list with an end |
| MemoryPool.MemoryPool.Deallocate | src/Core/CoreMemory/MemoryPool.cpp:40-52 | for every pointer: unknown ones are refused without effect, and validity is kept exactly when the block is not free already |
| MemoryPool.PointersAreUnique | src/Core/CoreMemory/MemoryPool.cpp:43-44 | the search finds the one block of a pointer |
| MemoryPool.PushedTwice | src/Core/CoreMemory/MemoryPool.cpp:45-46 | a block pushed while on the list closes a cycle: no list with an end starts at it |
| MemoryPool.AllocateHandsOutOneFreshBlock | src/Core/CoreMemory/MemoryPool.cpp:17-38 | an allocation hands out one pointer nobody holds, and throws exactly above the block size |
| MemoryPool.GrowthHandsOutTheLastBlock | src/Core/CoreMemory/MemoryPool.cpp:23-37 | on an empty list a chunk of the initial number of blocks, or of twice as many as there are, is added, and its last block is handed out |
| MemoryPool.NewBlocksAreListedDownwards | src/Core/CoreMemory/MemoryPool.cpp:28-32 | the other blocks of the chunk follow on the list, each in front of the one before |
| MemoryPool.DeallocateTakesBackOneBlock | src/Core/CoreMemory/MemoryPool.cpp:40-52 | a held pointer given back is taken from the holders, an unknown one changes nothing |
| MemoryPool.DeallocateThenAllocate | src/Core/CoreMemory/MemoryPool.cpp:35-47 | the block given back last is handed out next, and the pair of calls leaves no trace |
| MemoryPool.DoubleFreeBreaksThePool | src/Core/CoreMemory/MemoryPool.cpp:40-52 | any held pointer given back twice is accepted twice and leaves an invalid pool |
| MemoryPool.SmallestDoubleFree | src/Core/CoreMemory/MemoryPool.cpp:17-52 | the shortest run that does so |
| MemoryPool.BlocksAfterClosedForm | src/Core/CoreMemory/MemoryPool.cpp:24 | after k growths there are initial * 3^(k-1) blocks |
| MemoryPool.GrowthBound | src/Core/CoreMemory/MemoryPool.cpp:23-33 | over any calls the pool never exceeds the larger of its initial size and three times one less than the peak in use |
| MemoryPool.BlocksInUseNeverOverlap | src/Core/CoreMemory/MemoryPool.cpp:17-52 | in every reachable pool the pointers in use address disjoint ranges inside their chunks |
| MemoryPoolAccounts.BlocksAreConserved | src/Core/CoreMemory/MemoryPool.cpp:17-52 | pointers in use and free blocks together are all blocks |
| ThreadPool.ThreadPool.EnqueueSection | src/Core/ThreadPool/ThreadPool.hpp:64-75 | with the lock held, `enqueue` throws exactly when stopped, appends only below the capacity, and else waits and changes nothing |
| ThreadPool.ThreadPool.WorkerSectionOnce | src/Core/ThreadPool/ThreadPool.hpp:84-94 | with the lock held, a worker takes the oldest task, and sleeps or returns on an empty queue only |
| ThreadPool.ThreadPool.StopSection | src/Core/ThreadPool/ThreadPool.hpp:101-104 | stopping sets the flag and keeps the tasks |
| ThreadPool.ReachableInv | src/Core/ThreadPool/ThreadPool.hpp:60-110 | in every interleaving accepted tasks are the taken ones followed by the queue, the queue holds at most 100, and a taken task is finished or running, once |
| ThreadPool.StoppedAcceptsNothing | src/Core/ThreadPool/ThreadPool.hpp:67-74 | once stopped, the pool stays stopped and accepts nothing |
| ThreadPoolCalls.AcceptedAreTheCallsTasks | src/Core/ThreadPool/ThreadPool.hpp:60-77 | in every interleaving a task has been accepted once for each call that brought it and has returned or has only to notify, and no call throws while the pool runs |
| ThreadPoolCalls.ReturnedCallsWereServed | src/Core/ThreadPool/ThreadPool.hpp:60-110 | when all of at least one worker have returned, each task has run once for each call that brought it and returned |
| ThreadPoolCalls.StoppedCallThrows | src/Core/ThreadPool/ThreadPool.hpp:64-72 | a call that looks at the queue of a stopped pool throws, and its task is not accepted |
| ThreadPoolCalls.CallsEndOnce | src/Core/ThreadPool/ThreadPool.hpp:60-77 | a call keeps its task and ends once, by returning or by throwing |
| ThreadPoolCalls.LateCallsThrow | src/Core/ThreadPool/ThreadPool.hpp:64-72 | a call that had not appended its task at the stop can only end by throwing |
| ThreadPoolCalls.PoolComesToRest | src/Core/ThreadPool/ThreadPool.hpp:60-110 | a call makes for at most eleven steps of all threads: without new calls and spurious wake-ups every run comes to rest |
| ThreadPoolCalls.AtRestMeansServed | src/Core/ThreadPool/ThreadPool.hpp:60-110 | a run within the capacity that has come to rest has served every call: it has ended, each task of a call that returned has run once, and a stop is over |
| ThreadPoolCalls.RestIsServiceIff | src/Core/ThreadPool/ThreadPool.hpp:60-110 | rest means service in all runs of load at most k if and only if k is at most 100 |
| ThreadPoolCalls.SpuriousWakeupsAreHarmless | src/Core/ThreadPool/ThreadPool.hpp:64-87 | a worker or a call that wakes up for no reason is back asleep after two more steps |
| ThreadPoolCalls.OnlyTheLockBlocks | src/Core/ThreadPool/ThreadPool.hpp:76-110 | a thread waits for the lock or to be woken and for nothing else: tasks run, notifications are given and a stop goes on whoever holds the lock |
| ThreadPoolCalls.AllWorkersCanBeBusy | src/Core/ThreadPool/ThreadPool.hpp:79-97 | for any number of workers, some run has all of them at work at once |
| ThreadPoolCalls.StopCanComplete | src/Core/ThreadPool/ThreadPool.hpp:99-110 | from every reachable state some continuation completes a stop, with every worker joined |
| ThreadPool.QueueStaysEmpty | src/Core/ThreadPool/ThreadPool.hpp:88-91 | once a worker has returned, the queue is empty for ever |
| ThreadPool.DrainedOnShutdown | src/Core/ThreadPool/ThreadPool.hpp:79-110 | when all of at least one worker have returned, exactly the accepted tasks have run, started in order |
| ThreadPool.ShutdownIsBounded | src/Core/ThreadPool/ThreadPool.hpp:99-110 | after `notify_all` nobody sleeps again, and a measure bounds the steps the workers still take |
| ThreadPool.ShutdownProgresses | src/Core/ThreadPool/ThreadPool.hpp:99-110 | until all workers have returned, a worker or the holder of the lock can move |
| ThreadPool.NoWakeupIsLost | src/Core/ThreadPool/ThreadPool.hpp:60-97 | while notifications reach workers, queued work has a worker awake or a notification owed |
| ThreadPool.NoWakeupIsLostWithoutWaits | src/Core/ThreadPool/ThreadPool.hpp:60-97 | so it does in every run in which no `enqueue` waits |
| ThreadPoolStall.WakeupsCanBeLost | src/Core/ThreadPool/ThreadPool.hpp:64-94 | for any number of workers a run with one call above the capacity ends with 100 tasks queued and everybody asleep |
| ThreadPoolStall.WakeupsAreSafeIff | src/Core/ThreadPool/ThreadPool.hpp:60-97 | wake-ups are never lost in runs of load at most k if and only if k is at most 100 |
| ThreadPoolStranded.CallCanBeStranded | src/Core/ThreadPool/ThreadPool.hpp:64-94 | for any number of workers a run with one call above the capacity ends with every accepted task run, everybody asleep, and that call waiting on the empty queue |
| ThreadPoolStranded.CallsAreSafeIff | src/Core/ThreadPool/ThreadPool.hpp:60-97 | calls are never left like that in runs of load at most k if and only if k is at most 100 |
| MessageConsumer.MessageConsumer.Pause | src/Core/Common/MessageQueue/MessageConsumer.hpp:32-37 | the pause flag is set, one waiter is notified, and nothing else happens |
| MessageConsumer.MessageConsumer.Resume | src/Core/Common/MessageQueue/MessageConsumer.hpp:39-44 | the pause flag is cleared, one waiter is notified, and nothing else happens |
| MessageConsumer.MessageConsumer.Stop | src/Core/Common/MessageQueue/MessageConsumer.hpp:46-51 | the stop flag is set, one waiter is notified, and nothing else happens |
| MessageConsumer.MessageConsumer.Push | src/Core/Common/MessageQueue/MessageConsumer.hpp:60-67 | a message goes to the back of the consumer's queue, and a waiter is notified on either condition variable |
| MessageConsumer.MessageConsumer.RunUntilItWaits | src/Core/Common/MessageQueue/MessageConsumer.hpp:70-99 | left alone, the loop delivers what the specification says and ends where it would wait or leave |
| MessageConsumer.UninterruptedDelivers | src/Core/Common/MessageQueue/MessageConsumer.hpp:72-98 | that is a prefix of the queue: all of it, unless stopped, refused or paused, and at most one message when paused |
| MessageConsumer.LoopIsAnInterleaving | src/Core/Common/MessageQueue/MessageConsumer.hpp:70-99 | the sequential loop is one of the interleavings of the step system |
| MessageConsumer.DeliveredInOrderWithoutBlocking | src/Core/Common/MessageQueue/MessageConsumer.hpp:76-89 | pushed messages are those delivered, at most one in flight, and the queue, in order; the wait inside `pop` never blocks |
| MessageConsumer.AtMostOnePopWhilePaused | src/Core/Common/MessageQueue/MessageConsumer.hpp:91-97 | between a pause and the next resume at most one message is taken |
| MessageConsumer.AtMostOnePopAfterStop | src/Core/Common/MessageQueue/MessageConsumer.hpp:46-72 | after `stop` at most one message is taken |
| MessageConsumer.ExitIsFinal | src/Core/Common/MessageQueue/MessageConsumer.hpp:70-99 | a consumer that has left its loop takes and delivers nothing |
| MessageConsumer.NothingAfterRefusal | src/Core/Common/MessageQueue/MessageConsumer.hpp:86-89 | a callback that returns false is the last one |
| MessageConsumer.NoWakeupIsLostThroughPush | src/Core/Common/MessageQueue/MessageConsumer.hpp:60-82 | while all messages come through `push`, a sleeping consumer with a queued message has a notification coming |
| MessageConsumer.PublishedMessageCanBeMissed | src/Core/Common/MessageQueue/MessageQueue.hpp:17-22 | a message pushed straight to the queue can leave the consumer asleep beside it |
| MessageConsumer.WakeupsAreSafeIff | src/Core/Common/MessageQueue/MessageConsumer.hpp:60-82 | the consumer is never left asleep beside a message if and only if nobody pushes to its queue directly |
| MessageConsumerWake.SleepsInPauseOnlyPaused | src/Core/Common/MessageQueue/MessageConsumer.hpp:91-97 | in every interleaving the consumer sleeps in the pause loop only while the pause flag is set |
| MessageConsumerWake.CallsWakeTheConsumer | src/Core/Common/MessageQueue/MessageConsumer.hpp:32-67 | a pause, a resume, a stop and the end of a push each do what they say and wake the consumer, wherever it sleeps |
| MessageConsumerWake.OnlyTheMutexBlocks | src/Core/Common/MessageQueue/MessageConsumer.hpp:60-97 | clients can call at any time, the callback can answer either way, and a thread waits for a mutex or to be woken and for nothing else |
| MessageConsumerWake.ResumeEndsThePause | src/Core/Common/MessageQueue/MessageConsumer.hpp:39-97 | after a resume, as long as nobody pauses, a consumer past its callback, asleep or not, comes to read the stop flag within two steps of its own, wakes up without help, and can always go on, or the client that holds its mutex can |
| MessageConsumerWake.ConsumerComesToRest | src/Core/Common/MessageQueue/MessageConsumer.hpp:32-99 | a call of a client makes for at most 22 steps of all threads: without new calls and spurious wake-ups every run comes to rest |
| MessageConsumerWake.AtRestMeansServed | src/Core/Common/MessageQueue/MessageConsumer.hpp:32-99 | a consumer at rest whose messages all came through `push` has ended, is paused, or has delivered everything |
| MessageConsumerWake.RestIsServiceIff | src/Core/Common/MessageQueue/MessageConsumer.hpp:60-82 | rest means that in all runs with at most k messages pushed straight to the queue if and only if k is 0 |
| MessageConsumerWake.AnyMessagesAreDelivered | src/Core/Common/MessageQueue/MessageConsumer.hpp:60-99 | any messages can be pushed and are all delivered in order in some run |
| MessageConsumerWake.SpuriousWakeupsAreHarmless | src/Core/Common/MessageQueue/MessageConsumer.hpp:76-96 | a consumer that wakes up for no reason is back asleep after two more steps |
| MessageConsumerStop.StopEndsIff | src/Core/Common/MessageQueue/MessageConsumer.hpp:46-98 | in any reachable state, `stop` ends the thread without a resume, a message or a refusal exactly when it finds the consumer about to read the flag, or neither paused nor waiting on an empty queue; spurious wake-ups make no difference |
| MessageConsumerStop.StopIsBounded | src/Core/Common/MessageQueue/MessageConsumer.hpp:72-98 | then the consumer takes at most nine more steps and never sleeps again, whatever is pushed and whatever the callback says, as long as nobody pauses it |
| MessageConsumerStop.StopProgresses | src/Core/Common/MessageQueue/MessageConsumer.hpp:72-98 | and until it has ended it can take one without being woken, or the client that holds its mutex can go on |
| MessageConsumerStop.StopEndsInEveryRun | src/Core/Common/MessageQueue/MessageConsumer.hpp:46-98 | so a `stop` that finds it on its way out ends it in every run without a pause |
| MessageConsumerStop.PausedConsumerNeverStops | src/Core/Common/MessageQueue/MessageConsumer.hpp:91-97 | a paused consumer never ends before a resume, however many messages come |
| MessageConsumerStop.StopNeedsAMessage | src/Core/Common/MessageQueue/MessageConsumer.hpp:72-84 | a consumer that waits on an empty queue never ends before a message |
| MessageConsumerStop.StopMissesIdleConsumer | src/Core/Common/MessageQueue/MessageConsumer.hpp:72-84 | a reachable idle consumer that `stop` does not end |
| MessageConsumerStop.StopMissesPausedConsumer | src/Core/Common/MessageQueue/MessageConsumer.hpp:91-97 | a reachable paused consumer with a message queued that `stop` does not end |

## Left out

- Base64Decode: does not cover texts of 2^31 characters or more, whose length does not fit in the `int` of the code.
- FormRoundTrip: does not cover forms whose parts hold the stored delimiter, names with quotes or carriage returns, adjacent delimiters, or parts without a blank line; `CollectParts` and `HandleMultipartFormData` follow the code on those too, wrap-around included.
- DrainedOnShutdown: assumes that tasks do not throw, which would end the program inside the worker thread.
- StopEndsInEveryRun: as with every such result, that a thread which can go on does go on, and gets the mutex it waits for, is left to the scheduler.
- ReturnIsBounded: takes the work of a handler as one step, so a route handler that never returns is not covered; nor is one by `ServiceComesToRest`.
- RoundsComeBack: a wait for clients that times out, after which the loop starts over, is no step of the model.
- NeverClosedTwice: does not cover the listening socket and the client side of `Connection`.
- The bodies of `inflate` and `deflate`: the decompressor is a parameter.
- The query parameters and the query string: the code computes them into locals that are never stored.
- Encryption, key derivation and PEM reading of the cipher, JSON, UUIDs, configuration, logger, file and time utilities: calls into libraries.
- epoll, kqueue and select: whether the socket is ready, and how much `write` takes, is a parameter; so is the text of the single read of up to 4096 characters, and a request that arrives in pieces is parsed as its first piece.
- `ThreadManager`, `ThreadSafeQueue`, the mutex and condition-variable wrappers, the route factory and the demo routes: thin wrappers.
- The destructor of the worker pool: it runs the same code as `stop`, and the model has one shutdown.
- Data races on the plain `bool` flags and on `MessageQueue::empty`: each read and write is one step.
- Failing allocations, of memory and of threads, except the launch of a handler.
