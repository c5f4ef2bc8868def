# httpserv: a Dafny model of its thread pool, parsers and builders

`httpserv` is a small HTTP/1.1 server library in C. This project models the parts of it
that decide something and proves what they guarantee. `dafny verify dfyconfig.toml`
checks all of it.

## The thread pool

`PoolMachine` is the pool as a labelled transition system. Workers, submitters and awaiters
are threads with a program point each; a step is one atomic action: taking or releasing one
of the mutexes (the pool's, the queue's nested in it, one for each result), going to sleep
in `pthread_cond_wait`, being woken, or one access to shared data. A signal wakes any
non-empty set of sleepers if there are sleepers; spurious wakeups are steps of their own.
There are N > 0 workers and any number of calls of `threadpool_add_work` and
`threadpool_job_result_await`, which may begin once the job's `threadpool_add_work` has
returned its result. The order in which threads step is arbitrary.

`PoolInvariant` holds what is true in every reachable state, `PoolSteps` proves that every
step keeps it. `PoolTheorems` draws the conclusions: mutual exclusion, exactly-once
first-in-first-out dispatch, no lost wakeup although the wait is guarded by `if`, results
that are right and final. `PoolDrain` gives a measure that every step of the threads at
work decreases, so without new calls and spurious wakeups every run ends, and shows that it
can only end with everything done. It also gives the exact condition under which `await`
comes back. `PoolRuns` speaks of the calls that a run makes: every function that was handed
to the pool is called exactly once, and every `await` answers the call it was made for.

The queue, the jobs and their result cells are heap structures in `JobQueue`. Each method
is proved against the functions of `JobSpec`; the steps of the transition system are made
with the same functions, and any run of queue operations is a replay of them on values.

## Requests

`RequestParser` has the four loops of the request parser on a byte array with the caller's
terminator, proved equal to recursive functions on the bytes. `Wire` characterises them: the
parser leaves at an empty line exactly on inputs that begin with the bytes of a request
head, it then returns just what the head was made from, and what follows the head never
matters; it accepts an input without an empty line exactly if it is cut in one of the places
where it does not notice. `Request` is the header store with its lookup and length computation. `Framing`
has the loop that reads a head from a connection, shows that framing, parsing and lookup fit
together on every canonical request with any body, and says what the parser makes of every
head that the loop hands on, canonical or not.

## Responses

`Response` models the builder with its incremental length field. The length is right
after any sequence of calls, in so far as the body holds no NUL, and the bytes determine
status, headers and body, unless a header holds a line end.

## Text

`Strings` has in-place stripping on NUL-terminated arrays, `Config` the configuration
reader, `Router` the linked list of routes with its lookup and the route line parser.

## What the code does that its documentation does not say

* `await` on a job without a function is never signalled: an awaiter that already sleeps
  sleeps on (`SoleAwaiterReturnsIff`), and every pool can get there (`NullJobAwaiterSleeps`).
* The request parser accepts inputs that are not complete heads. `TruncatedExactly` says
  which: `GET`, `GET / H` without a line end, and `GET / H`, line end, `A: `, whose header is
  dropped, are among them.
* Of a head with the line `: ` in it the parser drops all headers behind that line, and a
  head that has nothing between its second space and the line end is read without the empty
  line being seen (`FramedHeadsParse`, `SeparatorHidesHeaders`).
* A header lookup is a prefix test on the stored text (`LongerKeyShadows`).
* Every `|kind` suffix of a route line selects the 302 kind, whatever README.md lines 78-83
  of the repository say (`SuffixKindsAreIgnored`).
* A configuration line with a blank side makes the stripping read before the string
  (`EmptySideIsUndefined`).
* Stored response headers may hold line ends; the receiver then reads another response
  (`HeaderWithLineEndIsAmbiguous`).

## Model

| member | source | states |
|---|---|---|
| PoolSteps.StepKeepsInv | src/threadpool.c:28-74 | every step of every thread, signals and spurious wakeups included, keeps the whole invariant: owners of the three kinds of mutex, places and stages of jobs, queue order, wakeup count, results |
| PoolSteps.ReachableInv | src/threadpool.c:12-74 | the invariant holds in every state that a run of a new pool can reach |
| PoolTheorems.MutualExclusion | src/threadpool.c:56-63 | each mutex has at most one thread inside, and a thread that wants the nested queue mutex always finds it free |
| PoolTheorems.FifoExactlyOnce | src/threadpool.c:51-74 | submitted jobs are the popped ones followed by the queued ones, none twice; a popped job is carried by exactly one worker or was executed; others are untouched; no function is called twice |
| PoolTheorems.NoLostWakeup | src/threadpool.c:56-63 | with the pool mutex free and some worker asleep, there are at least as many woken workers on their way as there are queued jobs |
| PoolTheorems.ResultMeaning | src/job.c:53-67 | `done` is 1, 0 or -1; 0 means the function was called once and `res` is what it returned, -1 means there is no function |
| PoolTheorems.AwaitReturnsResult | src/job.c:31-38 | in every interleaving what `await` returned is the value of the one call of a job with a function, and the null pointer for a job without one |
| PoolRuns.RecordsFollowLabels | src/threadpool.c:28-36 | over any run the jobs with their functions, the await calls with their jobs, and what each job's function returned are those of the calls in the run, in order, and no others |
| PoolRuns.EveryFunctionRunsOnce | src/threadpool.c:28-74 | in a run of a new pool to rest as many functions were called as were submitted, each job's once, and its result is what the call returned; a job submitted without one has failed |
| PoolRuns.AwaitAnswersItsCall | src/job.c:31-38 | an await call that has returned gave what the function of the job it was called for returned, and the null pointer if that job was submitted without one |
| PoolRuns.NewPools | src/threadpool.c:12-27 | there are new pools of exactly the sizes other than 0 |
| PoolRuns.EveryWorkloadFinishes | src/threadpool.c:28-74 | on every new pool every list of jobs can be submitted and brought to a rest at which all their functions were called |
| PoolTheorems.ResultIsFinal | src/job.c:26-38 | over any run, once `done` has left 1 neither it nor `res` nor the calls made ever change |
| PoolTheorems.SoleAwaiterIsWoken | src/job.c:61-64 | with the result there and its mutex free, a sleeping awaiter is never the only await call on the job |
| PoolTheorems.LeftAsleep | src/job.c:54-58 | an awaiter that no signal can reach any more, as on a job without a function, sleeps through every run without a spurious wakeup |
| PoolDrain.StepDecreases | src/threadpool.c:51-74 | every step of a worker, submitter or awaiter already there strictly decreases the measure |
| PoolDrain.RunsAreBounded | src/threadpool.c:51-74 | a run without new calls and spurious wakeups is no longer than the measure of its first state |
| PoolDrain.QuiescentIsDrained | src/threadpool.c:51-74 | when no thread can step the queue is empty, all workers sleep, all submissions returned, all jobs were executed and no mutex is held: no deadlock, no stranded job |
| PoolDrain.AlwaysDrains | src/threadpool.c:51-74 | from every state there is a run of the threads already there that comes to such a rest |
| PoolDrain.SoleAwaiterReturnsIff | src/job.c:31-67 | a sole sleeping awaiter has returned, with the function's value, when the pool is at rest if and only if the job has a function |
| PoolDrain.LateAwaiterReturns | src/job.c:31-38 | an await call that is awake when `done` has left 1, such as one that begins then, has returned at the next rest, on every job and beside any other awaiters |
| PoolDrain.NullJobAwaiterSleeps | src/job.c:54-58 | from every reachable state the run can go on, without a spurious wakeup, to a rest where a new job without a function has failed and the call that awaits it sleeps |
| JobQueue.JobResult.Set | src/job.c:26-30 | the result is stored and nothing else changes |
| JobQueue.Job.constructor | src/job.c:45-52 | a new job is unlinked and its result is pending |
| JobQueue.Job.Exec | src/job.c:53-67 | without a function the cell is marked failed and null is returned; with one its value is stored, then the cell is done, and the value is returned |
| JobQueue.Queue.AddJob | src/job.c:81-95 | the chain stays acyclic and ordered with `tail` last, and the job is appended; only an empty queue needs the job's `next` to be null |
| JobQueue.Queue.PopJob | src/job.c:96-109 | the first job is unlinked and returned, null exactly on the empty queue, and `tail` may go stale only when the queue empties |
| JobQueue.RunOps | src/job.c:81-109 | over any run of operations one fresh job is added for each addition, with its function and argument, one is popped for each pop that finds a job, and the popped jobs followed by the chain are the added jobs in order; `head` is null exactly when all were popped |
| JobSpec.ReplayIsFifo | src/job.c:81-109 | on values: a run adds all it is told to add, and its pops return the first of these, as many as there are pops that find a job |
| JobQueue.ThreadPool.New | src/threadpool.c:12-27 | no pool for size 0, otherwise a pool with an empty queue and one worker for every number below the size, each bound to the pool |
| JobQueue.ThreadPool.AddWork | src/threadpool.c:28-36 | a fresh job with the function and argument goes to the end of the queue, and its pending result is returned |
| Request.MethodTables | src/http/request.c:10-51 | the two method tables are inverse to each other, and every other name is invalid |
| Request.HttpRequest.AddHeader | src/http/request.c:162-169 | the text "key: value" is appended to the stored headers and nothing else changes |
| Request.HttpRequest.GetHeader | src/http/request.c:180-193 | nothing without a request; otherwise the first stored text that starts with the key decides, and the result is the text behind key and separator, none without a match, or a pointer past the end |
| Request.LookupNullIff | src/http/request.c:185-192 | the lookup gives null exactly if no stored text starts with the key |
| Request.LookupIsBehindKey | src/http/request.c:185-192 | the value is what stands two bytes behind the key in the first text that starts with it; without two such bytes the pointer lies past the end |
| Request.LookupReadsNamedFieldIff | src/http/request.c:180-193 | the lookup reads the first field stored under the key exactly if no earlier text starts with the key, and then returns the value sent |
| Request.LookupAfterAdds | src/http/request.c:162-193 | after any run of additions the lookup is null exactly if no text starts with the key, and returns the value stored under the key unless an earlier text starts with it |
| Request.LongerKeyShadows | src/http/request.c:186-188 | an input on which a longer key in front makes the lookup return a piece of the wrong field |
| Request.HttpRequest.BuildLength | src/http/request.c:194-208 | the length computed is that of the canonical request: request line, headers, empty line, body |
| RequestParser.MethodLoop | src/http/request.c:73-79 | the loop reads the method name and stops behind the space |
| RequestParser.PathLoop | src/http/request.c:87-100 | the loop reads the path, skips the space and one more byte, and fails if the input ends first |
| RequestParser.LineLoop | src/http/request.c:101-107 | the loop stops behind the next line end, reading the terminator as look-ahead at the last byte |
| RequestParser.HeaderLoop | src/http/request.c:109-149 | the two-mode loop stores exactly the fields of the recursive reading of the bytes, in order, and fails exactly when that fails |
| RequestParser.FromRaw | src/http/request.c:68-155 | the request built is null exactly if parsing rejects, and otherwise has exactly the method, path and headers that the recursive reading of the bytes gives |
| Wire.ParseInvertsWire | src/http/request.c:68-155 | parsing the bytes of any request head followed by any bytes returns its method, path and headers in order and stops right behind the head |
| Wire.ParseIsSound | src/http/request.c:73-149 | after an exit at the empty line the consumed bytes are exactly method, space, path, space, one byte, a rest without line end, line end, the stored headers as lines, at most one dangling ": ", line end |
| Wire.ParserAcceptsExactly | src/http/request.c:101-149 | the parser leaves at an empty line exactly on the inputs that begin with the bytes of a request head |
| Wire.TruncatedHeadsAreAccepted | src/http/request.c:73-154 | an input that ends behind the method or its space, in the rest of the request line, or behind a header or the separator of one more is accepted, with what is missing empty and a begun header dropped |
| Wire.TruncatedExactly | src/http/request.c:73-154 | the parser accepts without having seen an empty line exactly the inputs that end in one of these places |
| Wire.ParserRejectsExactly | src/http/request.c:80-122 | parsing fails exactly on inputs that neither begin with a head nor are cut in one of these places |
| Wire.MethodsByName | src/http/request.c:32-51 | an accepted request has each of the eight methods exactly if the input begins with the name of that method |
| Wire.TrailingBytesNeverMatter | src/http/request.c:114-149 | if parsing ends at an empty line, any bytes behind the input leave method, path and headers as they are |
| Framing.ReadHead | src/net/server.c:51-67 | on every stream whose NUL bytes, if any, lie behind a head the loop stops at the first place from the fifth byte on where two line ends meet, with exactly the bytes read and a terminator |
| Framing.StopsBehindText | src/net/server.c:58-62 | behind any text in which no two line ends have met, the first two that meet stop the loop exactly if the text is not empty |
| Framing.RequestRoundTrip | src/http/request.c:68-155 | parsing the canonical RFC 9112 request gives back its method, path and headers and leaves the body |
| Framing.FramingAgreesWithParsing | src/net/server.c:51-68 | on a canonical head followed by any body the first stop is right behind the head, and the head parses to the request sent |
| Framing.FramedHeadsParse | src/net/server.c:51-68 | of every framed head the parser reads all exactly if it is a head without a dangling separator, leaves bytes unread exactly if it begins with one that has it, and misses the empty line exactly if nothing stands between the second space and the line end |
| Framing.SeparatorHidesHeaders | src/http/request.c:123-132 | canonical headers with a bare separator line among them are framed whole, but those behind it are lost |
| Framing.Receive | src/net/server.c:51-68 | the head read is what is parsed, it ends where the first head in it does, and nothing is parsed before a head is complete |
| Framing.SendAndReceive | src/net/server.c:51-70 | end to end, for any body, binary ones included: method, path and headers arrive as sent, the body stays on the connection, and a lookup of an unshadowed key returns the value sent |
| Response.HttpResponse.constructor | src/http/response.c:9-20 | a new response has no headers and no body, and its length field is right |
| Response.HttpResponse.AddHeader | src/http/response.c:21-33 | the text "key: value" goes behind the stored headers and the length field stays right; null arguments change nothing |
| Response.HttpResponse.SetBody | src/http/response.c:34-46 | the body is replaced, longer or shorter, without underflow of the length field; the return code tells a null response, a failed allocation or success |
| Response.HttpResponse.AppendHeaders | src/http/response.c:65-74 | every stored header is appended as a line, in order |
| Response.HttpResponse.Build | src/http/response.c:47-81 | nothing for an invalid status, otherwise the canonical bytes up to the first NUL of the body, with the protocol and the three digits that denote the status in front; their number is the length sent exactly if the body has no NUL |
| Response.BuildAfter | src/http/response.c:9-81 | after any sequence of calls the bytes built hold the texts of the complete header calls in order and the body of the last body call, and the length sent is the length of the canonical response with its whole body; only a body lost to a failed allocation leaves the result undefined |
| Response.AfterIsSet | src/http/response.c:21-46 | headers, body and body length after any calls are told from the calls alone: the texts added, the last body set, the length of the last one that was granted memory |
| Response.ValidStatusRange | src/http/status.c:4-125 | every status with a reason has three digits |
| Response.StatusTextDenotes | src/http/response.c:52-53 | the status text is the three decimal digits that denote the status |
| Response.StatusLinesSent | src/http/response.c:56-64 | the status lines of the five statuses that the server sends, written out |
| Response.StatusTextInjective | src/http/response.c:52-53 | the status text printed into four bytes determines the status |
| Response.ResponseUnambiguous | src/http/response.c:47-80 | responses with valid statuses and one-line headers are written as the same bytes exactly if their status, headers and body are equal |
| Response.HeaderWithLineEndIsAmbiguous | src/http/response.c:67-72 | for every status, list of stored headers and body: the bytes can be read as non-empty lines, an empty line and a body in another way than they were built exactly if some stored header holds a line end |
| Response.LineEndMakesTwoHeaders | src/http/response.c:67-72 | a value with a line end and the text of another header in it makes one stored header the bytes of two |
| Strings.StrncmpIsPrefixTest | src/http/request.c:186 | comparing as many bytes as the key has is a prefix test |
| Strings.StreqIsEquality | src/stringh.c:5-11 | the comparison gives 0 exactly for equal strings |
| Strings.ShiftLeft | src/stringh.c:16-18 | the shift loop, asking for `strlen` on every turn, moves every byte and the terminator one place to the left |
| Strings.StripLeft | src/stringh.c:12-20 | the six white space bytes of the C locale, and nothing else, are taken off the left end in place; a null pointer is left alone |
| Strings.StripRight | src/stringh.c:21-27 | the same bytes are taken off the right end in place; the byte before the string is read exactly if the string has no other byte; a null pointer is left alone |
| Strings.StripBoth | src/stringh.c:28-33 | the same bytes are taken off both ends in place, reading before the string exactly if there is nothing else in it; a null pointer is left alone |
| Strings.TrimIsInnerText | src/stringh.c:28-33 | there is one way to take those bytes off both ends until another byte comes, stripping does it, and stripping again changes nothing |
| Config.ProcessLine | src/config.c:17-66 | a line with '#' or without '=' is skipped; otherwise the first '=' divides it and both sides are stripped; undefined when stripping one of them reads before its text |
| Config.Load | src/config.c:80-99 | the loop gives what reading the bytes one by one gives |
| Config.LoadReadsLineByLine | src/config.c:80-99 | on every file each line is read for itself, in order, and an unterminated rest is dropped |
| Config.NulsAreDropped | src/config.c:88-98 | NUL bytes in a file are read over |
| Config.ConfigRoundTrip | src/config.c:17-99 | settings written with any white space around their parts, with comments and lines without '=' anywhere between, are read back in order |
| Config.AssignmentsRoundTrip | src/config.c:17-99 | a file of "label = value" lines is read back as exactly its settings, with line ends LF or CRLF |
| Config.EmptySideIsUndefined | src/config.c:59-60 | a line is undefined exactly if it has no '#' and nothing but white space before or behind its first '=' |
| Config.BrokenIff | src/config.c:80-99 | reading a file is undefined exactly if one of its lines is |
| Router.Router.AddRoute | src/router.c:22-30 | the route becomes the head of the chain; without a router nothing changes |
| Router.Router.Lookup | src/router.c:31-61 | nothing without a router or a query; otherwise the route found is the one added last among those that match, and none if its target is the query |
| Router.NewestMatchDecides | src/router.c:31-61 | the newest matching rule alone decides, and a match whose target is the query never falls through to older rules |
| Router.NewestMatchExists | src/router.c:37-41 | whenever some rule matches there is a newest match |
| Router.NoMatchResolvesNothing | src/router.c:37-41 | without a match nothing is found |
| Router.LookupAfter | src/router.c:22-61 | a lookup after any sequence of additions gives that result |
| Router.ParseLine | src/router.c:98-135 | the pattern is what precedes the first "=>", the target what follows up to a bar; a line without "=>" is all pattern; null if the pattern does not compile |
| Router.RouteTextRoundTrip | src/router.c:98-135 | a pattern without "=>", even one ending in '=', and a target without a bar are read back exactly, whatever follows a bar |
| Router.RouteLines | src/router.c:98-135 | every line is a pattern alone, a pattern with a target, or both with a suffix behind a bar |
| Router.SuffixKindsAreIgnored | src/router.c:107-118 | the suffixes `alias` and `redirect` give the 302 kind |

## Left out

- Sockets, TLS, accepting connections, signals, process control, time and logging: input and output. A connection is a sequence of bytes, logging does nothing.
- What a read returns at the end of a connection or on an error: the reading loop ignores it and never ends; `Framing.ReadHead` reports that no head was complete.
- NUL bytes on a connection before a head has ended: the reading loop then counts bytes that it did not store, and the buffer holds unset memory.
- The use of Content-Length, and the direct changes of the response status by the server worker (src/net/server.c:70-116), which bypass the length field.
- `threadpool_destroy`, `threadpool_worker_stop` and cancellation: they cancel and join threads that were detached, so nothing can be promised.
- `threadpool_ensure_jobs_done`: it waits for the queue to empty, not for running jobs.
- Job functions that never return: `RunFunction` is a step that is always possible for a worker at the call.
- Mutexes, condition variables and worker threads in the heap classes: the module `JobQueue` has the sequential objects, `PoolMachine` the interleaving; a call of `await` exists only in `PoolMachine`.
- PoolTheorems.SoleAwaiterIsWoken: says nothing of several awaiters of one result, of which the one signal may wake only one; the others then fall under `LeftAsleep`.
- Byte sizes of allocations, room for terminators, the order of freeing, and `int` indices on inputs beyond their range.
- Failed allocations other than that of a response body.
- Response.HttpResponse.constructor: a status without a reason is excluded, because the source takes the length of a null pointer.
- Strings.StripRight: where the source reads the byte before the string, the model reports that and stops; what would follow depends on that byte.
- Response.StatusLinesSent: the reasons of the statuses that the server never sends are copied from the table; no property depends on them.
- Request.HttpRequest.GetHeader: a returned pointer past the end is reported as such; what it points to is not modelled.
- The bytes of `httpserv_http_request_build`: the source computes their length and leaves the buffer unwritten.
- POSIX regular expressions: an arbitrary predicate on pattern and query. The configuration tree (libtree is not part of this model): the list of settings added to it.
- Reading routes from a file (`fscanf`), `src/resource.c`, command line and version functions: they would add only easy members.
- White space outside the C locale: `IsSpace` is the six bytes of the C locale.
