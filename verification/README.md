# Verified model of the bet and login services

A Dafny model of the four stateful parts of the repository, with the code behind the benchmark
switches (`NOOP_FLAG`, `noopMode`) taken as written, that is with the switches off.

| file | what it models |
|---|---|
| `Wrappers.dfy`, `Sums.dfy`, `Division.dfy` | optional values; weighted sums over sequences; division of natural numbers |
| `PoolMonitor.dfy` | the mutex and condition variable of the connection pool, for any number of workers and connections |
| `ConnectionPool.dfy` | the pool and its RAII borrow as objects; first-in-first-out fairness |
| `Login.dfy` | answering one Login request |
| `LoginService.dfy` | the whole login server: workers, completion queues, self-deleting handlers, pool, shutdown |
| `Requests.dfy` | what becomes of a request in `LoginService`, from its arrival to its reply |
| `AsyncUserService.dfy` | setting the server up, `acquire`, `release`, `proceed` and the worker loop as code, with the other workers and the runtime going on between the statements |
| `Wire.dfy`, `Codec.dfy` | the Protocol Buffers wire format ("Base 128 Varints", "Message Structure", "Length-Delimited Records", "Submessages", "Last One Wins" of its Encoding specification) and the three messages of `user_service.proto` as values |
| `Messages.dfy` | the generated message classes with has-bits and cached sizes |
| `Ledger.dfy` | the atomic ledger, one request at a time |
| `BetServer.dfy` | concurrent PlaceBet transactions under row locks, with a failure possible at every statement and the loss of the connection at any time |
| `PlaceBet.dfy` | PlaceBet as code, with other calls running between its statements |
| `BetGun.dfy`, `BetGunCode.dfy` | the load generator's counters and racing reporter, as a machine and as code |
| `Campaign.dfy` | the generator firing at the server |

Each machine is a deterministic `Step` over events; every choice of the scheduler, the runtime or
the database is part of the event, so a statement about `Reachable` states or about a `Run` holds
for every interleaving. The classes with a ghost `trace` (`AsyncUserService`, `Database`,
`Generator`) execute the source's statements one by one and prove that what they do is a run of the
machine, with arbitrary events of other threads between any two statements: a schedule says which,
gap by gap. A thread that is blocked lets the schedule go on; if it is still blocked at the
schedule's end, the thread it waits for takes its next step, until it is not. So every finite
interleaving is covered (the lemmas named `SchedulesCoverRuns`), and the waiting is proved to end.

Where the code and its comments differ, the code is modelled:

- CallHandler.h:13-17 describes a PROCESS state; `proceed` goes from WAIT to FINISH directly.
- betgun.go:29 calls `completed` "all of the above"; it runs ahead of the other counters by the
  workers that are between two additions, which is what `BetGun.CompletedGap` states.

The generated messages keep their has-bits right only as long as nobody writes through an object or
a string that a mutator handed out before the field was cleared: `Messages.KeptUserOutlivesClear` and
`Messages.KeptStringOutlivesClear` are such writes. `Messages.LoginRequest.KeptUserLaw` and the methods
with `Kept` in their names say exactly which writes do harm.

Assumptions. Money is exact (`real`) although the Go code uses float64. A registered operation
yields exactly one event, matched requests are delivered with isOk true, and a registration that can
no longer be matched is delivered with isOk false. Shutdown is a step of the environment, because
`run` joins the workers before the destructor could start it. `FOR UPDATE` reads the row as
committed when the lock is granted. When a connection dies, the database rolls its transaction back
and frees its row at once, and the call notices at its next statement; the comparison in the program
is not a statement, so a refusal counts as decided when the row was read. A pool, if there is one,
has a connection (AsyncUserService.cpp:12 asks for 50); with none, `acquire` would block for ever.
UTF-8 validity is a parameter of the parser.

## Model

| member | source | states |
|---|---|---|
| PoolMonitor.NoLostWakeup | Services/login_service/ConnectionPool.h:40-56 | In every interleaving, with barging and spurious wakeups: mutex free and a waiter asleep implies no more queued connections than woken waiters |
| PoolMonitor.NoDeadlock | Services/login_service/ConnectionPool.h:40-56 | While any worker is inside the pool some worker can act without a spurious wakeup, so they are never all asleep |
| PoolMonitor.EmptyQueueHasHolder | Services/login_service/ConnectionPool.h:40-56 | An empty queue means some worker has a connection in its hands and can take its next step towards pushing it back, or it waits for the mutex and the owner can act |
| PoolMonitor.EnoughConnections | Services/login_service/ConnectionPool.h:43-44 | With no more workers than connections the wait predicate holds at every test and nobody ever sleeps |
| PoolMonitor.ExclusiveUse | Services/login_service/ConnectionPool.h:40-75 | Each connection is queued once or in exactly one worker's hands, never both, never lost |
| PoolMonitor.ConservationStep | Services/login_service/ConnectionPool.h:40-56 | Every action leaves the multiset of queued and held connections as it was |
| PoolMonitor.WakeupStep | Services/login_service/ConnectionPool.h:43-55 | Every action keeps: while somebody sleeps, each queued connection is matched by a worker about to look |
| PoolMonitor.RemainingStep | Services/login_service/ConnectionPool.h:40-56 | Every action uses up the weighted measure, except entering (at most 10) and a spurious wakeup (at most 2) |
| PoolMonitor.EveryChoiceIsOpen | Services/login_service/ConnectionPool.h:42-55 | A sleeper can wake up for no reason, a free mutex can go to anybody who wants it, a notification to any sleeper |
| ConnectionPool.PostgresConnectionPool.Open | Services/login_service/ConnectionPool.h:24-38 | A pool exists exactly if every attempt to connect succeeded, and then holds that many different connections |
| ConnectionPool.PostgresConnectionPool.Acquire | Services/login_service/ConnectionPool.h:40-49 | One evaluation of the predicate: the front is popped, or nothing changes and the caller sleeps; same effect as the monitor's Test |
| ConnectionPool.PostgresConnectionPool.Release | Services/login_service/ConnectionPool.h:53-54 | The connection becomes the last of the queue; same effect as the monitor's Push |
| ConnectionPool.PooledConnection.constructor | Services/login_service/ConnectionPool.h:67-70 | The borrow holds what was the front of the queue, or, if it was empty, what another thread gave back while this one waited |
| ConnectionPool.PooledConnection.Destroy | Services/login_service/ConnectionPool.h:72-75 | The borrowed connection goes to the end of the queue |
| ConnectionPool.BorrowRounds | Services/login_service/ConnectionPool.h:67-75 | k rounds of borrowing and giving back leave the queue as Rotated says and use the connections that Used says |
| ConnectionPool.RotationLaw | Services/login_service/ConnectionPool.h:46-54 | The queue after k of these rounds is rotated by k modulo its size |
| ConnectionPool.FairUse | Services/login_service/ConnectionPool.h:46-54 | The k rounds use each connection k / size times, and once more if it is among the first k % size |
| Login.HandleLogin | Services/login_service/CallHandler.cpp:32-69 | On every exit the connection, waited for if none was queued, is at the end of the queue. Case by case: UNAVAILABLE exactly without a pool; NOT_FOUND for no row, INTERNAL with its text for an exception, UNAUTHENTICATED for another password, OK for the right one, and only then the response is filled in |
| Login.TokenInjective | Services/login_service/CallHandler.cpp:62 | Different user ids get different tokens |
| Login.TokenText | Services/login_service/CallHandler.cpp:62 | A token is the six characters token_, a minus sign for a negative id, and a decimal numeral of the id |
| Login.DigitsAreNumeral | Services/login_service/CallHandler.cpp:62 | Decimal digits, most significant first and without leading zeros, mean the number they were made of |
| LoginService.HandlerSafety | Services/login_service/CallHandler.cpp:14-30 | In every run a handler a worker touches is alive, of the worker's own queue, in no other worker's hands and without an outstanding tag |
| LoginService.RuntimeSafety | Services/login_service/CallHandler.cpp:11-23 | A handler into which the runtime writes a request, or whose response it has sent, is alive, in no worker's hands and without another outstanding tag |
| LoginService.DeliveredTagIsLive | Services/login_service/AsyncUserService.cpp:59-65 | Every tag a queue delivers is a live handler of that queue, with no second event for it |
| LoginService.OwnerStep | Services/login_service/CallHandler.cpp:4-30 | Each event keeps: a live handler has one owner, its tag or the worker running it; a deleted one has none |
| LoginService.ConstantAcceptors | Services/login_service/AsyncUserService.cpp:43-45 | Until shutdown every worker has exactly the initial number of waiting handlers on its queue at its loop head |
| LoginService.AtMostOneReply | Services/login_service/CallHandler.cpp:14-24 | At most one Finish per accepted request, with the status and response for that request and its query result |
| LoginService.QuietIsServed | Services/login_service/CallHandler.cpp:14-30 | Exactly once, in a server that is up: where nothing but new requests, the shutdown or spurious wakeups can happen, every accepted request has exactly one Finish and its handler is deleted, all workers wait at their queues with the full number of acceptors, all connections are queued |
| LoginService.RepliesAreAnswers | Services/login_service/CallHandler.cpp:41-51 | Every reply rests on what the database said about the email of its own request: what holds of all answers of a run, email by email, holds of the replies |
| Requests.ArrivalIsKept | Services/login_service/CallHandler.cpp:11-41 | The request that arrives for a handler is that handler's request ever after |
| Requests.OneArrival | Services/login_service/CallHandler.cpp:11 | At most one request arrives for a handler |
| Requests.ReplyIsForArrival | Services/login_service/CallHandler.cpp:22-51 | Every reply is to the request that arrived for its handler, and rests on what the database said in this run about that request's email |
| Requests.ReplyCases | Services/login_service/CallHandler.cpp:38-69 | Every reply of the server in full: status, message and response for no pool, no row, an exception, another password and the right one |
| Requests.AnyRequestCanArrive | Services/login_service/CallHandler.cpp:11 | While the server is up any request can arrive for any pending registration |
| Requests.RestAccepts | Services/login_service/AsyncUserService.cpp:43-45 | A server at rest can accept any request on every queue |
| LoginService.Progress | Services/login_service/AsyncUserService.cpp:54-67 | While a worker is busy, or shutdown is under way and a worker runs, something other than a new request or a spurious wakeup can happen |
| LoginService.WorkStep | Services/login_service/AsyncUserService.cpp:54-67 | Every event but a match (at most 18) and a spurious wakeup (at most 2) strictly lowers the work left |
| LoginService.RunsAreBounded | Services/login_service/AsyncUserService.cpp:54-67 | A run is no longer than the work at its start plus 19 per accepted request plus 3 per spurious wakeup |
| LoginService.ShutdownDrains | Services/login_service/AsyncUserService.cpp:32-67 | After shutdown runs are bounded, and where only spurious wakeups remain all workers have stopped, all handlers are deleted, all connections are queued and every accepted request has one reply |
| LoginService.ServerPool | Services/login_service/ConnectionPool.h:40-56 | The pool of the running server is a reachable state of the pool monitor; with enough connections no worker waits |
| LoginService.StartInv | Services/login_service/AsyncUserService.cpp:41-48 | What run sets up satisfies the invariant, with the configured number of handlers on each queue |
| LoginService.InvStep | Services/login_service/AsyncUserService.cpp:54-67 | Every event keeps ownership, reply log, acceptors, stopped queues and the pool invariant |
| AsyncUserService.AsyncUserService.constructor | Services/login_service/AsyncUserService.cpp:41-48 | The nested loops of run build exactly the initial state of the machine |
| AsyncUserService.AsyncUserService.NewCallHandler | Services/login_service/CallHandler.cpp:4-12 | A new handler in WAIT, registered under its own tag |
| AsyncUserService.AsyncUserService.Others | Services/login_service/AsyncUserService.cpp:54-67 | Exactly the events of the schedule that belong to others and can happen have happened; they leave alone where this worker is, the handler it runs, the replies on its queue, and, while it owns the mutex, the pool's queue |
| AsyncUserService.SchedulesCoverRuns | Services/login_service/AsyncUserService.cpp:50-51 | Whatever the others and the runtime can do in a gap, there is a schedule for it |
| AsyncUserService.OthersLeaveWorker | Services/login_service/CallHandler.cpp:14-30 | One event of another worker or of the runtime touches neither this worker nor its handler |
| AsyncUserService.OthersLeavePool | Services/login_service/ConnectionPool.h:40-56 | Another worker cannot take the mutex away, change the queue under it, or move this worker on in the pool, except to wake it |
| AsyncUserService.AsyncUserService.AwaitMutex | Services/login_service/ConnectionPool.h:42-53 | Waiting for the mutex ends with the mutex free |
| AsyncUserService.AsyncUserService.AwaitWakeup | Services/login_service/ConnectionPool.h:43-44 | A sleeping worker is woken in the end |
| AsyncUserService.AsyncUserService.NotifyOne | Services/login_service/ConnectionPool.h:55 | Exactly one of the sleepers is woken, any one, if there is one |
| AsyncUserService.AsyncUserService.Proceed | Services/login_service/CallHandler.cpp:14-30 | Whatever the others do meanwhile: an accepted request gets a successor on the queue, and the last reply, the only one on the queue, is the one for its own request and the database's answer for its email, with one Finish posted; a handler whose reply has left is deleted |
| AsyncUserService.AsyncUserService.BorrowAndAnswer | Services/login_service/CallHandler.cpp:32-69 | The database is asked about the email of this request, the handler holds the outcome and its response, the connection is given back; undisturbed, it is at the end of the queue |
| AsyncUserService.AsyncUserService.Acquire | Services/login_service/ConnectionPool.h:40-49 | Blocks while the mutex is taken, sleeps while the queue is empty, and ends holding a connection and not the mutex; undisturbed, it is the front of the queue |
| AsyncUserService.AsyncUserService.Release | Services/login_service/ConnectionPool.h:51-56 | Blocks for the mutex, pushes, notifies and unlocks; undisturbed, the connection is last in the queue and exactly one sleeper has been woken if there was one |
| AsyncUserService.AsyncUserService.WorkerLoop | Services/login_service/AsyncUserService.cpp:54-67 | Whatever the others do: it ends with the queue shut down and drained, or when nothing more comes; then every request ever accepted on the queue has exactly one reply and a deleted handler, and each reply given is the one for its request and what the database, which may change from one query to the next, said when it was asked. If no request has arrived meanwhile the handlers replied to are, as a multiset, the tags of the requests that were ready |
| AsyncUserService.AsyncUserService.NextEvent | Services/login_service/AsyncUserService.cpp:59 | Next comes back with a ready event of the queue, or with the queue shut down and empty; it keeps waiting only while nothing but unmatched registrations is there |
| AsyncUserService.WaitingIsServed | Services/login_service/AsyncUserService.cpp:54-67 | A queue with nothing but unmatched registrations, its worker at the loop head, has served all its requests |
| AsyncUserService.ReadyOrAnswered | Services/login_service/AsyncUserService.cpp:59-65 | With its worker at the loop head, an accepted request is ready or has been answered, and not both |
| AsyncUserService.RepliesSince | Services/login_service/AsyncUserService.cpp:54-67 | Between two states of a run with no new request in between, a queue that has served all gives exactly the replies whose requests were ready |
| Wire.VarintSizeIsLength | Services/login_service/user_service.pb.cc:423-431 | The size computed for a varint is the number of bytes written |
| Wire.VarintIsMinimal | Services/login_service/user_service.pb.cc:423-431 | A varint has the least number of seven-bit groups that can hold its value |
| Wire.VarintGroups | Services/login_service/user_service.pb.cc:973 | Byte by byte: seven bits of the number in each, least significant group first, the top bit set in all but the last |
| Wire.TwosComplement | Services/login_service/user_service.pb.cc:973 | A negative int64 is written as its two's complement of 64 bits |
| Wire.ReadGroups | Services/login_service/user_service.pb.cc:900-908 | A reader of any bytes, canonical or not, takes the seven low bits of each byte as a group, up to the first byte without the top bit |
| Wire.ReadExtent | Services/login_service/user_service.pb.cc:900-908 | It takes at least one and at most the allowed number of bytes, leaves the rest as it is and reads no more than they hold |
| Wire.ReadFails | Services/login_service/user_service.pb.cc:900-908 | It fails exactly when no byte within the limit ends the number |
| Wire.Int64VarintLength | Services/login_service/user_service.pb.cc:1013-1016 | An int64 takes at most ten bytes, and ten exactly if it is negative |
| Wire.VarintRoundTrip | Services/login_service/user_service.pb.cc:292-334 | Reading a varint gives the value and the bytes after it |
| Wire.ParseConcat | Services/login_service/user_service.pb.cc:292-334 | Concatenating wire data concatenates its records, for any well-formed first part |
| Wire.ParseRecord | Services/login_service/user_service.pb.cc:310-319 | One byte of field number and wire type before a value is the record of that field |
| Wire.ParseFixed | Services/login_service/user_service.pb.cc:310-319 | Eight bytes follow wire type 1 and four wire type 5 |
| Wire.MalformedTag | Services/login_service/user_service.pb.cc:310-319 | Field number 0, the unused wire types and fixed-size payloads that are cut off are rejected |
| Wire.MalformedVarint | Services/login_service/user_service.pb.cc:310-319 | A varint of more than ten bytes and a length of more than five are rejected |
| Wire.MalformedPayload | Services/login_service/user_service.pb.cc:310-319 | A payload shorter than its length, and a length over INT_MAX, are rejected |
| Codec.UserWireForm | Services/login_service/user_service.pb.cc:372-392 | Position by position: 0A, length and password, then 12, length and email; nothing for an empty string |
| Codec.RequestWireForm | Services/login_service/user_service.pb.cc:683-687 | 0A, length and bytes of the user, even if it has none; nothing without a user |
| Codec.ResponseWireForm | Services/login_service/user_service.pb.cc:957-976 | 0A, length and token, then 10 and the varint of the id; nothing for an empty token or a zero id |
| Codec.UnknownRecordsAreSkipped | Services/login_service/user_service.pb.cc:293-333 | Well-formed records of other fields, or of a known field with another wire type, change no field of a message |
| Codec.ParseUserMerges | Services/login_service/user_service.pb.cc:439-476 | Parsing a serialized User onto another is merging, and fails exactly for invalid UTF-8 |
| Codec.ParseRequestMerges | Services/login_service/user_service.pb.cc:724-750 | The same for LoginRequest with its nested user |
| Codec.ParseResponseMerges | Services/login_service/user_service.pb.cc:1023-1056 | The same for LoginResponse |
| Codec.UserRoundTrip | Services/login_service/user_service.pb.cc:356-401 | parse(serialize(u)) = u exactly if the strings are valid |
| Codec.RequestRoundTrip | Services/login_service/user_service.pb.cc:664-696 | The same for LoginRequest; presence of an empty user is kept |
| Codec.ResponseRoundTrip | Services/login_service/user_service.pb.cc:941-985 | The same for LoginResponse, any int64 id |
| Codec.UserConcatMerges | Services/login_service/user_service.pb.cc:439-476 | Any accepted bytes followed by a serialized User parse to the merge |
| Codec.RequestConcatMerges | Services/login_service/user_service.pb.cc:724-750 | The same for LoginRequest; the nested users merge recursively |
| Codec.ResponseConcatMerges | Services/login_service/user_service.pb.cc:1023-1056 | The same for LoginResponse; an empty token or zero id overwrites nothing |
| Codec.CachedSizeMustBeExact | Services/login_service/user_service.pb.cc:683-687 | The bytes written for a request with a user are the message's exactly if the user's cached size is its true size |
| Messages.User.constructor | Services/login_service/user_service.pb.h:84 | The default message |
| Messages.User.Copy | Services/login_service/user_service.pb.cc:198-222 | Same fields and bits as the source, cached size zero |
| Messages.User.SetPassword | Services/login_service/user_service.pb.h:723-728 | The field has the value and the first bit; nothing else changes; the bit invariant holds |
| Messages.User.MutablePassword | Services/login_service/user_service.pb.h:729-735 | The field is what the caller writes through the pointer at once, the first bit is on |
| Messages.User.WriteKeptPassword | Services/login_service/user_service.pb.h:711-735 | A later write through the pointer keeps the has-bit invariant exactly if the bit is still on or the string is empty |
| Messages.User.ClearPassword | Services/login_service/user_service.pb.h:711-716 | The field is empty and the first bit off; its string stays |
| Messages.User.ReleasePassword | Services/login_service/user_service.pb.h:748-760 | The caller gets the string exactly if the bit was on; the field is empty |
| Messages.User.SetAllocatedPassword | Services/login_service/user_service.pb.h:761-773 | The field is the given string with its bit, or empty without |
| Messages.User.SetEmail | Services/login_service/user_service.pb.h:788-793 | The field has the value and the second bit; nothing else changes; the bit invariant holds |
| Messages.User.MutableEmail | Services/login_service/user_service.pb.h:794-800 | The field is what the caller writes through the pointer at once, the second bit is on |
| Messages.User.WriteKeptEmail | Services/login_service/user_service.pb.h:776-800 | The same for the email |
| Messages.User.ClearEmail | Services/login_service/user_service.pb.h:776-781 | The field is empty and the second bit off; its string stays |
| Messages.User.ReleaseEmail | Services/login_service/user_service.pb.h:813-825 | The caller gets the string exactly if the bit was on; the field is empty |
| Messages.User.SetAllocatedEmail | Services/login_service/user_service.pb.h:826-838 | The field is the given string with its bit, or empty without |
| Messages.User.Clear | Services/login_service/user_service.pb.cc:335-353 | Resetting flagged strings only yields the default message where the has-bit invariant holds, and keeps exactly the strings without a bit; the shared default string is never written |
| Messages.User.MergeFrom | Services/login_service/user_service.pb.cc:439-476 | Non-empty strings overwrite; bits are united; the bit invariant holds |
| Messages.User.CopyFrom | Services/login_service/user_service.pb.cc:478-483 | The message equals its source, itself included |
| Messages.User.InternalSwap | Services/login_service/user_service.pb.cc:486-494 | The messages trade fields and bits |
| Messages.User.InternalSerialize | Services/login_service/user_service.pb.cc:356-401 | Appends exactly the wire form |
| Messages.User.ByteSizeLong | Services/login_service/user_service.pb.cc:404-437 | Returns and caches exactly the number of bytes serializing writes |
| Messages.LoginRequest.constructor | Services/login_service/user_service.pb.h:503 | The default message without a user object |
| Messages.LoginRequest.Copy | Services/login_service/user_service.pb.cc:525-544 | Same observable message with its own user object |
| Messages.LoginRequest.UserView | Services/login_service/user_service.pb.h:856-864 | The user if present; the default one in a message whose has-bit invariant holds; in general whatever object is there |
| Messages.LoginRequest.ClearUser | Services/login_service/user_service.pb.h:850-855 | No user is present and the kept object is the default message, in whatever state it was |
| Messages.LoginRequest.MutableUser | Services/login_service/user_service.pb.h:907-921 | The user is present with the content user() had; an existing object is reused |
| Messages.LoginRequest.ReleaseUser | Services/login_service/user_service.pb.h:879-897 | The caller gets the object, never null if the user was present; the message has none |
| Messages.LoginRequest.SetAllocatedUser | Services/login_service/user_service.pb.h:922-941 | The message has the given user, which is not the one it had, or none for null |
| Messages.LoginRequest.Clear | Services/login_service/user_service.pb.cc:647-661 | No user is present; user() is the default exactly if the user was present or user() was the default before; the has-bit invariant holds exactly if it held |
| Messages.LoginRequest.MergeFrom | Services/login_service/user_service.pb.cc:724-750 | The merge of the two messages; a missing user is copied, one that is there merged, and what a missing one merges with when the has-bit invariant was broken |
| Messages.LoginRequest.CopyFrom | Services/login_service/user_service.pb.cc:752-757 | The message equals its source; when the has-bit invariant was broken, the left-over user is merged with the source's |
| Messages.LoginRequest.InternalSwap | Services/login_service/user_service.pb.cc:760-765 | The messages trade users and bits |
| Messages.LoginRequest.InternalSerialize | Services/login_service/user_service.pb.cc:664-696 | Appends the user with the cached size as its length prefix |
| Messages.LoginRequest.ByteSizeLong | Services/login_service/user_service.pb.cc:699-722 | Returns and caches exactly the serialized size, and caches the exact size of the user |
| Messages.LoginRequest.Serialize | Services/login_service/user_service.pb.cc:683-717 | Sizing and then serializing writes exactly the wire form, of exactly the cached size |
| Messages.LoginRequest.SetKeptPassword | Services/login_service/user_service.pb.h:907-921 | set_password on a user object handed out earlier keeps the has-bit invariant of the request exactly if the request still has its user |
| Messages.LoginRequest.SetKeptEmail | Services/login_service/user_service.pb.h:907-921 | The same for set_email |
| Messages.LoginRequest.KeptUserLaw | Services/login_service/user_service.pb.h:850-921 | Whatever has been done to the object, the has-bit invariant of the request holds exactly if the request has its user, or there is no object, or the object has no bit |
| Messages.LoginRequest.MutableKeptPassword | Services/login_service/user_service.pb.h:729-735 | The same for mutable_password on the kept object |
| Messages.LoginRequest.MutableKeptEmail | Services/login_service/user_service.pb.h:794-800 | The same for mutable_email |
| Messages.LoginRequest.SetAllocatedKeptPassword | Services/login_service/user_service.pb.h:761-773 | set_allocated_password keeps the invariant exactly if the request has its user, or null is set and the object has no other bit |
| Messages.LoginRequest.SetAllocatedKeptEmail | Services/login_service/user_service.pb.h:826-838 | The same for set_allocated_email |
| Messages.LoginRequest.CopyIntoKept | Services/login_service/user_service.pb.cc:478-483 | CopyFrom keeps it exactly if the request has its user or the source has no bit |
| Messages.LoginRequest.SwapKept | Services/login_service/user_service.pb.cc:486-494 | Swapping keeps it exactly if the request has its user or the other message had no bit |
| Messages.LoginRequest.MergeIntoKept | Services/login_service/user_service.pb.h:907-921 | Merging into the object keeps it exactly if the request still has its user, or it held and the merged message has no bit |
| Messages.KeptUserOutlivesClear | Services/login_service/user_service.pb.h:850-864 | mutable_user, set_password, clear_user, set_password, Clear: the request has no user, yet user() shows the last password |
| Messages.KeptStringOutlivesClear | Services/login_service/user_service.pb.h:711-735 | mutable_password, clear_password, a write through the pointer, Clear: the user has no bit, yet password() shows the write |
| Messages.LoginResponse.constructor | Services/login_service/user_service.pb.h:296 | The default message |
| Messages.LoginResponse.Copy | Services/login_service/user_service.pb.cc:789-811 | Same fields and bits as the source, cached size zero |
| Messages.LoginResponse.SetToken | Services/login_service/user_service.pb.h:960-965 | The token has the value and its bit is on |
| Messages.LoginResponse.MutableToken | Services/login_service/user_service.pb.h:966-972 | The token is what the caller writes through the pointer at once, the first bit is on |
| Messages.LoginResponse.WriteKeptToken | Services/login_service/user_service.pb.h:948-972 | The same for the token |
| Messages.LoginResponse.ClearToken | Services/login_service/user_service.pb.h:948-953 | The token is empty and its bit off; its string stays |
| Messages.LoginResponse.ReleaseToken | Services/login_service/user_service.pb.h:985-997 | The caller gets the token exactly if its bit was on |
| Messages.LoginResponse.SetAllocatedToken | Services/login_service/user_service.pb.h:998-1010 | The token is the given string with its bit, or empty without |
| Messages.LoginResponse.SetUserId | Services/login_service/user_service.pb.h:1023-1027 | The id has the value and its bit is on |
| Messages.LoginResponse.ClearUserId | Services/login_service/user_service.pb.h:1013-1018 | The id is zero and its bit off |
| Messages.LoginResponse.Clear | Services/login_service/user_service.pb.cc:924-938 | The default message where the has-bit invariant holds; a token without a bit is kept |
| Messages.LoginResponse.MergeFrom | Services/login_service/user_service.pb.cc:1023-1056 | A non-empty token and a non-zero id overwrite; bits are united |
| Messages.LoginResponse.CopyFrom | Services/login_service/user_service.pb.cc:1058-1063 | The message equals its source |
| Messages.LoginResponse.InternalSwap | Services/login_service/user_service.pb.cc:1066-1074 | The messages trade fields and bits |
| Messages.LoginResponse.InternalSerialize | Services/login_service/user_service.pb.cc:941-985 | Appends exactly the wire form |
| Messages.LoginResponse.ByteSizeLong | Services/login_service/user_service.pb.cc:988-1021 | Returns and caches exactly the number of bytes serializing writes |
| BetServer.RefinesLedger | Services/bet_service/server.go:33-67 | Every interleaving with any failures and lost connections: committed data are the decided calls run one at a time in decision order, each at most once, and every reply is the ledger's at its place or an error explained by none |
| BetServer.RealTimeOrder | Services/bet_service/server.go:27-67 | The order of the ledger respects real time: a call decided before another one arrives comes before it, and keeps its place |
| BetServer.NewBalanceIsLedgerBalance | Services/bet_service/server.go:51-67 | A returned new balance is the ledger balance right after the call's own decision |
| BetServer.DecisionInFull | Services/bet_service/server.go:38-67 | Each decision in full: an unknown user or a balance below the amount changes nothing and is told so; otherwise the amount is taken off the balance, one row with the user, event, amount and outcome of the request is added, and the call is told the new balance, or that the commit failed |
| BetServer.BetsAreRequests | Services/bet_service/server.go:58-59 | Every committed bet has, field by field, the user, event, amount and outcome of the request whose decision added it |
| BetServer.SuccessIsCommitted | Services/bet_service/server.go:58-67 | The bet of a successful call is committed, field by field, and stays so |
| BetServer.ResponseHasCause | Services/bet_service/server.go:33-67 | A success means that every statement worked and the commit reported no error; each failure that the statement it names failed, and a failed commit has a place in the ledger exactly if it was applied |
| BetServer.RequestHasArrived | Services/bet_service/server.go:27 | The request a call works on is the one that arrived |
| BetServer.EveryFailureIsPossible | Services/bet_service/server.go:33-66 | Any request can arrive, every statement can fail, a commit can have each of its outcomes, any transaction can be lost |
| BetServer.ConservationAndSolvency | Services/bet_service/server.go:38-66 | Balance plus committed bets is constant per user, and no balance becomes negative, in every reachable state |
| BetServer.CommittedBetsAreBounded | Services/bet_service/server.go:46-67 | If every call bets at least a > 0 a user has at most floor(initial / a) bets |
| BetServer.RowLocks | Services/bet_service/server.go:38-67 | One call with a living transaction at a time works on a row, finished calls and lost connections hold no lock, and a call that is waited for can step and waits for nobody |
| BetServer.NoDeadlock | Services/bet_service/server.go:33-67 | A call that is not done can step or waits for one that can |
| BetServer.RunsAreBounded | Services/bet_service/server.go:33-67 | All calls together take no more events than one to arrive, seven each, and one for each connection lost |
| BetServer.CallsAreShort | Services/bet_service/server.go:33-67 | Each call takes at most seven events of its own after its arrival, whatever the others do |
| BetServer.OrderAcrossUsers | Services/bet_service/server.go:58-64 | Servers that decided each user's calls in the same order hold the same balances and multiset of bets |
| BetServer.DataStep | Services/bet_service/server.go:41-55 | While a call holds its row lock, the balance it read is the committed balance, whatever the others commit |
| BetServer.DecisionStep | Services/bet_service/server.go:38-67 | A commit, the reading of a balance that does not suffice, and a missing row are single steps of the atomic ledger, whose reply the call gives |
| BetServer.SuccessesAreBets | Services/bet_service/server.go:64-67 | There are no more successful calls than committed bets |
| Ledger.PlaceInFull | Services/bet_service/server.go:41-67 | No row, a balance below the amount, or at least the amount: reply, new balance and new row in each case |
| Ledger.ReplayedBets | Services/bet_service/server.go:58-59 | Bets are only added, and each is, field by field, the one that its request asked for |
| Ledger.ReplayConserves | Services/bet_service/server.go:46-60 | Any sequence of requests conserves balance plus bets per user |
| Ledger.ReplaySolvent | Services/bet_service/server.go:46-48 | Any sequence of requests keeps non-negative balances non-negative |
| Ledger.BetsAreBounded | Services/bet_service/server.go:46-60 | At most floor(initial / a) bets of at least a |
| Ledger.OrderAcrossUsersIsIrrelevant | Services/bet_service/server.go:51-60 | Only the order within each user matters for balances and bets |
| PlaceBet.PlaceBet | Services/bet_service/server.go:27-68 | Whatever falls between the statements, a lost connection included, the call ends with its locks free and a reply that is explained and has its cause; a success only if every statement worked and the commit reported no error, and then the row with the four fields of the request is committed. Alone and without failures: the exact reply, balances and bets for an unknown user, a balance below the amount, and one that suffices |
| PlaceBet.LockRow | Services/bet_service/server.go:38-44 | The balance read is the committed one of the locked row; an error is one the ledger explains |
| PlaceBet.ReadBalance | Services/bet_service/server.go:38-48 | Whatever the others do, the new balance is the ledger's reply on the committed data while the connection lives, and a refusal is the ledger's at the call's place in the order of decisions |
| PlaceBet.WriteBet | Services/bet_service/server.go:50-67 | Whatever the others do, a success needs UPDATE, INSERT and Commit to have worked; it is the last decision, the balance is the new one, and the last row has the user, event, amount and outcome of the request; any other response is explained |
| PlaceBet.Database.AwaitRow | Services/bet_service/server.go:41 | Any events of other calls, then the steps of the lock's holder, failing or not: waiting ends with the row unlocked or the connection lost |
| PlaceBet.SchedulesCoverRuns | Services/bet_service/server.go:33-67 | Whatever other calls can do between two statements, there is a schedule for it |
| PlaceBet.Database.QueryRow | Services/bet_service/server.go:41-44 | Locks and reads the row, or fails, as the machine's Select |
| PlaceBet.Database.ExecUpdate | Services/bet_service/server.go:52-55 | Buffers the new balance, or fails, as it must on a dead connection |
| PlaceBet.Database.ExecInsert | Services/bet_service/server.go:58-62 | Buffers the row with the user, event, amount and outcome of the request, or fails, as it must on a dead connection |
| PlaceBet.Database.CommitTransaction | Services/bet_service/server.go:64-66 | Applies the buffered writes and frees the lock, or fails with or without applying them, and without on a dead connection |
| PlaceBet.Database.RollbackTransaction | Services/bet_service/server.go:38 | Drops the buffered writes and frees the lock |
| BetGun.CompletedGap | Services/bet_service/betgun/betgun.go:83-98 | Completed exceeds the three outcomes by exactly the workers between their two additions: at most all, none once all have exited |
| BetGun.CountersByOutcome | Services/bet_service/betgun/betgun.go:89-98 | The same, outcome by outcome |
| BetGun.LatencyCoverage | Services/bet_service/betgun/betgun.go:86-131 | Drained plus current latency is the sum over all timed calls; between reports every drained completion has had its own latency drained; each call counts once |
| BetGun.AllCallsCounted | Services/bet_service/betgun/betgun.go:52-66 | Once all workers have exited every call sent has been timed and completed exactly once |
| BetGun.LatencyFirstStep | Services/bet_service/betgun/betgun.go:86-129 | Each operation keeps: latencies are added before and swapped after the completions they belong to |
| BetGun.FireEnds | Services/bet_service/betgun/betgun.go:52-66 | After the context is cancelled the workers do exactly the operations they have before them, and when none is left all have exited |
| BetGun.ReporterEnds | Services/bet_service/betgun/betgun.go:119-122 | Once the context is cancelled the reporter can return between two ticks, and then swaps nothing any more |
| BetGunCode.Generator.SendOne | Services/bet_service/betgun/betgun.go:83-99 | The call's latency and outcome are recorded whatever the others do; alone it adds its latency and one to each of two counters |
| BetGunCode.Generator.ReportTick | Services/bet_service/betgun/betgun.go:124-132 | After the tick every reported completion is covered; the average in ms, times the calls swapped out, times a million, is the nanoseconds swapped out, and 0 without calls; the three outcomes are what was swapped out. Alone it reports the counters and leaves zeros, except latencies without a completion |
| BetGunCode.SchedulesCoverRuns | Services/bet_service/betgun/betgun.go:52-66 | Whatever the other goroutines can do between two operations, there is a schedule for it |
| Campaign.SuccessesAreBounded | Services/bet_service/betgun/betgun.go:94-112 | Over any run of generator and server the successes counted are at most the sum of floor(initial balance) over the distinct configured users |
| Campaign.BetsAreGenerated | Services/bet_service/betgun/betgun.go:102-112 | Every bet committed in a run is for a configured user, event_1, amount 1.0, outcome home |
| Campaign.Projections | Services/bet_service/betgun/betgun.go:82-112 | Generator and server together do only what each does alone, and the outcomes counted are the server's answers |

## Left out

- gRPC, pqxx, pgx, sockets, timers and signals: replaced by events of the environment.
- The constant answers behind `NOOP_FLAG` and `noopMode`: nothing to state.
- IEEE rounding, NaN and infinities in amounts and balances, and the column type of the balance: money is exact.
- int64 overflow of BetGun's counters and of the nanosecond sum: counters are unbounded.
- Registering or finishing on a completion queue after its Shutdown call: taken to be delivered as a false event; what the runtime does beyond that is not part of this model.
- An exception thrown by `set_token` after `set_user_id` has run: exceptions are modelled up to the conversion of the row.
- A sub-message over 2 GiB: parsing rejects a longer length, so the round-trip and merge lemmas take messages of at most INT_MAX bytes; the cached size is an unbounded number.
- Messages.User.WriteKeptPassword: what mutators other than Clear do to a message once such a write has broken its own has-bit invariant is not stated. The same holds for WriteKeptEmail and WriteKeptToken.
- Memory of message objects: deleting the previous object in `set_allocated_user` and in the destructors is not modelled.
- Protobuf arenas, unknown fields (skipped by the parser), groups, reflection, descriptors and debug-hardening branches.
- ConnectionPool.PooledConnection.constructor: the wait ends with the first connection another thread gives back; a third thread taking it first is in PoolMonitor and AsyncUserService.
- AsyncUserService.AsyncUserService.WorkerLoop: the schedule of the others is finite, so the loop is followed up to any point of a run; it returns there when nothing but a new request could wake it.
- Endless loops of `worker` and `report` in betgun.go: one iteration each as code, any number of them as events of BetGun.
- Closing of connections, and the destructor of the pool.
- The synchronous UserService, Client/, Server/, the database filler and the generated stubs: I/O, data or the same patterns in an easier form.
