# A verified model of the Hive Metastore client

The client talks to a set of Hive Metastore endpoints over Thrift. This project models
the parts of it where correctness is hard to see from the code, and proves what they
promise:

- **The connection pool and its shutdown** (`Pool`, `PoolInvariant`, `PoolSafety`,
  `PoolAcquire`, `PoolWaiting`, `PoolShutdown`, `PoolWitnesses`). Every interleaving of callers, of `Close` and of the recovery probe is
  a run of a state machine whose steps are the atomic actions of the code: a channel
  operation, an atomic operation, a mutex section, a dial, a call. Dials, calls, contexts
  and ticks are arbitrary choices.
- **The Kerberos session and the per-call deadline** (`KerberosSession`, `ContextClient`).
  Two more concurrent protocols, over every interleaving.
- **Endpoint selection, connecting and retrying** (`Cluster`, `Connect`, `Retry`,
  `Failover`), over
  every sequence of calls, clock, jitter, dial result and call result; and the error trees
  whose classification drives them (`Errors`).
- **The SASL transport** (`Bytes`, `SaslFraming`, `SaslHandshake`, `GssTokens`): data
  framing, the negotiation against an arbitrary server, and Kerberos token arithmetic.
- **Data that must agree with a simple reading of it**: chunked streams (`Streaming`),
  shared column lists (`ColumnIntern`), partition names (`PartitionNames`) and the test
  metastore's lock manager (`LockManager`).

Code that changes things step by step is imperative here too: classes, arrays and loops,
each method proved against a function of its inputs or of the old state, about which the
promises are then proved. `Arithmetic`, `Counting` and `Wrappers` hold helpers.

Where the code falls short of what its comments say, the model follows the code, shows the
failing case and proves exactly when the promise holds:

- `WithPoolSize` calls its value a maximum (options.go:215-217), but a probe's donation is
  not checked against it: `LiveCanExceedPoolSize`, `PoolSizeKeptIff`,
  `PoolSizeKeptThroughoutIff`.
- A caller blocked in `acquire` is not woken by the discard that makes room for it:
  `BlockedCallerIsNotWoken`. It is woken exactly by a connection put into its endpoint's
  pool or by Close: `WokenIff`, `BlockedThroughoutIff`.
- `ContextClient` is said to start from a clean slate after a SASL handshake
  (internal/transport/binary.go:126-128), but the handshake stops its cancellation
  callback without waiting for one that has started (internal/transport/binary.go:200-203),
  and that callback's write can land on the deadline of a later RPC: `HandshakeCanBreakLaterCall`. Deadlines are owned in every
  run exactly when every user of the connection waits, and in one run exactly when no late
  write meets a call: `OwnershipIffAllWait`, `KeptThroughoutIff`.
- `columnKey` is said to keep different column lists apart (convert.go:449-453). It does
  for lists without the separators; against any list it does only for a single column
  without NUL; and a batch is converted correctly exactly when its lists have keys that
  tell them apart: `KeyIsInjective`, `KeyIdentifiesIff`, `ConvertBatches`.
- A sentinel forced by `wrapAs` is not always what the error classifies as:
  `WrapAsCanLose`, `WrapAsForcesClassIff`.
- A client is expected to poll `CheckLock` until a lock clears (hmstest/acid.go:153-158),
  but a waiting lock is never granted: `WaitingLocksStayWaiting`. And `Lock` looks for
  conflicts in one direction only: `SharedThenExclusive`, `LockKeepsExclusionIff`, `ExclusionThroughoutIff`.
- An empty partition value and the literal default name collide: `EmptyCollidesWithDefault`,
  `NamesEqualIff`.

`dafny verify dfyconfig.toml` checks the whole project.

## Model

| member | source | states |
|---|---|---|
| `PoolInvariant.StepKeepsInv` | client.go:254-427 | every atomic step of a caller, a Close or the probe keeps the pool's invariant: mutex ownership, the live and in-flight counts, the one place of every connection, capacity, drained pools, session use, condemned connections |
| `PoolSafety.ReachableInv` | client.go:155-186 | from the state New leaves, with one connection in one pool, the invariant holds in every reachable state |
| `PoolSafety.LiveIsAccountedFor` | client.go:324-427 | in every interleaving live is exactly idle plus the reservations, loans and connections being offered or closed; idle fits the pool; live exceeds the pool size by at most the donations the pool has accepted from the probe |
| `PoolSafety.ConnectionsAreExclusive` | client.go:324-427 | no connection is ever in two hands, in a hand and a pool, or twice in the pools; none in use has been closed; none is closed twice |
| `PoolAcquire.AcquireAlone` | client.go:324-383 | on an open client an acquire left to itself takes the oldest idle connection if there is one, else reserves a place and dials if live is below the pool size, else waits |
| `PoolAcquire.WaitsOnlyWhenFull` | client.go:341-344 | in every interleaving a caller comes to wait only where live has reached the pool size |
| `PoolAcquire.DialLoans` | client.go:363-372 | a dial that succeeds ends on loan to its caller with its place kept |
| `PoolAcquire.DialFails` | client.go:363-370 | a dial that fails gives its place back and finishes the caller |
| `PoolAcquire.ProbeSettles` | client.go:596-627 | the probe donates a connection exactly when its status call succeeded, the client is open and the pool has room; any other it closes, with live as before |
| `PoolAcquire.ProbeTriesWhatCools` | client.go:567-600 | over every run the endpoints the probe dials are those its ticks found cooling, each once and in order, up to those still to try |
| `PoolAcquire.CloseReturnsAfterProbe` | client.go:254-283 | every Close, first or later, returns only once the probe goroutine has exited |
| `PoolSafety.PoolSizeKeptIff` | client.go:605-625 | a step keeps live within the pool size if and only if it is not a probe donation to an endpoint already at its maximum |
| `PoolSafety.PoolSizeKeptThroughoutIff` | client.go:605-625 | over every run from New, live stays within the pool size throughout if and only if no step is such a donation |
| `PoolWitnesses.LiveCanExceedPoolSize` | client.go:605-625 | a concrete run reaches two live connections with a pool size of one |
| `PoolWitnesses.BlockedCallerIsNotWoken` | client.go:375-427 | a concrete run leaves a caller waiting with nothing live, nothing idle and nobody running, and only its own context can move it |
| `PoolWaiting.WokenIff` | client.go:375-427 | somebody else's step lets a blocked caller move without its own context if and only if it is a release at its endpoint that finds room, the probe's send there that finds room, or the first Close |
| `PoolWaiting.MakingRoomWakesNobody` | client.go:418-427 | no step that lowers the endpoint's live count wakes a blocked caller |
| `PoolWaiting.BlockedThroughoutIff` | client.go:375-427 | over every run of the others, a blocked caller can do nothing but wait for its context throughout if and only if no such waking step occurs |
| `PoolSafety.PoolsStayEmptyAfterClose` | client.go:254-318 | once Close's critical section has ended, every pool is empty then and in every later state of every run |
| `PoolSafety.NothingLeaksAfterClose` | client.go:254-427 | however Close interleaves, when all have finished live is 0 everywhere and every connection ever dialed was closed exactly once |
| `PoolSafety.ShutdownIsNeverStuck` | client.go:254-300 | in every reachable state of a closed client with somebody unfinished, somebody can move without a context ending or a tick: the waits on mutex, probe and dials cannot deadlock |
| `PoolShutdown.ShutdownIsBounded` | client.go:254-427 | every run of a closed client by the actors already there, the probe's ticker quiet, is no longer than a measure of its first state: compare-and-swap retries, drains and probe sweeps all end |
| `PoolShutdown.ShutdownCompletes` | client.go:254-427 | from any reachable closed state such a run comes to rest within that bound, and at rest everybody has finished, live is 0, every connection was closed once and the session was released |
| `PoolSafety.IdleIsAllThatIsLive` | client.go:392-427 | without a Close, when callers have finished live equals the idle count, and every other connection dialed has been closed once |
| `PoolSafety.SessionReleasedSafely` | client.go:254-300 | the Kerberos session is released at most once, and then no dial that could read it is running and the probe is gone |
| `PoolSafety.SessionReleaseIsLast` | client.go:254-300 | the releasing step happens only with no dial in flight, the probe gone and all pools empty |
| `PoolSafety.FinishedCloseReleased` | client.go:254-300 | a closed client whose actors have all finished has released the session |
| `PoolSafety.FailedConnIsNeverReused` | client.go:524-558 | after a call on a connection returned an unavailable or protocol error, in no later state is that connection idle or on loan |
| `PoolSafety.ReleasedConnIsPooled` | client.go:392-413 | on an open client whose endpoint is within the pool size, a released connection always finds room and goes back to the pool, open |
| `PoolSafety.AnsweredConnIsPooled` | client.go:524-558 | after any outcome that is neither unavailable nor a protocol error, whatever others do before the release, the connection ends idle and unclosed if the client is then open and the endpoint within the pool size |
| `KerberosSession.Session.Begin` | internal/transport/gssapi.go:190-199 | an acquisition is accepted and counted exactly when the session is open |
| `KerberosSession.Session.End` | internal/transport/gssapi.go:202-210 | one fewer pending, and destroy is owed exactly when closed and nothing is left |
| `KerberosSession.Session.Close` | internal/transport/gssapi.go:165-177 | closed, and destroy is owed exactly when nothing is pending |
| `KerberosSession.StepKeepsInv` | internal/transport/gssapi.go:165-210 | every step keeps: pending counts the acquisitions, one Close is inside the once, destroy is owed or paid exactly when closed with nothing pending |
| `KerberosSession.DestroyIsSafe` | internal/transport/gssapi.go:165-210 | in every run, once destroy has been called no acquisition is or becomes pending and Destroy has run exactly once |
| `KerberosSession.DestroyRunsExactlyOnce` | internal/transport/gssapi.go:165-210 | in every run in which Close was called and all have finished, Destroy ran exactly once |
| `KerberosSession.CredentialsIntactUntilThen` | internal/transport/gssapi.go:418-455 | while the session is open or an acquisition is pending, Destroy has not run |
| `ContextClient.CallsOwnTheirDeadline` | internal/transport/ctxclient.go:36-66 | on a connection without a SASL handshake, where every user waits for its callback, over every sequence of calls and timing of cancellations a call on the wire runs under a deadline it or its own callback set, and no callback writes after its call returned |
| `ContextClient.CallRunsUnderContextDeadline` | internal/transport/ctxclient.go:37-45 | a call reaches the wire under its context's deadline if that has one, else under a positive timeout, else under none, whatever was left on the connection |
| `ContextClient.HandshakeCanBreakLaterCall` | internal/transport/binary.go:192-203 | on a connection with a SASL handshake, which does not wait, a concrete run puts an uncancelled RPC under the already passed deadline of the handshake's callback |
| `ContextClient.StopAloneIsNotEnough` | internal/transport/binary.go:200-203 | whichever user of the connection only stops its callback, some run breaks the call after it |
| `ContextClient.OwnershipIffAllWait` | internal/transport/ctxclient.go:46-58 | deadlines are owned in every run if and only if every user of the connection waits for a callback that has started |
| `ContextClient.KeptThroughoutIff` | internal/transport/ctxclient.go:36-66 | whoever waits, every call keeps its own deadline throughout a run if and only if no callback of an earlier call writes while it relies on it |
| `Cluster.MakeOrder` | internal/ha/cluster.go:56-69 | the in-place shuffle computes the order the draws determine, or list order |
| `Cluster.PickOrderIsPermutation` | internal/ha/cluster.go:56-69 | for every sequence of draws the pick order is a permutation, and list order when not random |
| `Cluster.EveryOrderIsPossible` | internal/ha/cluster.go:61-69 | every permutation is the shuffle's result for some draws |
| `Cluster.Invert` | internal/ha/cluster.go:70-73 | posOf is the inverse of the order |
| `Cluster.Cluster.Pick` | internal/ha/cluster.go:93-105 | the cyclic scan: answer and new state are those of Picked |
| `Cluster.Cluster.MarkFailed` | internal/ha/cluster.go:118-147 | new cooldown, doubled ceiling and advanced position are those of MarkedFailed; reports whether the endpoint was available |
| `Cluster.Cluster.MarkHealthy` | internal/ha/cluster.go:158-167 | clears cooldown and ceiling and nothing else; reports whether the endpoint was cooling |
| `Cluster.Cluster.Cooling` | internal/ha/cluster.go:170-183 | exactly the cooling endpoints, ascending |
| `Cluster.ScanFailsIffAllCool` | internal/ha/cluster.go:93-105 | a scan from anywhere fails if and only if every endpoint is cooling |
| `Cluster.PickIsFirstAvailable` | internal/ha/cluster.go:93-105 | Pick returns the first endpoint not cooling in cyclic order from the active one and makes it active; it fails, unchanged, if and only if all are cooling |
| `Cluster.PickIsSticky` | internal/ha/cluster.go:93-105 | after a Pick, every later Pick returns the same endpoint until a MarkFailed, whatever else is called and however time advances |
| `Cluster.FailureAdvances` | internal/ha/cluster.go:118-147 | after a failure the active endpoint is the first one not cooling after the failed one, wherever the active one was; if all cool it stays |
| `Cluster.FailureCoolsExactly` | internal/ha/cluster.go:118-192 | a failure cools its endpoint until its jitter has passed, to the instant, and touches no other endpoint |
| `Failover.NextPicksAvoidFailed` | internal/ha/cluster.go:93-147 | after an endpoint fails while another is free, every Pick until the next failure returns one and the same endpoint, and not the failed one, however time advances |
| `Failover.FailedIsPickedAgainIff` | internal/ha/cluster.go:118-147 | at once after its failure an endpoint is picked again if and only if its jitter left it free and every other endpoint is cooling |
| `Failover.RetryGoesElsewhere` | client.go:491-561 | within one call, whenever an endpoint is marked failed while another is free and the loop goes on, the next attempt picks another endpoint |
| `Cluster.BackoffFollowsHistory` | internal/ha/cluster.go:118-167 | in every run an endpoint's backoff depends only on its failures since it was last healthy and the time of the last |
| `Cluster.CooldownIsBounded` | internal/ha/cluster.go:118-210 | after k such failures the ceiling is min(2^(k-1) s, 30 s) and the cooldown ends within it, so 30 s after its last failure an endpoint is available again |
| `Connect.DialFirst` | client.go:155-178 | for every shuffle, clock and jitter, attempt k dials the k-th endpoint of the order; dialing stops at the first that answers, and fails if and only if all n were dialed once and refused |
| `Connect.DialAll` | client.go:155-178 | the same from any fresh cluster, for the loop alone |
| `Errors.ClassifyFollowsTable` | errors.go:147-273 | an error that wraps nothing gets the class of its row in the client's documented table, and is a protocol error exactly for TProtocolException |
| `Errors.ClassifyIsDecisiveKind` | errors.go:147-273 | any error tree gets the table row of one of its kinds: of those the switch looks for earliest, the first in pre-order |
| `Errors.FirstIsPreorder` | errors.go:147-273 | the searches of errors.As and errors.Is find the first match of the tree's pre-order |
| `Errors.ContextKeepsClass` | errors.go:147-273 | adding context with %w changes neither class nor protocol-error status |
| `Errors.WrapErrorKeepsClass` | errors.go:123-132 | wrapError changes neither, for any error tree; the class is reachable by errors.Is, and the wrapper carries the operation |
| `Errors.WrapErrorIdempotent` | errors.go:123-132 | an error is wrapped at most once, keeping the first operation |
| `Errors.WrapAsViews` | errors.go:139-144 | a wrapper adds its sentinel to what every search of the tree finds, and nothing else |
| `Errors.WrapAsForcesClassIff` | errors.go:139-144 | a forced sentinel is the error's class if and only if the cause's shape says nothing else and no sentinel of the cause is tested before it |
| `Errors.WrapAsCanLose` | errors.go:139-144 | forcing ErrInvalidOperation on an io.EOF yields an error that classifies as unavailable |
| `Errors.JoinUnavailableIs` | client.go:494-498 | the error for "every endpoint is cooling" is ErrUnavailable whatever it joins, wrapped or not |
| `Errors.JoinKeepsCause` | client.go:494-498 | everything else is found in that error exactly as in the last failure |
| `Retry.RunAttempt` | client.go:497-558 | one attempt logs exactly the outcome its environment decided, disposes of its connection once and as that outcome demands, cools its endpoint exactly for a failure of its own under a live context, asks for another attempt exactly when the outcome allows one, and else ends with the answer or with its own error wrapped |
| `Retry.Do` | client.go:491-561 | the loop's result, stored value and events are those of the recursive specification for every schedule |
| `Retry.DoKeepsItsPromises` | client.go:491-561 | for every schedule: the outcomes are those of the schedule's attempts in order, going on exactly as long as they allow; at most maxRetries attempts; a non-idempotent fn starts at most once; every connection disposed of once, discarded exactly when its state is unknown; endpoints cooled and healed exactly for their own outcomes; nil exactly when the last run returned nil, else the last failure wrapped |
| `Retry.DoAnswersIff` | client.go:491-561 | a call succeeds if and only if some attempt within the limit answers and every one before it fails in a way that allows another, and the value is that attempt's |
| `SaslFraming.Transport.Read` | internal/transport/sasl.go:254-278 | delivers the next 1 to n octets of the payload stream across any framing, skipping empty frames; fails exactly at the stream's end, with its reason |
| `SaslFraming.ReadMany` | internal/transport/sasl.go:230-278 | for any buffer sizes the reads deliver the payload stream in order, all of it if a read fails |
| `SaslFraming.Transport.Write` | internal/transport/sasl.go:281 | appends to the buffer, touching nothing else |
| `SaslFraming.Transport.Flush` | internal/transport/sasl.go:286-306 | sends the buffer as one frame and empties it; too large, empty, and partly accepted cases keep or drop exactly what the code does |
| `SaslFraming.FlushOutcome` | internal/transport/sasl.go:286-306 | whatever the inner transport does: too large changes nothing; else the wire gains a prefix of the one frame and the buffer is kept unless that is all of it; success exactly when the frame went out whole and the inner flush succeeded |
| `SaslFraming.ParseFrames` | internal/transport/sasl.go:254-278 | any sequence of frames, empty ones included, carries the concatenation of its payloads |
| `SaslFraming.WireIsFramed` | internal/transport/sasl.go:281-306 | any pattern of writes and flushes puts only non-empty frames within the limit on the wire; they and the buffer are exactly what was written |
| `SaslFraming.StreamIsLossless` | internal/transport/sasl.go:254-306 | what a receiver can read plus the sender's buffer is exactly what was written |
| `SaslFraming.FlushDeliversAll` | internal/transport/sasl.go:286-306 | a flush within the limit makes all of it readable |
| `SaslHandshake.NextInvertsNegotiation` | internal/transport/sasl.go:192-225 | a negotiation frame is read as (status, payload) if and only if those octets encode it within the limit |
| `SaslHandshake.Negotiator.Receive` | internal/transport/sasl.go:211-225 | reads and uses up exactly the next frame |
| `SaslHandshake.Negotiator.OpenContext` | internal/transport/sasl.go:133-179 | against every server it ends; a PLAIN run sends credentials the server reads back as user and password and reads at most one frame, a GSSAPI run reads at most three, each a prefix of its one script; it opens if and only if the script is completed; a BAD or ERROR is reported with its message; a GSSAPI mechanism that has run before does not open |
| `SaslHandshake.GssapiFollowsScript` | internal/transport/gssapi.go:335-368 | AP_REQ sent, AP_REP verified, layer selected with the key that AP_REP settles, COMPLETE received, in that order and no other |
| `SaslHandshake.PlainFollowsScript` | internal/transport/sasl.go:92-103 | one response carrying NUL, user, NUL, password, at most one frame read, open exactly on COMPLETE, used before or not |
| `SaslHandshake.PlainReadsBackIff` | internal/transport/sasl.go:92-98 | a reader that cuts the response at its first two NULs gets no authorization identity, the user and the password, if and only if the user has no NUL (section 2 of RFC 4616) |
| `SaslHandshake.SelectLayerIff` | internal/transport/gssapi.go:528-545 | an offer is answered if and only if it unwraps to four octets that offer authentication alone, and the answer is the wrapped 1, 0, 0, 0 |
| `SaslHandshake.UsedGssapiNeverOpens` | internal/transport/gssapi.go:340-368 | a GSSAPI mechanism past its first stage fails its next handshake at once, because no empty token verifies or unwraps |
| `SaslHandshake.HandshakeReports` | internal/transport/sasl.go:155-175 | the error is a rejection if and only if the last frame was BAD or ERROR, and carries that frame's message |
| `SaslHandshake.GssapiOpensIff` | internal/transport/gssapi.go:335-368 | GSSAPI opens if and only if the server's octets are an AP_REP that verifies, an acceptable security layer offer and COMPLETE, in that order (section 3.1 of RFC 4752) |
| `GssTokens.Unrotate` | internal/transport/gssapi.go:623-637 | fills a copy with the rotation undone and the count cleared; refuses a token shorter than its header |
| `GssTokens.UnrotateUndoesRotation` | internal/transport/gssapi.go:623-637 | undoes right rotation, octet by octet, for every payload and every count, larger than the data included (section 4.2.5 of RFC 4121) |
| `GssTokens.EveryTokenIsARotation` | internal/transport/gssapi.go:623-637 | rotating the result by the token's own count gives the token back |
| `GssTokens.DerContent` | internal/transport/gssapi.go:685-710 | accumulates the length octets into the content's length, with the code's refusals |
| `GssTokens.ContentIff` | internal/transport/gssapi.go:685-710 | content is returned if and only if the octets are an identifier, a short or 1 to 4 octet long-form length of it, the content, and anything |
| `GssTokens.ParseKrb5Token` | internal/transport/gssapi.go:663-680 | returns the identifier and message of a context token in any accepted length form, whatever follows it, and fails exactly on octets that are no such token |
| `GssTokens.ParseIff` | internal/transport/gssapi.go:663-680 | an identifier and message are returned if and only if the token is their wrapper (section 3.1 of RFC 2743) |
| `GssTokens.TokenRoundTripIff` | internal/transport/gssapi.go:645-680 | parsing inverts wrapping, trailing octets ignored, if and only if the body is shorter than 2^32 |
| `GssTokens.LengthOctetsAreDer` | internal/transport/gssapi.go:645-655 | lengths are written in DER's one form: a single octet below 128, else a count and that many octets without a leading zero |
| `Streaming.Sequence` | partition.go:166-230 | GetPartitionsSeq, and GetTablesSeq alike: the trace is that of the specification for every schedule, context and consumer |
| `Streaming.ConsumerSeesFeed` | table.go:135-191 | the consumer sees the chunks' answers concatenated in name order up to its stop, and otherwise exactly the one error that ended them |
| `Streaming.SequenceObeys` | partition.go:183-228 | the listing and every chunk are retried reads under their own schedules; chunks ask for the next names in order, full ones but the last, under a live ctx and only when all earlier items were handed over; an item of chunk j comes after exactly j+1 chunk reads and is the next one; nothing follows a stop or an error, and the error is ctx's or the last read's; no connection is on loan outside a read |
| `Streaming.ReadsAreRetried` | client.go:445-447 | a read of the sequence succeeds if and only if some attempt within the limit answers after failures an idempotent call is retried for, and its items are that answer |
| `Streaming.CutIsFirstStop` | partition.go:223-227 | stopping keeps everything up to the first item after which the consumer stops |
| `Streaming.HandOver` | partition.go:223-227 | the yield loop hands over exactly that prefix |
| `Streaming.BulkRead` | partition.go:380-411 | GetPartitionsByNames' and GetTables' chunk loop returns all answers or the first error |
| `Streaming.StreamAgreesWithBulk` | table.go:68-98 | a stream that meets no error holds exactly what the single call returns from the same server |
| `ColumnIntern.BuildKey` | convert.go:454-465 | the loop builds Key |
| `ColumnIntern.KeyIsInjective` | convert.go:454-465 | lists without NUL in any field and SOH in any comment have equal keys only if they are equal |
| `ColumnIntern.KeyIdentifiesIff` | convert.go:454-465 | against arbitrary lists, a key belongs to one list if and only if that list is a single column without NUL |
| `ColumnIntern.Interner.Intern` | convert.go:473-484 | returns the slice kept for the key, or keeps a fresh conversion; nil for an empty list; the contents are right for separable lists |
| `ColumnIntern.Interner.ConvertBatch` | convert.go:837-846 | for any lists, each result is the table's one slice for the list's key, which later batches keep, and new entries are the batch's own lists |
| `ColumnIntern.Interner.ConvertBatches` | convert.go:837-846 | for any batches, two lists come back as one slice if and only if they have one key; from an empty interner all contents are those of plain conversion if and only if no two different inputs share a key, which holds for all separable inputs |
| `PartitionNames.Escape` | partname.go:54-69 | the result holds no reserved, control or DEL octet and only whole %XX escapes, and reads back as the part |
| `PartitionNames.PartitionName` | partname.go:29-44 | an error exactly when the lengths differ; else a name that decodes to the lower-cased keys and the values, "" replaced by the default name |
| `PartitionNames.EscapedNormal` | partname.go:54-87 | escaping is undone by decoding %XX up to the default name for "", and leaves no separator |
| `PartitionNames.EscapedIsSafe` | partname.go:78-87 | an escaped part holds none of the reserved characters, every percent sign starts an upper-case escape, and a part with nothing reserved is left as it is |
| `PartitionNames.DefaultSpells` | partname.go:12 | the default name |
| `PartitionNames.DecodeInverts` | partname.go:29-87 | splitting on / and = and undoing %XX recovers every key and value in order |
| `PartitionNames.NamesEqualIff` | partname.go:29-87 | two names are equal if and only if their keys and values are, after "" becomes the default name |
| `PartitionNames.ValuesDecideName` | partname.go:29-87 | the same for two value lists under one key list, whatever lower-casing does |
| `PartitionNames.EmptyCollidesWithDefault` | partname.go:54-57 | "" and the literal default name give the same name |
| `LockManager.OverlapIffCommonResource` | hmstest/acid.go:224-259 | components overlap if and only if they cover a common resource; overlap is symmetric |
| `LockManager.Acid.OpenTxns` | hmstest/acid.go:70-87 | hands out the next n ids, one at least, all open |
| `LockManager.Acid.CommitTxn` | hmstest/acid.go:92-107 | forgets an open transaction; refuses an unknown and an aborted one |
| `LockManager.Acid.AbortTxn` | hmstest/acid.go:112-123 | marks a known transaction aborted, again if need be; refuses an unknown one |
| `LockManager.Acid.HasExclusiveConflict` | hmstest/acid.go:201-213 | scanning in any order, true exactly when an acquired EXCLUSIVE component overlaps |
| `LockManager.Acid.Lock` | hmstest/acid.go:171-196 | rejects an UNSET operation in a transaction, changing nothing; else records the request whole, waiting exactly on a conflict |
| `LockManager.Acid.CheckLock` | hmstest/acid.go:263-274 | answers the recorded state |
| `LockManager.Acid.Unlock` | hmstest/acid.go:277-288 | forgets a known lock |
| `LockManager.LockGrantedIff` | hmstest/acid.go:171-213 | a request waits if and only if an acquired lock holds, exclusively, a resource it asks for; it is refused, changing nothing, exactly for an UNSET operation in a transaction; no other lock changes |
| `LockManager.LockLivesUntilUnlocked` | hmstest/acid.go:263-288 | in every run a lock is answered with the state it was given until it is unlocked, and is unknown from then on |
| `LockManager.EarlierExclusivesAlwaysHold` | hmstest/acid.go:171-213 | in every reachable table no acquired lock overlaps an EXCLUSIVE component of an earlier acquired one |
| `LockManager.LockKeepsExclusionIff` | hmstest/acid.go:171-213 | a request keeps mutual exclusion if and only if it waits or no acquired lock, shared ones included, overlaps its EXCLUSIVE components |
| `LockManager.ExclusionThroughoutIff` | hmstest/acid.go:171-213 | over whole runs, mutual exclusion holds throughout if and only if no request was granted over an acquired lock that overlaps its EXCLUSIVE components |
| `LockManager.SharedThenExclusive` | hmstest/acid.go:171-213 | a shared and then an exclusive lock on one table are both acquired |
| `LockManager.WaitingLocksStayWaiting` | hmstest/acid.go:263-288 | in every run a waiting lock is answered as waiting until it is released |
| `LockManager.TransactionsEndForGood` | hmstest/acid.go:70-123 | in every run as many ids as asked for, one at least, are handed out in order and never twice; exactly the open ones commit; a committed one is unknown ever after, an aborted one never commits |

## Left out

- Fairness among waiters in `acquire`, and wall-clock time: the code does not promise the first, and runs here are sequences of steps.
- Failover.RetryGoesElsewhere: the call is alone on the cluster; another caller's failure between two attempts may move the active endpoint back.
- The pool is a state machine rather than a class, because its promises are about interleavings; the memory model below atomic operations, channels and mutexes is taken as sequentially consistent.
- The errors that Close joins, logging, the RPC observer and the RPC timeout arithmetic.
- Close called from inside a call's own function, and a panic in it.
- `DropDatabase` may report an earlier error than the last one on its connection (client.go:1028-1031); a call here is judged by the error it returns.
- What a single `ContextClient` call returns, which is the inner client's answer or the context's error.
- Errors with their own `Is` or `As` methods, and nil errors inside a join.
- TLS, HTTP and binary dialing, URI parsing, and the generated Thrift bindings.
- Kerberos cryptography, ticket acquisition, and the checks inside `verifyAPRep` and `unwrap` other than rotation and wrapping: which tokens verify is a parameter of the handshake.
- SaslHandshake.Negotiator.OpenContext: a frame that is too large to send and an inner transport that refuses it are one failure.
- SaslFraming.Transport.Read: the inner transport ends with end of file; other read errors, which end the stream in the same way under another name, are not told apart.
- The DER helper of the Kerberos library is modelled by DER's rules for definite lengths; Go's `int` is taken to have 64 bits.
- Mutation of a shared column slice by its receivers, which the documentation forbids, and nil column entries.
- The other fields of partitions and tables, and their conversions, which copy field by field.
- Streaming.Sequence: the fallback from the request form of an RPC to its legacy form is part of one attempt's outcome.
- `strings.ToLower` is an arbitrary function of the key.
- LockManager.Acid.OpenTxns: ids do not wrap around at 2^63; Heartbeat only validates ids and is not modelled.
- The rest of the test metastore, notifications, statistics, formats and version parsing: single-branch handlers and field copies, about which nothing spans more than one body.
