# Notification service: a verified model

A Dafny model of the service's stateful and textual core, with proofs about it. `dafny verify dfyconfig.toml` checks everything. The model covers:

- **The send pipeline** (`SendLog`, `SendProtocol`, `SendTheorems`, `SendReplay`, `SendConservation`, `SendService`). Any number of clients run `Send` over one send-log table. Each SQL statement, provider call and purge is one atomic step. A statement may fail with or without having taken effect, and the result of a failed `MarkResult` is dropped, as in the code. The theorems quantify over all runs of that state machine. The classes in `SendService` are the code's statement sequences, proved to be executions of it.
- **The inbox** (`Inbox`, `InboxRuns`, `InboxRetention`, `InboxService`, `Paging`, `Cursors`, `TimeText`, `Calendar`, `Uuids`, `Consumer`). The table, its partial unique index, keyset pages, cursor texts down to the byte, and the event consumer that fills it.
- **Rate limiting** (`Counters`, `FixedWindow`, `TokenBucket`, `RateLimiters`, `LimiterBound`). INCR and EXPIRE NX as separate interleaved steps, token buckets in a bounded LRU cache, and the key families.
- **Request signing and parsing** (`GatewayCanonical`, `GatewayNonce`, `GatewayVerifier`, `EventCanonical`, `ServiceTokens`).

## Conventions

Strings are byte sequences, except in `ServiceTokens`, where a char is a code point. UUIDs are numbers below 2^128. Instants are integer nanoseconds since 1970, and token-bucket times are real seconds. There is one clock per run. Fresh ids are assumed where the code calls `uuid.New`: `id !in births` in the send protocol, and `FreshIds`, `FreshSchedule` and `NoIdReturns` in the inbox.

HMAC, SHA-256 and the sanitizing of error texts are function parameters, with no assumption about collisions. JSON, template rendering and providers are outcomes chosen by the environment. Client clocks, random ids and statement faults are parameters.

## What the proofs found

- **At most one call per key between purges is not quite true.** One row never gets two calls. But an owner that stalls until its row is purged can still call the provider, after a second owner of the key has called, with no purge in between. `CallsSeparatedExactlyWithinRetention` gives the exact condition: owners dispatch within the retention window of their reservation.
- **Replay.** A signed event reaches a provider at most once in every run exactly when reservations follow freshness checks by at most 30 days less 6 minutes (`ReplaySafeExactlyWhenPrompt`).
- **The fixed window** admits at most `2 * limit - 1` requests in any half-open window, which is one less than twice the limit, and that number is reached (`WindowBoundIsExact`).
- **Retry-After** is exactly the least number of whole seconds that keeps its promise (`RetryAfterIsExact`).
- **The skew check** (`withinGatewaySkew`) also accepts timestamps at least 2^63 ns ahead: `Time.Sub` clamps to the one duration whose negation is itself (`WithinSkewExactly`). The timestamp 100000000000 passes for as long as the clock lasts (`FarFuturePasses`), and a genuine request that carries such a timestamp is accepted again each time its nonce has lapsed (`FarFutureIsReplayed`).
- **The nonce lifetime.** The comment that five extra seconds close the replay boundary holds exactly when the first nonce step plus 35 s is later than the timestamp plus 30 s plus the longest check-to-store delay. A request used before its own timestamp can pass again (`AcceptedOnceExactly`).
- **The identity text** of the gateway signature stands for one set of headers exactly when no identity header holds a bar. A request signed without bars shares its signed text with no other request, whatever the other holds (`CanonicalIsInjective`). One signed with a bar always shares it with another request of the same timestamp (`SignedTextIsSharedExactly`). The length-prefixed part decodes always.

- **Lost reservations.** A reservation that takes effect while its answer is lost leaves a PENDING row that nobody works on. It is never sent, for the rest of every run, and while it is in the table its key cannot be reserved again and a duplicate Send is told PENDING (`LostAnswerOrphans`, `OrphansAreNeverSent`, `OrphansBlockTheirKey`, `OrphansAnswerLookups`).
- **Deletion and redelivery.** Once the 90-day deletion has taken a notification, a redelivered event stores it again, unread, even if the user had read it (`ReadThenDeletedComesBack`). `StoredAgainExactly` says when: never stored before, or deleted since.
- **Redis failures.** A limiter whose pipelines fail now and then admits at most `3 * limit + 9` requests of a key in any window, Redis and fallback together (`LimiterWindowBound`).
- **Cursors and time zones.** The handler writes the wall clock of whatever zone the driver returns and appends a literal Z. Its cursors are read back rightly exactly when that zone is UTC (`FaithfulExactlyInUtc`).

## Model

| member | source | states |
|---|---|---|
| SendLog.InsertStatement | internal/comms/sendlog/sendlog.go:44-77 | a free key adds exactly the given row and changes no other; a taken key changes nothing; keys stay unique |
| SendLog.UpdateStatement | internal/comms/sendlog/sendlog.go:82-121 | the row gets the new status, error and time, one more attempt, and keeps its message id unless one is given; its other columns and all other rows stay, and keys stay unique |
| SendLog.DeleteStatement | internal/comms/sendlog/receipts.go:87-107 | exactly the rows created before the cutoff go, the others are unchanged |
| SendProtocol.FreshExactly | internal/comms/event.go:113-128 | the clamped age test is the plain inequality: at most 60 s ahead and at most 300 s old, in nanoseconds |
| SendProtocol.RequestOfEvent | internal/comms/event.go:132-147 | a given key and every other field of an event's request are kept; a missing key becomes "evt:" and the event's id |
| SendProtocol.KeylessEventsAreKeyedApart | internal/comms/event.go:132-147 | two events without a key never get the same one |
| SendProtocol.RowChange | internal/comms/sendlog/sendlog.go:44-121 | a row present after a step is unchanged, newly PENDING with no attempts, or recorded by the client that holds it, with one more attempt |
| SendProtocol.InvKept | internal/comms/service.go:97-159 | every step keeps the invariant tying table, owners, provider calls and row states together |
| SendProtocol.RunKeepsInv | internal/comms/service.go:97-159 | that invariant holds in every world of every run |
| SendTheorems.AtMostOneCallPerRow | internal/comms/service.go:97-159 | in every interleaving each row gets at most one provider call, made by the client that inserted it, under its key |
| SendTheorems.CallsGoToTheirSender | internal/comms/service.go:162-185 | in every run a provider call is for an email with an email sender injected or for an SMS with an SMS sender; other channels are never called |
| SendTheorems.RowLifecycle | internal/comms/sendlog/sendlog.go:82-121 | between any two moments of a run a row keeps key and birth, a finished row never changes, a purged id never returns; every row is PENDING with 0 attempts, SENT with 1 and a provider success, or FAILED with 1 and none |
| SendTheorems.OnlyTheOwnerTouchesARow | internal/comms/service.go:133-158 | a row changes only from PENDING/0 to SENT or FAILED/1, by its inserter; a late owner of a purged row never alters a newer row with the same key |
| SendTheorems.ResultsAreHonest | internal/comms/service.go:97-159 | in every run, and for good: a reported delivery had a provider success on the client's own row, a reported failure has none, a duplicate's reported status is its provider's verdict, and every other answer comes without any call by that client |
| SendTheorems.LostAnswerOrphans | internal/comms/sendlog/sendlog.go:56-66 | a reservation that takes effect while its answer is lost leaves a PENDING row held by nobody and never called |
| SendTheorems.OrphansAreNeverSent | internal/comms/service.go:115-158 | such a row stays that way for the rest of every run |
| SendTheorems.OrphansAnswerLookups | internal/comms/sendlog/sendlog.go:68-77 | a lookup of its key while it is there is answered with that row, PENDING |
| SendTheorems.OrphansBlockTheirKey | internal/comms/sendlog/sendlog.go:44-77 | and no client comes to hold another row of its key |
| SendReplay.LiveCallsAreSeparated | migrations/000004_comms_send_log.up.sql:36-37 | two calls for one key whose rows were in the table have a purge of the earlier row between them, in every run |
| SendReplay.SlowOwnerRun | internal/comms/service.go:115-150 | a concrete run in which an owner stalled past retention calls right after its successor |
| SendReplay.CallsSeparatedExactlyWithinRetention | internal/comms/sendlog/receipts.go:81-107 | a purge separates any two calls of a key in all default-purge runs if and only if dispatch follows reservation by at most the retention window |
| SendReplay.PromptEventsSendAtMostOnce | internal/comms/eventhandler.go:28-79 | one event causes at most one provider call over the whole run, for every redelivery, key reuse and purge schedule, when reservations are prompt |
| SendReplay.ReplayRun | internal/comms/event.go:113-128 | a concrete run that sends one event twice when the reservation bound is exceeded by one nanosecond or more |
| SendReplay.ReplaySafeExactlyWhenPrompt | internal/comms/event.go:113-147 | at most one call per event in all runs if and only if the check-to-reservation delay is at most 30 days less 6 minutes |
| SendConservation.StepIsLegal | internal/comms/service.go:115-158 | which record a step may append given the phases it moves a client between |
| SendConservation.EveryRunIsBalanced | internal/comms/service.go:115-158 | rows ever inserted equal inserts seen; claims equal working clients plus settled ones; calls made and to come never exceed claims; successes equal rows marked SENT plus those pending recording plus those whose recording was lost |
| SendService.SendLogStore.Reserve | internal/comms/sendlog/sendlog.go:44-77 | the table after the insert under each fault, and claim, existing row or error accordingly |
| SendService.SendLogStore.MarkResult | internal/comms/sendlog/sendlog.go:82-121 | the table after the update, with the error text sanitized; success exactly for a terminal status, no fault and a present row |
| SendService.SendLogStore.PurgeExpired | internal/comms/sendlog/receipts.go:87-107 | both tables after the two deletes with the given or default cutoff, exact counts, and what is reported when either delete fails |
| SendService.Cutoff | internal/comms/sendlog/receipts.go:81-90 | the default cutoff is thirty days ago |
| SendService.PurgeMeans | internal/comms/sendlog/receipts.go:87-107 | a successful purge leaves exactly the rows and receipts from the cutoff on, unchanged, and counts what it took |
| SendService.CommsService.Send | internal/comms/service.go:97-159 | the returned result and table for every request, table and fault, written out for a free key by channel, sender, template and provider; and that the call is an execution of the protocol |
| SendService.AnswersOf | internal/comms/service.go:97-185 | in the source's own limits and senders: which requests are invalid, and how each other request ends for a taken or a free key and every fault |
| SendService.RowRecorded | internal/comms/service.go:107-158 | a reserving Send adds one row with the request's columns, its channel's provider name, the recipient's hash, and the status, attempts and sanitized error of its outcome |
| SendService.NothingRecorded | internal/comms/service.go:97-130 | any other Send leaves the table alone |
| SendService.CommsService.Pipeline | internal/comms/service.go:97-138 | the same from validation on, written out for a free key by channel, sender, template and provider |
| SendService.CommsService.Deliver | internal/comms/service.go:139-208 | result and recorded row after a won claim, by channel, injected sender, template and provider; a failed recording does not change the result |
| SendService.CommsService.Handle | internal/comms/eventhandler.go:28-79 | a payload is sent exactly when well-formed, genuine and within the freshness bounds, otherwise nothing changes; an event without a key whose own key is free is never answered as a duplicate |
| SendService.ExecutionsAreRuns | internal/comms/service.go:97-159 | an execution after a run is a longer run, so the theorems about runs hold of tables `Send` works on |
| Inbox.InsertRow | internal/store/postgres/notification_store.go:28-46 | the row is added at the end exactly when no row has its id and none its user and event; otherwise nothing changes; both indexes stay |
| Inbox.MarkRows | internal/store/postgres/notification_store.go:122-153 | read_at is set on exactly the user's rows without one, for one id or for all, in place, and both indexes stay |
| Inbox.SortPermutes | internal/store/postgres/notification_store.go:50-104 | ordering loses and invents no row |
| InboxRuns.RunStaysValid | migrations/000001_init_notifications.up.sql:35-37 | both unique indexes hold after every run |
| InboxRuns.RunReadsOnce | internal/store/postgres/notification_store.go:122-153 | between any two moments of a run of statements rows stay with all their content, and a set read_at never changes |
| InboxRuns.MarkReadSucceedsOnce | internal/store/postgres/notification_store.go:122-141 | after one successful MarkRead of an id no later one succeeds, whoever asks |
| InboxRuns.UnreadBalances | internal/store/postgres/notification_store.go:107-153 | the unread count is what was unread, plus rows stored, minus rows read, for every user and run |
| InboxRuns.UnreadIsCount | internal/store/postgres/notification_store.go:107-117 | the count is the number of the user's rows without a read time |
| InboxRuns.UsersDoNotInterfere | internal/store/postgres/notification_store.go:28-153 | a user's inbox after any interleaved run is what that user's operations alone produce |
| InboxRetention.IdNamesRow | internal/store/postgres/notification_store.go:28-46 | over every run of inserts, marks and deletions, whatever carries the id of an earlier row is that row |
| InboxRetention.WalkDuringRun | internal/store/postgres/notification_store.go:50-104 | a page walk through any run of inserts, marks and 90-day deletions returns no row twice, newest first, only the user's, and every row that was there at its start and still is at its end |
| InboxRetention.WithoutDeletionsNothingReturns | Taskfile.yml:88-96 | without deletions rows never leave and ids need no assumption, so a walk then returns every row of its start |
| InboxRetention.MarkReadSucceedsOnce | internal/store/postgres/notification_store.go:122-141 | with deletions in the run, too, no MarkRead of an id succeeds after one that did |
| InboxRetention.UnreadBalances | internal/store/postgres/notification_store.go:107-153 | with deletions, the unread count is what was unread plus rows stored, minus rows read, minus rows deleted unread |
| InboxService.NotificationStore.Insert | internal/store/postgres/notification_store.go:28-46 | the table and the answer under each fault: stored unless its event or its id is there, refused only for an id that is taken by another row |
| InboxService.NotificationStore.List | internal/store/postgres/notification_store.go:50-104 | without failure the page: the user's rows below the cursor in strictly decreasing (created_at, id), at most 1..100 or else 20 of them, nothing newer left out |
| InboxService.NotificationStore.UnreadCount | internal/store/postgres/notification_store.go:107-117 | the count of the user's unread rows, or an error |
| InboxService.NotificationStore.MarkRead | internal/store/postgres/notification_store.go:122-141 | the table under each fault; success exactly when there is none and the user has that row unread; not-found changes nothing |
| InboxService.NotificationStore.MarkAllRead | internal/store/postgres/notification_store.go:144-153 | the table under each fault; after success the user has no unread row |
| InboxService.HandleList | internal/handler/notification_handler.go:72-128 | unauthorized without a user, a bad request exactly for a cursor that Go's parsers refuse, an internal error for a failing query, else the page of the walk theorems |
| InboxService.ItemShowsRow | internal/handler/notification_handler.go:42-62 | each item shows its row's fields, its times as texts that are read back as those times, and leaves out empty data |
| Paging.Limit | internal/handler/notification_handler.go:80-91 | limits in 1..100 are kept and all others, numbers or not, become 20 |
| Paging.PageIsUnique | internal/store/postgres/notification_store.go:50-104 | the declarative page (newest first, at most n below the key, only a full page leaves older rows out) is determined |
| Paging.QueryIsThePage | internal/store/postgres/notification_store.go:50-104 | filtering, sorting and truncating computes that page and nothing else does |
| Paging.CursorsAreFaithful | internal/handler/notification_handler.go:202-236 | the handler's cursor of every row with a four-digit year decodes to the row's (created_at, id) |
| Paging.FaithfulExactlyInUtc | internal/handler/notification_handler.go:120-125 | cursors written from a zone at a given offset are read back as their rows' keys if and only if the offset is zero |
| Paging.WalksAreKeyWalks | internal/handler/notification_handler.go:92-125 | following cursor texts is walking by keys; the handler's and the store's limits agree |
| Paging.WalkReturnsEverythingOnce | internal/handler/notification_handler.go:92-125 | whatever happens to the table between requests, a finished walk is strictly decreasing in (created_at, id), and it holds every row that all its requests met |
| Paging.FixedWalk | internal/handler/notification_handler.go:80-125 | over n rows with limit L a walk takes exactly n / L + 1 requests and returns the sorted inbox |
| Paging.FixedWalkExists | internal/handler/notification_handler.go:80-125 | such a walk exists, so following cursors ends |
| Cursors.ParseCursor | internal/handler/notification_handler.go:202-231 | the backward scan computes the decoding at the last bar |
| Cursors.DecodeBuild | internal/handler/notification_handler.go:202-236 | for every time text, bars included, and every id the built cursor holds a bar between them, splits back into both, and is accepted exactly when the time text is |
| Cursors.RoundTrip | internal/handler/notification_handler.go:202-236 | decoding inverts building for every id and four-digit-year instant |
| TimeText.ParseFormat | internal/handler/notification_handler.go:42-62 | the trimmed fractional-second text is read back to the nanosecond (section 5.6 of RFC 3339) by a reader as lenient as Go's |
| TimeText.FormatLayout | internal/handler/notification_handler.go:42-62 | every column of the text holds its part of the date and time, between the layout's separators |
| TimeText.InRangeYears | internal/handler/notification_handler.go:42-62 | the model's instants are exactly those of years 0 to 9999 |
| Calendar.FromDays | internal/handler/notification_handler.go:42-62 | the date of a day number is a real date that counts back to that day |
| Calendar.DaysAreCounted | internal/handler/notification_handler.go:42-62 | the day after any date, through months, years and leap days, has the next day number |
| Uuids.ParseRender | internal/handler/notification_handler.go:222-236 | the hyphenated text of every id parses to it (section 4 of RFC 9562) |
| Uuids.RenderLayout | internal/handler/notification_handler.go:234-236 | the text is 8-4-4-4-12 lower-case digits that read as the id |
| Consumer.MappedRowsAreIndexed | internal/domain/mapper.go:19-261 | every accepted message makes an unread row for its own non-nil user and event, of its channel's kind, with its data kept up to the limit and never for status events |
| Consumer.AcceptedExactly | internal/events/consumer.go:118-286 | a message is accepted if and only if its channel has a kind, it is at most 64 KiB, it parses, its user and event ids are not nil and, on the status channel, its signature was verified |
| Consumer.MappedTitles | internal/domain/mapper.go:89-261 | each channel's title |
| Consumer.StatusText | internal/domain/mapper.go:52-87 | title and body by the status reached |
| Consumer.TierText | internal/domain/mapper.go:89-116 | the body names the old tier and then the new one |
| Consumer.RedeliveryChangesNothing | internal/events/consumer.go:122-286 | delivering a (user, event) whose row is there leaves every row, including read_at, as it was |
| Consumer.OneRowPerAcceptedEvent | internal/events/consumer.go:122-286 | after any schedule with duplicates, reordering, reads and deletions there is exactly one row per accepted (user, event) not deleted, with the content of the delivery that stored it, and none otherwise; without deletions that is the first stored delivery |
| Consumer.StoredAgainExactly | internal/events/consumer.go:122-286 | an accepted delivery is stored again if and only if its pair never had a row or a deletion took it and none came since |
| Consumer.ReadThenDeletedComesBack | Taskfile.yml:88-96 | for every accepted message: delivered, read, deleted and delivered again, it is there afresh and unread |
| Consumer.StatusRowsAreGenuine | internal/events/consumer.go:218-286 | after any schedule every status notification comes from an event whose signature was verified |
| Consumer.LoopIsSchedule | internal/events/consumer.go:78-114 | what the message loop makes of an empty inbox is a schedule of the theorems above |
| Consumer.EventConsumer.Handle | internal/events/consumer.go:122-208 | the inbox changes only for acceptable messages, and an acceptable one with a new id and pair adds one row for its user, event and kind; otherwise as the schedule theorems specify |
| Consumer.EventConsumer.HandleStatusChanged | internal/events/consumer.go:218-286 | a malformed or unverified status event leaves the inbox alone; otherwise as specified |
| Consumer.EventConsumer.Run | internal/events/consumer.go:78-114 | the loop delivers, in order, the messages before cancellation or the closing of its channel, and none without Redis; every new status row comes from a verified event among them |
| Consumer.ReceivedExactly | internal/events/consumer.go:98-113 | the messages a loop handles are those picked before its context ends or its channel closes |
| FixedWindow.RunKeepsInv | internal/platform/middleware/ratelimit.go:172-183 | the counter invariant (ordered log, lifetimes a window long, an owed EXPIRE for every key without expiry) holds in every interleaved run |
| FixedWindow.LifetimeBound | internal/platform/middleware/ratelimit.go:142-170 | one lifetime of a key admits at most `limit` requests |
| FixedWindow.ExpiryIsSetOnce | internal/platform/middleware/ratelimit.go:172-183 | an expiry once set is never moved; it only lapses |
| FixedWindow.IdleKeysExpire | internal/platform/middleware/ratelimit.go:172-183 | with no pipeline under way every present key has an expiry |
| FixedWindow.WindowBound | internal/platform/middleware/ratelimit.go:126-183 | any half-open window admits at most 2 * limit - 1 requests through Redis |
| FixedWindow.FullWindowRun | internal/platform/middleware/ratelimit.go:126-183 | a run that reaches that number |
| FixedWindow.WindowBoundIsExact | internal/platform/middleware/ratelimit.go:126-183 | b bounds every window of every run if and only if b >= 2 * limit - 1 |
| TokenBucket.EvictionSparesTheUser | internal/platform/middleware/ratelimit.go:213-224 | adding a key to a full cache never evicts that key |
| TokenBucket.LeastRecentlyUsedIsEvicted | internal/platform/middleware/ratelimit.go:24-31 | after any run the evicted key is the one used longest ago, and only a full cache evicts |
| TokenBucket.RunKeepsValid | internal/platform/middleware/ratelimit.go:213-224 | buckets stay within 0..burst and the cache within its capacity over every run |
| TokenBucket.RetryAfterIsExact | internal/platform/middleware/ratelimit.go:234-256 | k whole seconds after any denial, in any run and with or without eviction, admit the quiet user again if and only if k is at least Retry-After (section 10.2.3 of RFC 9110), for every configuration that validateUserRateLimit accepts |
| TokenBucket.IntervalBound | internal/platform/middleware/ratelimit.go:202-224 | without eviction an interval of d seconds admits at most burst + d * rate requests of a user |
| TokenBucket.BurstIsGranted | internal/platform/middleware/ratelimit.go:202-224 | whatever came before, a key without a bucket is admitted exactly `burst` times at once |
| RateLimiters.FamiliesAreDisjoint | internal/platform/middleware/ratelimit.go:80-123 | equal keys mean the same limiter and the same address or service, for all suffixes |
| RateLimiters.LimitersDoNotInteract | internal/handler/router.go:100-113 | in any interleaving a limiter's verdicts equal those of the limiter alone |
| LimiterBound.CommandsAreSteps | internal/platform/middleware/ratelimit.go:172-183 | a limiter's commands on the shared Redis are the steps of its key's counter model, counts included |
| LimiterBound.LimiterWindowBound | internal/platform/middleware/ratelimit.go:126-183 | over every run and any pipeline failures, Redis and the fallback together admit at most 3 * limit + 9 requests of a key in any window, barring eviction |
| RateLimiters.RateLimiter.Handle | internal/platform/middleware/ratelimit.go:126-183 | the verdict, the Redis keys and the fallback cache for every outcome of the pipeline; when Redis answers, written out with each limiter's key, its 120, 5 or 300 a minute, and the counter's start and lapse |
| RateLimiters.UserRateLimiter.Handle | internal/platform/middleware/ratelimit.go:202-256 | requests without a user id, or with the nil one, pass; others spend from their own bucket, and a denial carries Retry-After |
| RateLimiters.UsersHaveTheirOwnKeys | internal/platform/middleware/ratelimit.go:234-256 | two users never share a bucket |
| GatewayCanonical.DecodeCanonical | internal/platform/middleware/gateway_signature.go:156-187 | method, path, body hash and identity text are recovered from the signed text for all byte strings |
| GatewayCanonical.LayoutOfOneText | internal/platform/middleware/gateway_signature.go:156-187 | one signed text, byte for byte |
| GatewayCanonical.CanonicalIsInjective | internal/platform/middleware/gateway_signature.go:156-187 | a request signed without bars in its identity headers equals, in all nine fields, any request with the same signed text |
| GatewayCanonical.OtherSharesTheText | internal/platform/middleware/gateway_signature.go:156-187 | for headers that hold a bar, concrete other headers with the same timestamp and the same text |
| GatewayCanonical.SignedTextIsSharedExactly | internal/platform/middleware/gateway_signature.go:156-187 | a signed text stands for a second request if and only if an identity header holds a bar |
| GatewayCanonical.IdentityDecodesExactly | internal/platform/middleware/gateway_signature.go:156-187 | no bar in the five headers, decodability, and the absence of any other headers with the same text are equivalent |
| GatewayNonce.WithinSkewExactly | internal/platform/middleware/gateway_signature.go:214-221 | for every 64-bit timestamp, which ones pass: within 30 s, or so far ahead that the difference clamps |
| GatewayNonce.FarFuturePasses | internal/platform/middleware/gateway_signature.go:214-221 | the timestamp 100000000000 passes the check at every clock reading |
| GatewayNonce.AcceptancesAreApart | internal/platform/middleware/gateway_signature.go:198-210 | two acceptances of one request id have nonce steps at least 35 s apart |
| GatewayNonce.AcceptedOnceExactly | internal/platform/middleware/gateway_signature.go:86-140 | copies of a request first accepted at a given time are never accepted again, in all runs, if and only if the nonce outlives the last moment a copy can pass |
| GatewayNonce.FarFutureIsReplayed | internal/platform/middleware/gateway_signature.go:86-140 | for every timestamp in the clamped band and every first acceptance, a run that accepts the same request again as soon as its nonce lapses |
| GatewayNonce.AcceptedOnce | internal/platform/middleware/gateway_signature.go:86-140 | in particular when first stored no earlier than its timestamp with delays under 5 s |
| GatewayVerifier.Verifier.Verify | internal/platform/middleware/gateway_signature.go:68-144 | everything passes without a secret; else exactly the correctly signed, timely, small enough requests and, with Redis, new request ids; what passes is signed as a text that decodes to its own method, path, body hash and identity; when a body is reported as too large; nonces change only then |
| GatewayVerifier.SignatureCoversTheRequest | internal/platform/middleware/gateway_signature.go:86-187 | two requests that pass with one signature, the headers of one without bars, agree in method, path, body and identity, or the MAC or the hash collides |
| GatewayVerifier.TimestampsAreRead | internal/platform/middleware/gateway_signature.go:86-96 | the decimal text of a number is read as that number exactly when it has 64 bits |
| EventCanonical.DecodeStatusCanonical | internal/domain/event.go:106-129 | all six fields of the signed status event are recovered though the status is arbitrary text |
| EventCanonical.StatusFieldsInOrder | internal/domain/event.go:115-122 | the six fields in their order, when the status holds no bar |
| EventCanonical.StatusCanonicalIsInjective | internal/domain/event.go:115-122 | distinct status events have distinct signed texts |
| EventCanonical.SignatureNamesOneEvent | internal/domain/event.go:106-129 | a signature that verifies for two different events is a MAC collision on two different texts |
| EventCanonical.SendCanonicalIsInjective | internal/comms/event.go:53-63 | distinct send requests, up to their data hash, have distinct signed texts |
| ServiceTokens.CommsConfig.ParseAndValidate | internal/config/config.go:390-458 | the loop computes the specified outcome and sets the map exactly on success |
| ServiceTokens.LoopMeaning | internal/config/config.go:390-458 | no error if and only if every entry is blank or good and no id repeats; then the map binds exactly the entries' pairs |
| ServiceTokens.GoodExactly | internal/config/config.go:404-440 | an entry binds id and token if and only if, blanks aside, it is the id, its first colon and the token, neither empty and the token outside dev at least 24 bytes |
| ServiceTokens.ComplaintExactly | internal/config/config.go:404-436 | which complaint an entry draws, by what stands before and after its first colon |
| ServiceTokens.EveryEntryCounts | internal/config/config.go:404-446 | each entry that is not blank adds one pair or one error, in order |
| ServiceTokens.OutcomeExactly | internal/config/config.go:390-458 | which texts are missing, without pairs, in error, or parsed |
| ServiceTokens.BoundTokensAreLong | internal/config/config.go:431-436 | outside dev no token under 24 bytes is ever bound |
| ServiceTokens.OrderDoesNotMatter | internal/config/config.go:390-458 | two texts with the same entries in different order both fail or both give the same map |
| ServiceTokens.ParsePrinted | internal/config/config.go:390-458 | any non-empty map printed in any order with blanks and empty entries parses to itself |
| ServiceTokens.AcceptsExactlyTheBound | internal/platform/middleware/serviceidentity.go:37-75 | the guard accepts exactly the (trimmed id, token) pairs some entry of the list binds |
| Trimming.TrimIgnoresBlanks | internal/config/config.go:390-458 | blanks around a text do not change its trimmed form |
| Trimming.SpacesExactly | internal/config/config.go:390-458 | the blanks are the twenty-five white-space code points |

## Left out

- SendService.SendLogStore.PurgeExpired: receipts are known by their arrival time only; recording them is not modelled.
- SendService.CommsService.Send: provider and template results are inputs, so the locale, which only picks the template, is not modelled, and the send timeout is one of the provider errors.
- SendService.CommsService.Pipeline: as for `Send`; the classes cover one client at a time, and interleavings are covered by the protocol's steps.
- InboxService.HandleList: PostgreSQL, which the cursor's time text is passed on to, is taken to read it as Go does, and to keep nanoseconds.
- LimiterBound.LimiterWindowBound: how often a full cache evicts the key's bucket is not bounded.
- FixedWindow.RunKeepsInv: a key lapses exactly at its expiry time, so Redis's own delay in removing keys is not modelled.
- TokenBucket.IntervalBound: rates and tokens are real numbers; floating-point rounding in x/time/rate and the float64 ceiling of Retry-After are not modelled.
- GatewayNonce.AcceptancesAreApart: a SET that took effect but whose answer was lost is not distinguished; the code rejects the request either way.
- InboxRetention.WalkDuringRun: rows carry times of four-digit years.
- EventCanonical.SignatureNamesOneEvent: the comparison's constant time and the strength of HMAC are not modelled.
- Consumer.EventConsumer.Run: what the Redis client does to keep its subscription alive is not modelled, and messages lost there are simply not delivered; `comms.send_requested` messages go to the event handler, modelled in SendService.
- The email and SMS providers, template store and rendering, receipt status normalisation, waitlist, health, logging, router wiring and the remaining configuration checks, which would add only easy members.
