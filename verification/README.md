# Verified models of the platform's protocols

This project models the stateful and encoding core of a platform made of a NestJS business
service, Go services behind a gateway, and the packages they share, and proves what holds of it in
every run.

- **Event pipeline** (`ItemLog`, `Items`, `LastSaid`, `Readings`, `ItemsService`, `Relay`, `Dispatcher`,
  `Starvation`, `RowDrain`, `JobQueue`, `Consumer`, `Pipeline`, over `AuditEvents`): an item write and its outbox row commit in one transaction;
  worker replicas poll the outbox, post to the audit service and mark rows; a work queue records
  idempotent job effects. `Pipeline` composes the three protocols.
- **Identity resolution** (`Identity`, `People`, `WeChat`, `IdentityStore`): overlapping lookups, inserts and
  transactions on users and identities.
- **Gateway** (`RateLimit`, `Limiter`, `Sessions`, `SessionStore`, `PendingLogins`): the
  fixed-window limiter shared by replicas; sessions, sign-out and revocation; pending sign-ins.
- **Webhook** (`Webhook`, `WebhookHandler`): record, then act.
- **Files** (`Files`, `FileService`, `ObjectKeys`, `StoredPaths`, `PresignedPaths`): put then insert,
  remove then erase; which object a key names, in the client's URLs and in presigned ones.
- **Encodings and routing** (`AwsEncoding`, `PresignExpiry`, `SignedHeaders`, `IdentityHeaders`,
  `Routing`).

## How it is built

A protocol module is a transition system: `State`, `Action`, `Enabled`, `Apply`; `Legal` and `Run`
for whole runs. One action is one SQL statement, one Redis or S3 command, one message or one reply,
so a crash or another replica can come between any two. A remote call has one of three fates
(`Common.Fate`): it succeeds, fails before taking effect, or takes effect while its reply is lost.
Invariants are proved step by step and carried over runs by induction.

Beside each protocol a class does what the handler does, on mutable fields. The methods that stand
for a whole call (of `ItemsService`, `Dispatcher`, `Consumer.Worker`, `IdentityStore`, `Limiter`,
`WebhookHandler`, `SessionStore` and `FileService`) return a ghost trace: the run of the protocol
that this very call was. What holds of all runs of the protocol therefore holds of these methods. In
`PendingLogins`, whose claims are about serial calls, a method is one operation of the run.

Map iteration orders, sorting algorithms, random ids, clocks and the set of blank characters are
parameters of which only what the language or library promises is required.

## What the proofs found

- `created_at` of an outbox row is the start of its transaction. Overlapping updates of one item can
  commit in the other order, and the outbox read by `created_at` then tells a title the item no
  longer has (`Readings.CreatedAtOrderMisleads`); it tells the truth exactly when each of the item's
  youngest rows does (`Readings.CreatedAtOrderExactly`).
- A removal is logged, and its job published, under the id as the request spelled it, while the
  database accepts any spelling of a UUID and returns the lower-case one. The outbox then has the
  removed item alive (`Items.OtherSpellingMisleads`); it can be read as it is spelled exactly when
  every removal used the table's spelling (`Items.TellsExactlyWhenRemovalsSpelled`).
- The worker documentation promises dead-lettering after `RABBITMQ_MAX_RETRIES` failures. With a
  setting of 2 or more that needs every redelivery to raise `x-death`, and even then a channel lost
  between a failure and its nack allows one more (`JobQueue.FailuresAreBounded`,
  `JobQueue.SlipsCount`). A negative acknowledgement with requeue does not raise it; a failing job is
  then redelivered without end (`JobQueue.DeadLetterQueueStaysEmpty`,
  `JobQueue.FailsAnyNumberOfTimes`), unless the setting is at most 1
  (`JobQueue.UncountedBoundedExactly`).
- Undeliverable outbox rows are never published and stay in the way of younger ones. A row with fifty
  of them before it is never published (`Starvation.StarvedForever`), which does happen
  (`Starvation.StarvationHappens`); one with fewer is, within a bound that they raise
  (`RowDrain.RowIsPublished`). `RowDrain.PublishedExactlyWhen` joins the two.
- No two people ever get one user (`People.NoTwoPeopleShareAUser`), but one person may get two: users
  are shared by WeChat union id only while the table is aligned
  (`WeChat.SharedExactlyWhenAligned`); overlapping first calls and a failed link break that.
- A redelivered webhook is answered `duplicate` even if the first delivery was lost after it was
  recorded (`Webhook.DuplicateHidesLoss`), and stays lost (`Webhook.SettledForever`). The delivery key
  leaves out the user: of two users deleted at one time by one hook the second deletion is answered
  `duplicate` and lost, without any fault (`Webhook.SharedKeyLosesUser`). Short of lost replies and of
  deaths just before the answer, the call that recorded the key did all its work exactly if it was
  accepted (`Webhook.HandledExactlyWhenAccepted`), and a `duplicate` tells the truth about its own
  delivery exactly if it asks for nothing or the very same payload was accepted
  (`Webhook.DuplicateIsTrueExactly`). When resolving the platform user fails, the delivery goes on
  without it and can still be accepted.
- The storage client puts object keys into URLs unescaped. With a `#` or a `?` in what cleaning keeps
  of tenant and owner, their files share one object, and deleting one takes the object from the
  others (`StoredPaths.KeptApartExactly`, `Files.SharedPathLosesObject`, `Files.HashInOwner`).
  Presigned URLs escape the key, and so name the stored object exactly if nothing in the key needs
  escaping in that sense (`PresignedPaths.PresignedExactly`, `PresignedPaths.HashInName`).
- The request cap per second holds exactly while twice the clock skew plus the delay from clock to
  INCR is at most one second (`RateLimit.CapHoldsExactlyWhenSafe`).
- A sign-out whose delete failed holds exactly if revocations outlive sessions
  (`Sessions.RevokedIsKeptOut`).
- `expires` values above 9223372036 seconds wrap: some yield an hour, some an `X-Amz-Expires` of 0
  (`PresignExpiry.WrappedRequests`); the exact conditions are `PresignExpiry.ExactWhenNotWrapped` and
  `PresignExpiry.HeaderBounds`.
- A file name of slashes only passes `sanitizeFilename` as `/` (`ObjectKeys.SanitizedIsPlain`); keys
  then lack the name, not the file id (`ObjectKeys.KeyEndsWithId`).

## Model

| member | source | states |
|---|---|---|
| `AuditEvents.IdsAreDisjoint` | go/pkg/audit/audit.go:19-23 | no text is both a dashed UUID (an outbox id) and an id of another emitter: 32 hex digits, or `logto-` and 64 hex digits |
| `AuditEvents.EventDescribesRow` | go/services/worker/internal/outbox/dispatch.go:127-154 | a row has an event unless its payload is no object, and the event tells, field by field, the row's id, type and time, the payload, and from the payload tenant, actor and item |
| `Relay.StepKeepsInv` | go/services/worker/internal/outbox/dispatch.go:73-125 | every step of any number of replicas, the network and the audit service keeps the relay's invariant |
| `Relay.StepGrows` | go/services/audit-service/internal/store/events.go:60-63 | audit rows, outbox rows and published marks are never changed or removed by any step |
| `Relay.RunKeepsInv` | go/services/worker/internal/outbox/dispatch.go:73-154 | every run keeps the invariant, and the tables only grow along it |
| `Relay.InvGivesExactlyOnce` | go/pkg/audit/httpemit.go:41-69 | exactly-once recording follows from the invariant: at most one audit row per outbox id, equal to the event of that very row; a published row has its event; a UUID-id event has its row |
| `Relay.ExactlyOnceInEveryRun` | go/services/worker/internal/outbox/dispatch.go:112-154 | exactly-once recording holds after every run from empty tables, with any replicas, crashes between any two statements, lost replies and repeated requests; what is recorded tells, field by field, what the row tells, its actor and tenant included |
| `Starvation.UndeliverableStays` | go/services/worker/internal/outbox/dispatch.go:112-125 | an undeliverable row has no event and is not published, in every reachable state |
| `Starvation.PollSkips` | go/services/worker/internal/outbox/dispatch.go:74-79 | fifty older undeliverable rows keep a deliverable row out of every poll, whatever else is in the table |
| `Starvation.StarvedForever` | go/services/worker/internal/outbox/dispatch.go:74-79 | starvation, row by row: a row with fifty older undeliverable rows that no replica holds is never published in any run of any replicas; nothing is asked of the other rows or of later commits |
| `Starvation.BlockedForever` | go/services/worker/internal/outbox/dispatch.go:74-79 | the corollary for the table: once that is so of every deliverable row still to be published, no run publishes anything, as long as no row is dated before them |
| `Starvation.StarvationHappens` | go/services/worker/internal/outbox/dispatch.go:74-79 | a run from the empty tables into such a state, of one row and of the whole table |
| `Dispatcher.AuditService.Insert` | go/services/audit-service/internal/store/events.go:48-73 | the insert adds the event unless its id is there; success means the id is there |
| `Dispatcher.AuditService.Handle` | go/services/audit-service/internal/ingest/handler.go:34-69 | 202 exactly when the event is acceptable and the insert succeeded, 400 exactly when it is not acceptable; the new table in every case |
| `Dispatcher.HttpEmitter.Emit` | go/pkg/audit/httpemit.go:41-69 | an enabled emitter that reports success has its event recorded; a disabled one reports success and records nothing |
| `Dispatcher.OutboxTable.MarkPublished` | go/services/worker/internal/outbox/dispatch.go:120-124 | sets published_at only where it is not set yet |
| `Dispatcher.Dispatcher.TracePost` | go/pkg/audit/httpemit.go:60-68 | one post, whatever its fate, is a run of the relay protocol |
| `Dispatcher.Dispatcher.PublishRow` | go/services/worker/internal/outbox/dispatch.go:112-154 | one row is a run of the protocol; what it records tells what the row tells; success means published and recorded; without faults it succeeds exactly for deliverable rows; no other row's mark changes |
| `Dispatcher.Dispatcher.DispatchOnce` | go/services/worker/internal/outbox/dispatch.go:73-110 | one poll is a run of the protocol; without faults it publishes exactly the deliverable rows of its batch and reports success exactly when all were; a broken result stream is an error |
| `Dispatcher.Dispatcher.PublishNext` | go/services/worker/internal/outbox/dispatch.go:86-106 | one iteration of the loop: an error on a row is remembered and the loop goes on |
| `Dispatcher.NewDispatcher` | go/services/worker/internal/outbox/dispatch.go:35-52 | there is a dispatcher exactly when there are a pool and an enabled emitter |
| `Dispatcher.Dispatcher.FaultlessPoll` | go/services/worker/internal/outbox/dispatch.go:73-110 | the polls of DispatchOnce are the polls the drain bound counts |
| `RowDrain.PollProgress` | go/services/worker/internal/outbox/dispatch.go:73-110 | up to any instant: a faultless poll publishes at least min(50 - k, m) of the m deliverable rows at most as young, k undeliverable ones being at most as young; younger rows do not count |
| `RowDrain.BacklogDrains` | go/services/worker/internal/outbox/dispatch.go:73-110 | n faultless polls leave at most m - n(50 - k) of them, whatever younger rows arrive between the polls |
| `RowDrain.RowIsPublished` | go/services/worker/internal/outbox/dispatch.go:73-110 | a deliverable row with k < 50 undeliverable rows at most as young is published after n faultless polls once n(50 - k) reaches the number of deliverable rows up to it |
| `RowDrain.RowStarves` | go/services/worker/internal/outbox/dispatch.go:73-110 | a row with fifty older undeliverable rows is published by no number of faultless polls |
| `RowDrain.PublishedExactlyWhen` | go/services/worker/internal/outbox/dispatch.go:73-110 | the exact condition: after as many faultless polls as there are deliverable rows up to it, a row with no undeliverable row of its own age is published if and only if fewer than fifty undeliverable rows are older |
| `ItemLog.TransactionKeepsLog` | node/apps/business-service/src/items/items.service.ts:80-109 | the two writes of one transaction, of any of the three operations and under any spelling of the id, keep the outbox, its ids respelled as the table spells them, telling exactly the items |
| `ItemLog.SilentAfterDeletion` | node/apps/business-service/src/items/items.service.ts:206-227 | in an orderly log nothing follows an item's deletion |
| `ItemLog.LivingIsLiteral` | node/apps/business-service/src/items/items.service.ts:173-181 | a living item's rows tell it as they are spelled, whatever became of other items |
| `ItemLog.MisspeltMisleads` | node/apps/business-service/src/items/items.service.ts:219-226 | one deletion in another spelling: read as it is spelled, the log has the deleted item alive for ever, and deletes one of which nothing was said |
| `ItemLog.TellsExactlyWhenSpelled` | node/apps/business-service/src/items/items.service.ts:219-226 | read as it is spelled, the log is orderly, and tells the items, if and only if every row spells its item as the table does |
| `Items.StepIsAtomic` | node/apps/business-service/src/items/items.service.ts:160-185 | items and outbox change together or not at all; a step writes at most one outbox row, about the one item it changes, in whatever spelling |
| `Items.StepKeepsInv` | node/apps/business-service/src/items/items.service.ts:66-254 | every statement, commit, rollback and publish of overlapping calls keeps the invariant, row locks included |
| `Items.RunKeepsInv` | node/apps/business-service/src/items/items.service.ts:66-254 | every run keeps the invariant and only appends to the outbox |
| `Items.LogTellsItems` | node/apps/business-service/src/items/items.service.ts:80-109 | in every run of overlapping calls, replaying an item's outbox rows in commit order, whatever spelling of its id they carry, gives exactly whether it exists, its tenant and its title; every job announces a committed row |
| `Items.TellsExactlyWhenRemovalsSpelled` | node/apps/business-service/src/items/items.service.ts:219-226 | in every run the log as it is spelled is orderly, and tells the items, if and only if every removal that committed was asked for in the table's own spelling |
| `Items.NothingFollowsDeletion` | node/apps/business-service/src/items/items.service.ts:206-227 | in every run no outbox row about an item, in any spelling, follows its deletion |
| `Items.SpelledAsAsked` | node/apps/business-service/src/items/items.service.ts:173-181 | deletions are logged in the request's spelling and all else in the table's, so the log is all spelled as the table does exactly when the removals were |
| `Items.OtherSpellingMisleads` | node/apps/business-service/src/items/items.controller.ts:49-55 | for every id in another spelling than the stored one, a run that removes its item under that spelling and leaves a log that still has the item alive |
| `Items.CapitalsAreNotSpelled` | node/apps/business-service/src/items/items.controller.ts:49-55 | an id with a capital letter, as the request's UUID check lets through, is such a spelling |
| `LastSaid.UpdateChangesOnlyNamed` | node/apps/business-service/src/items/items.service.ts:150-166 | the commit of an update among overlapping calls, field by field: what the request does not name stays as it is in the table at that moment, tenant and creator always |
| `LastSaid.FieldsHoldLastSaid` | node/apps/business-service/src/items/items.service.ts:66-198 | in every run of overlapping calls title and body of every item are what the last committed request about it that named them said, and tenant and creator those of the request that created it |
| `Readings.CreatedAtOrderMisleads` | node/apps/business-service/src/db/schema.ts:4-10 | created_at is the start of the transaction: for any item id, a run after which the rows read by created_at tell a title the item no longer has |
| `Readings.ReadingTellsExactly` | node/apps/business-service/src/db/schema.ts:4-10 | a reading tells of an item what the table tells if and only if the last row about it in the reading says the same as the last one committed |
| `Readings.CreatedAtOrderExactly` | node/apps/business-service/src/db/schema.ts:4-10 | in every run: however ties fall, reading by created_at tells of an item what commit order tells if and only if each of the item's youngest rows does |
| `Readings.CreatedAtOrderSuffices` | node/apps/business-service/src/db/schema.ts:4-10 | in particular it is enough that the transaction that wrote last about the item began last |
| `ItemsService.Service.Transact` | node/apps/business-service/src/items/items.service.ts:80-119 | both rows or neither, the deletion's in the request's spelling; the job only after a commit that was seen to succeed; a run of the protocol |
| `ItemsService.Service.Create` | node/apps/business-service/src/items/items.service.ts:66-122 | validation, the item and outbox row written, the job, and the item returned, for every outcome of the commit; a title of blanks is refused; the item has the caller's tenant and id and the texts given, trimmed; a run of the protocol |
| `ItemsService.Service.Update` | node/apps/business-service/src/items/items.service.ts:129-198 | validation, not-found, the patched item and its outbox row under the stored id, and what stays unchanged otherwise; field by field the item has the text given, trimmed, or what it had; a run of the protocol |
| `Text.TrimExactly` | node/apps/business-service/src/items/items.service.ts:69-78 | trimming takes the blanks off both ends of a text and nothing else, and what is left is the only such text |
| `ItemsService.Service.FindThenTransact` | node/apps/business-service/src/items/items.service.ts:154-185 | the lookup and then the transaction on the item found; the request is among those that committed exactly when the commit took effect |
| `ItemsService.Service.Remove` | node/apps/business-service/src/items/items.service.ts:200-235 | removes exactly an item of the caller's tenant, and logs it in the caller's spelling: the log as spelled tells the items afterwards if and only if it did before and nothing was removed under another spelling; a run of the protocol |
| `JobQueue.StepConserves` | go/pkg/mq/consumer.go:91-121 | no step loses or duplicates a message |
| `JobQueue.StepKeepsInv` | go/pkg/mq/consumer.go:91-121 | every broker move, handler call and channel loss keeps the queue's invariant; effects are never removed |
| `JobQueue.QueueSafety` | go/services/worker/internal/jobs/router.go:26-82 | in every run each message is in exactly one of ready, unacked, acked and dead; a job id has at most one effect; an acked message is a complete job and, if of one of the three item kinds, names its item and has its effect; every effect is, field by field, that of a published item job |
| `JobQueue.FailuresAreBounded` | go/pkg/mq/consumer.go:101-115 | if every redelivery raises the death count, the handler fails on a message at most max(1, MaxRetries) times, plus once for every time the channel was lost between a failure and its nack |
| `JobQueue.SlipsCount` | go/pkg/mq/consumer.go:101-115 | such a loss does add a failure: a run with MaxRetries of 1, every redelivery counted, and two failures |
| `JobQueue.DiesExactlyAtTheLimit` | go/pkg/mq/consumer.go:101-115 | if every requeue raises the death count by one and no channel is lost, a job is dead, or failed and about to be, if and only if its handler has failed max(1, MaxRetries) times: it is retried until then |
| `JobQueue.DeadLetterQueueStaysEmpty` | go/pkg/mq/consumer.go:101-115 | if requeueing leaves x-death as it is and MaxRetries is at least 2, no job that parses is ever dead-lettered |
| `JobQueue.FailsAnyNumberOfTimes` | go/pkg/mq/consumer.go:101-115 | and its handler can then fail on one message any number of times, without any loss of the channel |
| `JobQueue.OneFailure` | go/pkg/mq/consumer.go:101-115 | if MaxRetries is at most 1 it fails on a message at most once, such losses aside, whatever redelivery does to x-death short of making it negative |
| `JobQueue.UncountedBoundedExactly` | go/pkg/mq/consumer.go:101-115 | the exact condition: if requeueing leaves x-death as it is, failures are bounded at all, such losses aside, if and only if MaxRetries is at most 1 |
| `Consumer.DeathCount` | go/pkg/mq/consumer.go:123-153 | the loop computes the 64-bit wrapped sum of the counts; entries of the wrong shape count nothing |
| `Consumer.OneMoreDeath` | go/pkg/mq/consumer.go:123-153 | one more death in one entry is one more in the total |
| `Consumer.SumAddsUp` | go/pkg/mq/consumer.go:135-152 | the sum adds up over the entries: whole counts as they are, floating ones truncated towards zero, others nothing |
| `Consumer.MaxRetries` | go/pkg/mq/consumer.go:40-42 | a positive setting is kept; otherwise it is the environment's number if that is not negative, and else 3 |
| `Consumer.EffectStore.Record` | go/services/worker/internal/store/effects.go:37-70 | one row per job id; inserted exactly when the row is new and the reply arrived |
| `Consumer.Router.Handle` | go/services/worker/internal/jobs/router.go:26-44 | pings and unknown kinds succeed without effect; item jobs record theirs |
| `Consumer.Router.HandleBusinessItem` | go/services/worker/internal/jobs/router.go:46-82 | fails without an item id, else records the effect |
| `Consumer.Worker.HandleDelivery` | go/pkg/mq/consumer.go:91-121 | acks exactly a complete job whose effect, if it is an item job, was recorded; requeues exactly an item job that failed with deaths + 1 < MaxRetries; dead-letters the rest, bodies that are no job included; a run of the queue protocol |
| `Consumer.DeliveryIsARun` | go/pkg/mq/consumer.go:91-121 | for every body, a delivery and its answer are a run of the queue protocol with the same effects, leaving the message where the verdict says |
| `Pipeline.CommitIsNeverRefused` | node/apps/business-service/src/items/items.service.ts:80-109 | a transaction that wrote both its rows can always commit: its outbox id is a UUID no other row has |
| `Pipeline.EventsTellRequests` | go/services/worker/internal/outbox/dispatch.go:127-154 | in every run of the pipeline the audit event of every committed request, deletions included, names the request's actor and tenant, says what was done, to which item and when, and tells the title asked for |
| `Pipeline.RunKeepsInv` | node/apps/business-service/src/items/items.service.ts:66-235 | every interleaving of items calls, relay and queue keeps the joint invariant |
| `Pipeline.EffectsRepeatRows` | node/apps/business-service/src/items/items.service.ts:111-119 | every job effect repeats the kind, item, tenant and actor of a committed outbox row, and so those of a committed request, although anyone may enqueue payload-less jobs |
| `Pipeline.PublishedItemIsAudited` | go/services/worker/internal/outbox/dispatch.go:112-154 | an item all of whose outbox rows are published is in the audit table with its current tenant and title |
| `Pipeline.EndToEnd` | go/cmd/enqueue-job/main.go:47-51 | in every run of the whole pipeline from empty tables: exactly-once recording, the outbox telling the items whatever the spelling, and literally if and only if removals were spelled as the table does, effects repeating committed rows, and published items audited as they are |
| `Identity.StepKeepsInv` | go/services/auth-service/internal/store/identity.go:35-170 | every statement of overlapping calls, failing or with a lost reply, keeps the invariant of the two tables |
| `Identity.StepGrows` | go/migrations/auth-service/000001_identities.up.sql:7 | a mapping never changes or goes away, and neither does a user |
| `Identity.RunKeepsInv` | go/services/auth-service/internal/store/identity.go:35-170 | every run keeps the invariant and every mapping |
| `Identity.ResolutionIsConsistent` | go/services/auth-service/internal/store/identity.go:35-56 | in every run all successful calls for one (provider, uid) return one user; every mapping has its user; losers of the race leave no orphan user |
| `Identity.ResolutionIsForever` | go/services/auth-service/internal/store/identity.go:110-117 | what an identity was once resolved to, every later successful call returns, in every continuation |
| `People.ReturnsItsOwn` | go/services/auth-service/internal/store/identity.go:35-108 | in every run of overlapping calls a successful call returns the user mapped under the very identity it was asked for; a WeChat call, that of its openid or of its unionid |
| `People.NoTwoPeopleShareAUser` | go/services/auth-service/internal/store/identity.go:35-170 | in every run in which each openid comes with its own unionid, two successful calls that return one user are about one person: one provider identity, or openids of one union |
| `WeChat.SharedExactlyWhenAligned` | go/services/auth-service/internal/store/identity.go:65-108 | one call at a time and each openid with its own unionid: openids of one union share a user forever if and only if the table is aligned, a condition on its rows alone; the empty table is |
| `WeChat.VisitKeepsAligned` | go/services/auth-service/internal/store/identity.go:65-108 | a call keeps the table aligned |
| `WeChat.AnswersAgree` | go/services/auth-service/internal/store/identity.go:65-108 | from an aligned table every answer is the user of any mapped openid of the same union |
| `WeChat.MisalignedDiffers` | go/services/auth-service/internal/store/identity.go:65-108 | from any other table two calls get different users |
| `WeChat.ResolveIsARun` | go/services/auth-service/internal/store/identity.go:65-170 | a call alone and without faults is a run of the protocol that ends with the tables and the user that Resolve says |
| `WeChat.OverlapBreaksSharing` | go/services/auth-service/internal/store/identity.go:159-170 | two overlapping first calls of one union return different users |
| `WeChat.FailedLinkBreaksSharing` | go/services/auth-service/internal/store/identity.go:163-168 | a failure between creating the user and linking the union leaves the table misaligned |
| `IdentityStore.Store.LookupUserId` | go/services/auth-service/internal/store/identity.go:110-117 | finds exactly the mapped user |
| `IdentityStore.Store.LinkIdentity` | go/services/auth-service/internal/store/identity.go:119-127 | inserts a mapping unless there is one; mappings never change |
| `IdentityStore.Store.CreateUserWithProvider` | go/services/auth-service/internal/store/identity.go:129-157 | user and mapping appear together or not at all; a rival that came first makes it a unique violation and leaves no second user |
| `IdentityStore.Store.ResolveProviderUser` | go/services/auth-service/internal/store/identity.go:35-56 | a successful call returns the mapped user whoever created it; without faults it succeeds, rival or not; at most its own mapping is added; with its rival, a run of the protocol |
| `IdentityStore.Store.CreateWeChatUser` | go/services/auth-service/internal/store/identity.go:159-170 | creates under the openid and links the union; what each outcome leaves behind; a run of the protocol |
| `IdentityStore.Store.FindWeChatUser` | go/services/auth-service/internal/store/identity.go:70-93 | the lookups by openid and unionid, linking the one that is missing, as a run of the protocol |
| `IdentityStore.Store.FindAgain` | go/services/auth-service/internal/store/identity.go:95-107 | the lookups after a unique violation, the last link's error ignored, as a run of the protocol |
| `IdentityStore.Store.ResolveWeChatUser` | go/services/auth-service/internal/store/identity.go:65-108 | without faults and rivals it is Resolve; always it only adds mappings and returns a user its openid or unionid is mapped to; with its rival, a run of the protocol |
| `RateLimit.RunKeepsInv` | go/services/gateway/internal/ratelimit/redis.go:37-57 | under the timing bound every interleaving of clock readings, INCR and EXPIRE keeps each counter at least at what was admitted until its window is over |
| `RateLimit.SafeTimingCaps` | go/services/gateway/internal/ratelimit/redis.go:37-57 | then no run admits more than max requests in any window |
| `RateLimit.CapHoldsExactlyWhenSafe` | go/services/gateway/internal/ratelimit/redis.go:49-56 | the cap holds in every run if and only if twice the clock skew plus the delay to INCR is at most one second |
| `RateLimit.SpanCap` | go/services/gateway/internal/ratelimit/redis.go:48-56 | readings within L seconds lie in L + 1 windows, which admit at most (L + 1) max |
| `RateLimit.LimitPerWindow` | go/services/gateway/internal/ratelimit/redis.go:59-71 | a positive burst is the cap; otherwise the whole rate, at least 1; no limit exactly when neither is positive |
| `Limiter.Redis.Incr` | go/services/gateway/internal/ratelimit/redis.go:49-52 | INCR as the protocol has it: a missing or expired key restarts at 1 without expiry |
| `Limiter.Redis.Expire` | go/services/gateway/internal/ratelimit/redis.go:53-55 | EXPIRE gives a live key two seconds |
| `Limiter.Facade.Allow` | go/services/gateway/internal/ratelimit/limiter.go:49-58 | a call is a run of the protocol that admits exactly when it says so; a Redis error leaves the decision to the memory limiter |
| `Webhook.DeliveryKeyIdentifies` | go/services/auth-service/internal/logto/payload.go:38-40 | without colons in hook id and event, two payloads share a key if and only if hook, time and event are equal, colons in the time notwithstanding |
| `Webhook.ColonsConfuse` | go/services/auth-service/internal/logto/payload.go:38-40 | two different deliveries with one key, one of them with a colon in its hook id |
| `Webhook.StepKeepsInv` | go/services/auth-service/internal/logto/handler.go:79-116 | every statement of overlapping deliveries, failing, with a lost reply or cut off, keeps the invariant |
| `Webhook.AtMostOnce` | go/services/auth-service/internal/logto/handler.go:79-116 | in every run at most one call per key passes the record, each audit event and each kind of revocation happens at most once per key, each audit event repeats the payload of the call that passed, `accepted` means every applicable effect is there, `duplicate` only that the key is recorded |
| `Webhook.AcceptedMeans` | go/services/auth-service/internal/logto/handler.go:94-137 | in every run an accepted `User.Deleted` has its Logto subject and its resolved platform user, where there are such, on the blocklist; an accepted delivery of each of the six audited events has its audit event, of the type for it |
| `Webhook.EffectsAreAskedFor` | go/services/auth-service/internal/logto/handler.go:119-137 | in every run every revocation is of the user that a `User.Deleted` delivery names or had resolved, and every audit event is of the type for its webhook event |
| `Webhook.PlatformsAreResolved` | go/services/auth-service/internal/logto/handler.go:94-100 | in every run the platform user of a call is one that the identity store returned to that very call, whose payload names a user |
| `Webhook.SettledForever` | go/services/auth-service/internal/logto/handler.go:84-92 | once a key is recorded and no call acts on it, no redelivery changes what was emitted and revoked for it |
| `Webhook.DuplicateHidesLoss` | go/services/auth-service/internal/logto/handler.go:84-92 | a run in which a redelivery is answered `duplicate` although nothing was emitted or revoked |
| `Webhook.HandledExactlyWhenAccepted` | go/services/auth-service/internal/logto/handler.go:84-116 | in every run in which no effect's reply is lost and no handler dies between its last effect and its answer: the call that passed the record with a settled key had all its effects if and only if some call with the key was answered `accepted` |
| `Webhook.DuplicateIsTrueExactly` | go/services/auth-service/internal/logto/handler.go:84-92 | in such a run, of a call answered `duplicate` with a settled key: the effects that its own payload asks for are there if and only if it asks for none, or a call with the very same payload was answered `accepted` |
| `Webhook.SharedKeyLosesUser` | go/services/auth-service/internal/logto/payload.go:38-40 | the key leaves out the user: a faultless run in which two users are deleted at one time by one hook, the second deletion is answered `duplicate`, and what it asks for never happens |
| `Webhook.FailureLacks` | go/services/auth-service/internal/logto/handler.go:94-116 | a call that fails or dies while it owes an effect leaves it undone, and no other call can have had it |
| `Webhook.LostReplyHandles` | go/services/auth-service/internal/logto/handler.go:99-106 | without that restriction one direction fails: a run whose only effect took place although its reply was lost |
| `WebhookHandler.Handler.TryRecord` | go/services/auth-service/internal/store/deliveries.go:22-34 | reports first exactly for a key not recorded before |
| `WebhookHandler.Handler.Audit` | go/services/auth-service/internal/logto/handler.go:102-108 | emits the audit event, of its type, exactly for the six audited events, as a step of the protocol; nothing else changes |
| `WebhookHandler.Handler.RevokeLogto` | go/services/auth-service/internal/logto/handler.go:119-130 | revokes the Logto subject exactly for `User.Deleted` with a user id, as a step of the protocol; nothing else changes |
| `WebhookHandler.Handler.RevokePlatform` | go/services/auth-service/internal/logto/handler.go:131-135 | revokes the platform user exactly for `User.Deleted` with a resolved user, as a step of the protocol; nothing else changes |
| `WebhookHandler.Handler.ActOn` | go/services/auth-service/internal/logto/handler.go:94-137 | emit then revoke as a run of the protocol, accepted exactly when its call ends accepted |
| `WebhookHandler.Handler.ServeHTTP` | go/services/auth-service/internal/logto/handler.go:53-137 | signature and body checks, then a run of the protocol; `duplicate` exactly when the key was recorded before and the record succeeded; `accepted` exactly when it is new and every effect due succeeded; what is then revoked and emitted, event by event |
| `Sessions.Lifetime` | go/services/gateway/internal/session/store.go:109-121 | a key lives at most the configured time, and not past an ExpiresAt that is still ahead |
| `Sessions.RunKeepsInv` | go/services/gateway/internal/session/store.go:64-107 | in every run deleted ids stay gone and no key outlives its lifetime |
| `Sessions.GetIsSound` | go/services/gateway/internal/session/store.go:79-99 | in every run Get succeeds only for an id that was created, on which no delete took effect, and not past ExpiresAt |
| `Sessions.AliveUntilEnd` | go/services/gateway/internal/session/store.go:79-99 | Get succeeds exactly before the earlier of key expiry and ExpiresAt |
| `Sessions.AliveExactly` | go/services/gateway/internal/session/store.go:79-121 | the exact condition: from its creation on, in every run, Get returns a session if and only if no delete of it took effect, the configured time is not over and its ExpiresAt, if any, is ahead |
| `Sessions.DeletedIsKeptOut` | go/services/gateway/internal/bff/handler.go:157-167 | after a delete that took effect no request opened later passes a sensitive path, in any continuation |
| `Sessions.RevokedIsKeptOut` | go/pkg/revocation/store.go:63-83 | a revocation alone keeps the cookie out while the session lives if and only if it lasts as long as the session |
| `Sessions.SignOutKeepsOut` | go/services/gateway/internal/bff/handler.go:157-167 | sign-out with either call effective keeps the cookie out, when revocations last as long as sessions |
| `Sessions.SignOutKeepsOutInEveryRun` | go/services/gateway/internal/auth/middleware.go:76-113 | the same after every run from an empty store |
| `SessionStore.Gateway.Create` | go/services/gateway/internal/session/store.go:64-76 | a returned id is stored under a fresh key; on an error it may be stored all the same |
| `SessionStore.Gateway.Save` | go/services/gateway/internal/session/store.go:109-121 | the key's lifetime is that of Sessions.Lifetime |
| `SessionStore.Gateway.Get` | go/services/gateway/internal/session/store.go:79-99 | succeeds exactly for a live session and then changes nothing; deletes only a session that is not live |
| `SessionStore.Gateway.Delete` | go/services/gateway/internal/session/store.go:102-107 | removes the session; an empty id is no error |
| `SessionStore.Gateway.Revoke` | go/pkg/revocation/store.go:63-72 | the id is blocked for the configured lifetime |
| `SessionStore.Gateway.IsRevoked` | go/pkg/revocation/store.go:74-83 | reports exactly the ids still blocked, or an error |
| `SessionStore.Gateway.SignOut` | go/services/gateway/internal/bff/handler.go:157-167 | a run of the protocol after which, if either call took effect, the cookie is kept out of every continuation |
| `SessionStore.Gateway.Identify` | go/services/gateway/internal/bff/handler.go:286-304 | known exactly for a live session with a token that verifies; the session of a bad token is deleted |
| `SessionStore.Gateway.CheckRevocation` | go/services/gateway/internal/auth/middleware.go:92-113 | denies exactly on a successful lookup that finds a block; an error lets pass |
| `SessionStore.Gateway.Authenticate` | go/services/gateway/internal/auth/middleware.go:56-84 | passes exactly when the session is live, verifies and is found blocked by neither lookup; a run of the protocol |
| `PendingLogins.SingleUse` | go/services/gateway/internal/session/store.go:142-157 | serially, a state saved once is handed out once, plus at most once for every delete that did not take effect |
| `PendingLogins.HandedOutExactly` | go/services/gateway/internal/session/store.go:130-157 | the exact condition: in every serial run a callback whose GET succeeds is handed a login if and only if it was saved for its state less than 600 seconds ago and neither replaced nor removed since, and it is that very login |
| `PendingLogins.HandoutsArePaidFor` | go/services/gateway/internal/session/store.go:130-157 | hand-outs and what is left are covered by saves and by deletes that failed |
| `PendingLogins.HandoutsAreRecentSaves` | go/services/gateway/internal/session/store.go:130-140 | a login handed out was saved for that state less than ten minutes before |
| `PendingLogins.Store.SavePending` | go/services/gateway/internal/session/store.go:130-140 | stores the login for ten minutes |
| `PendingLogins.Store.ConsumePending` | go/services/gateway/internal/session/store.go:142-157 | hands out what is pending and deletes it, ignoring the delete's error |
| `Files.CheckAgreesWithQuery` | go/services/file-service/internal/access/handler.go:236-244 | the handlers' check and the statement's WHERE clause agree on every identity and row |
| `Files.StepKeepsInv` | go/services/file-service/internal/access/delete.go:55-86 | every call, crash and lost reply of overlapping uploads and deletes keeps the invariant of rows, uploads and deletes, wherever objects are stored |
| `Files.RunKeepsInv` | go/services/file-service/internal/upload/handler.go:104-127 | every run keeps it |
| `Files.StepKeepsStore` | go/services/file-service/internal/upload/handler.go:104-127 | so it does the invariant of objects and rows, if no upload begins at another's stored path |
| `Files.RunKeepsStore` | go/services/file-service/internal/upload/handler.go:104-127 | every run whose uploads are stored at new paths keeps both |
| `Files.OrdinaryRunsAreFresh` | go/services/file-service/internal/upload/handler.go:141-155 | such is every run, whatever the file names, whose tenants and owners are one path segment each of characters that a URL takes as they are, new file ids being enough |
| `Files.RowWithoutObject` | go/services/file-service/internal/access/delete.go:69-75 | in every run whose uploads are stored at new paths, a row without its object comes from a delete, by someone allowed to delete it, that removed the object |
| `Files.ObjectWithoutRow` | go/services/file-service/internal/upload/handler.go:104-127 | in every such run an object without a row comes from an upload whose insert never took effect and that did not report success |
| `Files.DurableUntilDeleted` | go/services/file-service/internal/upload/handler.go:104-139 | in every such run a created file keeps object and row, as uploaded, until a delete, by someone allowed to delete it, has removed the object |
| `Files.GoneIsGone` | go/services/file-service/internal/access/delete.go:69-86 | in every such run, after a delete that reported success neither object nor row is there, in that and every later state |
| `Files.SharedPathLosesObject` | go/pkg/storage/client.go:193-200 | otherwise this fails: of any two files stored at one path, both created, a faultless delete of the first leaves the second with a row and no object |
| `Files.HashInOwner` | go/pkg/storage/client.go:193-200 | any two files of the owner `a#b` are such files |
| `Files.EraseNeverMisses` | go/services/file-service/internal/store/files.go:122-140 | the owner condition of DELETE never turns away a caller the handler let in |
| `Files.RetryFinishes` | go/services/file-service/internal/access/delete.go:38-87 | whatever earlier calls left behind, a retried delete of a file whose row is there finishes |
| `Files.OthersChangeNothing` | go/services/file-service/internal/access/delete.go:64-67 | in every run no call of a delete by another user, or under another tenant where both are known, changes either store, whatever its fate |
| `FileService.Service.PutObject` | go/pkg/storage/client.go:103-135 | the object is at its stored path unless the call failed before it took effect, as it does if the key makes no URL |
| `FileService.Service.DeleteObject` | go/pkg/storage/client.go:167-191 | what the stored path names is gone, under the same conditions; removing a missing object succeeds |
| `FileService.Service.GetById` | go/services/file-service/internal/store/files.go:59-80 | the row, no row or an error |
| `FileService.Service.Insert` | go/services/file-service/internal/store/files.go:36-56 | adds the row unless another has its key |
| `FileService.Service.DeleteById` | go/services/file-service/internal/store/files.go:122-140 | removes the row exactly if id, owner and tenant match, and says so |
| `FileService.Service.PutThenInsert` | go/services/file-service/internal/upload/handler.go:104-139 | put and then insert as a run of the protocol; successful exactly if both calls succeed, the key makes a URL and no row has it |
| `FileService.Service.Upload` | go/services/file-service/internal/upload/handler.go:63-139 | size and part checks, then put and insert as a run of the protocol that keeps both invariants; created exactly when both succeeded |
| `FileService.Service.RemoveThenErase` | go/services/file-service/internal/access/delete.go:69-86 | from the removal on: success exactly when both calls succeeded, and a run of the protocol |
| `FileService.Service.Delete` | go/services/file-service/internal/access/delete.go:38-87 | answers, without faults, by whether the row exists and has the caller's user and no other tenant; changes nothing for anyone else; a run of the protocol |
| `ObjectKeys.SanitizedIsPlain` | go/services/file-service/internal/upload/handler.go:149-155 | a sanitized name is an ordinary path segment if and only if the trimmed name is empty or not made of slashes only; otherwise it is a slash |
| `ObjectKeys.BaseIsLastPiece` | go/services/file-service/internal/upload/handler.go:149-155 | the base of a path that is not made of slashes alone is its last piece between slashes, slashes at the end aside |
| `ObjectKeys.ResolveLaws` | go/services/file-service/internal/upload/handler.go:141-147 | cleaning drops empty segments, dots, a segment with the two dots after it, and two dots at the root |
| `ObjectKeys.CleanIsNormal` | go/services/file-service/internal/upload/handler.go:141-147 | what cleaning leaves has no empty segments and no dots, and two dots only in front of a path that is not rooted; cleaning again changes nothing |
| `ObjectKeys.KeyEndsWithId` | go/services/file-service/internal/upload/handler.go:141-147 | whatever tenant, owner and name hold, the key's last segments are the file id and, if ordinary, the name |
| `ObjectKeys.KeyIdentifiesFile` | go/services/file-service/internal/upload/handler.go:141-155 | two uploads with ordinary names and one key have one file id and one name |
| `ObjectKeys.KeyIsJoined` | go/services/file-service/internal/upload/handler.go:141-147 | a key is what cleaning keeps of tenant and owner, then the file id and, if ordinary, the name, joined by slashes |
| `StoredPaths.KeptApartExactly` | go/pkg/storage/client.go:193-200 | the exact condition on tenant and owner: whatever the names, new file ids give new stored paths if and only if what cleaning keeps of tenant and owner has neither `#` nor `?`, or makes no URL at all |
| `StoredPaths.CutLeadsMeet` | go/pkg/storage/client.go:193-200 | where that fails any two file ids meet at one path |
| `StoredPaths.OrdinaryNeverMeet` | go/pkg/storage/client.go:193-200 | across tenants and owners of one segment each, of characters that a URL takes as they are: one stored path means one tenant, one owner and one file id, whatever the names |
| `PresignedPaths.PresignedNamesKey` | go/pkg/storage/presign.go:36-37 | the path of a presigned URL, read as a URL, is the bucket and the whole key, for every byte string |
| `PresignedPaths.PresignedExactly` | go/pkg/storage/client.go:193-200 | it names the object stored under the key if and only if the key has no `#`, no `?`, no percent sign and no control character |
| `PresignedPaths.HashInName` | go/pkg/storage/client.go:193-200 | a file named `report#1.pdf` is stored as `report`, and its presigned URL names another object |
| `AwsEncoding.RoundTrip` | go/pkg/storage/presign.go:109-121 | percent-decoding the encoding gives back every byte string |
| `AwsEncoding.EncodeIsInjective` | go/pkg/storage/presign.go:109-121 | different byte strings have different encodings |
| `AwsEncoding.CanonicalExactlyWhenEncoded` | go/pkg/storage/presign.go:109-121 | the encodings are exactly the texts of unreserved bytes (section 2.3 of RFC 3986) and upper-case escapes (section 2.1) of bytes that are not unreserved |
| `AwsEncoding.EncodeAlphabet` | go/pkg/storage/presign.go:109-121 | no delimiter survives encoding |
| `AwsEncoding.EncodeKeepsExactly` | go/pkg/storage/presign.go:109-121 | the encoding leaves a text alone if and only if it is made of letters, digits and the four marks of section 2.3 of RFC 3986, and makes every other text longer |
| `AwsEncoding.AwsUriEncode` | go/pkg/storage/presign.go:109-121 | the loop computes the encoding |
| `AwsEncoding.UriKeepsSegments` | go/pkg/storage/presign.go:91-107 | the canonical path starts with a slash and has the path's segments in order, each of which decodes to what it was |
| `AwsEncoding.UriIdentifiesPath` | go/pkg/storage/presign.go:91-107 | paths with one canonical form are equal up to a leading slash |
| `AwsEncoding.AwsCanonicalUri` | go/pkg/storage/presign.go:91-107 | the method that overwrites the segments computes the canonical path |
| `AwsEncoding.QueryReads` | go/pkg/storage/presign.go:83-89 | the canonical query parses back to exactly its pairs, whatever bytes they hold |
| `AwsEncoding.BuildCanonicalQuery` | go/pkg/storage/presign.go:83-89 | the method computes the canonical query |
| `PresignExpiry.HeaderBounds` | go/services/file-service/internal/access/handler.go:206-217 | for every positive 64-bit number of seconds the lifetime is in (0, 7 days] and X-Amz-Expires in [0, 604800]; it is 0 exactly when the duration wraps to a positive part of a second |
| `PresignExpiry.ExactWhenNotWrapped` | go/services/file-service/internal/access/handler.go:206-217 | the lifetime is the lesser of the request and seven days if and only if the duration did not wrap or wrapped to at least seven days; up to 9223372036 seconds the header is min(sec, 604800) |
| `PresignExpiry.WrappedRequests` | go/services/file-service/internal/access/handler.go:213 | a positive number of seconds with header 0, and one that yields an hour |
| `PresignExpiry.PresignGetUrl` | go/pkg/storage/presign.go:16-30 | clamps into (0, 7 days] and writes the whole seconds in the header |
| `PresignExpiry.DefaultExpiry` | go/services/file-service/internal/access/handler.go:74-86 | a default that is not positive is an hour |
| `PresignExpiry.ServeUrl` | go/services/file-service/internal/access/handler.go:206-219 | which parameters are refused, and lifetime and header for all others |
| `SignedHeaders.LowerIsInjective` | go/pkg/storage/client.go:275-276 | canonical keys with one lower-case form are one key |
| `SignedHeaders.CoveredNames` | go/pkg/storage/client.go:274-286 | the loop over the map lists each covered header once, for any order |
| `SignedHeaders.SignedHeaderNames` | go/pkg/storage/client.go:273-300 | the names are exactly the covered headers and host, each once |
| `SignedHeaders.CanonicalHeaders` | go/pkg/storage/client.go:235-241 | the loop writes the block, which reads as a line for every name in order: name, colon and the header's first value, trimmed |
| `SignedHeaders.BlockReads` | go/pkg/storage/client.go:235-241 | cut at newlines, the block of a header without newlines in it has exactly one line for every name, in order, that is the name, a colon and, trimmed, the first value of the header of that name |
| `SignedHeaders.BlockDetermines` | go/pkg/storage/client.go:235-241 | equal blocks list equal names with equal values, blanks around them aside |
| `SignedHeaders.LessExactly` | go/pkg/storage/client.go:233 | names are ordered by their first difference, a proper prefix coming first |
| `SignedHeaders.SortIncreases` | go/pkg/storage/client.go:231 | sorting distinct names by any algorithm makes them strictly increasing |
| `SignedHeaders.HostIsListedOnce` | go/pkg/storage/client.go:231-240 | for any order and sort the signed list is strictly increasing and has host once |
| `SignedHeaders.OrderDoesNotMatter` | go/pkg/storage/client.go:230-240 | two visits of one header, in any orders and sorted by any algorithms, sign the same list and the same block |
| `SignedHeaders.ListedValueIsItsOwn` | go/pkg/storage/client.go:236 | a listed name is signed with the value of the header it came from |
| `SignedHeaders.CompletedFacts` | go/pkg/storage/client.go:222-225 | the completed header has a host and lists x-amz-date with the date given |
| `SignedHeaders.SignRequest` | go/pkg/storage/client.go:218-242 | signs exactly the host, content type and x-amz- headers of the request completed with date and host, in increasing order, with a block that tells their values |
| `SignedHeaders.CompletedExactly` | go/pkg/storage/client.go:222-225 | the date is set, the host where the header has none, and nothing else |
| `IdentityHeaders.SplitOfJoin` | go/pkg/identity/identity.go:102-113 | splitting a joined list splits each of its elements |
| `IdentityHeaders.RecoveredExactly` | go/pkg/identity/identity.go:102-113 | a list survives joining and splitting if and only if its elements are trimmed, not empty and free of commas |
| `IdentityHeaders.CsvReads` | go/pkg/identity/identity.go:102-113 | a list is cut at its commas; each part yields its trimmed text, and blank parts nothing |
| `IdentityHeaders.Compact` | go/pkg/identity/identity.go:106-112 | the compaction over the slice's own front equals filtering the trimmed parts |
| `IdentityHeaders.SplitCsvInPlace` | go/pkg/identity/identity.go:102-113 | the method computes SplitCsv |
| `IdentityHeaders.Request.StripUntrusted` | go/pkg/identity/identity.go:45-49 | none of the six headers is left, all others are as they were |
| `IdentityHeaders.Request.Inject` | go/pkg/identity/identity.go:53-60 | writes every non-empty field |
| `IdentityHeaders.WrittenReads` | go/pkg/identity/identity.go:53-72 | each field reads as written, or as before where it was empty |
| `IdentityHeaders.WrittenKeepsElsewhere` | go/pkg/identity/identity.go:53-60 | no other header changes |
| `IdentityHeaders.Request.Rewrite` | go/services/gateway/internal/auth/middleware.go:31-86 | noninterference: in the header map as it leaves the middleware each of the six headers bears the verified identity's field, or is gone where that is empty, with the fresh request id, whatever the client sent; so it is read |
| `IdentityHeaders.ReadBackExactly` | go/pkg/identity/identity.go:53-72 | an identity is read back as it was if and only if its roles and scopes are trimmed, not empty and free of commas |
| `Routing.FirstMatchIsDue` | go/services/gateway/internal/proxy/proxy.go:56-62 | in a list with the longest first, the first match is the longest registered prefix of the path, and there is none exactly when no prefix matches |
| `Routing.DueIsUnique` | go/services/gateway/internal/proxy/proxy.go:56-62 | at most one registered prefix is the longest |
| `Routing.OrderDoesNotMatter` | go/services/gateway/internal/proxy/proxy.go:48-51 | whatever the order of the map and however the sort breaks ties, every path gets the same route |
| `Routing.Router.Register` | go/services/gateway/internal/proxy/proxy.go:32-47 | registers every prefix with its upstream, and fails exactly when a target does not parse |
| `Routing.Router.Build` | go/services/gateway/internal/proxy/proxy.go:30-54 | a router over the whole table, longest first, for any visit and any sort |
| `Routing.Router.ServeHTTP` | go/services/gateway/internal/proxy/proxy.go:56-64 | goes to the upstream of the longest registered prefix, or nowhere exactly when none matches |

## Left out

- Transports: HTTP, JSON, SQL drivers, Redis, AMQP and S3 appear as atomic calls with a fate; what a
  call does after its caller gave up on it is not modelled beyond having taken effect or not.
- Cryptography: signatures, hashes and token verification are parameters; the webhook's event id
  stands for its delivery key, of which it is a hash.
- Delays and fairness: that a poll, a retry or a redelivery ever happens is not claimed.
- Nil stores and unconfigured dependencies, apart from the guard of `NewDispatcher`.
- Consumer.Worker.HandleDelivery: adds 1 to the death count without 64-bit wrap-around, which only a count of 2^63 - 1 would reach.
- Starvation.StarvedForever: is about rows that no replica holds; one that was fetched before the fiftieth undeliverable row was committed can still be published.
- Starvation.BlockedForever: assumes that rows committed later are not dated before the blocking ones, as a transaction open since then could be; `Starvation.StarvedForever`, about single rows, does not.
- RowDrain.PublishedExactlyWhen: rows of the very age of an undeliverable one, whose order the query leaves open, are covered by `RowDrain.RowIsPublished` and `RowDrain.RowStarves` in one direction each; rows that arrive between the polls are younger.
- Dispatcher.Dispatcher.DispatchOnce: is given its batch as any result of the query, since ties in created_at may come in any order.
- Webhook.HandledExactlyWhenAccepted: excludes runs in which an effect's reply is lost or a handler dies after its last effect; for those only that `accepted` implies the effects is claimed.
- Webhook.DuplicateIsTrueExactly: excludes the same runs; what the audit event takes from the payload besides hook, event, time and user is one opaque text.
- ItemLog.TellsExactlyWhenSpelled: spellings of an id differ in letter case only, which is all that the request's UUID check lets through.
- Items.StepKeepsInv: models row locks and read-committed visibility for single-row statements; item bodies and update times are not in the log and not replayed.
- Limiter.Facade.Allow: the memory limiter's token bucket and its map of addresses are a parameter.
- RateLimit.CapHoldsExactlyWhenSafe: one zone and one address, whose keys no other zone or address touches; clocks from 1970 on.
- Sessions.RevokedIsKeptOut: SESSION_TTL values that are not positive, with which keys never expire, and ids revoked before they are issued are excluded; session ids are never drawn twice.
- SessionStore.Gateway.Authenticate: bearer tokens, anonymous paths and tokens that verify but name no actor are not modelled; the subject lookup is a parameter.
- PendingLogins.SingleUse: claims single use for serial calls only; the GET and the DEL of overlapping callbacks can interleave.
- Identity.ResolutionIsConsistent: generated user ids are assumed new.
- Items.RunKeepsInv: generated item ids and outbox ids are assumed new.
- Files.RunKeepsInv: generated file ids are assumed new. New stored paths are not: they are a hypothesis of the results about objects, derived from new ids by `Files.OrdinaryRunsAreFresh`.
- Files.OrdinaryRunsAreFresh: across several tenants and owners it is a sufficient condition; the exact one, `StoredPaths.KeptApartExactly`, is about the files of one tenant and owner.
- StoredPaths.KeptApartExactly: takes the object store to read the path of a URL as it is decoded and to ignore query parameters it does not know; characters stand for bytes, so that escapes yield one each.
- ObjectKeys.KeyEndsWithId: names are sequences of characters; other path separators and encodings are not modelled.
- FileService.Service.Upload: object contents, content types and the multipart parser are not modelled.
- SignedHeaders.SignRequest: header names are ASCII tokens in canonical form, as requests built through the client have them; the signature itself is not modelled.
- IdentityHeaders.Request.Rewrite: is about the header map as it leaves the middleware; the reverse proxy behind it drops any header that the client names in `Connection`, the injected ones included. Header keys are in canonical form; nil and empty lists are one.
- Routing.Router.ServeHTTP: the reverse proxy behind a route is the parsed target.
- `Events.List`, `Effects.List` and `ListByOwner`: query builders and listings, which change nothing and take part in no protocol.
- Downloads and metadata reads, configuration from the environment, logging, tracing, health checks, path normalisation, the admin and site front ends, deployment.
