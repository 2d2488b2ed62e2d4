# Verified models of the platform's state-carrying parts

Seven parts of the platform keep state that must stay consistent under interleaving, expiry, aborts or
restarts. Each is modelled in Dafny as its source is written, and the properties it exists for are
proved over every input, run or reachable state. Where the code does not have a property it was written
for, the model keeps the code as it is, shows an input, and proves exactly when the property holds.

Verify everything with `dafny verify dfyconfig.toml`.

| files | part |
|---|---|
| `CreditApply`, `ReplyOwnership`, `Idempotency`, `PortfolioLock` | the `POST /credit/apply` handler: two expiring SETNX locks, a response cache, an exposure check before a write |
| `RateLimiter`, `RateLimiterInterleaved`, `RateLimiterOverlap` | the sliding-window limiter over a trimmed, expiring sorted set: one call at a time, and with calls that overlap |
| `Ledger`, `LedgerProofs`, `ConcurrentLedger` | journals under the deferred balance trigger: one transaction at a time, and with transactions that overlap |
| `CreditTriggers`, `ConcurrentCredit`, `LateFees` | the cached credit totals, serial and under overlap, and the late fees owed to charity |
| `KeyRotation` | the paged re-encryption of virtual cards |
| `Base64Url`, `SignedAssertion` | signed assertions between services |
| `EventDedup` | the event listener that every worker runs |
| `Sums`, `Prelude` | SQL sums and groups; result types |

## How the parts are modelled

Code that changes state step by step is a class whose methods do the same steps in the same order, each
proved against a function or predicate on values; theorems over runs are lemmas about those functions.
Code that interleaves is a step system as well: one action for each await (a Redis command, the
evaluation, a commit), any order of actions, and a clock that only the `Tick` action moves. `CreditApi`
and `Gateway` return the path of steps they took, so the sequential handler and the interleaved system
are one model.

- A Redis key is there up to and including its expiry instant: it has lapsed when the clock is past it.
- In the limiter instants, windows and delays are real numbers of seconds; elsewhere times are whole seconds.
  Amounts are paisa. NUMERIC(14, 2) and DECIMAL(14, 2) hold integers below 10^14.
- HMAC, Fernet, JSON text and `int()` on strings are parameters. What is assumed of them is in two
  predicates, `SignedAssertion.Sound` and `KeyRotation.Sound`. That claims survive their own JSON text is a
  condition of the theorems that need it (`SignedAssertion.Survives`).
- Database transactions run at READ COMMITTED, the default that
  packages/shared-python/sk_shared/database.py:6-7 keeps. `Ledger`,
  `CreditTriggers` and `LateFees` run one transaction at a time; `ConcurrentLedger` and
  `ConcurrentCredit` let the same transactions overlap.
- What the credit evaluation approves is the parameter `Policy`, given the user's earlier applications,
  the amount asked for and the limit granted.

## What the code does not do, and exactly when it does

- The response of one idempotency key is unique while it is cached exactly when two calls, each at most D
  from cache read to cache write, fit into the lock's 30 seconds: 2 * D <= 30 (`OncePerLifeIff`). That
  assumes no failure between the commit and the cache write, without which no bound helps
  (`LostResponseRepeats`).
- The portfolio lock excludes exactly when no critical section exceeds 30 seconds (`OneInsideIff`). The
  comment at apps/credit-engine/src/api/routes.py:37-52 says the lock keeps a user's exposure within the
  maximum. It serialises the decisions, but the check at apps/credit-engine/src/engines/limit.py:169-173
  reads the highest approved limit, not the sum. With exposure as that comment has it, the sum of what was
  granted, the check holds it within the cap in all runs only for a cap of at most one paisa
  (`LimitPolicyHoldsIff`): two calls that do not overlap exceed any other (`LimitPolicyOverruns`), and
  `LimitPolicySoundIff` says on which histories the check is sound. Read as the latest limit alone, which
  apps/credit-engine/src/services/pipeline.py:417-428 sends on as the user's whole credit limit, each grant is
  within the cap by the clamp.
- The cache key of idempotency key `k:lock` is the lock key of `k` (`KeysCollideIff`). A request with key
  `k:lock` finds the claim where its cached response should be exactly while `k` is claimed
  (`CacheReadsClaimIff`); the handler then returns the claim's 1, which the route's response model refuses.
  The step system keeps the two keys apart.
- The limiter's class comment says distinct prefixes never collide. They can, exactly when one prefix with
  its colon begins the other (`PrefixesMeetIff`). Sharing one key between two windows is exact only for the
  shorter one (`SharedKeyExactIff`).
- ZADD and EXPIRE are separate commands, and a key that lapses between them takes a member with it. With
  calls of at most D, an interval shorter than the window by D keeps to limit + k - 1 requests in all runs of
  k callers exactly if there are no callers, the limit is at most 1, the calls take no time, or D fills the
  window (`OverlapBoundIff`): however short the calls are, a limit of 2 can be overrun.
- The trigger checks the journals of new and changed lines only. A committed transaction of any statements
  keeps the ledger balanced exactly if every other journal kept all its lines or lost all of them
  (`TransactionKeepsBalanceIff`). So deletions keep it exactly if they take whole journals
  (`DeletionsKeepBalanceIff`), and a line can be moved out of a journal that is then off
  (`MoveCanUnbalance`).
- With transactions that overlap, a run keeps the ledger balanced exactly if no commit writes lines of a
  journal that got its first lines after that transaction's check, other than journals it inserted itself
  (`ConcurrentLedger.AlwaysBalancedIff`). Every run does if lines are first posted by the transaction that
  inserts their header (`ConcurrentLedger.BalancedIff`), as
  apps/ledger-service/src/services/accounting_service.py:1062-1090 does. A run keeps the cached credit totals
  right exactly if no commit stores a sum that is out of date (`ConcurrentCredit.AlwaysCachedIff`), and every
  run does if each transaction locks its user's row first (`ConcurrentCredit.CachedIff`), which the trigger
  does not.
- Moving a loan to another user leaves the old owner's cached total behind exactly when the loan counted
  (`MoveKeepsCacheIff`).
- Total allocations stay equal to total late fees exactly if an UPDATE leaves the fee alone, or charges it
  while a charity qualifies or has it (`StaysConservedIff`). The waiver at
  apps/gateway/src/api/v1/admin_payments.py:337-339 sets a charged fee to 0 and leaves its allocation, so it
  breaks this whenever there was a fee (`WaiverConservesIff`).
- The ledger service's `record_late_fee` allocates a fee too, and leaves the installment's fee alone. It keeps
  the books exactly if it adds nothing or the flat fee to an installment that was charged it
  (`RecordAccountsIff`), and conserved books exactly if it adds nothing (`RecordConservesIff`). The trigger and
  the service exclude each other: an installment that the trigger has allocated can never be recorded
  (`FirstPathWins`), and one that was recorded first can never become overdue while a charity qualifies
  (`RecordedCannotEnter`).
- The rotation script says each row has its own transaction. The code commits once per batch, so a failing
  row undoes its whole batch (the `PageFails` clause of `Rotate`).
- The assertion's documentation promises ValueError for every rejection. `NotValueErrorIff` gives exactly the
  tokens for which it is another exception: a payload that decodes under a non-empty secret with a signature
  that is not ASCII, or a correctly signed one that is nested too deep for the JSON parser or whose `exp` is
  null, a list, an object or infinite.
- The listener's comment says one bad message must not kill it. It survives exactly if none of its messages is
  bytes that are not UTF-8, text on which the JSON parser raises anything but JSONDecodeError (an integer of
  more than 4300 digits, nesting too deep), JSON that is not an object, or an object whose `event_id` cannot be
  encoded in a Redis key (`HearAliveIff`).
- Within the 300 seconds a published event is handled at most once exactly if it has an `event_id` or there is
  one worker (`PublishedOnceIff`); without one every worker handles it (`UnnamedHandledByAll`). Beyond them even
  an event with an id is handled again: at most once in all runs exactly if every worker is at its claim within
  300 seconds of the first claim (`StartedOnceIff`).

## Model

| member | source | states |
|---|---|---|
| CreditApply.CreditApi.PassKey | apps/credit-engine/src/api/routes.py:131-141 | The live cached response of the request's own user and key is returned and a busy key conflicts, with every store unchanged; otherwise only the lock of that user and key is claimed, for 30 seconds |
| CreditApply.CreditApi.EvaluateAndCommit | apps/credit-engine/src/api/routes.py:153-169 | The try block appends the application exactly if neither the evaluation nor the create raised, and ends holding the lock either way |
| CreditApply.CreditApi.EvaluateAndCreate | apps/credit-engine/src/api/routes.py:153-171 | However the try block ends, the finally block has removed the user's portfolio lock |
| CreditApply.CreditApi.PassPortfolio | apps/credit-engine/src/api/routes.py:147-187 | A held portfolio lock conflicts and changes nothing; otherwise the application, the cache entry and the reply for each place an exception can interrupt |
| CreditApply.CreditApi.WriteResponse | apps/credit-engine/src/api/routes.py:173-187 | The reply is the committed application's response, cached for 86400 seconds under the request's own user and key exactly if it has a key and the write succeeds |
| CreditApply.CreditApi.ApplyCredit | apps/credit-engine/src/api/routes.py:131-187 | The whole handler: outcome, cache, both locks and applications in every case, in terms of the request's own user and key, and that it is a path of the step system |
| CreditApply.CacheTextInjective | apps/credit-engine/src/api/routes.py:131 | For user ids without a colon two slots share a cache key only if they are one slot |
| CreditApply.LockTextInjective | apps/credit-engine/src/api/routes.py:136 | For user ids without a colon two slots share a lock key only if they are one slot |
| CreditApply.KeysCollideIff | apps/credit-engine/src/api/routes.py:131-136 | A cache key is some lock key exactly when users agree and its idempotency key is the other's followed by ":lock" |
| CreditApply.CacheReadsClaimIff | apps/credit-engine/src/api/routes.py:131-136 | In one keyspace the GET of a cache key finds a claim exactly while the key it extends by ":lock" is claimed, and otherwise exactly the cached response |
| CreditApply.PortfolioTextSeparate | apps/credit-engine/src/api/routes.py:56-57 | A portfolio lock key is never a cache key or an idempotency lock key |
| ReplyOwnership.RepliesAreOwn | apps/credit-engine/src/api/routes.py:125-187 | In every run, however calls interleave or fail, every answered call is answered with the decision on an application of its own user, made by a call of that user with the same key; without a key it is its own application |
| ReplyOwnership.OneApplicationPerCall | apps/credit-engine/src/api/routes.py:153-169 | In every run each application was made by a call of its user for the amount that call asked, and no call makes two |
| Idempotency.ClaimFindsNoRival | apps/credit-engine/src/api/routes.py:136-141 | When a timely call wins the SETNX, no other call of its slot is on its way and every earlier response had expired when it read the cache |
| Idempotency.OneHolder | apps/credit-engine/src/api/routes.py:136-141 | Two calls of one slot never hold the idempotency lock together |
| Idempotency.ReplyIsAlone | apps/credit-engine/src/api/routes.py:184-187 | When a call writes its response, no other call of its slot is on its way and all earlier responses have expired |
| Idempotency.StepKeeps | apps/credit-engine/src/api/routes.py:131-187 | Every step of every call keeps the invariant that ties locks, cache entries and committed applications together |
| Idempotency.AtMostOnePerLife | apps/credit-engine/src/api/routes.py:131-187 | In every timely interleaving with 2 * D <= 30, a second application for one user and key has read the cache only after the first response expired |
| Idempotency.RepliesAgree | apps/credit-engine/src/api/routes.py:132-135 | For every response of a slot, every successful reply to a call that read the cache during that response's life equals it |
| Idempotency.FirstRepliesAgree | apps/credit-engine/src/api/routes.py:132-135 | Every successful reply to a call that read before the first response expired equals the first response, however early it read |
| Idempotency.LivesApart | apps/credit-engine/src/api/routes.py:184-185 | Two responses of one slot are never cached at the same time: the later call read after the earlier response expired |
| Idempotency.TwiceWithinOneLife | apps/credit-engine/src/api/routes.py:131-187 | For every larger D there is a run that creates two applications within one response's life |
| Idempotency.OncePerLifeIff | apps/credit-engine/src/api/routes.py:131-187 | The guarantee holds in all runs bounded by D exactly when 2 * D <= 30 |
| Idempotency.LostResponseRepeats | apps/credit-engine/src/api/routes.py:161-187 | If a call fails between its commit and its cache write, a retry after 30 seconds creates a second application, however short the calls |
| PortfolioLock.InsideIsOwner | apps/credit-engine/src/api/routes.py:147-151 | Two calls of one user that are both inside are the same call |
| PortfolioLock.ReleaseKeeps | apps/credit-engine/src/api/routes.py:170-171 | The unconditional delete removes the deleter's own claim and keeps the invariant |
| PortfolioLock.StepKeeps | apps/credit-engine/src/api/routes.py:143-171 | Every step keeps: who is inside owns the live lock, every lock is owned by a call inside, and every approval was decided on the log it was appended to |
| PortfolioLock.MutualExclusion | apps/credit-engine/src/api/routes.py:143-171 | With critical sections of at most 30 seconds, at most one call per user is inside, and each committed approval was admissible on the user's log at its own commit |
| PortfolioLock.OnlyInsidersOwn | apps/credit-engine/src/api/routes.py:147-171 | Whoever is about to delete owns the lock; a call that lost the SETNX or has ended, normally or by exception, owns none |
| PortfolioLock.TwoInside | apps/credit-engine/src/api/routes.py:53 | With any longer critical section two calls of one user are inside together |
| PortfolioLock.OneInsideIff | apps/credit-engine/src/api/routes.py:53 | Mutual exclusion holds in all runs bounded by L exactly when L <= 30 |
| PortfolioLock.ExposureNeverExceedsCap | apps/credit-engine/src/api/routes.py:37-52 | If the evaluation approves only what fits beside the exposure it read, no reachable state exceeds the cap for any user |
| PortfolioLock.MaxIsExposureIff | apps/credit-engine/src/engines/limit.py:169-173 | The maximum that the check reads equals the exposure exactly for a user with at most one positive grant |
| PortfolioLock.LimitPolicySoundIff | apps/credit-engine/src/engines/limit.py:169-177 | What the check admits always fits beside the exposure exactly if nothing was granted yet or the highest grant already fills the cap |
| PortfolioLock.LimitPolicyOverruns | apps/credit-engine/src/engines/limit.py:145-177 | For every cap of at least 2 there is a run without overlapping calls in which the grants add up to 2 * cap - 1 |
| PortfolioLock.LimitPolicyHoldsIff | apps/credit-engine/src/engines/limit.py:145-177 | With critical sections of at most 30 seconds, positive orders and grants that are not negative, the check keeps every user within the cap in all runs exactly when the cap is at most 1 |
| RateLimiter.SlidingWindowRateLimiter.RunAllow | packages/shared-python/sk_shared/rate_limit.py:124-136 | The commands change only the identity's key, which is trimmed and, exactly if fewer than limit members are left, gains the member and a new expiry |
| RateLimiter.SlidingWindowRateLimiter.AllowRequest | packages/shared-python/sk_shared/rate_limit.py:115-136 | True exactly when fewer than limit of all requests ever allowed to this identity lie in the window, if no earlier call of the identity had a shorter one; an allowed request is logged and sets the key to expire with its window, and a rejected one is not logged; calls of other identities change no answer, and no other identity's key changes |
| RateLimiter.SlidingWindowRateLimiter.CountRequests | packages/shared-python/sk_shared/rate_limit.py:149-156 | The count of all requests ever allowed to this identity that lie in the window, under the same proviso; the log and every other identity's key are unchanged |
| RateLimiter.SlidingWindowRateLimiter.Enforce | packages/shared-python/sk_shared/rate_limit.py:158-168 | 429 exactly when the identity's window already holds limit allowed requests, and nothing is logged then; every other identity's key is unchanged |
| RateLimiter.Commands | packages/shared-python/sk_shared/rate_limit.py:127-135 | Within one instant no command of a call finds a key that an earlier one left expired |
| RateLimiter.KeptAlways | packages/shared-python/sk_shared/rate_limit.py:127-135 | After every history the key holds every logged request that a window no longer than any used still covers |
| RateLimiter.AnswersAsLog | packages/shared-python/sk_shared/rate_limit.py:127-129 | The cardinality after the inclusive trim is the number of logged requests in the window |
| RateLimiter.RefinesIdeal | packages/shared-python/sk_shared/rate_limit.py:118-136 | With one window the trimmed, expiring set allows exactly the requests that an untrimmed log would, over every history |
| RateLimiter.CountsChangeNothing | packages/shared-python/sk_shared/rate_limit.py:149-156 | Leaving out every count call leaves the same requests allowed |
| RateLimiter.NoWindowOverLimit | packages/shared-python/sk_shared/rate_limit.py:118-136 | No interval as long as the window, wherever it ends, holds more than limit allowed requests |
| RateLimiter.ShorterWindowForgets | packages/shared-python/sk_shared/rate_limit.py:154-155 | A count with any shorter window makes the limiter allow a request over the limit of the longer one |
| RateLimiter.SharedKeyExactIff | packages/shared-python/sk_shared/rate_limit.py:118-156 | Calls with one window are answered exactly after calls with another exactly when the other is no shorter or the window is not positive |
| RateLimiter.KeyTextInjective | packages/shared-python/sk_shared/rate_limit.py:115-116 | Under one prefix two identities never share a key |
| RateLimiter.PrefixesMeetIff | packages/shared-python/sk_shared/rate_limit.py:86-93 | Two prefixes have a key in common exactly when one, with its colon, begins the other with its colon |
| RateLimiterInterleaved.StoredAndPassedBounded | packages/shared-python/sk_shared/rate_limit.py:127-136 | With k callers interleaved command by command, stored members plus callers past the check never exceed limit + k - 1 in any reachable state |
| RateLimiterInterleaved.CeilingIsExact | packages/shared-python/sk_shared/rate_limit.py:127-136 | No smaller bound holds in all runs, for every k and limit and every positive window |
| RateLimiterInterleaved.EveryGrantIsNew | packages/shared-python/sk_shared/rate_limit.py:133-134 | Every ZADD adds a member that was never added before, so members and allowed requests are equally many |
| RateLimiterInterleaved.AloneIsCall | packages/shared-python/sk_shared/rate_limit.py:124-136 | Commands that follow one another at one instant turn the caller away, or log it and leave the key, exactly as the uninterrupted call does |
| RateLimiterOverlap.KeptStep | packages/shared-python/sk_shared/rate_limit.py:127-135 | Every command keeps the logged members of a span stored and covered by the expiry as soon as their EXPIRE has run, until the key lapses under a call of that span |
| RateLimiterOverlap.AlwaysOrderly | packages/shared-python/sk_shared/rate_limit.py:127-135 | In every run, at any speed, the key outlives the start of each call that has trimmed it or of an earlier call that is about to refresh it |
| RateLimiterOverlap.LapseIsSlow | packages/shared-python/sk_shared/rate_limit.py:134-135 | When the key has lapsed under a call, a pending call began strictly before the expiry and is in flight strictly after it |
| RateLimiterOverlap.LapseCloses | packages/shared-python/sk_shared/rate_limit.py:134-135 | When the key lapses under a call of an interval, every request granted in that interval still has a caller in flight |
| RateLimiterOverlap.OverlapBound | packages/shared-python/sk_shared/rate_limit.py:118-136 | With calls of at most D, and lapses under calls of an interval only after its end, the interval of window - D never holds more than limit + k - 1 requests that were or will be allowed |
| RateLimiterOverlap.InstantCallsNeverLapse | packages/shared-python/sk_shared/rate_limit.py:134-135 | Calls that take no time never let the key lapse between a ZADD and its EXPIRE |
| RateLimiterOverlap.NoOverrun | packages/shared-python/sk_shared/rate_limit.py:118-136 | The bound holds in every run of the limits, windows, callers and delays that cannot overrun, with no assumption on lapses |
| RateLimiterOverlap.LapseBreaksTheWindow | packages/shared-python/sk_shared/rate_limit.py:134-135 | For all others, however short the delay, there is a run that loses a member and then grants the whole ceiling within the interval |
| RateLimiterOverlap.OverlapBoundIff | packages/shared-python/sk_shared/rate_limit.py:118-136 | On a continuous clock, for every limit, window, number of callers and delay, the bound holds in all runs exactly unless there are callers, the limit is at least 2, and the delay is positive and shorter than the window |
| RateLimiterOverlap.InstantOverlapBound | packages/shared-python/sk_shared/rate_limit.py:118-136 | For calls that take no time the bound limit + k - 1 holds for the whole window, in any order of the commands |
| Ledger.Connection.CheckLinesBalanced | db/migrations/versions/085_journal_entry_lines_balance_trigger.py:63-91 | On sound rows the trigger passes exactly if the journal of the new row, or of the old one for DELETE, is balanced; "orphaned" means its header is missing and "mismatch" that its sums are not the header's |
| Ledger.Connection.Rollback | db/migrations/versions/085_journal_entry_lines_balance_trigger.py:79-89 | A raised exception leaves exactly the last committed rows |
| Ledger.Connection.Commit | db/migrations/versions/085_journal_entry_lines_balance_trigger.py:99-104 | COMMIT keeps the working rows exactly if every queued check passes, otherwise the committed ones, with the first failure as its error |
| Ledger.Connection.Run | db/migrations/versions/085_journal_entry_lines_balance_trigger.py:99-104 | A whole transaction ends in the state and error that the transaction function gives |
| LedgerProofs.VerdictPassesIff | db/migrations/versions/085_journal_entry_lines_balance_trigger.py:69-89 | The trigger passes exactly when both line sums equal the header's totals |
| LedgerProofs.CommitPassesIff | db/migrations/versions/085_journal_entry_lines_balance_trigger.py:99-104 | A commit passes exactly when every queued journal is balanced |
| LedgerProofs.TransactionKeepsBalanceIff | db/migrations/versions/085_journal_entry_lines_balance_trigger.py:63-104 | A committed transaction of any statements keeps the ledger balanced exactly if each journal that is not checked kept all its lines or has none left |
| LedgerProofs.AlwaysBalancedIff | db/migrations/versions/085_journal_entry_lines_balance_trigger.py:63-104 | Over histories of any statements, one transaction at a time, the ledger is balanced after every transaction exactly if none loses a part of an unchecked journal |
| LedgerProofs.TransactionKeepsBalance | db/migrations/versions/085_journal_entry_lines_balance_trigger.py:63-104 | A transaction of header inserts, line inserts and amount updates keeps every journal with lines balanced, though only touched journals are checked |
| LedgerProofs.HistoryKeepsBalance | db/migrations/versions/070_fix_ledger_schema_orm_drift.py:87-91 | After every history of such transactions, one at a time, each journal with a line has line debits = header debit = header credit = line credits |
| LedgerProofs.TrialBalance | db/migrations/versions/085_journal_entry_lines_balance_trigger.py:69-89 | Balanced journals give equal total debits and credits, and account nets that sum to zero |
| LedgerProofs.TrialBalanceAlways | db/migrations/versions/085_journal_entry_lines_balance_trigger.py:63-104 | The trial balance holds in every committed state of such a history, by journal and by account |
| LedgerProofs.BothSides | db/migrations/versions/072_journal_entry_lines_debit_credit_xor.py:36-40 | A balanced journal with a line has a debit line and a credit line |
| LedgerProofs.LineMovesSums | db/migrations/versions/085_journal_entry_lines_balance_trigger.py:69-77 | A line adds its two amounts to the sums of its own journal and account and to no other |
| LedgerProofs.HeaderAcceptedIff | db/migrations/versions/011_init_m11_ledger.py:59-81 | A header is accepted exactly if it is new and its totals are not negative, fit the column and are equal, as db/migrations/versions/070_fix_ledger_schema_orm_drift.py:87-91 adds |
| LedgerProofs.LineAcceptedIff | db/migrations/versions/011_init_m11_ledger.py:84-99 | A line is accepted, and its journal queued, exactly if one side is positive and fits, the other is 0, and its header is there; db/migrations/versions/072_journal_entry_lines_debit_credit_xor.py:36-40 rules out two zeros |
| LedgerProofs.ChangeAcceptedIff | db/migrations/versions/011_init_m11_ledger.py:84-99 | New amounts are accepted on the same terms and a new journal exactly if its header is there; only the journal the row ends in is queued |
| LedgerProofs.InsertsSucceedIff | db/migrations/versions/011_init_m11_ledger.py:84-99 | A run of line inserts succeeds exactly if every line meets the column checks and names an existing journal, and then appends them in order |
| LedgerProofs.PostingCommitsIff | db/migrations/versions/085_journal_entry_lines_balance_trigger.py:97-104 | Exactly when a header and its lines commit, and the rows that result |
| LedgerProofs.DeferralIsOrderIndependent | db/migrations/versions/085_journal_entry_lines_balance_trigger.py:97-104 | Every permutation of the line inserts commits or aborts alike |
| LedgerProofs.DeletionsKeepBalanceIff | db/migrations/versions/085_journal_entry_lines_balance_trigger.py:100-103 | A transaction of deletions always commits, and keeps the ledger balanced exactly if it takes all lines of a journal or none |
| LedgerProofs.DeletionAlwaysUnbalances | db/migrations/versions/085_journal_entry_lines_balance_trigger.py:100-103 | From a balanced ledger, deleting one line commits and unbalances it, since its journal has another |
| LedgerProofs.LoneMoveAlwaysAborts | db/migrations/versions/085_journal_entry_lines_balance_trigger.py:66-89 | A transaction that only moves a line to another journal never commits |
| LedgerProofs.MoveCanUnbalance | db/migrations/versions/085_journal_entry_lines_balance_trigger.py:66 | From any balanced ledger a debit line can be moved to a new journal with a matching new line; the transaction commits, its old journal is unchecked and off, and the trial balance is lost |
| ConcurrentLedger.HeaderIsSerial | db/migrations/versions/011_init_m11_ledger.py:59-81 | While no other session has the id, a header is accepted exactly if the serial statement accepts it on the session's view, with the same rows |
| ConcurrentLedger.LineIsSerial | db/migrations/versions/011_init_m11_ledger.py:84-99 | The same for a line |
| ConcurrentLedger.AmountsAreSerial | db/migrations/versions/011_init_m11_ledger.py:84-99 | The same for new amounts of a committed line that nobody else has changed |
| ConcurrentLedger.CheckIsSerial | db/migrations/versions/085_journal_entry_lines_balance_trigger.py:63-104 | The check passes exactly if the serial trigger passes for every journal the session wrote, in any order |
| ConcurrentLedger.SameShare | db/migrations/versions/085_journal_entry_lines_balance_trigger.py:69-77 | What others commit after a session's check does not change what its own rows add to a journal |
| ConcurrentLedger.CheckedStaysIff | db/migrations/versions/085_journal_entry_lines_balance_trigger.py:97-104 | A check that passed would pass again, on what is committed by now, exactly if the committed sums of the journal are what they were |
| ConcurrentLedger.CommitKeepsBalanceIff | db/migrations/versions/085_journal_entry_lines_balance_trigger.py:97-104 | From a balanced ledger a commit keeps it balanced exactly if each journal it wrote sums to what it did at its check |
| ConcurrentLedger.PublishKeepsBalanceIff | db/migrations/versions/085_journal_entry_lines_balance_trigger.py:97-104 | If the check ran on a balanced ledger too, exactly if no journal it wrote, whose header it did not insert, got its first lines since |
| ConcurrentLedger.AlwaysBalancedIff | db/migrations/versions/085_journal_entry_lines_balance_trigger.py:97-104 | A run of any number of sessions, under either posting rule, is balanced throughout exactly if every commit in it satisfies that condition |
| ConcurrentLedger.PostedTwice | db/migrations/versions/085_journal_entry_lines_balance_trigger.py:69-89 | Two overlapping sessions that post to a header committed without lines both pass and leave twice its total |
| ConcurrentLedger.PostedWithHeader | apps/ledger-service/src/services/accounting_service.py:1062-1090 | A session that inserts a header with its lines passes its check and commits them |
| ConcurrentLedger.BalancedIff | db/migrations/versions/085_journal_entry_lines_balance_trigger.py:63-104 | In all runs of n overlapping sessions every committed state is balanced exactly if lines are first posted with their header, or n is at most 1 |
| ConcurrentLedger.TrialBalanceUnderOverlap | db/migrations/versions/085_journal_entry_lines_balance_trigger.py:63-104 | Under that rule the trial balance holds in every committed state, however transactions overlap |
| Sums.Regroup | db/migrations/versions/085_journal_entry_lines_balance_trigger.py:69-72 | The group sums over any set of keys that covers the rows add up to the sum of the table |
| CreditTriggers.Database.FnRecalculateAvailableCredit | db/migrations/versions/024_compliance_audit.py:164-177 | Passes exactly if the total fits the column and nothing is negative; the user's two cached columns are then what the loans say, and every other user, and on failure every row, is as it was; available credit and total then add up to the limit, or nothing is available |
| CreditTriggers.Database.Execute | db/migrations/versions/024_compliance_audit.py:164-177 | A statement writes its rows and runs the trigger for each; an error undoes all of it |
| CreditTriggers.StatementKeepsCache | db/migrations/versions/024_compliance_audit.py:164-177 | A statement that moves no loan keeps every cached total right and refreshes both columns of every owner it touches |
| CreditTriggers.CacheAlwaysRight | db/migrations/versions/024_compliance_audit.py:164-177 | In every state of every run of user inserts, limit changes and such statements, one transaction at a time, each cached total equals the sum over active and partially paid loans |
| CreditTriggers.CheckHoldsIff | db/migrations/versions/041_production_hardening.py:527-530 | After a recalculation the check on available_credit holds exactly if neither limit nor total is negative, or the limit is NULL |
| CreditTriggers.StatementAcceptedIff | db/migrations/versions/041_production_hardening.py:527-530 | A statement passes its triggers exactly if each touched user's new total fits the column and violates no check |
| CreditTriggers.NonNegativeNeverRejected | db/migrations/versions/041_production_hardening.py:527-530 | With non-negative loans and limits a statement is rejected only for a total that overflows the column |
| CreditTriggers.LoanChangeMovesTotal | db/migrations/versions/024_compliance_audit.py:169-174 | In every state of a run an accepted UPDATE of a loan moves its owner's stored total by the change of what it owes, which is its balance while it is active or partially paid and else nothing; available credit follows, and no other user's columns change |
| CreditTriggers.LoanChangeAcceptedIff | db/migrations/versions/041_production_hardening.py:527-530 | Such an UPDATE is accepted exactly if the new total fits the column and, for an owner with a limit, neither limit nor total is negative |
| CreditTriggers.InsertMovesTotal | db/migrations/versions/024_compliance_audit.py:169-174 | An accepted INSERT adds what the loan owes to its owner's total; available credit follows, and no other user's columns change |
| CreditTriggers.LimitChangeRefreshesNothing | db/migrations/versions/041_production_hardening.py:527-530 | Changing a limit leaves both cached columns as they are, and is accepted exactly if what is available stays within it |
| CreditTriggers.MoveKeepsCacheIff | db/migrations/versions/024_compliance_audit.py:170-174 | Moving a loan to another user keeps all caches right exactly when the loan did not count before |
| ConcurrentCredit.CommitKeepsCacheIff | db/migrations/versions/024_compliance_audit.py:169-174 | With overlapping transactions a commit keeps right caches right exactly if what is committed for its user adds up to what it did when its SUM ran |
| ConcurrentCredit.CommitStores | db/migrations/versions/024_compliance_audit.py:169-174 | A commit leaves its loan row, a total of what the SUM saw and that row, and available credit that agrees with it; no other user's columns change |
| ConcurrentCredit.StoreEnabledIff | db/migrations/versions/041_production_hardening.py:527-530 | The waiting UPDATE goes through exactly if nobody else holds the user's row, the total fits, and with a limit nothing is negative |
| ConcurrentCredit.AloneIsSerial | db/migrations/versions/024_compliance_audit.py:164-177 | With no other transaction open, write, SUM, UPDATE and COMMIT go through exactly if the serial statement does, and leave the same database |
| ConcurrentCredit.AlwaysCachedIff | db/migrations/versions/024_compliance_audit.py:169-174 | A run of any number of sessions, with either locking rule, keeps all caches right throughout exactly if no commit in it stores a sum that is out of date |
| ConcurrentCredit.AlwaysCached | db/migrations/versions/024_compliance_audit.py:169-174 | If each transaction locks its user first, no sum is ever out of date and all caches are right in every state of every run |
| ConcurrentCredit.StaleTotal | db/migrations/versions/024_compliance_audit.py:169-174 | Two overlapping transactions that insert loans of one user leave a cached total that lacks one of them |
| ConcurrentCredit.LockedTotal | db/migrations/versions/024_compliance_audit.py:169-174 | With the user locked first the same two inserts leave the right total |
| ConcurrentCredit.CachedIff | db/migrations/versions/024_compliance_audit.py:164-177 | The caches are right in all runs of n sessions exactly if transactions lock their user first or n is at most 1 |
| LateFees.Database.FnApplyLateFee | db/migrations/versions/024_compliance_audit.py:179-197 | For an UPDATE of any columns: entering overdue stores the days from the new due date to today and a fee of 150.00, every other column as given, and allocates the fee for the new loan to an active and approved charity if there is one; it fails exactly on a second allocation; any other row is stored as given |
| LateFees.Database.Update | db/migrations/versions/024_compliance_audit.py:179-197 | An UPDATE that gives several rows any new columns applies the trigger row by row, and a violation undoes the whole statement |
| LateFees.NamedRowsStored | db/migrations/versions/024_compliance_audit.py:182-197 | An UPDATE of distinct rows stores each of them as given, with the days from its due date and a fee of 150.00 if it enters overdue |
| LateFees.UnnamedRowsStay | db/migrations/versions/024_compliance_audit.py:182-197 | An UPDATE leaves every row it does not name, and all earlier allocations |
| LateFees.WriteRowAccountsIff | db/migrations/versions/024_compliance_audit.py:184-195 | An UPDATE of a row, whatever its columns, keeps the books exactly if the trigger sets the fee or the statement leaves 0 or the flat fee, and the flat one if it is allocated |
| LateFees.WriteRowUnfunded | db/migrations/versions/024_compliance_audit.py:184-194 | The set of installments with an unallocated fee changes only as stated |
| LateFees.AlwaysAccounted | db/migrations/versions/024_compliance_audit.py:179-197 | In every state of every run of steps that keep the books, the UPDATEs, the recordings and the charities included, fees charged equal allocations plus one flat fee for each unfunded installment, and each installment has at most one allocation, equal to its fee |
| LateFees.BooksInFull | db/migrations/versions/024_compliance_audit.py:179-197 | The same in the columns of the tables: every fee is 0 or 150.00, every allocation is 150.00 on its own installment that was charged it, and the fees add up to the allocations plus 150.00 for each charged installment without one |
| LateFees.FeesConserved | db/migrations/versions/024_compliance_audit.py:179-197 | With an eligible charity always present, fees set by the trigger only and none recorded by the service, total allocations equal total late fees in every state |
| LateFees.StaysConservedIff | db/migrations/versions/024_compliance_audit.py:189-193 | From conserved books an UPDATE of a row keeps them conserved exactly if it leaves the fee alone, or charges it while a charity qualifies or already has it |
| LateFees.WaiverConservesIff | apps/gateway/src/api/v1/admin_payments.py:337-339 | The admin waiver keeps conserved books conserved exactly if there was no fee to waive |
| LateFees.ReentryAborts | db/migrations/versions/011_init_m11_ledger.py:122 | An installment that is already allocated and enters overdue again aborts the statement, and nothing changes |
| LateFees.Database.DefaultCharity | apps/ledger-service/src/services/accounting_service.py:1128-1133 | The active charity with the lowest id, or none exactly if no charity is active |
| LateFees.Database.RecordLateFee | apps/ledger-service/src/services/accounting_service.py:146-178 | Passes exactly if the installment exists, some charity is active, the amount is positive, and the entry exists or the amount fits and there is no allocation; then posts the entry and an allocation of the amount to the active charity with the lowest id, or nothing if the entry existed; a failure changes nothing |
| LateFees.RecordAccountsIff | apps/ledger-service/src/services/accounting_service.py:146-178 | Recording a late fee keeps the books exactly if it adds nothing, or the flat fee to an installment that was charged it |
| LateFees.RecordConservesIff | apps/ledger-service/src/services/accounting_service.py:169-175 | From equal totals, recording a late fee keeps them equal exactly if it adds nothing |
| LateFees.FirstPathWins | apps/ledger-service/src/services/accounting_service.py:169-175 | Once an installment is allocated without an entry, after any further steps every attempt to record its fee fails and it never gets one |
| LateFees.RecordedCannotEnter | db/migrations/versions/024_compliance_audit.py:184-195 | Once a fee is recorded, every later UPDATE that makes the installment overdue aborts while a charity qualifies |
| KeyRotation.VirtualCards.Encrypt | apps/payment-orchestrator/src/services/vcn_encryption.py:120-124 | Succeeds exactly if the current key is configured, with a ciphertext that this key decrypts to the value |
| KeyRotation.VirtualCards.Reencrypt | apps/payment-orchestrator/scripts/rotate_vcn_encryption_keys.py:91-99 | Succeeds exactly if both fields decrypt and the current key exists; the new row is on the current version with the same PAN and CVV |
| KeyRotation.VirtualCards.ProcessPage | apps/payment-orchestrator/scripts/rotate_vcn_encryption_keys.py:82-100 | Rotates exactly the stale cards of a page in the session and counts them; a dry run only counts |
| KeyRotation.VirtualCards.SelectPage | apps/payment-orchestrator/scripts/rotate_vcn_encryption_keys.py:71-80 | The page continues the live rows where the last page ended, whatever was rotated in between |
| KeyRotation.VirtualCards.Commit | apps/payment-orchestrator/scripts/rotate_vcn_encryption_keys.py:102-103 | The table becomes the session's rows |
| KeyRotation.VirtualCards.RotatePage | apps/payment-orchestrator/scripts/rotate_vcn_encryption_keys.py:70-104 | One turn of the loop advances by one page, stops on an empty one, or fails and leaves the table |
| KeyRotation.VirtualCards.RotatePages | apps/payment-orchestrator/scripts/rotate_vcn_encryption_keys.py:70-104 | The loop ends for every batch size, and its progress is a whole number of pages |
| KeyRotation.VirtualCards.Rotate | apps/payment-orchestrator/scripts/rotate_vcn_encryption_keys.py:61-108 | Succeeds exactly if all stale live cards can be rotated or it is a dry run; returns their number and rotates all of them; on a key failure it stops at the first page with a card that cannot be rotated, with the pages before it rotated and nothing else; a dry run changes nothing; no version tag counts as v1 |
| KeyRotation.StaleCountIsAll | apps/payment-orchestrator/scripts/rotate_vcn_encryption_keys.py:82-108 | Counting along the pages counts every live stale card once |
| KeyRotation.SecretsPreserved | apps/payment-orchestrator/scripts/rotate_vcn_encryption_keys.py:91-103 | At every commit boundary every row decrypts under its stamped version to the same PAN and CVV as before |
| KeyRotation.NothingStaleLeft | apps/payment-orchestrator/scripts/rotate_vcn_encryption_keys.py:61-108 | After a full run every live card is on the current version and deleted cards are unchanged |
| KeyRotation.AllRenewed | apps/payment-orchestrator/scripts/rotate_vcn_encryption_keys.py:82-103 | After a full run every live card on another version, v1 where there is no tag, carries the current tag and deciphers under the current key to what it did under the old one; every other card is unchanged |
| KeyRotation.RestartCompletes | apps/payment-orchestrator/scripts/rotate_vcn_encryption_keys.py:70-104 | A run that starts where an interrupted one stopped ends in a state that an uninterrupted run could have reached |
| KeyRotation.RestartCanRun | apps/payment-orchestrator/scripts/rotate_vcn_encryption_keys.py:70-104 | What an interrupted run leaves can still be rotated, and has no new stale rows |
| KeyRotation.SecondRunIsIdle | apps/payment-orchestrator/scripts/rotate_vcn_encryption_keys.py:83-85 | Once nothing is stale, any further run changes no row |
| Base64Url.CharIsTable | packages/shared-python/sk_shared/security.py:97 | The alphabet is Table 2 of RFC 4648, section 5 |
| Base64Url.TripleIsOneNumber | packages/shared-python/sk_shared/security.py:97 | Four letters are the base-64 digits of the 24-bit number that three bytes make |
| Base64Url.ScanEncoded | packages/shared-python/sk_shared/security.py:115 | Decoding a padded encoding gives the bytes back |
| Base64Url.StripShape | packages/shared-python/sk_shared/security.py:97 | Stripping leaves letters of the alphabet only, and never one more than a multiple of four |
| Base64Url.RestoreStripped | packages/shared-python/sk_shared/security.py:114 | Adding -len mod 4 padding signs restores exactly what was stripped |
| Base64Url.RoundTrip | packages/shared-python/sk_shared/security.py:96-115 | Every byte sequence survives encoding, stripping, restoring and decoding |
| Base64Url.ValueIsTable | packages/shared-python/sk_shared/security.py:115 | The decoder reads the alphabet back, with + and / for its last two letters as well, and nothing else |
| Base64Url.JunkSkipped | packages/shared-python/sk_shared/security.py:115 | A character that is neither a letter nor a padding sign makes no difference to the decoder, wherever it stands |
| Base64Url.RestoredDecodesIff | packages/shared-python/sk_shared/security.py:114-115 | A text of letters is accepted once its padding is restored exactly unless its length is one more than a multiple of four |
| SignedAssertion.SplitLastIs | packages/shared-python/sk_shared/security.py:112 | Splitting at the last dot recovers both parts if the second has no dot |
| SignedAssertion.SplitLastJoins | packages/shared-python/sk_shared/security.py:112 | What the split returns joins to the token, and its second part has no dot |
| SignedAssertion.TokenSplits | packages/shared-python/sk_shared/security.py:96-112 | A created token splits into exactly its encoded payload and its signature |
| SignedAssertion.VerifyCreated | packages/shared-python/sk_shared/security.py:77-133 | The verdict on a created token for every secret on either side and every pair of times; claims that do not survive their own JSON text never come back |
| SignedAssertion.AssertionRoundTrip | packages/shared-python/sk_shared/security.py:77-133 | With one non-empty secret the stamped claims come back exactly if they survive their JSON text and the time is at most issue time + ttl; claims that survive are expired exactly after it |
| SignedAssertion.AcceptedIsSigned | packages/shared-python/sk_shared/security.py:102-133 | Whatever is accepted carries the MAC of its own payload bytes under a non-empty secret, and has not expired |
| SignedAssertion.ForgedSignatureRejected | packages/shared-python/sk_shared/security.py:69-74 | A created token with any other ASCII signature is rejected |
| SignedAssertion.NotValueErrorIff | packages/shared-python/sk_shared/security.py:102-133 | For every token, secret and time, a rejection is no ValueError exactly if the payload decodes under a non-empty secret and the signature is not ASCII, or is right and the payload is nested too deep or has an exp that is null, a list, an object or infinite |
| SignedAssertion.TypeErrorIff | packages/shared-python/sk_shared/security.py:69-131 | Of these it is a RecursionError exactly for the signed ones nested too deep, and a TypeError for all others except a signed one whose exp is infinite |
| SignedAssertion.SignedRaises | packages/shared-python/sk_shared/security.py:122-130 | Correctly signed bytes raise RecursionError at every time if they are nested too deep, and TypeError if they are an object whose exp is null |
| SignedAssertion.SignedAcceptedIff | packages/shared-python/sk_shared/security.py:102-133 | A correctly signed object is accepted, with all its claims, exactly up to its expiry: a whole number, a number rounded toward zero, a boolean as 1 or 0, a text that parses, or 0 if there is none |
| EventDedup.Gateway.HandleOne | apps/gateway/src/main.py:73-94 | An event with an id that is not claimed is claimed for 300 seconds and its handler started once; a claimed one is skipped; one without an id is started |
| EventDedup.Gateway.TakeOne | apps/gateway/src/main.py:46-94 | What one message does to the claims, the handlers started and the worker, for each kind of data; the worker ends exactly on the four fatal kinds |
| EventDedup.Gateway.Listen | apps/gateway/src/main.py:45-98 | The loop over everything received starts what the message-by-message function gives, stops at a message that ends it, and is a path of the step system |
| EventDedup.HearsFirstOnly | apps/gateway/src/main.py:73-94 | Of each id the loop starts the first event only, if it has a handler and the id is not claimed |
| EventDedup.HearAliveIff | apps/gateway/src/main.py:51-78 | The listener survives its messages exactly if none is bytes that do not decode, text that raises something else than JSONDecodeError, JSON that is no object, or an id that cannot be encoded |
| EventDedup.EndedHearsNothing | apps/gateway/src/main.py:41-42 | In every run a listener that has ended has nothing left to hear and hears nothing new |
| EventDedup.RestartedHears | apps/gateway/src/main.py:101-108 | A listener that is started again after it ended hears exactly what is published from then on, not what was published before |
| EventDedup.ClaimKeeps | apps/gateway/src/main.py:75-79 | A SETNX within 300 seconds of the first claim keeps the invariant: one owner for each claimed id |
| EventDedup.SettleKeeps | apps/gateway/src/main.py:82-94 | A dispatched, ignored or failed event closes its claim and keeps the invariant |
| EventDedup.StepKeeps | apps/gateway/src/main.py:45-94 | Every step of every worker keeps the invariant |
| EventDedup.ExactlyOnceIfClaimed | apps/gateway/src/main.py:58-94 | In every timely interleaving of n workers an id starts at most once, never if it was not claimed, and exactly once if claimed, unless it is still in hand, has no handler or failed before it |
| EventDedup.StartedOnce | apps/gateway/src/main.py:58-94 | In every timely interleaving every id starts at most once in all workers together |
| EventDedup.HandledTwice | apps/gateway/src/main.py:75-79 | With any longer delay there is a run that starts one event twice |
| EventDedup.StartedOnceIff | apps/gateway/src/main.py:75-79 | The guarantee holds in all runs whose delays are bounded by W exactly when W <= 300 |
| EventDedup.AlwaysAccounted | apps/gateway/src/main.py:45-94 | In every run of n workers an event is started, in hand and waiting together at most n times as often as it was published |
| EventDedup.UnnamedHandledByAll | apps/gateway/src/main.py:73-79 | For every n, an event without an id that is published once can be started by all n workers, at any delay |
| EventDedup.PublishedOnceIff | apps/gateway/src/main.py:58-79 | With delays of at most 300 seconds, a handled event published once starts at most once in all runs exactly if it has an id or there is at most one worker |

## Left out

- The content of the evaluation and of the event handlers, routing, authentication, logging, metrics and health checks.
- Redis failures and `fail_open`, network partitions, clock skew, and a process that dies without running its finally block.
- The row lock on the user at apps/credit-engine/src/engines/limit.py:159-167: it serialises evaluations on Postgres as a second layer and does nothing on SQLite; the model shows what the Redis lock gives alone.
- Runs in which a cache key is another slot's lock key: CacheReadsClaimIff says what such a read finds in a state, and the step system keeps caches and locks in separate maps.
- Cryptographic strength: HMAC and Fernet are functions with decrypt inverse to encrypt, and nothing is said about guessing keys or MAC collisions.
- The JSON text itself, so which claims survive theirs, and how deep is too deep; floats are real numbers, infinities and NaN.
- The KMS path of the key provider, concurrent writers during a rotation, and rows whose encrypted fields change type.
- Steps on headers other than inserting them, the cascade from deleting a header, account rows and soft-delete columns.
- What record_late_fee asks of the accounting period and of the ledger accounts, and the checks on waivers and principal before it.
- Deleting loans or installments, and charity columns other than the two flags.
- Overlapping transactions in LateFees, and in CreditTriggers beyond ConcurrentCredit: there each transaction writes one loan and keeps its owner.
- ConcurrentLedger.BalancedIff: sessions insert headers and lines and change amounts of committed lines; deletions and moves are only modelled one transaction at a time.
- Unique columns of a journal header other than its id.
- CreditTriggers.Database.FnRecalculateAvailableCredit: a recalculated available credit that overflows its column is reported as the failed check, because the statement is rejected either way.
- KeyRotation.VirtualCards.Rotate: the loop reads one snapshot of the live rows per page from the table itself, so it does not model cards issued or deleted between two pages.
- EventDedup.Gateway.Listen: processes the messages received so far and ends, where the source waits for more.
- The publishing side of events, and ids that are JSON values other than strings.
