# CyberVPN platform scripts: a verified model

The project models the parts of the repository that hold state machines, printers, recursive transforms and
protocols, and proves what they promise.

| file | models |
|---|---|
| `BootstrapProtocol`, `BootstrapTheorems`, `BootstrapRecords`, `BootstrapAssumptions` | the first-admin bootstrap as a protocol: any number of operators and of writers that ignore the advisory lock, interleaved statement by statement |
| `FirstAdmin` | the bootstrap script against its tables, each statement tied to a step of the protocol |
| `ReplayWindow`, `GateBounds`, `WebhookReceiver` | the webhook receiver: the pruned replay map, the timestamp check in front of it, the request pipeline and its evidence |
| `NatsText`, `NatsAccounts`, `NatsSpec`, `NatsMeaning`, `NatsRender` | JSON quoting, re-indentation, a reader for the emitted subset of the NATS configuration, what is taken from the specification and what its fields mean, and the renderer with its credential manifest |
| `BaoConvergence`, `OpenBaoPlan`, `OpenBaoOutcome`, `OpenBaoBootstrap` | the OpenBao baseline as check-then-create reconciliation, with a crash possible between any two commands |
| `CiBlocks`, `CiTexts` | the CI contract's block scanner and job check |
| `Redactors` | the import redactor and the receiver's redactor on JSON trees |
| `LocaleRouting`, `FrontendProxy`, `AdminProxy` | the redirects of the two self-contained proxies and of the locale middleware behind them |
| `CaptureLocations` | the nginx locations written for PostHog |
| `ArbTools`, `ArbMeaning` | the three tools over the mobile app's ARB files |
| `AuthMetrics` | the auth metrics generator |

Where the source changes state the model is a class or a method with loops, proved against a specification function;
the theorems are about that function. Assumptions that the code does not show are stated where they are used:

- The bootstrap's theorems assume READ COMMITTED: each statement sees everything committed when it starts, and the
  lock is held to the end of the transaction. `SnapshotAdmitsTwo` shows that the first is needed. A run whose process
  dies is rolled back by the server; such a death is a step and is reported as `internal_error`. The admin table's
  unique and foreign-key constraints hold for every writer.
- The replay guard's theorems assume a clock that never goes back (`GuardUnderAnyClock` does not) and treat one call of
  the guard as atomic. The server is threaded and takes no lock, so the second is an assumption about how it is run.
- The redactors' key patterns and hash are parameters; the agreement of the two is stated for any rules of each, and
  for shared ones.
- Auth mounts of the types `oidc` and `jwt` take the configuration and roles the OpenBao script writes, others refuse
  them.

Results where the code falls short of what one might expect, each with the exact condition:

- The handler reads the clock once for the timestamp and once for the replay map. One request is accepted at most
  three times if and only if the two readings are at most w - 1 seconds apart, on whole seconds at most twice if and
  only if they are less than two apart; requests handled one after the other never exceed four and three. Each
  further window of delay admits one more, so without a bound on the delay there is none (`GateBounds`).
- A clock that goes back makes the pruned map forget: a call is refused if and only if an earlier accepted one has
  survived every pruning since (`GuardUnderAnyClock`).
- A body that cannot be decoded, parsed or redacted is remembered but never answered (`LiveMapIsAnswered`, `LostIff`).
  Being UTF-8 is not enough: an identifier that holds a surrogate makes redaction raise (`RaisesOnSurrogateIff`).
- The bootstrapped admin is the only one if and only if writers that ignore the lock have left none in between
  (`AloneIff`).
- An auth mount of a type that takes no configuration makes the OpenBao run end there (`RunReconciles`).
- The credential manifest matches the printed credentials if and only if repeated pairs repeat their password
  (`ManifestExactIff`).
- An account name that is not a bare word makes the NATS block unreadable (`BlockRoundTripIff`).
- An existing mount of the wrong type is never repaired (`MountTypeIff`).
- A repeated CI header loses the earlier body (`ReassemblyIff`).
- Under shared rules the redactors differ on nulls under governed keys and on long strings (`RecordsAgreeIff`); items
  of a root list that are not objects are copied unredacted (`ListRootRedactedIff`); masking is idempotent only up to
  stable hashes (`MaskTwiceIff`).
- A default locale that looks like a locale and is not listed makes the admin proxy redirect for ever (`AllStopIff`).
- An unlisted locale with a final slash takes two redirects of the admin proxy and loses the query (`UnlistedEnds`).
- A path that leads with a slash pair and a locale changes its route segment when a locale is put in front
  (`SegmentKeptIff`).
- A locale value that is not a string is never replaced by the backfill and stays missing for the coverage tool
  (`CoveredIff`).

## Model

| member | source | states |
|---|---|---|
| BootstrapProtocol.LockInvKept | backend/scripts/bootstrap_first_admin.py:169-171 | every step of any run or other writer keeps: the lock names exactly the one run that is inside its transaction |
| BootstrapProtocol.TableInvKept | backend/scripts/bootstrap_first_admin.py:195-225 | every step keeps: admin ids are fresh, the unique constraints hold, and a flushed but uncommitted admin still fits beside the committed ones |
| BootstrapProtocol.InvariantsHold | backend/scripts/bootstrap_first_admin.py:167-225 | both invariants hold after every possible interleaving, at either isolation level |
| BootstrapTheorems.GateInvKept | backend/scripts/bootstrap_first_admin.py:173-181 | with each statement seeing the committed state, a run past the two counts still finds no bootstrap audit row, and a successful run owns the only one |
| BootstrapTheorems.AtMostOneBootstrap | backend/scripts/bootstrap_first_admin.py:167-225 | in every interleaving of any number of runs with writers that ignore the lock, at most one run succeeds; it found an empty audit log and leaves exactly its own row; the log changes only that way |
| BootstrapTheorems.AdminAndAuditTogether | backend/scripts/bootstrap_first_admin.py:195-225 | the one kind of step that adds an audit row adds the owner admin it names, second factor enabled, and ends the run in success; no other step of a run changes the tables |
| BootstrapTheorems.LockedForever | backend/scripts/bootstrap_first_admin.py:173-181 | once an audit row is committed, a run that has not counted yet can only end with `bootstrap_locked`, even if all admins are deleted, unless its process dies |
| BootstrapTheorems.FailedRunLeavesNoTrace | backend/scripts/bootstrap_first_admin.py:168-193 | deleting all steps of an unsuccessful run from an execution gives a possible execution with the same tables and the same fate of every other run |
| BootstrapTheorems.HolderCanMove | backend/scripts/bootstrap_first_admin.py:167-225 | a run inside its transaction always has a next step other than dying |
| BootstrapTheorems.SomeoneCanMove | backend/scripts/bootstrap_first_admin.py:169-171 | while any run is unfinished, some run can move without dying: waiting on the lock never blocks everybody |
| BootstrapTheorems.RunsFinish | backend/scripts/bootstrap_first_admin.py:154-225 | n runs take at most 9n steps together in any interleaving: no run goes on for ever |
| BootstrapAssumptions.SnapshotAdmitsTwo | backend/scripts/bootstrap_first_admin.py:167-181 | if the snapshot were fixed by the lock request, two waiting operators would both succeed: the isolation level matters |
| BootstrapAssumptions.PurgeAdmitsTwo | backend/scripts/bootstrap_first_admin.py:173-181 | deleting the admin and the audit row lets a second bootstrap succeed: the audit rows must stay |
| BootstrapAssumptions.FirstAdminNeedNotBeAlone | backend/scripts/bootstrap_first_admin.py:173-225 | a concrete run in which a writer that ignores the lock adds an admin after the count, so the bootstrapped admin is not the only one; `AloneIff` has the exact condition |
| BootstrapTheorems.AdminsAfterCommit | backend/scripts/bootstrap_first_admin.py:167-225 | from any moment at which a run holds the lock, its commit leaves exactly its own admin and those present or inserted meanwhile and not deleted |
| BootstrapTheorems.AloneIff | backend/scripts/bootstrap_first_admin.py:173-225 | with no admins at a moment after the lock, such as the one the count sees, the bootstrapped admin is the only one after the commit if and only if every admin inserted in between has been deleted again |
| BootstrapTheorems.PurgesBoundSuccesses | backend/scripts/bootstrap_first_admin.py:174-181 | with audit rows deleted k times at most k + 1 runs ever succeed, at most k if a row was there at the start |
| BootstrapRecords.CommitWrites | backend/scripts/bootstrap_first_admin.py:183-225 | over whole executions: what a commit adds is the owner admin of that run's configuration in the realm that run's lookup found, and an audit row that names it, the handle and the address |
| BootstrapRecords.ConstraintsHold | backend/scripts/bootstrap_first_admin.py:195-214 | at every point of every execution no two admins of one realm share login or e-mail, and every realm an admin names exists |
| FirstAdmin.AdminDatabase.BootstrapFirstAdmin | backend/scripts/bootstrap_first_admin.py:142-236 | one undisturbed run: each error exactly under its condition, in the order of the script; failure leaves tables and lock as they were; success, exactly when both tables are empty and an active admin realm is there, leaves one owner admin with second factor in such a realm, with the configured login and e-mail, and one audit row with the configured handle and address; the run is a path of the protocol |
| FirstAdmin.AdminDatabase.Transaction | backend/scripts/bootstrap_first_admin.py:167-225 | the locked block, as a path of the protocol: `bootstrap_locked` exactly when an admin or a bootstrap audit row exists |
| FirstAdmin.AdminDatabase.Create | backend/scripts/bootstrap_first_admin.py:183-225 | behind the gate: a missing active admin realm raises and rolls back, otherwise both rows are committed |
| FirstAdmin.AdminDatabase.WriteBoth | backend/scripts/bootstrap_first_admin.py:195-225 | flush, audit row, commit: the new tables are exactly one admin and one audit row |
| ReplayWindow.KeyInjective | scripts/partner/run-webhook-test-receiver.py:95 | the `id:sha` key determines id and hash when hashes have no colon, whatever the id contains |
| ReplayWindow.GuardDecidesLikeHistory | scripts/partner/run-webhook-test-receiver.py:87-99 | with a clock that never goes back, the pruned map accepts a call if and only if its id is non-empty and no earlier accepted call for the same id and hash lies within the last w seconds |
| ReplayWindow.AcceptedCallsApart | scripts/partner/run-webhook-test-receiver.py:91-99 | two calls for one event that the guard accepts are more than w seconds apart |
| ReplayWindow.GuardUnderAnyClock | scripts/partner/run-webhook-test-receiver.py:87-99 | whatever the clock does: a call with an id is refused if and only if an earlier accepted call with the same key has stayed within w of every reading taken since by a call with an id |
| ReplayWindow.ClockBackwardsBreaksGuard | scripts/partner/run-webhook-test-receiver.py:90-94 | a concrete run with a clock that goes back where the pruned map accepts what the history refuses |
| ReplayWindow.LiveMapIsLiveHistory | scripts/partner/run-webhook-test-receiver.py:90-98 | at any later moment the entries at most w old are exactly the keys of the accepted calls in the window |
| ReplayWindow.LiveCallsDistinct | scripts/partner/run-webhook-test-receiver.py:95-98 | no two live accepted calls share a key |
| ReplayWindow.MapSizeCountsAccepted | scripts/partner/run-webhook-test-receiver.py:88-99 | right after a call with a non-empty id the whole map is live and its size is the number of accepted calls in the window |
| GateBounds.DelayBoundIff | scripts/partner/run-webhook-test-receiver.py:76-99 | requests in any order: one (timestamp, id, body) is accepted at most n times in every run whose two readings of a request are at most d apart if and only if d <= (n - 2) w - 1; three times if and only if d <= w - 1 |
| GateBounds.WholeDelayBoundIff | scripts/partner/run-webhook-test-receiver.py:76-99 | on whole seconds, if and only if d < (n - 2) (w + 1) + 2; twice if and only if d < 2 |
| GateBounds.SequentialBoundIff | scripts/partner/run-webhook-test-receiver.py:76-99 | requests one after the other, w >= 1: four times always, three times if and only if d <= w - 1, never fewer |
| GateBounds.SequentialWholeBoundIff | scripts/partner/run-webhook-test-receiver.py:76-99 | on whole seconds: three times always, twice if and only if d < 2, never fewer |
| GateBounds.SequentialBound | scripts/partner/run-webhook-test-receiver.py:76-99 | the part of this that holds for any delay |
| GateBounds.DelayBound | scripts/partner/run-webhook-test-receiver.py:76-99 | the upper bound for one given run, timestamp, id and body |
| GateBounds.BoundsAttained | scripts/partner/run-webhook-test-receiver.py:76-99 | for every w >= 1 and every request there are runs that reach four, three on whole seconds, and with readings that agree three and two |
| GateBounds.ThreadsUnbounded | scripts/partner/run-webhook-test-receiver.py:154-163 | when nothing bounds the delay between the two readings, no number of acceptances is an upper bound |
| WebhookReceiver.Receiver.RememberEventOrReplay | scripts/partner/run-webhook-test-receiver.py:87-99 | the pruning loop and the insertion leave the map and give the answer of the replay guard |
| WebhookReceiver.Receiver.DoPost | scripts/partner/run-webhook-test-receiver.py:129-191 | the answer and the new map of one request; with a secret, only a request with the right signature and a current timestamp is remembered or answered 202, 400 or 409, and a refusal by the signature or the timestamp is recorded as such; every answer leaves exactly one evidence entry of the right kind, redacted on success; an uncaught exception leaves none |
| WebhookReceiver.AnswerMeans | scripts/partner/run-webhook-test-receiver.py:132-163 | the decision table in terms of the headers: a request is refused with 401 or gets past the checks exactly as its trimmed signature header, one leading `sha256=` removed, is the body's HMAC and its timestamp is within the window |
| WebhookReceiver.UnsignedRefused | scripts/partner/run-webhook-test-receiver.py:65-73 | any other signature, none or an empty one is refused with 401, or raises on text that is not ASCII; the map stays as it was |
| WebhookReceiver.SignedNotRefused | scripts/partner/run-webhook-test-receiver.py:65-84 | with the right signature only the timestamp can be the reason for a 401 |
| WebhookReceiver.OwnHeaderSigns | scripts/partner/run-webhook-test-receiver.py:71-73 | the header `sha256=` and the HMAC is the right signature |
| WebhookReceiver.PipelineDrivesGuard | scripts/partner/run-webhook-test-receiver.py:151-163 | over a whole run with a secret, the map is the guard's after exactly the calls that passed length, signature and timestamp |
| WebhookReceiver.AnswerIsVerdict | scripts/partner/run-webhook-test-receiver.py:151-191 | the guard accepts a request if and only if the answer is 202 or 400 or the request is lost to a body that cannot be decoded, parsed or redacted |
| WebhookReceiver.LostIff | scripts/partner/run-webhook-test-receiver.py:173-190 | a request is remembered and never answered if and only if it passes the guard and handling its body raises, which the body alone decides |
| WebhookReceiver.RaisesOnSurrogateIff | scripts/partner/run-webhook-test-receiver.py:45-62 | with the receiver's own redactor a body that parses raises if and only if some first governing key is an identifier over a string with a surrogate |
| WebhookReceiver.SurrogateLost | scripts/partner/run-webhook-test-receiver.py:173-190 | the plain ASCII body with the escape of a lone surrogate under `id` is remembered and never answered |
| WebhookReceiver.LiveMapIsPassed | scripts/partner/run-webhook-test-receiver.py:87-99 | at every point the live keys are those of the requests that passed the guard in the last w seconds |
| WebhookReceiver.LiveMapIsAnswered | scripts/partner/run-webhook-test-receiver.py:129-191 | they are those of the requests answered 202 or 400 if and only if no request in the window was lost in that way |
| WebhookReceiver.MapSizeCountsPassed | scripts/partner/run-webhook-test-receiver.py:87-99 | after a request with an event id reached the guard, the map size is the number of passed requests in the window |
| WebhookReceiver.NoSecretNoGuard | scripts/partner/run-webhook-test-receiver.py:151 | without a secret nothing is remembered and no request is answered 409 |
| WebhookReceiver.ReplayBound | scripts/partner/run-webhook-test-receiver.py:76-99 | one captured request sent again and again to a sequential receiver is answered 202 at most four times, three on whole seconds |
| WebhookReceiver.DelayedReplayBound | scripts/partner/run-webhook-test-receiver.py:76-99 | in any order of handling the delay between the two readings bounds the answers 202 as in `DelayBoundIff` and `WholeDelayBoundIff` |
| NatsText.QuoteRoundTrip | infra/scripts/nats_bootstrap.py:102-104 | a JSON-quoted string reads back as itself whatever follows, for every Unicode text, surrogate pairs included |
| NatsText.QuotePlain | infra/scripts/nats_bootstrap.py:102-104 | printable ASCII without quotes and backslashes is quoted as it is |
| NatsText.QuotePrintable | infra/scripts/nats_bootstrap.py:102-104 | a quoted string holds printable ASCII only, so no raw newline |
| NatsText.ReadTextIndented | infra/scripts/nats_bootstrap.py:150-168 | newline replacement commutes with reading a quoted string: it never alters one |
| NatsText.IndentKeepsTokens | infra/scripts/nats_bootstrap.py:164-168 | re-indenting any text by blanks leaves its words, punctuation and quoted strings |
| NatsText.LexAppend | infra/scripts/nats_bootstrap.py:161-168 | texts put side by side read as their tokens one after the other, unless two words meet at the seam |
| NatsAccounts.BlockRoundTripIff | infra/scripts/nats_bootstrap.py:123-168 | the printed block reads back as exactly the accounts, users, passwords and permission lists, in order, if and only if every account name is a bare word |
| NatsRender.AccountsRenderer.RenderUser | infra/scripts/nats_bootstrap.py:136-159 | trimming, defaulting, errors, manifest entry and text of one user |
| NatsRender.AccountsRenderer.RenderAccount | infra/scripts/nats_bootstrap.py:125-167 | the same for one account, also when it stops half-way through its users |
| NatsRender.AccountsRenderer.RenderAccountsBlock | infra/scripts/nats_bootstrap.py:123-168 | the block: text or error, manifest, passwords generated so far; it succeeds exactly on the specifications described by their fields, and a reader of the text finds what their fields say |
| NatsMeaning.UserMeans | infra/scripts/nats_bootstrap.py:136-144 | a user is taken exactly if it is an object with a name, a password that is a string or blank, and well-formed permissions; it carries the trimmed `username`, or else `name`, the trimmed password given or the next generated one, and its permissions |
| NatsMeaning.PermissionsMean | infra/scripts/nats_bootstrap.py:107-120 | `publish` and `subscribe` are taken item for item under their own names, and each malformed value gives its own error |
| NatsMeaning.AccountsMean | infra/scripts/nats_bootstrap.py:123-168 | over all accounts and users: which specifications are taken, and that each entry says what its fields say, generated passwords in the order of the users |
| NatsMeaning.AccountAt | infra/scripts/nats_bootstrap.py:125-131 | the k-th account is what the k-th entry says, the passwords generated before it counted |
| NatsMeaning.UserAt | infra/scripts/nats_bootstrap.py:135-144 | the k-th user of an account likewise |
| NatsMeaning.ReaderFindsSpecification | infra/scripts/nats_bootstrap.py:123-168 | with bare account names, what a reader of the printed block finds is what the specification says, account for account and user for user |
| NatsRender.AccountsRecorded | infra/scripts/nats_bootstrap.py:142-143 | a successful rendering records exactly the printed credentials in order |
| NatsRender.RecordedLookup | infra/scripts/nats_bootstrap.py:143 | the manifest's value for a pair is the password of the last entry for it, its domain the recorded pairs |
| NatsRender.TextReadsBack | infra/scripts/nats_bootstrap.py:123-168 | from JSON specification to text and back, if and only if the account names are bare words |
| NatsRender.ManifestMatchesFile | infra/scripts/nats_bootstrap.py:96-99 | whatever a reader of the file finds as the last password of a user, generated ones included, is what the manifest holds, and it holds nothing else |
| NatsRender.ManifestExactIff | infra/scripts/nats_bootstrap.py:123-168 | manifest and printed credentials match exactly if and only if repeated (account, user) pairs repeat their password |
| BaoConvergence.ActionSettles | infra/scripts/openbao_bootstrap.py:122-169 | where the server has what an action needs, its list-then-create commands are all accepted and change its one key as stated, nothing else |
| BaoConvergence.RunReconciles | infra/scripts/openbao_bootstrap.py:281-331 | a run has the effect of the actions before the first one refused; no command is refused, so no enable is issued for a mounted path, if and only if every auth mount found that is to receive a configuration or role has a type that takes it |
| BaoConvergence.FoldIdempotent | infra/scripts/openbao_bootstrap.py:131-169 | the value a plan leaves at a key is one it leaves alone |
| BaoConvergence.PrefixAbsorbed | infra/scripts/openbao_bootstrap.py:281-331 | doing a prefix of the plan and then the whole plan is doing the plan |
| BaoConvergence.CrashIsPrefix | infra/scripts/openbao_bootstrap.py:40-48 | a crash between any two commands leaves the effect of a number of whole actions that the run reaches |
| BaoConvergence.ConvergesAfterCrashes | infra/scripts/openbao_bootstrap.py:281-331 | after any number of runs that died at any command, the next run ends where an undisturbed one does, refused or not; it is refused nothing if and only if the auth mounts found at the very start take their documents |
| BaoConvergence.SecondRunChangesNothing | infra/scripts/openbao_bootstrap.py:281-331 | a further run changes nothing, creates nothing, and is refused nothing under the same condition |
| BaoConvergence.RunsAreCareful | infra/scripts/openbao_bootstrap.py:122-169 | on any server, no run creates a namespace or enables a mount that is there |
| BaoConvergence.ConvergesTo | infra/scripts/openbao_bootstrap.py:160-174 | for every action the run reaches, documents and TTLs end as last declared; a mount that was there keeps type, description and version |
| BaoConvergence.MountTypeIff | infra/scripts/openbao_bootstrap.py:140-148 | a mount the run gets to ends with its declared type if and only if it was absent or had that type already |
| BaoConvergence.OthersUntouched | infra/scripts/openbao_bootstrap.py:281-331 | keys that no action reached names are untouched |
| OpenBaoPlan.BaselineSound | infra/scripts/openbao_bootstrap.py:281-331 | every command of the baseline finds the namespace and mounts it needs, for all specifications |
| OpenBaoPlan.BaselineTypesFit | infra/scripts/openbao_bootstrap.py:281-331 | no mount the baseline itself creates refuses the documents it writes there |
| OpenBaoOutcome.BaselineOutcome | infra/scripts/openbao_bootstrap.py:281-331 | what a completed baseline leaves at every key: the platform namespace, the six fixed mounts, the login mount, a mount `jwt-k8s-` and cluster id for every cluster with its last non-empty configuration, the last text of every role and policy, the TTLs given; every other key as it was |
| OpenBaoOutcome.MountsTakeIff | infra/scripts/openbao_bootstrap.py:181-248 | which auth mounts found at the start make a run stop: those at the login path or at a cluster's, of another type, when something is to be written there |
| OpenBaoBootstrap.BaoSession.EnsureNamespace | infra/scripts/openbao_bootstrap.py:122-132 | lists, then creates only when absent; stops at a refusal, on any server |
| OpenBaoBootstrap.BaoSession.EnsureAuthMount | infra/scripts/openbao_bootstrap.py:135-143 | lists, then enables only when absent; stops at a refusal, on any server |
| OpenBaoBootstrap.BaoSession.EnsureSecretMount | infra/scripts/openbao_bootstrap.py:146-169 | lists, then enables when absent or tunes when a TTL is given; stops at a refusal, on any server |
| OpenBaoBootstrap.BaoSession.ApplyPolicies | infra/scripts/openbao_bootstrap.py:172-174 | writes every policy in order, up to a refusal |
| OpenBaoBootstrap.BaoSession.ApplyOidcConfig | infra/scripts/openbao_bootstrap.py:181-199 | configuration first, then every role, up to a refusal |
| OpenBaoBootstrap.BaoSession.ApplyJwtMounts | infra/scripts/openbao_bootstrap.py:202-248 | for every cluster: mount, configuration unless empty, roles; up to a refusal |
| OpenBaoBootstrap.BaoSession.ApplyBaseline | infra/scripts/openbao_bootstrap.py:268-331 | the whole command issues exactly the baseline's commands up to the first refused one; it completes if and only if no mount found at the start at a path it writes documents to has a type that refuses them; then every key of the server is as the arguments spell it out |
| OpenBaoBootstrap.BaselineConverges | infra/scripts/openbao_bootstrap.py:281-331 | for every starting server, every specification and every sequence of crashes the baseline ends in the same state, a further run changes nothing, and the mount types found at the very start decide whether a command is refused |
| OpenBaoBootstrap.WrongTypeRefused | infra/scripts/openbao_bootstrap.py:181-190 | an operators' login mount of another type makes every run end at its configuration |
| CiBlocks.CollectTopLevelBlocks | scripts/validate_gitlab_ci_contract.py:260-273 | the loop fills the dictionary of the line scanner, its keys distinct and in insertion order |
| CiBlocks.CutIsComplete | scripts/validate_gitlab_ci_contract.py:264-271 | the lines before the first header and each header with its block, in order, are the lines of the file |
| CiBlocks.ScanEntersSegments | scripts/validate_gitlab_ci_contract.py:264-271 | the scanner's dictionary is what entering the blocks one after the other gives, from any intermediate state |
| CiBlocks.LastBlockWins | scripts/validate_gitlab_ci_contract.py:266-268 | keys stand in order of first occurrence, each with the body of its last block |
| CiBlocks.ItemsAreSegmentsIff | scripts/validate_gitlab_ci_contract.py:260-273 | the dictionary holds all blocks as they were if and only if no header repeats |
| CiBlocks.ReassemblyIff | scripts/validate_gitlab_ci_contract.py:260-273 | preamble and dictionary reproduce the file line by line if and only if no header repeats |
| CiBlocks.RequireBlockingTestAndBuildJobs | scripts/validate_gitlab_ci_contract.py:276-282 | reports, in key order, the names whose joined text has a test or build stage marker and the allow_failure marker |
| CiBlocks.JoinSearch | scripts/validate_gitlab_ci_contract.py:273-280 | a non-empty marker without a newline occurs in the joined text if and only if it occurs in one line |
| CiBlocks.ReportsExactly | scripts/validate_gitlab_ci_contract.py:276-282 | a name is reported if and only if the last block headed by it has a line with a test or build stage marker and a line with the allow_failure marker |
| CiTexts.FileReportsExactly | scripts/validate_gitlab_ci_contract.py:260-282 | for every file written as plain lines, and names with a colon each followed by plain lines, with or without a final newline: a name is reported if and only if its last job has a line with a test or build stage marker and one with the allow_failure marker |
| CiTexts.SplitKeepsText | scripts/validate_gitlab_ci_contract.py:264 | splitting a text takes away its line ends and nothing else; each line is ended but perhaps the last |
| CiTexts.SplitJoined | scripts/validate_gitlab_ci_contract.py:264 | lines joined by newlines split into themselves, but for an empty last one |
| CiTexts.SplitEnded | scripts/validate_gitlab_ci_contract.py:264 | with a newline at the end, into themselves |
| CiTexts.JobsCutBack | scripts/validate_gitlab_ci_contract.py:264-271 | cutting the written lines at their headers gives the jobs back |
| Redactors.SameViewIff | scripts/partner/redact-stage3-import.py:30-41 | two values redact equally if and only if they look the same: equal outside governed keys, both null or both not under sensitive ones, equal hashes under identifier ones |
| Redactors.RecordViewIff | scripts/partner/redact-stage3-import.py:44-45 | the same for whole records |
| Redactors.EditUnderKeyInvisible | scripts/partner/redact-stage3-import.py:30-41 | writing anything at or below the first sensitive key on a path, at any depth through objects and lists, leaves the redacted document and whether redaction raises unchanged while the value stays non-null; under identifier keys only the hash, and whether there is one, matters |
| Redactors.RaisesIff | scripts/partner/redact-stage3-import.py:25-36 | redaction raises if and only if some first governing key is an identifier over a string with a surrogate |
| Redactors.RaiseTogether | scripts/partner/run-webhook-test-receiver.py:45-62 | under shared rules both redactors raise on the same documents |
| Redactors.OpenPathsKept | scripts/partner/redact-stage3-import.py:37-41 | everything not under a sensitive or identifier key stays in place with its shape and scalars |
| Redactors.GovernedPathsCut | scripts/partner/redact-stage3-import.py:31-36 | at the first sensitive or identifier key of a path stands null, the redaction mark or the hash, and nothing below it |
| Redactors.MaskedOpenPathsKept | scripts/partner/run-webhook-test-receiver.py:50-62 | the receiver's redactor keeps everything not under a governing key, of a string over 128 characters its first 32 and the truncation mark |
| Redactors.MaskedGovernedPathsCut | scripts/partner/run-webhook-test-receiver.py:50-62 | at the first governing key of a path stands the redaction mark or the hash, null or not, and nothing below it |
| Redactors.OtherRoots | scripts/partner/redact-stage3-import.py:48-59 | an object at the root is redacted throughout, or raises; a root that is neither object nor list is refused |
| Redactors.RedactorsAgreeIff | scripts/partner/run-webhook-test-receiver.py:50-62 | whatever the patterns and hash of each: the two redactors agree on a value if and only if every field comes out the same and no string outside governed keys is long |
| Redactors.OutcomesAgreeIff | scripts/partner/run-webhook-test-receiver.py:50-62 | what becomes of a record agrees if and only if both raise, or neither does and they agree so |
| Redactors.RecordsAgreeIff | scripts/partner/redact-stage3-import.py:30-45 | under shared rules, if and only if redacting raises or there is no null directly under a governed key and no long string elsewhere |
| Redactors.RedactorsAgree | scripts/partner/run-webhook-test-receiver.py:50-62 | in particular, under shared rules, on null-free records with no string over 128 characters |
| Redactors.MaskedStringsShort | scripts/partner/run-webhook-test-receiver.py:50-62 | the receiver's redactor leaves no string value over 128 characters at any depth |
| Redactors.MaskTwiceIff | scripts/partner/run-webhook-test-receiver.py:50-62 | masking twice is masking once if and only if every hashed identifier has a stable hash |
| Redactors.MaskIdempotent | scripts/partner/run-webhook-test-receiver.py:50-62 | in particular when no key is an identifier |
| Redactors.UnchangedIffClean | scripts/partner/redact-stage3-import.py:30-41 | redaction leaves a value unchanged if and only if there is nothing left to redact |
| Redactors.ListRootRedactedIff | scripts/partner/redact-stage3-import.py:48-59 | a file with a list at its root is redacted throughout if and only if no record raises and every item is an object or was clean already |
| Redactors.NestedListCopied | scripts/partner/redact-stage3-import.py:50-51 | a list inside the root list is copied unredacted |
| FrontendProxy.Proxy | frontend/src/proxy.ts:91-134 | the redirect is a fresh URL with exactly the fields the rules change; the request's URL is untouched |
| FrontendProxy.OneHostHop | frontend/src/proxy.ts:91-134 | from every host and path a redirect leads to a URL the proxy does not redirect again |
| FrontendProxy.RedirectedIff | frontend/src/proxy.ts:91-134 | a request is redirected if and only if its host is not the home of its route or it asks for the cabinet's root |
| FrontendProxy.RoutesApart | frontend/src/proxy.ts:17-66 | no route is in two of the lists, so the two exclusions from the public ones exclude nothing |
| FrontendProxy.LowerIff | frontend/src/proxy.ts:68-70 | two hosts are the same to the proxy if and only if they are the same but for case |
| FrontendProxy.RouteOfPath | frontend/src/proxy.ts:72-78 | the route is the first segment, or nothing behind a listed locale alone |
| FrontendProxy.RouteBehindLocale | frontend/src/proxy.ts:72-78 | behind a listed locale the route is the second segment |
| FrontendProxy.RouteBehindSlash | frontend/src/proxy.ts:72-78 | empty segments do not count |
| FrontendProxy.SegmentKeptIff | frontend/src/proxy.ts:72-78 | putting a locale in front keeps the route segment if and only if the path did not lead with a locale, or led with the same segment twice |
| FrontendProxy.SettledAfterLocale | frontend/src/proxy.ts:91-134 | once the locale middleware has redirected a request, neither it nor the proxy redirects again |
| FrontendProxy.AtMostTwoHops | frontend/src/proxy.ts:91-134 | proxy and locale middleware together redirect at most twice, whichever locales the middleware picks |
| FrontendProxy.TwoHopsOccur | frontend/src/proxy.ts:94-99 | two hops do occur |
| FrontendProxy.EndsAtHome | frontend/src/proxy.ts:91-134 | from every host and path, a chain of redirects that has come to rest ends at the host the route first asked for belongs to, with port and query unchanged and the route `FinalRoute` names; its protocol is https if the first request was redirected by host or root, else the one it came with |
| FrontendProxy.RouteShownIff | frontend/src/proxy.ts:72-78 | that route is the one first asked for unless it is the cabinet's root, which becomes its dashboard, or the path has empty segments before its locale |
| FrontendProxy.ShippedIsSound | frontend/src/i18n/config.ts:1-65 | the shipped locales contain the default, are path segments and name no route |
| AdminProxy.Proxy | admin/src/proxy.ts:22-46 | the redirect is a fresh URL with exactly the fields the rules change; the request's URL is untouched |
| AdminProxy.MatchLocaleLikeIff | admin/src/proxy.ts:23-24 | the first pattern matches exactly the paths made of a locale-like name and a remainder without line terminators |
| AdminProxy.MatchRootIff | admin/src/proxy.ts:34-35 | the second pattern matches exactly the roots of locale-like names, with or without a final slash |
| AdminProxy.LocaleLikeIff | admin/src/proxy.ts:23-24 | a locale-like name is two or three small letters, a dash and two capitals |
| AdminProxy.AtMostTwoHops | admin/src/proxy.ts:22-46 | with a usable default locale no request is redirected more than twice |
| AdminProxy.UnlistedEnds | admin/src/proxy.ts:26-43 | a request under an unlisted locale ends at the same remainder under the default one, a bare locale at the login page; with a final slash that takes two hops and loses the query |
| AdminProxy.ListedEnds | admin/src/proxy.ts:34-43 | the root of a listed locale leads to its login page without the query, and nothing else below a listed locale is redirected |
| AdminProxy.UnlistedDefaultLoops | admin/src/proxy.ts:26-31 | with a default that looks like a locale but is not listed, a request under an unlisted locale is redirected for ever |
| AdminProxy.StopsIff | admin/src/proxy.ts:22-46 | a chain from a request stops if and only if the default is listed, or does not look like a locale, or the path does not lead with an unlisted locale |
| AdminProxy.AllStopIff | admin/src/proxy.ts:22-46 | every chain stops if and only if the default locale is listed or does not look like a locale |
| AdminProxy.AtMostTwoHopsTogether | admin/src/proxy.ts:22-46 | with a listed default, proxy and locale middleware together redirect at most twice |
| AdminProxy.ShippedIsSound | admin/src/i18n/config.ts:1-23 | the shipped configuration meets the conditions |
| CaptureLocations.RenderPublicLocations | infra/scripts/posthog_bootstrap.py:120-137 | one location per listed path, in order, exact or preferred prefix, with its upstream |
| CaptureLocations.PickMeans | infra/scripts/posthog_bootstrap.py:131-132 | the picked location matches; an exact match beats every prefix and a longer prefix a shorter one |
| CaptureLocations.OpenIffListed | infra/scripts/posthog_bootstrap.py:120-161 | for any list of paths: a URI is open if and only if some listed path opens it, on either kind of server |
| CaptureLocations.ListOpens | infra/scripts/posthog_bootstrap.py:15-44 | any list made of bases in three forms and of files opens exactly each base, the base with a slash, what is below it, and the files |
| CaptureLocations.PortOfOpen | infra/scripts/posthog_bootstrap.py:123-130 | an open URI is forwarded to the port the prefix tests give for the URI itself |
| CaptureLocations.PreferredDisjoint | infra/scripts/posthog_bootstrap.py:131-132 | if bases differ in their second character no URI matches two preferred prefixes |
| CaptureLocations.HttpOpensExactly | infra/scripts/posthog_bootstrap.py:140-163 | on the HTTP server, for every URI: the eight public paths with what is below them and the four scripts go to 3001 under /flags and /decide, to 3002 under /s and /static, else to 3000; challenges to ACME; the rest is protected |
| CaptureLocations.PublicIffCovered | infra/scripts/posthog_bootstrap.py:15-44 | the public URIs spelled out are those the listed bases and files cover |
| CaptureLocations.PublicPort | infra/scripts/posthog_bootstrap.py:123-130 | the prefix tests give every public URI the port it is for |
| CaptureLocations.HttpsOpensExactly | infra/scripts/posthog_bootstrap.py:183-200 | the HTTPS server opens the same URIs on the same ports and protects every other one |
| CaptureLocations.RedirectServerForwardsNothing | infra/scripts/posthog_bootstrap.py:169-181 | port 80 of the HTTPS configuration only answers challenges and redirects |
| CaptureLocations.NoTwoPreferred | infra/scripts/posthog_bootstrap.py:15-44 | no URI matches two `^~` locations |
| ArbTools.Fill | cybervpn_mobile/scripts/arb_backfill.py:77-84 | the inner loop gives the filled file, in whatever order it visits the missing keys |
| ArbTools.FillAddsOnly | cybervpn_mobile/scripts/arb_backfill.py:30-40 | existing entries stay; what is added is exactly the English values of missing keys, strings with `[EN] ` in front, and their absent metadata |
| ArbTools.ArbDirectory.Backfill | cybervpn_mobile/scripts/arb_backfill.py:43-88 | applied: every locale file filled, nothing else changed; dry run: nothing changed; the total counts the missing keys of the listing |
| ArbTools.BackfillIdempotent | cybervpn_mobile/scripts/arb_backfill.py:59-86 | backfilling once is enough |
| ArbTools.ArbDirectory.Diff | cybervpn_mobile/scripts/arb_diff.py:26-51 | the report and the total over the listing |
| ArbTools.ReportMeans | cybervpn_mobile/scripts/arb_diff.py:48-51 | a locale's entry in the report belongs to the last incomplete file of that locale |
| ArbTools.TotalCountsPairs | cybervpn_mobile/scripts/arb_backfill.py:68-74 | the total of both tools is the number of missing (file, key) pairs, in whatever order the files are listed |
| ArbTools.NothingMissingIff | cybervpn_mobile/scripts/arb_diff.py:48-52 | the total is zero if and only if no locale file lacks a key |
| ArbTools.DiffEmptyAfterBackfill | cybervpn_mobile/scripts/arb_diff.py:48-52 | after an applied backfill the diff tool reports nothing |
| ArbTools.UntranslatedUnchanged | cybervpn_mobile/scripts/check_i18n_coverage.py:151-159 | backfilling neither adds nor removes verbatim copies |
| ArbTools.StillMissing | cybervpn_mobile/scripts/check_i18n_coverage.py:30-34 | after a backfill the coverage tool misses exactly the English string keys whose existing locale value is no string |
| ArbTools.CoveredIff | cybervpn_mobile/scripts/check_i18n_coverage.py:146-149 | it misses nothing if and only if existing values under English string keys are strings |
| ArbTools.CountUntranslated | cybervpn_mobile/scripts/check_i18n_coverage.py:154-159 | the loop counts the verbatim multi-word copies |
| ArbTools.MeasureLocale | cybervpn_mobile/scripts/check_i18n_coverage.py:134-166 | one locale's row and whether it fails the gate |
| ArbTools.ArbDirectory.CheckCoverage | cybervpn_mobile/scripts/check_i18n_coverage.py:93-191 | the exit status is zero if and only if the policy is accepted, the inventory matches and every reviewed locale is complete; the rows are one per locale |
| ArbTools.RowAfterBackfill | cybervpn_mobile/scripts/check_i18n_coverage.py:151-163 | a backfill moves no untranslated count, lowers no coverage, and brings missing to zero if and only if existing values are strings |
| ArbTools.GateAfterBackfillIff | cybervpn_mobile/scripts/check_i18n_coverage.py:165-166 | after a backfill every reviewed locale is complete if and only if their existing values under English string keys are strings; the inventory is as before |
| ArbMeaning.GateMeans | cybervpn_mobile/scripts/check_i18n_coverage.py:67-191 | the gate passes if and only if locales are distinct, English is one of them, some of them are reviewed, every file of the directory is an active locale's, every active locale has its file, and every reviewed one has a string for every English key that has one |
| ArbMeaning.LocaleOfIff | cybervpn_mobile/scripts/arb_diff.py:43 | the diff tool reads the locale off a file name if and only if the locale has neither `app_` nor `.arb` in it |
| ArbMeaning.InventoryLocaleIff | cybervpn_mobile/scripts/check_i18n_coverage.py:121-125 | the coverage tool does if and only if it has no `app_` in it |
| AuthMetrics.Registry.AdvanceFunnel | infra/scripts/auth-metrics-seed.py:197-199 | every funnel step grows by its share of the registrations, truncated |
| AuthMetrics.Registry.Authenticate | infra/scripts/auth-metrics-seed.py:206-222 | n attempts, each with one latency observation of its method; the returned count is the number that failed |
| AuthMetrics.Registry.ResetPasswords | infra/scripts/auth-metrics-seed.py:263-268 | so many successful requests and as many completions, no failed request |
| AuthMetrics.Registry.Tick | infra/scripts/auth-metrics-seed.py:185-280 | what one tick does to all counters, for every sample of the random generator: at least one registration, three attempts and ten sessions, no negative number of links, else as drawn |
| AuthMetrics.BalancedKept | infra/scripts/auth-metrics-seed.py:185-280 | a tick keeps the balance of the counters, and at least ten sessions |
| AuthMetrics.AlwaysBalanced | infra/scripts/auth-metrics-seed.py:185-280 | after T ticks under any draws: failures equal errors, attempts per method equal observations, reset requests, none of them failed, equal completions, started equals registrations R, activated <= verified <= sent <= started, 3R - 3T <= 4 activated <= 3R and the like for the other rates |
| AuthMetrics.CountersNeverFall | infra/scripts/auth-metrics-seed.py:185-280 | no counter ever falls between two points of a run |
| AuthMetrics.CountersTellDraws | infra/scripts/auth-metrics-seed.py:191-199 | registrations and started are exactly the sum of what the ticks drew |
| AuthMetrics.ActivationBoundMet | infra/scripts/auth-metrics-seed.py:160-165 | the lower bound of the activation rate is reached when every tick draws one registration |
| AuthMetrics.Registry.InitialBurst | infra/scripts/auth-metrics-seed.py:309-315 | after the initial 60 ticks the counters balance |

## Left out

- Argument parsing, environment loading, file and network I/O, sockets, subprocesses, OpenSSL, SQLAlchemy and the Prometheus client: abstracted as state and steps, or as parameters.
- The validators of the bootstrap's configuration (login, e-mail, password strength, TOTP secret): pure checks made before the protocol starts; the two checks inside the function are inputs that are already evaluated.
- The locking of other database operations: other writers insert and delete admins and change realms in single committed steps.
- The receiver's GET endpoints, evidence file names (they collide within a second) and evidence counting.
- The receiver's threads: `SEEN_EVENTS` is updated in one step per call; only `ThreadsUnbounded` speaks of overlapping requests.
- Cryptography and the regular expressions of the redactors: hash, HMAC and key patterns are uninterpreted; the order in which Python prints the keys of a hashed object is not modelled.
- The interpreter's recursion and digit limits: a body that exceeds them is one whose parsing or redaction raises, without saying at which depth or length; the import redactor is modelled for documents within them.
- Surrogates in the strings of NATS specifications and ARB files.
- The order of keys in JSON objects, and duplicate keys, which the parser has already resolved.
- The CSV and JSON-lines loops of the import redactor and its manifest: they call the same record redaction per row.
- Node loading, routes, TLS and server configuration of the NATS script, and NATS's own configuration grammar beyond the emitted subset.
- Malformed OpenBao specifications, an empty platform namespace, the trimming of slashes in mount paths, the exact JSON printed by `bao ... list`, the initialisation command, the token, smoke-check and revoke flags, and auth types other than `oidc` and `jwt` that might take the documents.
- The other marker checks of the CI contract: each is one search for constant text.
- `next-intl`'s middleware is not part of this model beyond its shape: a path without a listed locale in front is redirected to one that has it, and one with it is passed on.
- The matcher of both proxies, which only stops chains earlier; default ports that a URL drops when its scheme changes; host names with letters outside ASCII.
- FrontendProxy.AtMostTwoHops: assumes, as the shipped configuration does, that the default locale is listed and no locale is a route segment.
- AdminProxy.AllStopIff: the default locale is taken to be a single path segment, as the shipped one is.
- `partner/src/proxy.ts`: its decisions rest on helpers that are not part of this model.
- nginx beyond exact and prefix locations, header lines of the rendered blocks, and any intended routing of `/static`, which goes where the `/s` test sends it.
- Extraction of the locale policy from Dart source and malformed ARB files; the coverage percentage and the printed table.
- Floating point, distributions, latencies, histogram buckets and the hour-of-day factor of the metrics generator: rates are exact percentages, draws are arbitrary, and only the number of observations is kept.
- The outbox dispatcher proof, the other infrastructure renderers, dashboards and contract validators.
