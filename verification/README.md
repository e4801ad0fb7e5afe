# ppz: verified core

A Dafny model of the parts of ppz where a mistake is silent: who may reach a pipe and
what the signed credential really permits, when an agent is nudged, who may type into a
shared terminal, and the byte streams and small stores around them. Code that computes is
modelled by functions; code that changes things in place is modelled by classes and methods
proved against those functions; protocols are step functions, and the theorems quantify over
every sequence of steps.

| file | component |
|---|---|
| `Common.dfy`, `Text.dfy`, `Ints.dfy` | shared types; the string and 64-bit operations taken from the host |
| `Nats.dfy` | subject matching and permission sets: the meaning of a credential |
| `Selector.dfy`, `Acl.dfy` | grant selectors; evaluation with provenance |
| `Compile.dfy`, `CompileMeaning.dfy`, `ControlPlane.dfy` | the credential compiler, what its output means, and everything it permits |
| `Naming.dfy`, `Inventory.dfy`, `Credential.dfy` | subjects and stream names; stored rows and their two views; the chain from grants to credential |
| `Collars.dfy` | under whose handle each pipe is evaluated |
| `AlertLadder.dfy`, `SubsAlert.dfy`, `AlertRuns.dfy`, `AlertPump.dfy`, `AlertedTerminal.dfy` | the subscription alert: back-off, state machine, interleaved runs, PTY pump; machine and pump at once |
| `Lease.dfy`, `StdinGate.dfy`, `SharedTerminal.dfy` | the terminal write-lease; the seen-ID ring and stdin gate; both at once |
| `ControlFilter.dfy`, `Utf8.dfy` | control-response filter; the two UTF-8 splitters and their carry loops |
| `Rebuild.dfy` | connection rebuilds across credential rotation |
| `BurstStorm.dfy`, `EventLog.dfy`, `ListWatch.dfy`, `ChatStore.dfy`, `Cursors.dfy` | burst detector, rotating log, wake-up matching, chat store, read cursors |

The main theorems:

- **Credentials mean what evaluation says.** `Credentials.NatsPermissionsFor` runs the whole
  chain (enumerate pipes, evaluate, compile) on strings and proves, for all grants, roles and
  stored rows, that publish, the five stream-read requests and the live tail are permitted
  iff evaluation grants them - and nothing else. `ControlPlane.ControlPlaneExact` gives the exact set of stream requests
  either encoding permits. That the two agree on reads is exact:
  `CompilerMeaning.ReadsFaithfulIffConsistent` shows it holds iff pipes on one stream agree, and
  `Naming.NamingFaithful` shows the naming scheme guarantees that.
- **Whose pipe it is.** The defaults in docs/ACL.md put a pipe under its handle's owner. Evaluation looks the handle
  up by the first segment of the path, which for a source inside a manifold is the manifold's.
  `Collars.OwnAccessIff` and `Collars.SharedAccessIff` say exactly which pipes are treated as documented,
  `Collars.ListedDefaults` what a member gets on every listed pipe, and `Collars.AsDocumentedIff` lifts this to
  whole accounts.
- **The alert backs off in every interleaving.** `AlertRuns.BackOffBound` and its consequence
  `AlertRuns.FiveHourBlock` (at most twelve nudges in a five-hour block), `AlertRuns.CreditsBoughtByReads`,
  `AlertRuns.OpenGatesInjectIff`, `AlertRuns.TypingHonoured`. The doubling loop is modelled in 64 bits and
  `AlertLadder.LoopIsLadderIff` says exactly when it equals the documented ladder.
- **The lease is exclusive and has no phantoms**: `Lease.HandOverNeedsYield`, `Lease.NoPhantomLease`. On the PTY itself, with
  the check and the write as separate steps, `SharedTerminal.OnlyTheHolderTypesIff`: while a lease lasts only its holder's
  input comes out, except for at most one message that had passed its check before.
- **Alerts and keystrokes do not mix**: `AlertPump.InputConserved`, the exact condition for an alert to stay in one piece,
  `AlertPump.AlertsUnbrokenIff`, and the exact condition for it to come an idle window after every keystroke before it on
  the PTY, `AlertedTerminal.IdleBeforeAlertIff`.
- **Chunked parsing equals one-shot parsing**: `ControlFilter.ChunkInvariant`, `ControlFilter.FilterMeaning`,
  `Utf8.SplittersAgree`, `Utf8.PublishStdout`.
- **One reconnect per reason**: `Rebuild.DialsBounded`, `Rebuild.HerdDialsOnce`, and for every run how old the credential
  of a connection is that passes the freshness check (`Rebuild.InstalledAge`).
- **The chat store is its history**: `ChatStore.StoreIsItsHistory` (every run holds exactly the delivered IDs, each at its
  current home), `ChatStore.ReplayFreeIff`, `ChatStore.MigrateCommutesIff`.
- **A read cursor never moves back**: `Cursors.MonotoneBetweenRecreates` over whole runs, `Cursors.MonotoneIff` for the exact
  states this needs.

Each operation's result is also stated from its input alone, in literal values and without the functions the other theorems
are phrased in (the lemmas ending in `SpelledOut`, and their like), so a wrong constant or branch contradicts a statement.

Properties that turned out to hold only conditionally are stated with their exact condition, and an input that fails it:

| property | exact condition | failing input | who can produce it |
|---|---|---|---|
| a selector means its bus translation | `Selectors.TranslationExact` | `Selectors.LiteralRestDiffers` | whoever stores a grant: a literal `>` is accepted; the credential is compiled from paths, so it is unaffected |
| compiled reads are the table's | `CompilerMeaning.ReadsFaithfulIffConsistent` | `CompilerMeaning.SharedStreamMisreads` | nobody: the naming scheme gives every pipe its own stream (`Naming.NamingFaithful`) |
| pipes are treated as documented | `Collars.AsDocumentedIff` | `Collars.ManifoldOpensToMembers` | any account with a source in a manifold |
| the back-off is the documented ladder | `AlertLadder.LoopIsLadderIff` | `AlertLadder.HugeCeilingOverflows` | whoever sets the cooldown environment variables above 2^62 ns; the shipped values are safe |
| young acquires are granted | `Lease.YoungAcquireGrantedIff` | `Lease.WidestWindowDropped` | a sender that asks for a window of some 292 years |
| redelivered acquires lapse in time | stamped, as `Lease.NoPhantomLease` requires | `Lease.UnstampedAlwaysGrants` | a sender that leaves the stamp out |
| only the lease holder's input comes out | `SharedTerminal.OnlyTheHolderTypesIff` | `SharedTerminal.CheckedBeforeGranted` | a sender whose message passes its check just before a grant |
| an alert comes an idle window after the typing before it | `AlertedTerminal.IdleBeforeAlertIff` | `AlertedTerminal.KeystrokeInTheGap` | a user typing between the decision and alert mode |
| alerts stay in one piece | `AlertPump.AlertsUnbrokenIff` | `AlertPump.PauseCanTear` | a remote sender, during the pause before the submit key |
| the ring is the last insertions | `StdinGate.RingIsLastNIff` | `StdinGate.EmptyIdOutlivesWindow` | a sender that leaves the message ID empty |
| only documented responses are dropped | `ControlFilter.FilterAsDocumentedIff` | `ControlFilter.BareReportIsLost` | any local terminal |
| the two splitters agree | `Utf8.SplittersAgreeIff` | `Utf8.SplittersDifferOnJunk` | any child that prints bytes that are not UTF-8 |
| a current connection is on the newest credential | `Rebuild.InstalledAge` | `Rebuild.StampAge` | a rotation landing during a rebuild |
| an arrival wakes the watcher | `ListWatch.WakeUpIff` | `ListWatch.PresenceNotWoken` | any watcher of a heartbeat |
| a migrated chat window survives | `ChatStore.MigrationSafeIff` | equal kinds | nobody: the one caller passes agent and source (internal/cli/tui.go:492) |
| migration commutes with arrivals | `ChatStore.MigrateCommutesIff` | equal kinds, or a new title | nobody: callers pass the name itself as title (internal/cli/tui.go:296, 803, 872) |
| the cursor never moves back | `Cursors.MonotoneIff` | `Cursors.LegacyEntryMovesBack` | two reads at once in a session that still has an entry without a stamp (`Cursors.OneReaderMonotone`) |
| unread counts are exact | `Cursors.UnreadCounts` | `Cursors.HolesOvercount` | a message removed from the middle of a stream |

Where code and comments differ the model follows the code. The role comment says unknown values fail closed
(internal/acl/acl.go:73-85); evaluation shuts out only the empty role (`Acl.ShutOutIff`) and treats any other text as an
ordinary member (`Acl.OtherRolesAreMembers`). No caller passes such a text: each writes "owner" itself or uses the lookup in
internal/server/role.go:55-93, which yields one of the four known ones (`Acl.RoleInOrg`). The screen's splitter is said to
hold back only incomplete sequences (internal/cliproto/screen.go:56-60) and also holds back finished ones that decode to
nothing (`Utf8.SplittersAgreeIff`). Any control sequence ending in `R` is dropped although the comment names only
row-and-column reports (internal/cli/terminal_filter.go:20-27, 82-85): `ControlFilter.RecognisedIff`. The cursor comment
speaks of an overwrite across stream identities in general (internal/daemon/cursors.go:103-108); only one between a known and
an unknown stamp can move a cursor back (`Cursors.ReadMovesBackIff`).

Times are integers (nanoseconds) with zero as Go's zero time; clocks, dials, the glob matcher, IPC replies and delivery
order are parameters or events, so the theorems hold for every choice of them.

## Model

| member | source | states |
|---|---|---|
| Selectors.ValidIffCoversSomething | internal/acl/selector.go:85-99 | a selector is accepted as valid iff at least one path matches it |
| Selectors.TranslationExact | internal/acl/selector.go:5-22 | a valid selector covers exactly the paths its bus translation covers, iff its last token is not a literal `>` |
| Selectors.LiteralRestDiffers | internal/acl/selector.go:33-50 | a selector ending in a literal `>` has a path the bus accepts and `Match` refuses |
| Selectors.FormsSpelledOut | docs/ACL.md:92-103 | the five documented forms match exactly the paths they are documented to match |
| Acl.Evaluate | internal/acl/acl.go:236-287 | the decision is the reference access, with the reference explanation for all three capabilities |
| Acl.Decision.Allow | internal/acl/acl.go:206-215 | adds the capability; the reason is replaced only by a strictly higher-ranked one |
| Acl.Decision.Deny | internal/acl/acl.go:217-225 | records a refusal only for capabilities not held |
| Acl.AccessMonotone | internal/acl/acl.go:269-281 | adding stored grants never narrows access |
| Acl.AccessOrderFree | internal/acl/acl.go:269-281 | access does not depend on the order of grants |
| Acl.AdminClosed | internal/acl/acl.go:289-316 | resulting access is closed under "admin carries read and write" |
| Acl.ExpandExact | internal/acl/acl.go:295-316 | the expanded list holds exactly the effective capabilities |
| Acl.AccessSpelledOut | internal/acl/acl.go:236-287 | access to each capability from role, owner, collar, name and grants alone, case by case |
| Acl.GrantToOthersIsInert | internal/acl/acl.go:271-273 | a grant to a principal other than this one and everyone changes neither access nor any explanation |
| Acl.GrantElsewhereIsInert | internal/acl/acl.go:274-276 | nor does a grant whose selector does not match |
| Acl.GrantReaches | internal/acl/acl.go:269-281 | a grant that names the principal or everyone, and matches, adds what it carries, and with admin all three |
| Acl.GrantNamed | internal/acl/acl.go:277-280 | an explanation names the first stored grant that reaches the principal and carries the capability |
| Acl.ReasonsSpelledOut | internal/acl/acl.go:236-287 | without such a grant, every other explanation, word for word |
| Acl.DefaultTable | internal/acl/acl.go:318-343 | with no applicable grant and no ownership, access is exactly the documented default table |
| Acl.OtherRolesAreMembers | internal/acl/acl.go:236-287 | any role text that is neither empty nor an administering one gets exactly a member's access |
| Acl.ShutOutIff | internal/acl/acl.go:236-254 | a principal has no access anywhere, whatever the grants, iff its role is empty |
| Acl.RoleInOrg | internal/server/role.go:55-93 | the lookup yields one of four roles, and the empty one exactly for people who are neither owner nor listed |
| Acl.ReasonIsBest | internal/acl/acl.go:141-158 | a capability is held iff its reason is not "none", and the reason is the highest-ranked contributor |
| Acl.RevokeIsVisible | internal/acl/acl.go:141-144 | removing the grant a decision names changes the explanation |
| Compiler.Compile | internal/acl/compile.go:130-193 | emits the specified permission set, choosing the deny-list only when strictly cheaper |
| CompilerMeaning.ReadMeaning | internal/acl/compile.go:160-193 | what each encoding permits for any stream and any instantiated read pattern |
| CompilerMeaning.ReadsFaithfulIffConsistent | internal/acl/compile.go:130-193 | read requests are permitted iff the pipe is readable, for all listed pipes, iff pipes on one stream agree |
| CompilerMeaning.SharedStreamMisreads | internal/acl/compile.go:160-193 | two pipes on one stream of which only one is readable are never compiled faithfully |
| CompilerMeaning.PublishMeaning | internal/acl/compile.go:145-158 | publishing outside the control plane is permitted exactly on writable pipes' wire subjects |
| CompilerMeaning.SubscribeMeaning | internal/acl/compile.go:136-154 | subscriptions outside the open families are permitted exactly on readable pipes' wire subjects |
| CompilerMeaning.ControlPlaneClosed | internal/acl/compile.go:75-111 | listing, creating, updating, deleting and purging streams is refused by every credential |
| CompilerMeaning.CheapestEncoding | internal/acl/compile.go:160-176 | exactly 5·min(readable, 1 + excluded) read entries are emitted |
| ControlPlane.ControlPlaneExact | internal/acl/compile.go:67-193 | for every table and every subject under the stream API: the account query and the five read requests on readable streams, or in the other encoding every request of the five families but the read requests on unreadable streams |
| ControlPlane.PublishExact | internal/acl/compile.go:145-158 | outside it, exactly the subjects of the writable pipes |
| ControlPlane.SubscribeExact | internal/acl/compile.go:117-158 | the inbox, presence and system families and exactly the subjects of the readable pipes |
| Naming.NamingFaithful | internal/natsubj/subjects.go:155-246 | within an account, path, wire subject and stream name determine each other |
| Naming.SubjectForm | internal/natsubj/subjects.go:165-186 | the subject is the account and the path, or the presence family and the scope |
| Naming.StreamForm | internal/natsubj/subjects.go:221-246 | the stream name is a prefix and the path with dots flattened |
| Naming.PathSpelledOut | internal/server/acl_enforce.go:31-37 | a path is the nonempty pieces joined by dots |
| Naming.WireSpelledOut | internal/natsubj/subjects.go:155-186 | the wire subject of every valid name, presence family included |
| Naming.StreamSpelledOut | internal/natsubj/subjects.go:188-246 | the stream name of every valid name, from the first eight digits of the account and the flattened path |
| Naming.NamesAdmitted | internal/natsubj/subjects.go:95-146 | names with and without handle, at the root and in manifolds, are among those the theorems speak of |
| Naming.KeepFirstByPath | internal/server/acl_enforce.go:29-51 | every nonempty path is kept exactly once |
| Inventory.EnumerateNames | internal/server/acl_enforce.go:52-70 | the enumeration's loops collect the specified list of pipes |
| Inventory.NamesOfExact | internal/server/acl_enforce.go:52-70 | that list holds each source's automatic and stored pipes under its own manifold and handle, the uncollared pipes, and nothing else |
| Inventory.PipesSpelledOut | internal/db/sources.go:55-62 | the same list, pipe name by pipe name |
| Inventory.CollectSources | internal/server/acl_enforce.go:124-131 | the lookup table built by the loop over source rows |
| Inventory.LookupIsLastRow | internal/server/acl_enforce.go:124-131 | a handle is found iff a row carries it, and what is found is the last such row |
| Credentials.PrincipalAccess | internal/server/acl_enforce.go:104-143 | one row per pipe, carrying the evaluated access |
| Credentials.NatsPermissionsFor | internal/server/acl_enforce.go:145-161 | end to end from the stored rows: on every listed pipe the credential permits publish, stream reads and live tail exactly as evaluation against those rows grants, and nothing else outside the read families and the families open to all |
| Credentials.UnrestrictedPermitsAll | internal/acl/compile.go:195-200 | the credential handed out without enforcement permits everything |
| Collars.CollarIsHandleIff | internal/server/acl_enforce.go:74-89 | a source's pipe is evaluated under its own handle iff it is at the root or its manifold starts with that name |
| Collars.OwnAccessIff | docs/ACL.md:112-129 | for all principals and grants a source's pipe is treated as its creator's, as documented, iff the path's first segment names a source of the same creator |
| Collars.SharedAccessIff | docs/ACL.md:114-127 | an uncollared pipe is treated as shared iff its manifold does not start with a source's handle |
| Collars.ListedDefaults | internal/server/acl_enforce.go:74-89 | what a member without a grant gets on each listed pipe; the private rows of the table apply iff the first of several segments is a source's handle |
| Collars.ManifoldOpensToMembers | internal/server/acl_enforce.go:74-89 | under a manifold that is no source's handle every org member may read and write a source's pipes |
| Collars.LastRowDecides | internal/server/acl_enforce.go:124-131 | a root source's pipes follow the creator of the last listed row with that handle |
| Collars.AsDocumentedIff | docs/ACL.md:112-129 | every pipe of an account is treated as documented iff a condition on its rows holds |
| Collars.FlatAccountsAsDocumented | docs/ACL.md:112-129 | an account without manifolds meets it |
| AlertLadder.RepeatCooldown | internal/cli/terminal_subs_alert.go:420-445 | the doubling loop, in 64-bit arithmetic; while the top rung fits, every value the loop computes is positive and below twice the ceiling |
| AlertLadder.LoopIsLadderIff | internal/cli/terminal_subs_alert.go:411-445 | the loop is min(Cooldown·2^(n-1), max(Cooldown, CooldownMax)) at every rung iff the top rung fits in 64 bits |
| AlertLadder.HugeCeilingOverflows | internal/cli/terminal_subs_alert.go:425-445 | an input for which the second rung is negative |
| AlertLadder.ModestCeilingIsSafe | internal/cli/terminal_subs_alert.go:420-424 | every ceiling up to 2^62 keeps the top rung within 64 bits, so the bound on the loop's values applies |
| AlertLadder.LadderMonotone | internal/cli/terminal_subs_alert.go:39-44 | gaps never shorten as alerts go unacknowledged |
| AlertLadder.LadderSpelledOut | internal/cli/terminal_subs_alert.go:411-424 | the base gap, then twice the last up to the larger of base and maximum |
| AlertLadder.ShippedGaps | internal/cli/terminal_subs_alert.go:25-30 | with the shipped settings five, ten, twenty and then thirty minutes |
| SubsAlert.SubsReplyWatermarks | internal/cli/terminal_subs_alert.go:320-341 | the per-pipe consumption map of a snapshot, clamped at zero |
| SubsAlert.KeysDistinct | internal/cli/terminal_subs_alert.go:313-340 | row keys never collide across families, manifolds or handles |
| SubsAlert.NewestUnread | internal/cli/terminal_subs_alert.go:359-375 | the newest stamp on an unread row, zero when there is none |
| SubsAlert.WatermarkAdvanced | internal/cli/terminal_subs_alert.go:383-390 | true iff a pipe in both snapshots was read further |
| SubsAlert.RowsExact | internal/cli/terminal_subs_alert.go:328-340 | exactly the reply's pipes are walked, each under the key its place gives it |
| SubsAlert.WatermarksSpelledOut | internal/cli/terminal_subs_alert.go:320-341 | watermark plus unread is total, or the watermark is zero where unread exceeds total |
| SubsAlert.NothingReadNothingAdvanced | internal/cli/terminal_subs_alert.go:377-390 | while no pipe of a reply has more read than before, nothing counts as advanced |
| SubsAlert.OneReadAdvances | internal/cli/terminal_subs_alert.go:377-390 | a pipe in both replies with more read does |
| SubsAlert.UnreadSpelledOut | internal/cli/terminal_subs_alert.go:359-375 | unread and its newest stamp, from the reply's pipes alone |
| SubsAlert.DefaultsSpelledOut | internal/cli/terminal_subs_alert.go:25-30 | the shipped value in nanoseconds for whatever is not set |
| SubsAlert.GatesSpelledOut | internal/cli/terminal_subs_alert.go:392-409 | the gates as points in time |
| SubsAlert.AttemptSpelledOut | internal/cli/terminal_subs_alert.go:238-311 | suppressed, deferred or fired, and the whole new state, from the reply |
| SubsAlert.OtherAttemptsSpelledOut | internal/cli/terminal_subs_alert.go:238-311 | the same for a failed confirm and for closed gates |
| SubsAlert.StateMachine.ObserveUserInput | internal/cli/terminal_subs_alert.go:176-183 | stamps nonempty input only |
| SubsAlert.StateMachine.ObserveSubsUnreadSnapshot | internal/cli/terminal_subs_alert.go:213-223 | arms, and seeds the baseline only when there is none |
| SubsAlert.StateMachine.IsReady | internal/cli/terminal_subs_alert.go:392-409 | the five gates |
| SubsAlert.StateMachine.Decide | internal/cli/terminal_subs_alert.go:267-311 | the second locked stretch: blocked, deferred or injected, with the whole new state |
| SubsAlert.StateMachine.Conclude | internal/cli/terminal_subs_alert.go:238-311 | everything after the confirm, suppression included |
| AlertRuns.RungCountsUnacknowledged | internal/cli/terminal_subs_alert.go:108-114 | in every run the rung equals the injections since the last proof of consumption |
| AlertRuns.StepSpacing | internal/cli/terminal_subs_alert.go:402-404 | each injection waits out the ladder gap of its rung |
| AlertRuns.BackOffBound | internal/cli/terminal_subs_alert.go:39-60 | N injections without proof of consumption span at least the sum of the first N-1 rungs |
| AlertRuns.FiveHourBlock | internal/cli/terminal_subs_alert.go:46-52 | with the shipped settings a five-hour block gets at most twelve alerts |
| AlertRuns.TalliesSpelledOut | internal/cli/terminal_subs_alert.go:238-311 | what the injection, deferral, credit and arming counts count |
| AlertRuns.StretchSpelledOut | internal/cli/terminal_subs_alert.go:25-52 | the sum of rungs with the shipped settings, in nanoseconds |
| AlertRuns.DeferralHonoured | internal/cli/terminal_subs_alert.go:151-157 | after a deferral nothing is injected for a full idle window, in any run |
| AlertRuns.TypingHonoured | internal/cli/terminal_subs_alert.go:269-273 | every decision to inject comes an idle window after every earlier keystroke, also one landing mid-confirm |
| AlertRuns.InjectionsNeedArming | internal/cli/terminal_subs_alert.go:296-311 | injections in any run are at most the arming observations |
| AlertRuns.UnattendedGrace | internal/cli/terminal_subs_alert.go:399-401 | with no keystrokes every alert, repeats included, comes an idle window after the arming that opened its own episode |
| AlertRuns.CreditsBoughtByReads | internal/cli/terminal_subs_alert.go:274-309 | deferrals and ladder-resetting injections in any run are together at most the total number of messages read |
| AlertRuns.SnapshotsNeverMoveBaseline | internal/cli/terminal_subs_alert.go:122-130 | once seeded, only the end of an attempt moves the baseline |
| AlertRuns.OpenGatesInjectIff | internal/cli/terminal_subs_alert.go:267-311 | a ready attempt that sees unread injects iff not (advanced past the baseline in force and the rest is young), with arming events landing anywhere in between |
| AlertRuns.UnreadWithoutReadsInjects | internal/cli/terminal_subs_alert.go:280-287 | so without an advance, seeded or never seeded, it always injects |
| AlertPump.Pump.ForwardUserInput | internal/cli/terminal_subs_alert.go:586-599 | buffers in alert mode, writes through otherwise |
| AlertPump.Pump.EndAlertMode | internal/cli/terminal_subs_alert.go:576-584 | leaves alert mode and flushes the buffer |
| AlertPump.InputConserved | internal/cli/terminal_subs_alert.go:524-599 | local keystrokes on the PTY plus the buffer are exactly what was typed, in order; nothing buffered outside alert mode |
| AlertPump.AlertsUnbrokenIff | internal/cli/terminal_subs_alert.go:524-599 | in every interleaving each alert's bytes are contiguous iff no remote input landed between two writes of one alert; local input never breaks one |
| AlertPump.OneWriteIsSafe | internal/cli/terminal_subs_alert.go:556-561 | a harness that takes message and submit key in one write is always safe |
| AlertPump.PauseCanTear | internal/cli/terminal.go:490-497 | remote input in the pause between message and submit key tears the alert |
| AlertPump.WritersSpelledOut | internal/cli/terminal_subs_alert.go:556-599 | which bytes each step adds to each alert and to remote input |
| AlertPump.OthersConserved | internal/cli/terminal_subs_alert.go:524-599 | in every interleaving each alert and all remote input come out exactly as written |
| AlertedTerminal.JointRun | internal/cli/terminal_subs_alert.go:524-599 | any interleaving of both locks' steps is a run of the machine and a run of the pump |
| AlertedTerminal.ShownIsOnThePty | internal/cli/terminal_subs_alert.go:586-599 | the keystrokes counted as shown and held are the user's bytes on the PTY and in the buffer |
| AlertedTerminal.IdleUnlessNotedAfter | internal/cli/terminal_subs_alert.go:524-533 | keystrokes before an alert on the PTY that were noted before its decision are an idle window older |
| AlertedTerminal.IdleBeforeAlertIff | internal/cli/terminal_subs_alert.go:524-533 | over every joint run all keystrokes before an alert's bytes are an idle window older, iff none was noted and forwarded between its decision and its alert mode |
| AlertedTerminal.KeystrokeInTheGap | internal/cli/terminal_subs_alert.go:524-533 | a run in which one is |
| Lease.Arbiter.HandleMessage | internal/cli/terminal.go:1143-1187 | the new lease state and what is announced |
| Lease.Arbiter.ExpireIfDue | internal/cli/terminal.go:985-993 | clears exactly a held, due lease |
| Lease.HandOverNeedsYield | internal/cli/terminal.go:955-993 | the effective holder changes to another only after a release or its expiry |
| Lease.OthersInert | internal/cli/terminal.go:1169-1185 | denials and non-holder releases change nothing |
| Lease.ExpiryInvisible | internal/cli/terminal.go:983-993 | clearing an expired lease never changes the effective holder from then on |
| Lease.FreshAge | internal/cli/terminal.go:1155-1168 | an acquire that passes the stale guard is at most ttl + grace old, 64-bit effects included |
| Lease.LiveAcquireGranted | internal/cli/terminal.go:1150-1174 | on a free or own lease, with a window short of the 64-bit limit, an acquire is granted iff it is that young |
| Lease.YoungAcquireGrantedIff | internal/cli/terminal.go:1150-1174 | a young acquire for a lease it may have is granted iff window plus grace fits in 64 bits |
| Lease.WidestWindowDropped | internal/cli/terminal.go:1166-1168 | a request sent this instant that is dropped as stale |
| Lease.YieldLetsOthersIn | internal/cli/terminal.go:1169-1185 | after a release or a lapse anybody is granted at once |
| Lease.GrantLasts | internal/cli/terminal.go:1150-1174 | in milliseconds: a request young enough gets the lease for exactly its window, one minute by default |
| Lease.StaleRequestDropped | internal/cli/terminal.go:1155-1168 | an older one changes nothing |
| Lease.LiveLeaseStands | internal/cli/terminal.go:1169-1185 | under a live lease nobody else's acquire or release changes anything, and the holder's release frees it |
| Lease.NoPhantomLease | internal/cli/terminal.go:1155-1168 | redelivered acquires cannot hold the lease past created + 2·ttl + grace |
| Lease.NoPhantomLeaseInMillis | internal/cli/terminal.go:1155-1168 | the same bound in the requests' own milliseconds |
| Lease.UnstampedAlwaysGrants | internal/cli/terminal.go:1164-1166 | without a stamp the bound fails at any later time |
| StdinGate.SeenIdRing.Add | internal/cli/terminal.go:1678-1690 | the ring and its set represent the last cap insertions |
| StdinGate.SeenIdRing.Has | internal/cli/terminal.go:1671-1676 | membership in that list |
| StdinGate.ForwardStdin | internal/cli/terminal.go:880-907 | the delivery loop writes exactly the payloads whose fate is "written" |
| StdinGate.FateSpelledOut | internal/cli/terminal.go:880-907 | skipped, dropped or written, from the inserted IDs and the holder alone |
| StdinGate.FreshComeThrough | internal/cli/terminal.go:880-907 | new messages from senders that may write come out whole and in order |
| StdinGate.RedeliverySkipped | internal/cli/terminal.go:1644-1654 | a redelivery is skipped until cap new IDs have come in |
| StdinGate.WrittenAtMostOnce | internal/cli/terminal.go:893-905 | written twice, or dropped and later written, only with cap new IDs between |
| StdinGate.EmptyIdForever | internal/cli/terminal.go:1684-1686 | an empty ID is never evicted |
| StdinGate.ExactlyLastN | internal/cli/terminal.go:1655-1690 | the remembered set is exactly the last cap insertions iff an inserted empty ID is still among them |
| StdinGate.RingIsLastNIff | internal/cli/terminal.go:1655-1690 | over every run of deliveries: iff fewer than cap new IDs came in since the first empty one |
| StdinGate.EmptyIdOutlivesWindow | internal/cli/terminal.go:1684-1686 | for every capacity a run in which the two differ |
| SharedTerminal.JointRun | internal/cli/terminal.go:485-505 | any interleaving of arbiter steps, checks and writes is a run of the lease and, once the message in flight is out, of the gate with each message's holder taken at its check |
| SharedTerminal.OnlyTheHolderTypesIff | internal/cli/terminal.go:893-905 | over every joint run, until the holder releases or its lease lapses, only its input reaches the PTY, iff no other sender's message was in flight at the start and is written |
| SharedTerminal.OneForeignAtMost | internal/cli/terminal.go:893-905 | otherwise that message is the first one written and the only foreign one |
| SharedTerminal.GrantProtectsIff | internal/cli/terminal.go:893-905 | from the grant alone: the whole window is its sender's, whatever the others do, under the same exact condition |
| SharedTerminal.CheckedBeforeGranted | internal/cli/terminal.go:893-905 | a run in which another sender's bytes come out under a live lease |
| SharedTerminal.ClearedIff | internal/cli/terminal.go:893-905 | a new message is cleared for writing iff at its check its sender holds the lease or nobody does; otherwise it is dropped and remembered |
| ControlFilter.FilterControlResponses | internal/cli/terminal_filter.go:28-68 | the scan computes the filter |
| ControlFilter.SequenceFiltered | internal/cli/terminal_filter.go:46-68 | byte by byte: a whole control sequence passes except the four kinds of response, whatever follows |
| ControlFilter.OthersPass | internal/cli/terminal_filter.go:31-45 | a plain byte passes, and an escape with anything but a bracket |
| ControlFilter.UnfinishedIsPending | internal/cli/terminal_filter.go:38-58 | an escape, or a sequence without its final byte, is held back |
| ControlFilter.DocumentedResponses | internal/cli/terminal_filter.go:70-91 | what final byte and parameters decide, for all parameter strings |
| ControlFilter.RecognisedIff | internal/cli/terminal_filter.go:20-27 | for every byte string: recognised iff one of the five documented shapes, or ending in `R` without a row and column |
| ControlFilter.ReportsSpelledOut | internal/cli/terminal_filter.go:20-27 | which bytes make a documented cursor report |
| ControlFilter.FilterAsDocumentedIff | internal/cli/terminal_filter.go:20-68 | the filter's output is the documented one iff no such stray report is among the input's tokens |
| ControlFilter.BareReportIsLost | internal/cli/terminal_filter.go:82-85 | an input for which it is not |
| ControlFilter.FilterMeaning | internal/cli/terminal_filter.go:3-27 | for any cut into whole tokens and an unfinished rest: output is the non-response tokens, pending is the rest |
| ControlFilter.ChunkInvariant | internal/cli/terminal_filter.go:3-8 | feeding a, then pending and b, equals feeding both at once |
| ControlFilter.OutputIsFixedPoint | internal/cli/terminal_filter.go:28-68 | filtering the output changes nothing and holds nothing back |
| ControlFilter.BridgeStdin | internal/cli/terminal.go:447-471 | any split into reads forwards the one-shot output and, at the end, the pending bytes |
| Utf8.SplitOnUtf8Boundary | internal/cli/terminal_utf8.go:17-67 | splits off the held-back suffix, at most three bytes |
| Utf8.SplitTrailingPartialRune | internal/cliproto/screen.go:61-78 | the same by asking the decoder |
| Utf8.HeldSpelledOut | internal/cli/terminal_utf8.go:17-67 | from the bytes alone when a last sequence is held back |
| Utf8.EncodedIsValid | internal/cli/terminal_utf8.go:3-16 | every sequence of Unicode scalar values, encoded as in section 3 of RFC 3629, is valid text |
| Utf8.ValidIsEncoded | internal/cli/terminal_utf8.go:3-16 | and every valid text is such an encoding |
| Utf8.SplittersAgree | internal/cli/terminal_utf8.go:3-16 | on every prefix of valid text both equal greedy decoding |
| Utf8.SplittersAgreeIff | internal/cliproto/screen.go:56-78 | on arbitrary bytes they agree iff a last sequence with all its announced bytes is a real character |
| Utf8.SplittersDifferOnJunk | internal/cliproto/screen.go:56-60 | a witness that fails the condition |
| Utf8.PublishStdout | internal/cli/terminal.go:635-670 | nothing is lost or reordered; on valid text every published chunk is valid |
| Utf8.LiveScreen.Write | internal/cliproto/screen.go:37-54 | conserves bytes; on valid text the emulator never sees a torn character |
| Utf8.CarriesAgree | internal/cliproto/screen.go:11-27 | both carry loops hold the same bytes after the same stream |
| Rebuild.Daemon.BeginRebuild | internal/daemon/daemon.go:214-234 | nothing to dial, coalesce, fail, or dial with the generation of that moment |
| Rebuild.CheckLinearises | internal/daemon/daemon.go:220-223 | the three reads of the check give the answer of one moment, whatever lands between them |
| Rebuild.DialLinearises | internal/daemon/daemon.go:220-234 | check and dial have the effect of one atomic call, whatever lands between them |
| Rebuild.Daemon.SwapIn | internal/daemon/daemon.go:290-389 | installs, classifies the transition, stamps the expiry |
| Rebuild.Daemon.StampGeneration | internal/daemon/daemon.go:360-366 | stamps the generation of that later moment |
| Rebuild.Daemon.RefreshNow | internal/daemon/refresh.go:255-264 | a rotation replaces the expiry and advances the generation |
| Rebuild.CallSpelledOut | internal/daemon/daemon.go:214-234 | exactly when a caller dials, from the fields alone |
| Rebuild.RebuildCompletes | internal/daemon/daemon.go:214-242 | undisturbed, a call ends on a current connection and the next does nothing |
| Rebuild.ReasonsToDial | internal/daemon/daemon.go:220-223 | a rotation, a loss or a teardown makes the next call dial |
| Rebuild.StepsSpelledOut | internal/daemon/daemon.go:290-366 | rotation, swap, stamp and teardown, field by field |
| Rebuild.CountsSpelledOut | internal/daemon/daemon.go:203-242 | what the dial, rotation, loss and line counts count |
| Rebuild.DialsBounded | internal/daemon/daemon.go:203-242 | dials are at most 1 + rotations + losses in any run |
| Rebuild.HerdDialsOnce | internal/daemon/daemon.go:210-223 | between rotations and losses any number of callers dial at most once |
| Rebuild.CurrentMeansNewest | internal/daemon/daemon.go:354-362 | if no rotation lands between dial and stamp, a connection that passes the check uses the newest credential |
| Rebuild.InstalledAge | internal/daemon/handlers.go:118-150 | over every run, reconnects included: a connection that passes the check is exactly as many generations old as rotations landed in its own rebuild since it last authenticated, and newest iff none did |
| Rebuild.StampAge | internal/daemon/daemon.go:354-362 | every such age is reached, and passes the check unless a rotation fell between the two stamps and changed the expiry |
| Rebuild.AnchorsNeedLosses | internal/daemon/daemon.go:275-289 | connect and reconnect lines are bounded by losses; rotation leaves none |
| BurstStorm.DetectBurstSwapStorm | internal/daemon/nats_event_patterns.go:84-124 | storms are disjoint, increasing and genuine; on chronological events every burst starts inside one, and none are reported iff there is no burst |
| BurstStorm.StormSpelledOut | internal/daemon/nats_event_patterns.go:84-124 | a storm counts the swaps between its ends, at least three, all within two seconds |
| BurstStorm.BurstsSpelledOut | internal/daemon/nats_event_patterns.go:84-124 | there is no burst iff no three swaps lie within two seconds |
| BurstStorm.ScanWindow | internal/daemon/nats_event_patterns.go:98-109 | counts the swaps in the window and rules out a burst below three |
| BurstStorm.SortHits | internal/daemon/nats_event_patterns.go:61-68 | the in-place loop is an insertion sort |
| BurstStorm.SortIsStable | internal/daemon/nats_event_patterns.go:61-68 | sorted by time, a permutation, stable |
| EventLog.Log.Append | internal/daemon/nats_events_persistence.go:67-92 | rotate if too big, then append |
| EventLog.Log.RotateIfTooBig | internal/daemon/nats_events_persistence.go:99-121 | the rename loop shifts every generation back by one |
| EventLog.Log.Scan | internal/daemon/nats_events_persistence.go:151-172 | exactly the in-window lines of all generations, oldest first |
| EventLog.SinceSpelledOut | internal/daemon/nats_events_persistence.go:151-172 | a scan keeps exactly the lines at or after its start, in order |
| EventLog.AppendSpelledOut | internal/daemon/nats_events_persistence.go:67-121 | what appending leaves in each file below and from ten mebibytes |
| EventLog.SizeSpelledOut | internal/daemon/nats_events_persistence.go:99-110 | a file's size is the bytes of its lines |
| EventLog.KeepsTheNewest | internal/daemon/nats_events_persistence.go:94-121 | after any run the files hold a suffix of the history, each below the threshold but for its last line, and loss implies two full generations kept |
| EventLog.ScanComplete | internal/daemon/nats_events_persistence.go:143-172 | a scan misses nothing when no lost line is in its window |
| ListWatch.WakeUpComplete | internal/daemon/list_watch.go:64-79 | any ordinary pipe the list would show wakes the watcher, for any patterns and glob |
| ListWatch.OwnReading | internal/daemon/list_watch.go:269-306 | one interpretation of the subject is the row's own target |
| ListWatch.KeptSpelledOut | internal/daemon/list_watch.go:233-248 | which rows the patterns keep |
| ListWatch.ReadingsSpelledOut | internal/daemon/list_watch.go:269-306 | the readings of one, two and more segments |
| ListWatch.WakeUpIff | internal/daemon/list_watch.go:64-79 | exactly which pipes keep that promise for all patterns and globs: the ordinary ones, and a handle `heartbeat` under a segment `heartbeat` |
| ListWatch.PresenceNotWoken | internal/daemon/list_watch.go:269-306 | on every other presence pipe a watcher asking for the row itself is shown it and not woken |
| ChatStore.Store.Ingest | internal/chatstore/store.go:199-208 | records a message once per ID |
| ChatStore.IngestSpelledOut | internal/chatstore/store.go:165-208 | every field of every window after an ingest |
| ChatStore.Store.MarkRead | internal/chatstore/store.go:232-248 | unread becomes zero, the marker never moves back |
| ChatStore.NewestSpelledOut | internal/chatstore/store.go:232-248 | the marker becomes the newest message's stamp or stays |
| ChatStore.Store.CountUnread | internal/chatstore/store.go:70-81 | inbound messages newer than the marker |
| ChatStore.UnreadSpelledOut | internal/chatstore/store.go:70-81 | the number of inbound messages above the marker |
| ChatStore.Store.Migrate | internal/chatstore/store.go:287-316 | re-key or merge |
| ChatStore.MergeSpelledOut | internal/chatstore/store.go:287-316 | title, history, index and marker after a merge |
| ChatStore.AlwaysConsistent | internal/chatstore/store.go:62-68 | in every reachable store IDs are unique and equal the index |
| ChatStore.StoreIsItsHistory | internal/chatstore/store.go:196-316 | in every run a window holds an ID iff some step delivered it and its home, followed through migrations and removals, is that window |
| ChatStore.ReplayFreeIff | internal/chatstore/store.go:165-208 | after any run a delivery leaves the store unchanged iff such an earlier delivery exists and the title says nothing new |
| ChatStore.ReplayChangesNothing | internal/chatstore/store.go:196-208 | a whole burst of such redeliveries leaves the store unchanged |
| ChatStore.MigrationKeepsAll | internal/chatstore/store.go:281-316 | ID union, later marker, unread at most the sum, other windows untouched |
| ChatStore.MigrationSafeIff | internal/chatstore/store.go:293-311 | the window survives iff the kinds differ |
| ChatStore.MigrateCommutesWithIngest | internal/chatstore/store.go:281-316 | on the whole store, windows present or absent: migrating before or after an arrival leaves the same history, index, marker and other windows |
| ChatStore.MigrateCommutesIff | internal/chatstore/store.go:281-316 | and the same store, up to what is still to be written to disk, iff the kinds differ and the arrival does not retitle a window already there |
| Cursors.EffectiveCursor | internal/daemon/cursors.go:171-182 | never above the last sequence |
| Cursors.CursorSpelledOut | internal/daemon/cursors.go:171-182 | when the stored sequence is in force |
| Cursors.CursorStore.Advance | internal/daemon/cursors.go:109-126 | monotone within an incarnation, overwrite across; other entries untouched |
| Cursors.AdvanceSpelledOut | internal/daemon/cursors.go:109-126 | what each read leaves in the entry |
| Cursors.UnreadCounts | internal/daemon/list_snapshot.go:220-231 | never below the number waiting, and exact iff everything retained is above the cursor or everything above it is retained |
| Cursors.CountSpelledOut | internal/daemon/list_snapshot.go:220-231 | the smaller of the distance to the end and what is retained |
| Cursors.StreamSpelledOut | internal/daemon/cursors.go:128-170 | publish, purge and recreate, as the runs take them |
| Cursors.HolesOvercount | internal/daemon/list_snapshot.go:220-231 | a stream with a hole above the cursor that is counted too high |
| Cursors.ContiguousTailExact | internal/daemon/list_snapshot.go:220-231 | so exact when retention removes oldest first |
| Cursors.CursorMonotone | internal/daemon/cursors.go:103-108 | within one incarnation the cursor never moves back, also while the entry is still another incarnation's, unless just one of the two is unstamped |
| Cursors.MonotoneIff | internal/daemon/cursors.go:103-108 | exactly the states from which no step of any run of one incarnation moves it back |
| Cursors.NeverBelowStartIff | internal/daemon/cursors.go:103-108 | exactly the states from which no such run ends below its start |
| Cursors.MonotoneBetweenRecreates | internal/daemon/cursors.go:98-126 | over whole runs with any number of recreations and known stamps, only a recreation moves it back |
| Cursors.OneReaderMonotone | internal/daemon/read.go:254-290 | reads that start above the cursor never move it back, whatever the stamps |
| Cursors.ReadMovesBackIff | internal/daemon/cursors.go:109-126 | one read moves the cursor back iff just one stamp is unknown and the read ends below an entry in force |
| Cursors.LegacyEntryMovesBack | internal/daemon/cursors.go:103-108 | a legacy entry for which it does |
| Cursors.RecreatedWhollyUnread | internal/daemon/cursors.go:156-170 | a recreated stream is wholly unread until read |
| Cursors.SharedKeyIff | internal/daemon/cursors.go:195-198 | two pipes share a cursor iff they have the same handle and pipe name in any manifolds, or are one uncollared pipe |
| Cursors.SharedKeyForgets | internal/daemon/list_snapshot.go:220-231 | then storing a read of one makes the other wholly unread, whatever was read before |

## Left out

- The bus, JetStream, HTTP, JSON, sockets and the file system: replaced by events, maps and parameters; failed renames and failed PTY writes are not modelled.
- Rendering and lookup code that one reading settles: `Perm.String`, `Reason.Label`, the ACL preview and renderer, sender resolution, error tables, heartbeat classification.
- The terminal emulator, raw-mode handling, the chat TUI, completion, login, upgrade and database code.
- The lease's expiry timer: a timer event may fire at any time in a run, which covers its arming and stopping.
- The printed wording of a storm (caller list, rounded duration) and the second detector, detectPostRotationAuthViolation: neither adds a harder claim.
- Chat-store persistence: file names for agents and message sources share a prefix, so a disk round trip would need distinct names; Messages() is a library stable sort.
- Cursor files: the legacy bare-integer form and I/O errors; tables are in memory here.
- Rebuild: one credential loop; a login, which starts a new loop and installs its own connection, ends the run.
- Perm bits beyond read, write and admin: a permission is a set of the three capabilities.
- Subscribe permission for presence, system and inbox subjects, which every credential grants by wildcard, is excluded from the "iff Read" claims.
