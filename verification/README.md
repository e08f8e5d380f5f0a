# Verification of Anywhere Computer's protocols

A Dafny 4.11 model of the parts of Anywhere Computer whose correctness depends on more than one
call: the OAuth grant store with its rotating client and consent desk, the macOS accessibility
helper's traversals and leases, the Windows test partition, the bounded readers, and the browser
tab. `dafny verify dfyconfig.toml` checks everything.

Where the program updates objects step by step, so does the model: `AuthorizationStore`,
`ClientTokens`, `BrowserAuthorization`, `TreeBuilder`, `HelperSession`, `TabEntry` and `History`
are classes whose methods are proved to perform the transition of a pure function, and loops are
loops. What the program promises is then proved about those functions, over every run. When each
answer is given is proved on the tables, fields and graphs themselves (`AuthorizationAnswers.dfy`,
`ConsentAnswers.dfy`, `Truncation.dfy`, `WindowsDurations.dfy`, `BrowserAnswers.dfy`).

- **Grants** (`Authorization*.dfy`, `ClientTokens.dfy`, `GrantProtocol.dfy`, `GrantRuns.dfy`,
  `GrantRenewals.dfy`). The store is eleven transactions over six tables, and being opened again by
  a program that knows other tools; secrets are fresh values. Every run keeps an invariant that
  includes the history of each grant's refresh tokens. The composed system adds the client, its
  vault, the network and the clock; crashes, lost and delayed messages and ambiguous vault writes
  are steps, and every call of the client is such a run. Tokens are never resent, and renewing
  works. These follow sections 4.1.2 and 10.4 of RFC 6749 and section 4.14 of RFC 9700; the
  challenge is that of section 4.6 of RFC 7636.
- **Consent** (`ConsentDesk.dfy`, `ConsentRuns.dfy`, `AttemptRuns.dfy`, `ConsentedTokens.dfy`). A
  decision runs in two parts around an await, and any other step, a restart of the server included,
  may come between them. Desk and store together tie every token that verifies to a decision of the
  owner. `WholeSystem.dfy` joins desk, store and client.
- **Accessibility helper** (`Traversal.dfy`, `Observation.dfy`, `Reachability.dfy`,
  `HelperLeases.dfy`, `HelperLines.dfy`). Graphs are finite and may share children or contain
  cycles. The iterative searches are proved against the recursive tree builder and against
  reachability in the whole graph.
- **Windows tests** (`ShardBound.dfy`, `WindowsShards.dfy`, `WindowsAllocation.dfy`,
  `WindowsPartition.dfy`, `WindowsResults.dfy`). Partition, validator and release gate, and how far
  the greedy allocation is from the best one.
- **Small algorithms** (`SweepOverlap.dfy`, `BoundedLines.dfy`, `Utf8.dfy`, `CodexContext.dfy`,
  `EventRing.dfy`) and the **browser tab** (`BrowserTab.dfy`, `BrowserRuns.dfy`).

## Where the code does less than one would expect

- A login may be installed again after its refresh token was sent (`install` does not look at what
  the vault holds). `OncePerLoginNeverResends` shows that a client that installs no login twice
  never resends; `ReinstallRevokes` gives a run from the start that installs one twice, sends its
  token twice and has the grant revoked. `InstallSafeIffUnsent` is the exact condition for one
  install.
- The read-only grant lookup does not check that the grant's tools are still known, as the store's
  own lookup does. The two agree exactly when they are (`ReadOnlyLookupAgrees`), hence always in a
  store never reopened with fewer tools; `ReadOnlyLookupPassesRemovedTool` reopens one and parts
  them.
- A node dropped from a tree observation for its size can do harm: the later search still walks
  below it, and may report a leased element of the unchanged window over the limit
  (`DroppedNodeLosesLease`). The two walks agree exactly when no dropped node does harm
  (`WalksAgreeIffHarmless`), and otherwise up to the first that does (`SearchWalksAgain`), so leases
  taken before it hold; a leased element is never reported absent in any case.
- The flag of a tree observation is exact where the window is a tree (`TreeFlagIsExact`). Where an
  element is held twice it may be set although nothing is missing (`SharedChildSetsFlag`).
- Ten attempts a minute holds for every window shorter than sixty seconds, and for a minute that
  leaves out one of its ends; sixty seconds with both ends included can hold twenty
  (`TenExactlyBelowAMinute`).
- A thread of exactly a thousand messages that fit is returned whole and reported as truncated
  (`ThousandReportedTruncated`); it is the only case in which the flag says so for nothing
  (`ThreadFlag`).

## Model

| member | source | states |
|---|---|---|
| `Authorization.AuthorizationStore.RegisterClient` | src/anywhere_computer/authorization.py:185-194 | registers one to ten well-formed callbacks once per client, or leaves the store alone |
| `Authorization.AuthorizationStore.EnrollDevice` | src/anywhere_computer/authorization.py:196-204 | enrols a device once, active and at generation 0, with known tools only |
| `Authorization.AuthorizationStore.Approve` | src/anywhere_computer/authorization.py:206-245 | all-or-nothing: either the whole consent check passes and one grant with one fresh, unconsumed code appears, or nothing changes |
| `Authorization.AuthorizationStore.InsertTokens` | src/anywhere_computer/authorization.py:338-353 | inserts a fresh pair that lives at most 900 seconds and not past its grant, or nothing when less than a second is left |
| `Authorization.AuthorizationStore.ExchangeCode` | src/anywhere_computer/authorization.py:289-336 | redeems a matching live code once; a matching consumed code revokes its grant; every other failure is rolled back |
| `Authorization.AuthorizationStore.Refresh` | src/anywhere_computer/authorization.py:355-394 | rotates a matching live refresh token once; a matching consumed one revokes its grant; every other failure is rolled back |
| `Authorization.AuthorizationStore.RetainActiveGrants` | src/anywhere_computer/authorization.py:444-469 | frees exactly the usable time-limited grants of one client on one device from their deadline, with their live refresh tokens |
| `Authorization.AuthorizationStore.FreeOne` | src/anywhere_computer/authorization.py:458-468 | one pass of that loop, a grant at a time |
| `Authorization.AuthorizationStore.Revoke` | src/anywhere_computer/authorization.py:471-477 | revokes one grant of its owner |
| `Authorization.AuthorizationStore.RevokeDevice` | src/anywhere_computer/authorization.py:479-489 | deactivates the device, raises its generation and revokes all its grants |
| `Authorization.AuthorizationStore.BeginOwnerReset` | src/anywhere_computer/authorization.py:491-500 | the same, and opens the reset gate |
| `Authorization.AuthorizationStore.CompleteOwnerReset` | src/anywhere_computer/authorization.py:502-510 | closes the gate of an inactive device without reactivating it |
| `Authorization.AuthorizationStore.EnableDevice` | src/anywhere_computer/authorization.py:528-548 | refused while a reset is pending; reactivates with a new generation and no usable grant |
| `Authorization.AuthorizationStore.Open` | src/anywhere_computer/authorization.py:109-129 | opens a saved store again, for its own resource only: the transaction that replaces the known tools and keeps every table |
| `AuthorizationInvariants.EmptyInv` | src/anywhere_computer/authorization.py:108-178 | a new store has the invariant |
| `AuthorizationInvariants.StepSound` | src/anywhere_computer/authorization.py:109-548 | every transaction, a reopening with other tools included, keeps rows linked, token deadlines within the grant's, and a pending reset on inactive devices only |
| `AuthorizationInvariants.ExchangeTables` | src/anywhere_computer/authorization.py:304-336 | a successful exchange consumes exactly its code and adds exactly one access and one refresh token, on the code's grant |
| `AuthorizationInvariants.RefreshTables` | src/anywhere_computer/authorization.py:367-394 | a successful refresh consumes exactly the presented token and adds exactly one pair, on its grant |
| `AuthorizationInvariants.LiveTokenIsLast` | src/anywhere_computer/authorization.py:374-391 | an unconsumed refresh token is the last of its grant's family |
| `AuthorizationInvariants.StepKeeps` | src/anywhere_computer/authorization.py:109-548 | every transaction, a reopening included, keeps the invariant and the history of codes and token families |
| `AuthorizationInvariants.RunKeeps` | src/anywhere_computer/authorization.py:109-548 | every run of transactions and reopenings from any invariant store does |
| `AuthorizationTheorems.OneLiveRefreshToken` | src/anywhere_computer/authorization.py:289-394 | in every reachable store each grant has exactly one code, and one unconsumed refresh token if that code was consumed, none otherwise |
| `AuthorizationTheorems.RedemptionExtendsChain` | src/anywhere_computer/authorization.py:338-394 | a redemption presents the last token of its family and appends that token's only successor |
| `AuthorizationTheorems.FamiliesGrow` | src/anywhere_computer/authorization.py:338-394 | families only grow at the end, so successors never change |
| `AuthorizationTheorems.RedeemedOnce` | src/anywhere_computer/authorization.py:304-394 | a redeemed code or refresh token is never redeemed again, in any later store |
| `AuthorizationTheorems.ConsumedOnlyByRedemption` | src/anywhere_computer/authorization.py:355-394 | a refresh token becomes consumed exactly by its own successful redemption |
| `AuthorizationTheorems.RunEvolves` | src/anywhere_computer/authorization.py:185-548 | over any run grants keep their owner, device, client and tools, revoked stays revoked, consumed stays consumed, and no row disappears |
| `AuthorizationTheorems.RevokedExactlyBy` | src/anywhere_computer/authorization.py:318-335 | a transaction revokes a grant exactly when it replays one of its credentials or is an owner's ending of the grant or its device |
| `AuthorizationTheorems.FailedRedemptionIsSilent` | src/anywhere_computer/authorization.py:304-394 | a failing exchange or refresh that is no replay leaves the store exactly as it was |
| `AuthorizationTheorems.RevokedIsDead` | src/anywhere_computer/authorization.py:396-421 | no token, code or refresh token of a revoked grant works |
| `AuthorizationTheorems.RevokedForever` | src/anywhere_computer/authorization.py:471-548 | after a replay, a revocation or a reset every credential of the affected grants fails in all later stores, re-enabling and reopening included |
| `AuthorizationTheorems.ReenablingNeedsCompletion` | src/anywhere_computer/authorization.py:491-548 | a pending reset outlives every run without its completion, and no such run re-enables the device |
| `AuthorizationTheorems.InactiveStays` | src/anywhere_computer/authorization.py:528-548 | an inactive device stays inactive over every run that does not re-enable it |
| `AuthorizationTheorems.InactiveDeviceIsClosed` | src/anywhere_computer/authorization.py:264-279 | nothing is approved, exchanged, refreshed or verified for an inactive device |
| `AuthorizationTheorems.PendingResetCloses` | src/anywhere_computer/authorization.py:491-548 | from the start of a reset nothing is approved, exchanged, refreshed or verified for its device, over every run until it is re-enabled, which needs completion first |
| `AuthorizationTheorems.ClosedUntilReenabled` | src/anywhere_computer/authorization.py:479-548 | a device just revoked or reset is closed over every later run until it is re-enabled, whether or not the reset was completed |
| `AuthorizationTheorems.GenerationCountsRenewals` | src/anywhere_computer/authorization.py:479-548 | a device's generation counts exactly its revocations, resets and re-enablings |
| `AuthorizationTheorems.ApprovalMeansNoRenewal` | src/anywhere_computer/authorization.py:206-279 | a consent validated at its generation is approved later only if the device was not revoked, reset or re-enabled in between |
| `AuthorizationTheorems.IssuedLifetime` | src/anywhere_computer/authorization.py:338-353 | an issued access token lives between one second and 900 seconds and never past a grant deadline |
| `AuthorizationTheorems.RetainRevivesNothing` | src/anywhere_computer/authorization.py:444-469 | removing deadlines revives no grant and no refresh token, in any store: not one consumed, past its own deadline, or of a grant that did not work |
| `AuthorizationTheorems.ReadOnlyLookupAgrees` | src/anywhere_computer/authorization.py:554-572 | the read-only lookup agrees with the store's exactly when the grant's tools are all still known; it lacks that check |
| `AuthorizationTheorems.LookupsAgreeWhileToolsKept` | src/anywhere_computer/authorization.py:109-572 | over every run in which no reopening forgets a tool the two lookups agree |
| `AuthorizationTheorems.ReadOnlyLookupPassesRemovedTool` | src/anywhere_computer/authorization.py:554-572 | reopened without a tool it had consented to, a reachable store refuses the grant while the read-only lookup passes it |
| `AuthorizationTheorems.ReopeningKeeps` | src/anywhere_computer/authorization.py:109-129 | a reopening changes neither tables nor histories and keeps the invariant |
| `AuthorizationTheorems.PermissionsNeverWiden` | src/anywhere_computer/authorization.py:396-410 | whatever happens later, a usable grant has exactly the tools, owner, device and client consented to |
| `AuthorizationTheorems.RedeemedOnlyAsConsented` | src/anywhere_computer/authorization.py:206-394 | over any run a code is redeemed only by the client, for the callback, resource and challenge consented to, within two minutes, and every token issued on its grant carries exactly the tools consented to |
| `AuthorizationAnswers.ApprovedExactly` | src/anywhere_computer/authorization.py:206-279 | a consent is approved exactly when the tables allow it: its client registered the callback up to a loopback port, its device is active, its owner's, at its generation and has the tools, which are known; the new rows are given in full, and each refusal its reason |
| `AuthorizationAnswers.CodesGoToRegisteredCallbacks` | src/anywhere_computer/authorization.py:92-279 | in every run each code goes to a callback that its grant's client registered, or one that differs in a loopback port from 1 to 65535 only, and each grant is its device's owner's with tools of that device |
| `AuthorizationAnswers.VerifiedExactly` | src/anywhere_computer/authorization.py:396-421 | an access token passes exactly at its resource, before its own expiry, while its grant works, and stands for that grant as it was consented to |
| `AuthorizationAnswers.ReadOnlyLookupExactly` | src/anywhere_computer/authorization.py:396-572 | each lookup passes exactly while the grant is unrevoked, in time and on an active device of its owner that has its tools; the store's own wants them known too |
| `AuthorizationAnswers.ExchangedExactly` | src/anywhere_computer/authorization.py:289-353 | a code is exchanged exactly if unconsumed, in time, presented with its client, callback, resource and verifier, for a grant that works for another second; the tokens live as many whole seconds as they can |
| `AuthorizationAnswers.RefreshedExactly` | src/anywhere_computer/authorization.py:338-394 | a refresh token is redeemed exactly if unconsumed, in time, presented by its client for the resource with no other scope, for such a grant; only a live one with another scope is answered with the scope error |
| `AuthorizationAnswers.RegisteredExactly` | src/anywhere_computer/authorization.py:58-194 | a client registers exactly once, under a printable name, with one to ten well-formed callbacks |
| `AuthorizationAnswers.EnrolledExactly` | src/anywhere_computer/authorization.py:58-204 | a device enrols exactly once, under printable names, with some of the known tools, active and at generation 0 |
| `AuthorizationAnswers.RevokedExactly` | src/anywhere_computer/authorization.py:471-477 | exactly its owner revokes a grant, and nothing but it |
| `AuthorizationAnswers.OpenedExactly` | src/anywhere_computer/authorization.py:109-178 | a new store is empty and a reopened one keeps its tables; local tools are never known |
| `AuthorizationAnswers.DeviceCommandsExactly` | src/anywhere_computer/authorization.py:479-548 | exactly a device's owner administers it; each command's whole effect on the device and its grants, and each refusal |
| `AuthorizationAnswers.RetainedExactly` | src/anywhere_computer/authorization.py:444-469 | exactly the working time-limited grants of that client on that device lose their deadline, each with its live refresh tokens, and are counted; every other row stays |
| `ClientTokens.ClientTokens.Save` | src/anywhere_computer/client_tokens.py:176-182 | the vault afterwards holds the old or the new record, success is reported only for the new, and the write joins the trace |
| `ClientTokens.ClientTokens.Install` | src/anywhere_computer/client_tokens.py:202-219 | saves a ready record, with one write, exactly for a pair that is valid and unexpired, counted from before its redemption |
| `ClientTokens.ClientTokens.AccessToken` | src/anywhere_computer/client_tokens.py:221-265 | writes and sends exactly the actions of the call in their order, whatever fails or dies on the way, and answers accordingly |
| `ClientTokens.SentOnlyAfterIntent` | src/anywhere_computer/client_tokens.py:240-243 | a call sends at most one refresh token, that of the ready record, and only after a successful write of its pending form, which the vault then holds |
| `ClientTokens.HandedOutIsSaved` | src/anywhere_computer/client_tokens.py:233-259 | a token handed out is that of the ready record the vault holds afterwards: trusted as it was, or the successor just saved |
| `ClientTokens.AnsweredFromVaultExactly` | src/anywhere_computer/client_tokens.py:221-239 | a call hands out the saved token and does nothing else exactly while the record is ready, the token not the rejected one, and more than a minute or a tenth of its lifetime left; every other vault has its own answer or is renewed |
| `ClientTokens.RenewalAnsweredExactly` | src/anywhere_computer/client_tokens.py:186-265 | a renewal hands out the reply's token exactly if intent and successor were saved, the process lived and the reply brings two new tokens of the same scope, still alive; each failure has its own answer |
| `ClientTokens.RenewalLeaves` | src/anywhere_computer/client_tokens.py:176-265 | the vault then holds the last record whose write was not lost |
| `ClientTokens.InstalledIsHandedOut` | src/anywhere_computer/client_tokens.py:202-239 | a pair is installed exactly if it is valid and alive, and once saved is handed out without renewal exactly while it lasts |
| `ClientTokens.LastingRecordServes` | src/anywhere_computer/client_tokens.py:233-239 | a record with a lasting token serves any number of calls that do not reject it, which send nothing and leave the vault alone |
| `ClientTokens.RejectedTokenIsRenewedOnce` | src/anywhere_computer/client_tokens.py:221-265 | any number of calls rejected with one token, in whatever processes, send one refresh token: after the first that got another token the rest are handed that one |
| `ClientTokens.ClientTokens.Forget` | src/anywhere_computer/client_tokens.py:267-276 | removes the record; a vault that cannot be read, or a removal that fails although it landed, is reported as an error |
| `GrantProtocol.StepKeepsWorld` | src/anywhere_computer/client_tokens.py:221-265 | every step of client, network, store, clock and vault keeps the composed invariant |
| `GrantProtocol.RunKeepsWorld` | src/anywhere_computer/client_tokens.py:202-265 | every run does |
| `GrantProtocol.NeverSentTwice` | src/anywhere_computer/client_tokens.py:221-265 | with crashes, losses, delays and ambiguous vault writes anywhere, no refresh token is sent twice |
| `GrantProtocol.NeverReplays` | src/anywhere_computer/authorization.py:374-377 | no request on the wire presents a consumed token, so no delivery reaches the replay branch or revokes a grant |
| `GrantProtocol.HandedOutTokenIsTimely` | src/anywhere_computer/client_tokens.py:233-239 | with equal clocks a token used without renewal passes every time check of the server; it verifies unless revoked or its device or permissions changed |
| `GrantProtocol.InstallSafeIffUnsent` | src/anywhere_computer/client_tokens.py:202-219 | of the installs that land, exactly those of a pair whose refresh token was never sent keep the invariant, and exactly those leave no fair run in which a token is sent twice |
| `GrantProtocol.ReinstalledPairIsResent` | src/anywhere_computer/client_tokens.py:202-219 | reinstalling a sent pair lets the next renewal send it again, and a consumed one then revokes the grant |
| `GrantRuns.CallIsARun` | src/anywhere_computer/client_tokens.py:221-265 | every call for a token, in any weather and with anything happening elsewhere meanwhile, is a run of the composed system: load, save the intent, send, wait, receive, save the successor |
| `GrantRuns.OncePerLoginNeverResends` | src/anywhere_computer/client_tokens.py:202-265 | a client that installs no login twice never sends a refresh token twice, over every run from a start |
| `GrantRuns.RenewalReachesReinstall` | src/anywhere_computer/client_tokens.py:202-265 | such a run, login, installation and one renewal, ends where its first pair is consumed and sent yet still within its lifetime |
| `GrantRuns.ReinstallRevokes` | src/anywhere_computer/client_tokens.py:202-219 | from there one more installation sends that token twice, and its delivery revokes the grant |
| `GrantRenewals.RunKeepsGranted` | src/anywhere_computer/client_tokens.py:202-265 | over every run, whatever the client holds, awaits or could install is a pair of one grant of its own, with exactly that grant's scope |
| `GrantRenewals.AnsweredIffRenewable` | src/anywhere_computer/authorization.py:355-394 | the store answers a live token of the client's exactly while token and grant work and a second is left, with a fresh pair that lives as long as it may |
| `GrantRenewals.RenewalOutcome` | src/anywhere_computer/client_tokens.py:221-265 | in every world of the invariant an undisturbed renewal, with any travel times, hands out a token that the server then accepts for the same grant exactly when the token is renewable on arrival and the new pair still alive on return; otherwise the pending record stays |
| `GrantRenewals.EveryRunCanRenew` | src/anywhere_computer/client_tokens.py:202-265 | so after every run from a start that installs no login twice |
| `ConsentDesk.BrowserAuthorization.Begin` | src/anywhere_computer/browser_authorization.py:669-741 | prunes, refuses a 65th request, and otherwise opens one that holds what was asked and the device's generation |
| `ConsentDesk.BrowserAuthorization.Submit` | src/anywhere_computer/browser_authorization.py:751-798 | the part of a decision before the await: identity, cookie and form checks, one choice, and the attempt window |
| `ConsentDesk.BrowserAuthorization.Resume` | src/anywhere_computer/browser_authorization.py:799-874 | the part after the await: consumes the very record it began with, if still stored and unexpired, and asks the store for the code |
| `ConsentRuns.StepKeepsWorld` | src/anywhere_computer/browser_authorization.py:669-874 | every step, with any other steps and restarts of the server between the two parts of a decision, keeps the invariant |
| `ConsentRuns.NeverDecidedTwice` | src/anywhere_computer/browser_authorization.py:832-836 | each pending request is consumed by at most one decision, and at most 64 are ever pending |
| `ConsentRuns.CodeNeedsConsent` | src/anywhere_computer/browser_authorization.py:832-874 | a code means a verified decision on that record, unexpired and still stored at consumption, for exactly its permissions, with no renewal of the device since it was opened |
| `ConsentRuns.SubmitFacts` | src/anywhere_computer/browser_authorization.py:751-798 | a decision goes on only for the browser that opened the request, with its form, unexpired and with one choice, and notes an attempt only where fewer than ten are recent |
| `ConsentRuns.RecentDrops` | src/anywhere_computer/browser_authorization.py:790-792 | dropping old attempts removes a first part of the list that is at least a minute old, up to the first that is not |
| `ConsentRuns.AdmitKeeps` | src/anywhere_computer/browser_authorization.py:788-797 | one more attempt, let through with fewer than ten recent ones, keeps ten attempts a minute apart |
| `AttemptRuns.AttemptsAreBounded` | src/anywhere_computer/browser_authorization.py:788-797 | over its whole life no request has more than ten attempts let through in any minute that leaves out one of its ends, whichever |
| `AttemptRuns.ClosedMinuteHoldsTwenty` | src/anywhere_computer/browser_authorization.py:790-797 | with both ends included twenty fit: the run that does it |
| `AttemptRuns.JustOpenedIsReady` | src/anywhere_computer/browser_authorization.py:732-735 | any request just opened can start that run |
| `AttemptRuns.TwentyInAMinute` | src/anywhere_computer/browser_authorization.py:732-797 | and such a request is reached: a run with twenty attempts between its first moment and a minute later |
| `AttemptRuns.TenExactlyBelowAMinute` | src/anywhere_computer/browser_authorization.py:788-797 | with both ends included, ten is the bound in every run exactly for windows shorter than a minute |
| `ConsentAnswers.OpenedExactly` | src/anywhere_computer/browser_authorization.py:669-741 | a page is served exactly while fewer than 64 requests are unexpired, for a well-formed request that the store would approve; each refusal has its reason |
| `ConsentAnswers.OpenedLeaves` | src/anywhere_computer/browser_authorization.py:669-741 | expired requests and their attempts are gone, the others untouched; a served request is new, lives five minutes and holds the device's generation |
| `ConsentAnswers.SubmittedExactly` | src/anywhere_computer/browser_authorization.py:751-798 | a form goes on exactly if it matches its request and is a denial or one of fewer than ten recent attempts; every other form is told why not, and no request changes |
| `ConsentAnswers.RefusedExactlyAfterTen` | src/anywhere_computer/browser_authorization.py:788-797 | in every run a matching attempt is refused as too many exactly if the tenth last that was let through is less than a minute old |
| `ConsentAnswers.ResumedExactly` | src/anywhere_computer/browser_authorization.py:799-874 | each outcome of a verification has its answer and leaves the request pending, drops it or consumes it; a denial changes nothing in the store, and a code is made exactly if the consent is approvable at its generation |
| `ConsentAnswers.CodeExactlyIfConsented` | src/anywhere_computer/browser_authorization.py:799-874 | over every run a waiting decision gets a code exactly if verified, its passkey held, its request unexpired and still the stored one, its device not renewed since it was opened and its tools known |
| `ConsentedTokens.VerifiedTokenWasConsented` | src/anywhere_computer/browser_authorization.py:832-874 | where approval is reached through the desk alone, whatever verifies as a token belongs to a grant opened by a decision that was verified and in time, for exactly its owner, device, client and tools |
| `WholeSystem.RunProjects` | src/anywhere_computer/client_tokens.py:202-265 | every run of desk, store and client together is a run of the desk, to which the client's redemptions are transactions by others, and a run of the client, to which the desk's approvals are |
| `WholeSystem.UsedTokenWasConsented` | src/anywhere_computer/client_tokens.py:221-239 | in the whole, with approval at the desk alone: no refresh token is sent twice, and a token used without renewal is of a grant of that client opened by a verified and timely decision, for exactly the scope on record; it passes the server's time checks and verifies unless revoked or its device or permissions changed |
| `Traversal.LocateElement` | native/macos/AXHelper.swift:994-1043 | answers found, absent or over limit exactly as its visits in stack or queue order do |
| `Traversal.SearchExtends` | native/macos/AXHelper.swift:1004-1040 | a search never takes back a visit |
| `Observation.TreeBuilder.ReserveNodeOutput` | native/macos/AXHelper.swift:287-307 | reserves a node whole or shortened within 48 KiB, or reports that it cannot |
| `Observation.TreeBuilder.BuildNode` | native/macos/AXHelper.swift:883-992 | the recursive walk with its caps, its leases and its output budget |
| `Truncation.OffersFirstChildren` | native/macos/AXHelper.swift:955-990 | a walk follows the first children of an element, as many as the cap allows, and none at the depth cap; an item is cut exactly if that leaves a child out |
| `Truncation.StoppedExactly` | native/macos/AXHelper.swift:994-1043 | a cap stops the search exactly if it visits an item that is cut, or makes all its visits and leaves a reachable element out |
| `Truncation.UntruncatedTreeIsWhole` | native/macos/AXHelper.swift:883-992 | a tree that is not truncated leases exactly the reachable elements, each whole and with all its children, within the output budget, and no cap stops the search of it |
| `Truncation.TruncatedTreeMetALimit` | native/macos/AXHelper.swift:883-992 | a truncated tree made as many different visits as the node cap, took more than the output budget, or left a child out |
| `Truncation.TreeFlagIsExact` | native/macos/AXHelper.swift:883-992 | where no element is held twice, the flag is set exactly if the output budget is exceeded, a child is left out by a cap, or a reachable element is not visited |
| `Truncation.SharedChildSetsFlag` | native/macos/AXHelper.swift:889-982 | elsewhere it is not: a child offered again at the node cap sets the flag although everything is leased |
| `Truncation.TreeLeasesWhatFits` | native/macos/AXHelper.swift:287-307 | of the visits exactly those are leased whose node, in full or shortened, fits beside the nodes before it, and the output holds just these |
| `Truncation.ListFlagMeans` | native/macos/AXHelper.swift:1185-1303 | a target list that is not truncated leases exactly the reachable actionable elements within the budget; a truncated one met the node cap, a cut item or the budget |
| `Observation.StackBuildsNode` | native/macos/AXHelper.swift:1004-1040 | popping an item off the stack and searching on is building its subtree and then searching on, where no dropped node in it did harm |
| `Observation.HarmParts` | native/macos/AXHelper.swift:944-946 | up to the first harmful node the two walks visit alike; there the search goes on below it while the tree goes on beside or above it |
| `Observation.WalksAgreeIffHarmless` | native/macos/AXHelper.swift:883-1043 | on any graph the stack search makes the tree builder's visits, in order and at their depths, exactly when every node dropped for size filled the node cap or offered only elements visited before |
| `Observation.LosslessIsHarmless` | native/macos/AXHelper.swift:944-946 | where every visited node was leased, no dropped node did harm |
| `Observation.DepthFirstWalksAgree` | native/macos/AXHelper.swift:883-1043 | so on any graph, if no node was dropped, both walks visit the same elements in the same order at the same depths |
| `Observation.LeasedWasVisited` | native/macos/AXHelper.swift:947-953 | every lease is of a visited element |
| `Observation.SearchWalksAgain` | native/macos/AXHelper.swift:883-1043 | the walks agree exactly up to the first harmful node: the search repeats the tree's visits till then and then parts from them |
| `Observation.LeasedElementIsFound` | native/macos/AXHelper.swift:883-1043 | every element leased by a tree observation is found again in the unchanged tree, unless a node did harm before it was visited |
| `Observation.ObserveTargets` | native/macos/AXHelper.swift:1185-1303 | the queue walk that leases actionable elements until the node cap or the output budget ends it |
| `Observation.ListWithinSearch` | native/macos/AXHelper.swift:1004-1303 | it visits a first part of the queue search's visits, all of them with every actionable one leased when nothing was truncated |
| `Observation.ListedElementIsFound` | native/macos/AXHelper.swift:1004-1303 | every element it leases is found again, in queue order, in the unchanged window |
| `Reachability.UnstoppedSearchCloses` | native/macos/AXHelper.swift:1004-1042 | a search that reported no cap has visited every child of what it visited |
| `Reachability.SearchStaysReachable` | native/macos/AXHelper.swift:1004-1040 | a search visits reachable elements only |
| `Reachability.LocatedMeans` | native/macos/AXHelper.swift:994-1043 | absent means unreachable from the window root, whatever cycles and shared children there are; found means reachable |
| `Reachability.HeadIsNearest` | native/macos/AXHelper.swift:1050-1101 | the scan first comes to every element at its distance from the root, whatever cycles and detours there are |
| `Reachability.VerifyUniqueSelector` | native/macos/AXHelper.swift:1045-1109 | returns normally only when exactly one element of the whole reachable graph matches and it is the selected one; each refusal is justified, and answers other than ambiguous or over limit mean a graph within the caps, by distance |
| `Reachability.UniqueIsConfirmed` | native/macos/AXHelper.swift:1045-1109 | a selector that describes the selected element alone is confirmed, unless the graph is beyond the caps of the scan |
| `Reachability.CycleIsConfirmed` | native/macos/AXHelper.swift:1058-1059 | so on two elements that are each other's child |
| `Reachability.LeasedIsReachable` | native/macos/AXHelper.swift:883-992 | every element leased by a tree observation is reachable from the root, whatever was dropped |
| `Reachability.LeasedIsNeverAbsent` | native/macos/AXHelper.swift:994-1043 | so in an unchanged tree it is found or reported over the limit, never absent |
| `Reachability.DroppedNodeLosesLease` | native/macos/AXHelper.swift:944-946 | a window of twelve elements in which a dropped node does harm: an element leased at depth two is then reported over the limit |
| `HelperLeases.HelperSession.Observe` | native/macos/AXHelper.swift:1143-1183 | prunes, refuses a 129th lease, and otherwise adds one that lasts a minute |
| `HelperLeases.HelperSession.Mutate` | native/macos/AXHelper.swift:1425-1510 | a licensed mutation clears every lease before anything else can happen, then finds its element, proves its selector unique if it has one, and makes the last checks |
| `HelperLeases.ObservedExactly` | native/macos/AXHelper.swift:1143-1183 | an observation is leased, for a minute from its end, exactly while fewer than 128 leases are live; dead leases go and live ones stay |
| `HelperLeases.MutatedExactly` | native/macos/AXHelper.swift:1425-1510 | a mutation takes effect exactly if a live lease names its element, the process is the leased one, the search finds it, the selector is confirmed and the last checks hold; a licensed one costs all leases, another none |
| `HelperLeases.EachObservationLicensesOnce` | native/macos/AXHelper.swift:1440-1452 | in every session each observation licenses at most one mutation |
| `HelperLeases.NothingLicensedUntilObserved` | native/macos/AXHelper.swift:1450-1452 | after a licensed mutation nothing is licensed until a new observation |
| `HelperLeases.EffectWasLicensed` | native/macos/AXHelper.swift:1440-1510 | an effect was licensed by a live lease of that very element, which the current window contains; asked for by a selector, it is the only element in the whole window that the selector describes |
| `HelperLeases.AbsentMeansUnreachable` | native/macos/AXHelper.swift:1463-1468 | a mutation refused as absent names an element the whole window does not contain |
| `HelperLeases.LeaseHolds` | native/macos/AXHelper.swift:1463-1510 | within its minute a lease on an unchanged window never fails for want of its element, unless a node dropped from a tree did harm before it; nor for a selector that describes it alone, unless the window is beyond the scan's caps |
| `HelperLeases.LeaseIsNeverAbsent` | native/macos/AXHelper.swift:1463-1468 | whatever was dropped, such a lease is never refused as absent |
| `HelperLines.RunLines` | native/macos/AXHelper.swift:1807-1856 | one answer per line of the whole input, however it was read, holding at most 64 KiB |
| `HelperLines.OneAnswerPerLine` | native/macos/AXHelper.swift:1833-1854 | lines are answered one for one, oversized ones with an error and without losing the next |
| `ShardBound.MaxWithinMinPlusHeaviest` | scripts/windows_test_shards.py:82-87 | the largest load is at most the smallest plus the heaviest file |
| `ShardBound.WithinSevenQuarters` | scripts/windows_test_shards.py:82-87 | in any order of placement the greedy maximum is at most 7/4 of any other assignment's |
| `ShardBound.FirstOverflowIsLight` | scripts/windows_test_shards.py:84-87 | the first file that pushes a shard above another assignment's maximum weighs at most a third of it |
| `ShardBound.WithinFiveQuarters` | scripts/windows_test_shards.py:82-87 | heaviest first, the greedy maximum is at most 5/4 of any other assignment's |
| `WindowsShards.ValidateGroup` | scripts/windows_test_shards.py:112-122 | accepts a group exactly when its selectors are its files or its recorded serial selectors, and its files are new |
| `WindowsShards.ValidatePlan` | scripts/windows_test_shards.py:101-122 | accepts exactly the valid plans |
| `WindowsShards.ExactlyOnce` | scripts/windows_test_shards.py:107-110 | in a valid plan every collected test is in exactly one group, once |
| `WindowsShards.ValidPlanKeepsFilesWhole` | scripts/windows_test_shards.py:112-122 | in a valid plan a shard selects exactly the files of its tests, and the tests of a file are in one shard |
| `WindowsShards.FileEndsAtMark` | scripts/windows_test_shards.py:69 | a test's file is what comes before its first mark |
| `WindowsAllocation.LeastShard` | scripts/windows_test_shards.py:85 | the first shard of least load and, among those, fewest files |
| `WindowsAllocation.Allocate` | scripts/windows_test_shards.py:82-87 | a greedy allocation, with every shard used exactly when there are four files |
| `WindowsDurations.MedianIsMiddle` | scripts/windows_test_shards.py:71-73 | the fallback is the median of the recorded durations per test: half the sum of the two of middle rank, counted over the recorded rows |
| `WindowsDurations.MiddleIsOne` | scripts/windows_test_shards.py:71-73 | there is one such median |
| `WindowsDurations.WeightMeans` | scripts/windows_test_shards.py:74-81 | a file's weight is its row's recorded time per test, or the fallback, times the tests it has now, and at least a thousandth; it has none exactly if its row counts no tests |
| `WindowsDurations.WeightIsOne` | scripts/windows_test_shards.py:74-81 | there is one such weight, and it is positive |
| `WindowsPartition.GroupSerial` | scripts/windows_test_shards.py:57-65 | forms all serial groups exactly when each is nonempty with every selector alive and none overlap |
| `WindowsPartition.ByFile` | scripts/windows_test_shards.py:66-69 | every remaining node under its own file, in order |
| `WindowsPartition.Weigh` | scripts/windows_test_shards.py:74-81 | a weight for every file, as its recorded row or the fallback gives it, unless a recorded row counts no tests |
| `WindowsPartition.Deal` | scripts/windows_test_shards.py:82-87 | each file to one shard, with no assignment more than a fifth better |
| `WindowsPartition.GroupShards` | scripts/windows_test_shards.py:88-95 | a group per shard, unless one has no file |
| `WindowsPartition.NodesOfAllOnce` | scripts/windows_test_shards.py:93 | distinct files together hold each of their nodes once |
| `WindowsPartition.PlacedIsPermutation` | scripts/windows_test_shards.py:84-87 | the shards' lists together are a permutation of the files |
| `WindowsPartition.PlanIsValid` | scripts/windows_test_shards.py:96-98 | whatever the durations, a plan that deals out the remaining files passes the validator |
| `WindowsPartition.Partition` | scripts/windows_test_shards.py:51-98 | succeeds exactly when its inputs allow: unique nodes, serial groups alive and apart, some row with tests and time, no file's row without tests, four files; the plan is valid, deals heaviest first and within 5/4 of the best, by weights that are the recorded times per test, or their median, times the tests |
| `WindowsPartition.SerialGroupsSelectApart` | scripts/windows_test_shards.py:18-43 | no test, whatever is collected, belongs to two of the program's serial groups |
| `WindowsPartition.PartitionTests` | scripts/windows_test_shards.py:18-98 | so with those groups it succeeds exactly for unique tests, every serial selector alive, some row with tests and time, no file's row without tests, and four files |
| `WindowsPartition.ShardedIsRemaining` | scripts/windows_test_shards.py:66-95 | whatever the durations, a test is in a shard exactly when no serial group has it |
| `WindowsPartition.FilesStayTogether` | scripts/windows_test_shards.py:66-95 | however files are dealt, the tests of a file are in one shard together |
| `WindowsPartition.CostsNeverChangeCoverage` | scripts/windows_test_shards.py:51-98 | partitions of one collection from two histories have the same serial groups and the same files to deal, shard the same tests and keep files whole: durations decide only the shard of each file |
| `WindowsResults.VerifyResults` | scripts/windows_test_shards.py:213-228 | accepts exactly complete receipts of a valid plan, and its closing count then never refuses |
| `WindowsResults.FinishedOnce` | scripts/windows_test_shards.py:213-228 | then every collected test finished in exactly one group's run, once |
| `SweepOverlap.Overlap` | scripts/measure_subchat_research.py:229-237 | equals the length of time covered by at least two intervals, read off any cuts at their ends |
| `SweepOverlap.DepthIsSteady` | scripts/measure_subchat_research.py:229-237 | between neighbouring cuts the number of covering intervals does not change |
| `SweepOverlap.EndpointsAreCuts` | scripts/measure_subchat_research.py:230 | the starts and ends are such cuts |
| `SweepOverlap.SweptIsTwiceCovered` | scripts/measure_subchat_research.py:232-236 | the sweep and the cuts agree, ties and zero-length intervals included |
| `SweepOverlap.OrderIsIrrelevant` | scripts/measure_subchat_research.py:229-237 | the order of the intervals does not matter |
| `BoundedLines.BoundedFrames` | src/anywhere_computer/bounded_mcp_stdio.py:26-49 | frames and outcome are those of the whole stream split on newlines; the buffer stays within the limit plus one chunk |
| `BoundedLines.Frames` | src/anywhere_computer/bounded_mcp_stdio.py:16-49 | as the program runs it: frames of at most 8 MiB, never holding more than that and one read |
| `BoundedLines.CutsAreIrrelevant` | src/anywhere_computer/bounded_mcp_stdio.py:31-49 | however a stream is cut into nonempty chunks, frames and outcome are the same |
| `BoundedLines.JoinedFramesComeBack` | src/anywhere_computer/bounded_mcp_stdio.py:43-47 | lines within the limit, written out and framed again, come back whole |
| `BoundedLines.SplitAccounts` | src/anywhere_computer/bounded_mcp_stdio.py:34-49 | frames and rest are the stream: clean end, inside a frame, or longer than the limit, each exactly when the rest says so |
| `Utf8.EncodedTextDecodes` | src/anywhere_computer/codex_context.py:134-138 | decoding undoes encoding |
| `Utf8.CutDecodesToLongestFit` | src/anywhere_computer/codex_context.py:138 | bytes cut at a limit decode to the longest prefix of whole characters that fits |
| `CodexContext.TruncationKeepsMost` | src/anywhere_computer/codex_context.py:134-138 | truncation keeps the longest prefix that fits and is reported exactly when the text does not |
| `CodexContext.MessageText` | src/anywhere_computer/codex_context.py:141-154 | the direct text, or else the texts of the text parts joined |
| `CodexContext.PartsFollow` | src/anywhere_computer/codex_context.py:141-154 | a further part of a text kind adds its text at the end, and any other part nothing |
| `CodexContext.MessagesFollowItems` | src/anywhere_computer/codex_context.py:221-254 | a further item adds its message at the end, with its role, text and first 128 characters of its id, exactly if it is of the user or the agent, not analysis, and has a text |
| `CodexContext.ReadThread` | src/anywhere_computer/codex_context.py:221-261 | what is collected of the eligible messages, in order |
| `CodexContext.CollectAccounts` | src/anywhere_computer/codex_context.py:221-261 | at most 65536 bytes and 1000 messages, a prefix with only the last cut, nothing left out without a reason; truncated exactly when something is missing or a thousand were returned |
| `CodexContext.EncodableThreadIsRead` | src/anywhere_computer/codex_context.py:135 | reading fails only over a text without an encoding |
| `CodexContext.UntruncatedIsComplete` | src/anywhere_computer/codex_context.py:256-264 | without the flag everything eligible was returned, whole |
| `CodexContext.FlagExactly` | src/anywhere_computer/codex_context.py:221-261 | of encodable texts: the flag is set exactly when they exceed the bytes or reach a thousand, and everything is returned exactly when they exceed neither |
| `CodexContext.ThreadFlag` | src/anywhere_computer/codex_context.py:221-261 | the same of a thread whose messages all have encodings, and the flag is set over a complete answer exactly when a thousand messages fit |
| `CodexContext.ThousandReportedTruncated` | src/anywhere_computer/codex_context.py:256-257 | a thousand one-letter messages come back whole and are reported as truncated |
| `CodexContext.ReadingFailsExactly` | src/anywhere_computer/codex_context.py:135-239 | reading fails exactly at the first text without an encoding, if it is reached with bytes and count to spare |
| `BrowserTab.TabEntry.OnDocumentChanged` | src/anywhere_computer/browser_control.py:421-431 | a main navigation ends the snapshot; a child's change counts, and ends a snapshot taken of it |
| `BrowserTab.TabEntry.RenewFrames` | src/anywhere_computer/browser_control.py:441-452 | renames at most 32 attached frames, keeping ids that frames had |
| `BrowserTab.TabEntry.Begin` | src/anywhere_computer/browser_control.py:1258-1264 | notes scope and revisions before the first await, and renews the frames |
| `BrowserTab.TabEntry.End` | src/anywhere_computer/browser_control.py:1318-1324 | issues a fresh id only if nothing the observation depends on has changed |
| `BrowserTab.TabEntry.CheckAndDispatch` | src/anywhere_computer/browser_control.py:919-929 | the last check and the end of the snapshot, in one step |
| `BrowserTab.TabEntry.OnDialog` | src/anywhere_computer/browser_control.py:614-624 | a new dialog takes the place of the last and ends the snapshot |
| `BrowserTab.TabEntry.HandleDialog` | src/anywhere_computer/browser_control.py:699-715 | claims a pending dialog once |
| `BrowserTab.TabEntry.DialogGone` | src/anywhere_computer/browser_control.py:724-728 | a claimed dialog confirmed gone is forgotten unless another took its place |
| `BrowserRuns.IdentifiedRows` | src/anywhere_computer/browser_control.py:441-447 | each renewed row has its frame's former id or a fresh one, and ids and frames stay one to one |
| `BrowserRuns.NamesRenewed` | src/anywhere_computer/browser_control.py:441-447 | an id once issued names the same frame or none, and never comes back |
| `BrowserRuns.EndSound` | src/anywhere_computer/browser_control.py:1318-1320 | an observation completes exactly if neither the main frame nor the observed one changed since it began and the latter is there |
| `BrowserRuns.StepKeepsWorld` | src/anywhere_computer/browser_control.py:421-1324 | every page event, observation, action and dialog step keeps the invariant, in any interleaving |
| `BrowserRuns.PassedOnceClaimedOnce` | src/anywhere_computer/browser_control.py:699-983 | each snapshot id passes at most one action, and each dialog is responded to at most once |
| `BrowserRuns.PassedMeansUndisturbed` | src/anywhere_computer/browser_control.py:919-983 | an id that passes is new to actions, at most a minute old and on the address it was taken at; no main navigation and no navigation or detach of its frame has occurred since its observation began |
| `BrowserRuns.UndisturbedObservationPasses` | src/anywhere_computer/browser_control.py:919-1324 | an undisturbed observation licenses its action, over every run in which its frame and the main one keep their documents and nothing ends the snapshot: the action passes exactly within the minute and if the frame was among the listed ones |
| `BrowserAnswers.ActionPassesExactly` | src/anywhere_computer/browser_control.py:919-929 | in every run an action passes exactly if its id names a frame that is there and its snapshot, if it has one, is current, at most a minute old, of that id and of the address shown; passing ends the snapshot |
| `BrowserAnswers.ObservationCompletesExactly` | src/anywhere_computer/browser_control.py:1318-1324 | in every run an observation gets a new snapshot exactly if neither the main frame nor its own has changed since it began and its own is there |
| `BrowserAnswers.FramesAreListed` | src/anywhere_computer/browser_control.py:441-452 | an observation lists the first 32 child frames in order; a frame listed before keeps its id |
| `BrowserAnswers.EndedSnapshotNeverPasses` | src/anywhere_computer/browser_control.py:421-929 | a snapshot ended by a navigation, a detached frame, an action, a dialog shown or claimed or a reset never passes again |
| `BrowserAnswers.ShownDialogIsClaimedOnce` | src/anywhere_computer/browser_control.py:614-728 | a dialog that was shown is claimed by the first response that fits it, until another is shown or the page closes; a second response is told so, and other ids are unavailable |
| `EventRing.History.Append` | src/anywhere_computer/browser_control.py:377-384 | records under the next id and keeps the last hundred |
| `EventRing.History.Get` | src/anywhere_computer/browser_control.py:822-834 | the events after an id, at most the limit, the id to go on from, and whether earlier ones are gone |
| `EventRing.FollowingSeesInOrder` | src/anywhere_computer/browser_control.py:822-848 | following next_id sees strictly rising ids with their own data, and some poll reported truncation exactly if an event up to the cursor was never delivered |
| `EventRing.TruncatedMeansLost` | src/anywhere_computer/browser_control.py:827-834 | a poll reports truncation exactly when an event after its id is no longer kept |
| `EventRing.PollExactly` | src/anywhere_computer/browser_control.py:822-834 | a poll delivers the oldest kept events after its id, all of them up to its limit |
| `EventRing.PollingCatchesUp` | src/anywhere_computer/browser_control.py:822-848 | in every run a further poll brings something new until there is nothing, and one with limit enough brings a client up to date |
| `Collections.SortSorts` | scripts/windows_test_shards.py:84 | the sort used here is an ordered permutation |

## Left out

- LeasedElementIsFound: of an element visited after a node did harm it is stated only that it is not reported absent; whether it is found depends on everything below that node.
- UniqueIsConfirmed: of a graph with exactly as many elements as the scan may visit it is not stated whether a unique match is confirmed; that depends on whether an element is still queued twice.
- InstallSafeIffUnsent: its condition is the record of what was sent, which the program does not keep; that a login is installed once, which a caller can see, is sufficient and not necessary.
- ReinstallRevokes: gives one run; runs that install a login again before its token is sent are harmless and covered by GrantProtocol.NeverSentTwice.
- WindowsAllocation.Allocate: the rounded estimate that the plan prints per shard is not part of the plan here.
- Tables, the credential vault, file locks and process locks: transactions are atomic, locks exclude, and a failed vault write leaves the old or the new record.
- Secrets, digests, PKCE and passkeys: secrets are fresh, digests injective, verification an outcome from outside; clocks are parameters.
- Limits on the length of presented codes and tokens: an overlong one matches no stored secret, so the lookup refuses it as well.
- Migration of stores written by earlier versions.
- URL parsing: a callback is malformed, exact, or a loopback address split at its port.
- HTML pages, headers, cookies' attributes, redirects and error texts; registration of passkeys and the two password slots, whose exhaustion is the outcome Busy.
- HTTP, the MCP SDK, Playwright, Accessibility and ScreenCaptureKit calls: their results are the events and parameters of the models.
- Failing or changing accessibility reads during one traversal, and elements recycled meanwhile: the element graph is fixed while it is walked.
- Window handles, screenshots and the values written by a mutation; the checks made on the found element before an effect are one condition, that of its process included, and what a selector describes is a set of elements.
- Session and tab registries, page text, images, downloads and uploads of the browser control.
- Collection and execution of the Windows tests, and the sums of times that the release gate reports.
- The summary, counter and identity checks of the research measurement, which are one-line comparisons.
- Floating-point rounding: loads, times and deadlines are real numbers.
