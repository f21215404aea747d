# Verification of the Aevra engines

This project models the parts of the repository that hold its hardest state, and proves what each
is for. Every file is one component and one Dafny module.

- **Journaled install and uninstall** (`UndoLog`, `IntegrationState`, `IntegrationSteps`,
  `IntegrationOthers`, `IntegrationPlan`, `Integration`). An operation edits several files, skill links, a manifest and
  issued credentials. Before each durable effect the environment gets a turn: other programs may
  edit files and links, the call may fail, or the process may die. The environment is a script
  fixed in advance, so what it edits in a stretch of time (`Touched`), and what it alone makes of a
  text (`Alone`), does not depend on the program. `UndoLog` is the log as a value;
  `IntegrationState` and `IntegrationSteps` are the invariants and what one effect does to them;
  `IntegrationOthers` says what it means to spare the edits of others; `IntegrationPlan` says what
  a request asks for; the class in `Integration` runs the operation, the in-process rollback and
  the recovery. A credential
  is lost when it was created and the process ended or failed before its id was saved.
- **Integration lock** (`Lock`): a state machine with one step for each system call.
- **Managed TOML block** (`TomlBlock`, over `Strings`) and **state purge** (`Purge`).
- **Server-sent event body** (`Sse`, over `Strings`).
- **Accessibility walk and handles** (`Walk`, `Handles`). The tree is three functions, so it may
  be infinite.
- **Desktop grant** (`Grants`): a state machine and the three classes that implement it.
- **Input** (`InputTrace`, `Input`, `PortableKeys`, `Portable`): traces of presses and releases
  under a sink that may accept any part of a batch and a guard that may refuse at any time.
- **GNOME companion** (`Gnome`), **capture arithmetic** (`Capture`, `Base64`), and the
  **extension connection** (`Rpc`).

## Where the code does less than its description

- Lock exclusion does not hold without conditions. `Lock.ThirdContenderBreaksExclusion` and
  `Lock.UnreadableLockBreaksExclusion` are runs with two holders;
  `Lock.TwoHoldersNeedADisplacement` and `Lock.TwoContendersExclude` say when there is exclusion.
- Removing a TOML block does not always give the text back. `TomlBlock.RoundTripExactly` gives the
  exact condition for the edit: the failing texts have a CRLF after another CR, a CR at the end, or
  a last line that is a marker without its newline. The first two only concern a parser that takes
  a CR without an LF, which TOML v1.0.0 does not allow; `TomlBlock.ConfigRoundTrip` says what is
  left with the parses around the edit, and `TomlBlock.MarkerLineIsLost` is an input that fails.
- A handle that is out of date never resolves only until the 64-bit generation wraps around
  (`Handles.HandleTable.BeginGeneration`).
- The 32-bit sums of the downscale would overflow for caps of one and two;
  `Capture.SumsFitExactly` shows that three is where they start to be enough.
- The event stream format takes a lone CR as a line end as well (section 9.2.5 of the WHATWG HTML
  standard); the code folds only CRLF. `Strings.FoldsAgree` shows that the two agree exactly on texts
  without a lone CR, and `Sse.LoneReturnsHideAnEvent` gives texts where an event is missed.

## Model

| member | source | states |
|---|---|---|
| `UndoLog.RecoveryRestoresFiles` | packages/agent-integration/src/journal.ts:213-222 | Whatever prefix of the journaled writes was applied, and however many recoveries were cut short at any entry, a recovery that runs to its end leaves every file nobody else touched exactly as before, also when a file was written several times and texts repeat |
| `UndoLog.UndoStaysWithin` | packages/agent-integration/src/journal.ts:217-222 | While the log is being undone, a file always holds one of the texts it went through, so a later recovery can still recognise it |
| `UndoLog.UndoOneStepsBack` | packages/agent-integration/src/journal.ts:217-222 | Undoing the newest entry leaves every file at a text it had before that entry |
| `UndoLog.UnrecordedTextStays` | packages/agent-integration/src/journal.ts:213-222 | A file holding a text the journal did not record is not touched by a recovery |
| `UndoLog.UnrecordedTextAlwaysStays` | packages/agent-integration/src/journal.ts:213-222 | Nor by any number of recoveries, interrupted or not |
| `UndoLog.WriteExtendsLog` | packages/agent-integration/src/manage.ts:106-110 | A journaled write that starts from the current text keeps the log chained, and the files in step with it before and after the write is applied |
| `UndoLog.WithoutDropsOneId` | packages/agent-integration/src/manage.ts:209-211 | Dropping a registration takes exactly its own credential out of the manifest |
| `IntegrationState.ManifestIsKnown` | packages/agent-integration/src/manage.ts:246 | While a journal is pending and not committed, the manifest on disk names only credentials that were there before or are recorded as issued, and all of them are live |
| `IntegrationState.ManifestNamesOnlyLiveCredentials` | packages/agent-integration/src/manage.ts:246-258 | In every consistent state, a journal pending or not, the manifest names no revoked credential; with no journal pending every live credential is named by it or counts as lost (how many can be lost is stated by `ManageAgent` and `AnyHistory`) |
| `IntegrationState.DriftKeepsConsistent` | packages/agent-integration/src/files.ts:27-38 | Other programs editing any files and links but the manifest break none of this; the paths they touched are the only exceptions afterwards |
| `IntegrationSteps.ApplyWrite` | packages/agent-integration/src/manage.ts:106-110 | Applying the write that was journaled first keeps the state before the operation recoverable |
| `IntegrationSteps.CreateCredential` | packages/agent-integration/src/manage.ts:187-190 | A credential created but not yet recorded counts as lost, so nothing that is named or recorded is missing from the live set |
| `IntegrationSteps.UndoWrite` | packages/agent-integration/src/journal.ts:217-222 | Taking one entry back, manifest entries included, keeps the operation in a state that recovery can start from again |
| `IntegrationSteps.TakeLinkBack` | packages/agent-integration/src/journal.ts:223-224 | Taking a created link back only if it is still ours leaves one link less to restore |
| `IntegrationSteps.PutLinkBack` | packages/agent-integration/src/journal.ts:225-226 | Making a removed link again only if it is missing leaves one link less to restore |
| `IntegrationSteps.RevokeOne` | packages/agent-integration/src/journal.ts:227-232 | Once the manifest is back as it was, revoking an issued id leaves everything the manifest names live |
| `IntegrationSteps.RetireOne` | packages/agent-integration/src/manage.ts:240-243 | Moving a registration from the manifest to the retired list keeps both lists disjoint and loses no credential |
| `IntegrationSteps.RegisterOne` | packages/agent-integration/src/manage.ts:212-224 | Registering a fresh credential keeps keys and credentials distinct and every known id accounted for |
| `IntegrationSteps.CommitIsConsistent` | packages/agent-integration/src/manage.ts:246-257 | At the commit point the live credentials are those of the new manifest, the retired ones and the lost ones, so that recovery may finish and need not undo |
| `IntegrationSteps.ForgetFinished` | packages/agent-integration/src/journal.ts:209-211 | Dropping the journal of a finished operation leaves exactly the manifest's credentials and the lost ones live |
| `IntegrationOthers.SparesJoin` | packages/agent-integration/src/files.ts:27-51 | Sparing what others left is transitive: over any stretch of effects a file differs from what others alone make of it only where they left it with a recognised text, and a link only where it is a listed one and not somebody else's |
| `IntegrationOthers.WriteSpares` | packages/agent-integration/src/files.ts:27-38 | A compare-and-swap write replaces the text it expects and no other, whatever others did before |
| `IntegrationOthers.SparedUntouched` | packages/agent-integration/src/journal.ts:213-226 | So a file that nobody edits meanwhile changes only from a recognised text, and a link of somebody else's never |
| `Integration.Installer.Write` | packages/agent-integration/src/manage.ts:106-110 | A journaled write ends applied, or leaves a state the journal can take back; nothing but that file changes, and it only from the text that was expected, whoever left it; in everything else what others left stays |
| `Integration.Installer.WriteEntry` | packages/agent-integration/src/manage.ts:112-125 | An edit of a shared file is the editor's result on what this operation last wrote to it, else on the planned text, and is the newest write; a text that others left instead is not replaced |
| `IntegrationPlan.LastWriteIsLatest` | packages/agent-integration/src/manage.ts:112-113 | The last text written to a file in memory is the text the journal says the file ends with |
| `IntegrationPlan.RefreshKeepsIds` | packages/agent-integration/src/manage.ts:165-184 | A refresh changes no key, no credential, no credential file and no other registration; its own gets the new hash and links |
| `IntegrationPlan.OnlyNotedChanged` | packages/agent-integration/src/manage.ts:106-163 | Whatever an operation did, the files and links that differ from before are those of its items, its own two files and new credential files |
| `IntegrationPlan.OneMoreDone` | packages/agent-integration/src/manage.ts:112-125 | One more item leaves the earlier ones done: each config holds the edits, in order, of the items done so far that share it, each credential file the text its registration has the hash of, and over any text that was replaced there are exactly the edits since |
| `IntegrationPlan.HeldLasts` | packages/agent-integration/src/files.ts:27-38 | A config that holds the edits of some last items over the text others left keeps doing so through later edits of others |
| `IntegrationPlan.ItemKeptByFinish` | packages/agent-integration/src/journal.ts:195-211 | Finishing an operation removes no credential file that a registration has now |
| `IntegrationPlan.RetiredAsNoted` | packages/agent-integration/src/manage.ts:250-257 | The journal that is committed retires the credential of every registration replaced or removed, and only files of those, none of which a registration has now |
| `IntegrationPlan.FinishedIsEffected` | packages/agent-integration/src/journal.ts:195-211 | Finishing a committed operation gives what was asked for: every item carried out over the old manifest and configs, every other registration, file and link as before, and the credentials given up not live |
| `Integration.Installer.RevertFiles` | packages/agent-integration/src/files.ts:45-51 | Taking the writes back, newest first, ends with every file as before the operation, except those the environment edited since it began; those change only from a text the log recorded |
| `Integration.Installer.RevertLinks` | packages/agent-integration/src/journal.ts:223-226 | Taking the links back ends with every link as before the operation, with the same exception; a link that is somebody else's is never touched |
| `Integration.Installer.Rollback` | packages/agent-integration/src/manage.ts:259-280 | The in-process rollback forgets the journal only when files and links are as before and no credential the operation was given is live, and until then the journal stays as it is; what others left changes only from a text the operation wrote |
| `Integration.Installer.UndoPending` | packages/agent-integration/src/journal.ts:213-237 | An uncommitted journal is forgotten only when files and links are as before and every credential it recorded as issued is revoked; no credential is lost by it; a file others left with a text the journal did not record, or a link that is not ours, is left alone |
| `Integration.Installer.RemoveIfUnchanged` | packages/agent-integration/src/journal.ts:173-176 | A retired file goes only while it still holds the retired text, also where others edited it, and no other file changes |
| `Integration.Installer.FinishPending` | packages/agent-integration/src/journal.ts:195-211 | A committed journal is finished: forgotten only when every retired credential is revoked and every file to clean up is gone or edited by the environment; everything else, and every registration, stays as committed, and what others left goes only if it is the text to remove |
| `Integration.Installer.RecoverJournal` | packages/agent-integration/src/journal.ts:178-238 | Recovery undoes or finishes, revoking what was issued or retired, and a recovery that fails or dies leaves the journal in place for the next one; it loses no credential and changes what others left only from texts the journal recorded |
| `Integration.Installer.RecoverAgain` | packages/agent-integration/src/journal.ts:178-238 | Any number of recoveries, each cut short anywhere: once the journal is gone all is as before with every issued credential revoked, or as committed with every retired one revoked if the operation had committed; over all of them together, what others left changes only from texts and links the journal recorded |
| `Integration.Installer.LinkMissing` | packages/agent-integration/src/manage.ts:158-163 | Every link was made or was there before, except where the environment edited it; each is journaled before it is made, no file changes, and a link of somebody else's stays |
| `Integration.Installer.UnlinkOwned` | packages/agent-integration/src/manage.ts:234-239 | Every link was removed or was not ours before, except where the environment edited it; each is journaled before it is removed, no file changes, and a link that is not ours any more stays |
| `Integration.Installer.Issue` | packages/agent-integration/src/manage.ts:186-190 | A created credential is recorded in the journal; only if creating it or saving its id is cut short it is lost, it is then the newest, and the journal still has its label |
| `Integration.Installer.RefreshOne` | packages/agent-integration/src/manage.ts:165-184 | A refresh writes the new entry over the config and the new secret over the credential file as far as there are any, gives the registration its hash and links, keeps its credential, leaves all others alone, and loses no credential |
| `Integration.Installer.RegisterNew` | packages/agent-integration/src/manage.ts:185-224 | The item ends registered as asked, with the scope, the links, a credential the old manifest did not name and a new credential file that was written with the text the registration has the hash of; its config was edited to name them; its old registration is retired; all others stay, and the credentials stay in balance |
| `Integration.Installer.UninstallOne` | packages/agent-integration/src/manage.ts:227-244 | The item ends unregistered, its entry edited out of the config unless it is retained, its old registration retired and its links removed unless they were not ours; all others stay |
| `Integration.Installer.InstallOne` | packages/agent-integration/src/manage.ts:157-225 | An installed item ends with its links made, its config and credential file written, and its registration refreshed, made anew, or left as it was |
| `Integration.Installer.ApplyOne` | packages/agent-integration/src/manage.ts:157-245 | What was done for the earlier items lasts while the next one is applied, in the manifest, in shared configs and in credential files |
| `Integration.Installer.AllDoneIsEffected` | packages/agent-integration/src/manage.ts:246-257 | What the operation noted in memory for every item, and for nobody else, is so in the manifest, the configs, the credential files and the links |
| `Integration.Installer.AllHeld` | packages/agent-integration/src/manage.ts:106-125 | At the manifest write every config, edited by others meanwhile or not, holds the edits of some last items over exactly the text others left |
| `Integration.Installer.Commit` | packages/agent-integration/src/manage.ts:128-258 | The commit ends under a committed journal that promises the request: its items carried out over the old manifest and configs, everything else as before, and every credential given up retired; or in a state that can be rolled back, with at most the newest credential lost |
| `Integration.Installer.CleanupCommitted` | packages/agent-integration/src/manage-finish.ts:20-48 | Best-effort cleanup removes only retired credential files and the skill file that still hold the text to remove, also where others edited them, and a manifest without registrations; it never fails the operation |
| `Integration.Installer.RevokeRetired` | packages/agent-integration/src/manage-finish.ts:52-62 | If it reports no failure, no retired credential is live |
| `Integration.Installer.FinishCommitted` | packages/agent-integration/src/manage.ts:284-295 | After the commit point the journal is forgotten only when no retired credential is live; registrations stay as committed, nothing is rolled back, and what others left goes only if it is a text to remove |
| `Integration.Installer.ManageAgent` | packages/agent-integration/src/manage.ts:281-303 | One whole install or uninstall, with a crash, failure or foreign edit possible before every effect. It begins only once an older journal is gone, over what that one left. On success the request is fulfilled: registrations as asked over the manifest there was, every config the items' edits in order over what was there, every credential file the text its registration has the hash of, links made or gone, every other registration, file and link as it was, what it replaced or removed not live, nothing lost. If it fails with no journal left, all is as it began; a committed journal it leaves promises the rest. Whatever happens, what is none of its business is exactly as others alone leave it, and at most the newest credential is lost |
| `Integration.Installer.OperateAndRecover` | packages/agent-integration/src/manage.ts:281-303 | Crash atomicity: an operation cut short anywhere, followed by any number of recoveries cut short anywhere: once no journal is pending, either files, links and manifest are as at the start, except what the environment edited, with at most the newest credential live besides, or the request is fulfilled in full, with no edit of others to a config replaced unread. At every point, journal or not, what is none of its business is exactly as others alone leave it |
| `Integration.Installer.AnyHistory` | packages/agent-integration/src/manage.ts:281-303 | Over any sequence of such operations the manifest never names a revoked credential, and with no journal pending the live credentials are those it names and the lost ones, at most one for each operation that did not succeed |
| `Lock.TwoHoldersNeedADisplacement` | packages/agent-integration/src/lock.ts:60-108 | For any number of processes and any interleaving of system calls and deaths, two live processes hold the lock together only if an earlier takeover moved a live owner's file aside |
| `Lock.StepStaysUndisturbed` | packages/agent-integration/src/lock.ts:60-108 | Every step but such a displacement keeps the lock file with its live owner |
| `Lock.TwoContendersExclude` | packages/agent-integration/src/lock.ts:60-108 | Two contenders never hold the lock together, displacement or not, unless one of them judged a lock by age because it could not read it |
| `Lock.StepStaysPaired` | packages/agent-integration/src/lock.ts:90-108 | A file moved aside from a live owner is put back by the other contender |
| `Lock.UnreadableLockBreaksExclusion` | packages/agent-integration/src/lock.ts:38-50 | A run of two processes that both hold the lock: an empty leftover equals the empty file of a new owner, so the new owner's file is not put back |
| `Lock.ThirdContenderBreaksExclusion` | packages/agent-integration/src/lock.ts:90-108 | A run of three processes with two holders: the third opens the lock between a rename and the put-back |
| `Walk.DescribeTree` | helper/src/uia.rs:270-352 | The walk stores and returns the first `maxNodes` eligible elements among the first visit-budget elements in level order, each with its handle and its data, and reports truncation exactly when an eligible one was dropped or an element was never looked at; it ends on endless trees |
| `Walk.VisitAll` | helper/src/uia.rs:289-349 | The loop visits exactly a prefix of the level order and stops early only at an eligible element it has no place for |
| `Walk.Consider` | helper/src/uia.rs:304-321 | An element is listed if it is eligible and there is a place; it is dropped exactly when eligible with all places taken |
| `Walk.EnqueueKids` | helper/src/uia.rs:323-348 | The children queued are the first ones the visit budget has room for, and the queue reports full exactly when there is one more |
| `Walk.OneMoreVisited` | helper/src/uia.rs:327-348 | Queueing the children of one more element leaves the queue the next stretch of the level order, cut at the visit budget |
| `Walk.UnseenElement` | helper/src/uia.rs:333-342 | An element was never looked at exactly when the uncapped level order is longer than the budget |
| `Walk.LevelOrderIsOneEnumeration` | helper/src/uia.rs:287-349 | Level order does not depend on how far it is listed: every shorter list is a prefix |
| `Walk.LevelOrderGoesDownward` | helper/src/uia.rs:323-343 | It goes downward level by level and never below the depth limit |
| `Walk.DroppedElement` | helper/src/uia.rs:305-308 | The walk that stops for lack of places has listed exactly the first eligible elements |
| `Handles.HandleResolvesOnlyInItsGeneration` | helper/src/handles.rs:60-68 | A printed handle resolves to the element under its index in its own generation and to nothing in any other, also where its index is in range |
| `Handles.ParseUndoesDecimal` | helper/src/handles.rs:51-66 | Parsing a printed number gives it back, up to the 64-bit limit |
| `Handles.HandleTable.EveryHandleResolvesToItsElement` | helper/src/handles.rs:54-68 | Until the 64-bit generation wraps around, every handle ever given out resolves to the very element stored with it while its generation is current, and to nothing afterwards |
| `Handles.HandleTable.Store` | helper/src/handles.rs:48-52 | The handle of a stored element resolves to it at once |
| `Handles.HandleTable.BeginGeneration` | helper/src/handles.rs:39-43 | A new generation forgets the elements and keeps the record of handles given out sound, unless the generation wraps around after handles were given out, and exactly then not |
| `Grants.NonceIsSingleUse` | helper/wayland/kde/bridge.cpp:53-97 | Over any run with locks, config edits, disconnects, failing stores and restarts: a nonce that stopped being current never becomes current again |
| `Grants.OwnersArePeers` | helper/wayland/kde/bridge.cpp:43-52 | In every reachable state the owners are exactly the connected peers, and without a current grant there are none |
| `Grants.AuthorizedOpenedUnderCurrent` | helper/wayland/kde/bridge.cpp:159-173 | Every authorized owner was admitted, by an eligible open while the screen was not locked, under the nonce that is current now, and has been authorized ever since |
| `Grants.StepKeepsInv` | helper/wayland/kde/bridge.cpp:43-97 | The inductive invariant: a spent nonce the bridge still remembers is the consumed one, and everything current or spent is in the store |
| `Grants.SyncKeepsOwners` | helper/wayland/kde/bridge.cpp:78-96 | Reading the config again keeps an owner only under the nonce it had |
| `Grants.Policy.Grant` | helper/wayland/kde/policy.h:11-22 | A consumed nonce gives nothing; a new one takes over and drops the owners; an empty one revokes |
| `Grants.Policy.Revoke` | helper/wayland/kde/policy.h:23-28 | Revoking consumes the current nonce and drops the owners |
| `Grants.GrantStore.Accept` | helper/wayland/kde/grant_store.h:19-52 | A nonce is accepted only if it is unused, within the limit, and durably added |
| `Grants.Bridge.Sync` | helper/wayland/kde/bridge.cpp:53-97 | The method's steps on the policy, the store and the peers add up to the transition the run theorems are about |
| `Grants.Bridge.Open` | helper/wayland/kde/bridge.cpp:159-173 | Likewise for an open, which succeeds only for an authorized peer |
| `Grants.Bridge.Revoke` | helper/wayland/kde/bridge.cpp:48-52 | Likewise for a revocation of all peers |
| `Sse.Exchange` | packages/agent-integration/src/stdio-http.ts:117-140 | Unless some chunk leaves too much text waiting, the events are those of the CRLF-folded whole input, however it was cut into chunks, and events, blank lines, residue and held CR together are exactly that input |
| `Sse.FeedAll` | packages/agent-integration/src/stdio-http.ts:119-138 | The exchange is refused exactly when after some chunk the waiting text exceeds the limit in UTF-8 bytes |
| `Sse.Feed` | packages/agent-integration/src/stdio-http.ts:119-138 | One chunk takes exactly the events it completes |
| `Sse.BodyBuffer.Append` | packages/agent-integration/src/stdio-http.ts:43-53 | Folding only the new text with the held CR equals folding everything; the byte count stays the UTF-8 size of the text |
| `Sse.BodyBuffer.Take` | packages/agent-integration/src/stdio-http.ts:55-62 | The event taken is the first of the events left, and the byte count stays right |
| `Sse.BodyBuffer.TakeAll` | packages/agent-integration/src/stdio-http.ts:128-137 | Taking until none is left gives all complete events and leaves the rest |
| `Sse.SearchFromOneBack` | packages/agent-integration/src/stdio-http.ts:120-121 | Searching from one character back finds the leftmost blank line of the whole text |
| `Sse.FoldNextPiece` | packages/agent-integration/src/stdio-http.ts:43-53 | Folding piece by piece with the held CR equals folding the joined input |
| `Sse.CutConcat` | packages/agent-integration/src/stdio-http.ts:55-62 | Cutting events may go on from what an earlier cut left over |
| `Sse.CutsRebuild` | packages/agent-integration/src/stdio-http.ts:55-62 | The events with their blank lines and the residue are the whole text, and the residue has no blank line |
| `Sse.EventsOfSettled` | packages/agent-integration/src/stdio-http.ts:46-50 | A CR held back at the end completes no event |
| `Sse.EndOfStream` | packages/agent-integration/src/stdio-http.ts:139-140 | The last text completes no event; with it everything is accounted for |
| `Sse.LoneReturnsHideAnEvent` | packages/agent-integration/src/stdio-http.ts:43-53 | Two lines separated by two lone CRs: the format has the first as an event, the code keeps it in the residue |
| `Strings.FoldsAgree` | packages/agent-integration/src/stdio-http.ts:43-53 | Folding CRLF only gives what folding every line end of the format gives exactly for texts without a lone CR |
| `TomlBlock.RoundTripExactly` | packages/agent-integration/src/config-edit.ts:66-82 | The edit itself: for text without the product's markers, installing and removing gives back the normalised text with a final newline exactly when the text has no CRLF after another CR, does not end in a CR, and does not end in a marker that lacks its newline |
| `TomlBlock.ConfigRoundTrip` | packages/agent-integration/src/config-edit.ts:47-83 | The same with the parses before and after each edit: it succeeds exactly if those parse and the text is none of the three; with a parser that keeps to TOML only the marker without its newline is left of them |
| `TomlBlock.MarkerLineIsLost` | packages/agent-integration/src/config-edit.ts:66-76 | The file whose only line is `# BEGIN aevra managed MCP` without a newline: installing and removing leaves an empty file |
| `TomlBlock.EditRefines` | packages/agent-integration/src/config-edit.ts:66-82 | An edit of a file that is user text followed by installed blocks is the edit of that simple form: the markers never conflict and the result is normalised |
| `TomlBlock.AnyEdits` | packages/agent-integration/src/config-edit.ts:47-83 | Over any sequence of edits of both products, failing parses included, the file stays the text of its simple form |
| `TomlBlock.EditIsLocal` | packages/agent-integration/src/config-edit.ts:73-82 | An edit sets its own product's block and leaves the other's; the user's text at most gains a final newline |
| `TomlBlock.ReinstallIsTheLast` | packages/agent-integration/src/config-edit.ts:73-82 | Installing twice is installing the last block once |
| `TomlBlock.ClearedDrops` | packages/agent-integration/src/config-edit.ts:68-74 | Clearing a file with blocks of both products takes out exactly the product's own block |
| `TomlBlock.HasInJoin` | packages/agent-integration/src/config-edit.ts:66-70 | A marker cannot straddle a line end or the start of another marker |
| `Input.Guarded` | helper/src/input_guard.rs:12-61 | For chords, text, click and scroll, whatever guard and OS answer: every new effect had the guard's consent right before it, after a refusal only releases are tried, nothing stays down without a release having been tried, and the guard's own error is returned only if nothing new was accepted and the pointer did not move |
| `InputTrace.GovernedAppend` | helper/src/input_guard.rs:20-41 | A call answered as the guard says at that moment keeps every new effect of the trace under the guard's consent |
| `Input.AnyRunIsSafe` | helper/src/input_guard.rs:12-61 | Every trace an action can make is quiet after a refusal and leaves nothing held; a successful one was accepted whole |
| `InputTrace.ChordRunIsSafe` | helper/src/input.rs:169-227 | Completed chords followed by one that was cut off leave nothing held |
| `InputTrace.BracketHoldsNothing` | helper/src/input.rs:169-207 | Presses released in reverse leave nothing held, whatever part of them the OS refused |
| `InputTrace.ReleasedChord` | helper/src/input.rs:195-215 | Releasing the tried presses in reverse completes the chord or cuts it off with all of them released |
| `InputTrace.CutOffIsQuiet` | helper/src/input_guard.rs:20-41 | In a cut chord only the last press can have been refused |
| `Input.Session.Sink` | helper/src/input_guard.rs:20-41 | A call with a new effect goes to the OS exactly when the guard consents at that moment, and is refused with the guard's error otherwise; releases are never refused; what was accepted and refused is remembered truly |
| `Input.Session.Mover` | helper/src/input_guard.rs:42-49 | The pointer moves only with the guard's consent at that moment, and counts as an effect only when it happened |
| `Input.ReleaseGuard.Press` | helper/src/input.rs:182-190 | A press is registered for release before it is sent, accepted or not |
| `Input.ReleaseGuard.Drain` | helper/src/input.rs:195-215 | Each registered press gets exactly one release attempt, newest first, also after a failed one |
| `Input.SendChord` | helper/src/input.rs:218-225 | A chord ends completed and accepted whole, or cut at the press that was not accepted with every tried press released in reverse |
| `Input.SendChords` | helper/src/input.rs:217-227 | Chords are completed in order up to the first that fails, and nothing follows that one |
| `Input.SendBatches` | helper/src/input.rs:246-265 | Batches go out in order, each whole, up to the first that is cut short; a stranded press is released at once and nothing follows |
| `Input.SendText` | helper/src/input.rs:233-266 | Too long a text is refused with no call at all; any other is sent as the presses and releases of its units |
| `Input.TextIsTyped` | helper/src/input.rs:241-265 | On success the accepted events are exactly the press and release of every UTF-16 unit in order |
| `Input.TextCutShort` | helper/src/input.rs:246-263 | On failure a prefix of them was accepted, and if it ends in a press the release of that very unit is the next and last call |
| `Input.CutTextHoldsNothing` | helper/src/input.rs:251-262 | So a text cut anywhere leaves nothing held, because no batch splits a pair |
| `Input.ClickAt` | helper/src/input.rs:279-284 | A click that cannot move the pointer presses nothing; otherwise the button is pressed once and released once |
| `PortableKeys.CanonicalKeys` | helper/src/portable_contract.rs:112-167 | Parsed keys are canonical: written out and parsed again they are the same |
| `PortableKeys.EveryTokenCounts` | helper/src/portable_contract.rs:113-167 | A sequence parses exactly when every token is a chord of distinct modifiers and a supported key, token by token in order |
| `PortableKeys.ChordIsLowered` | helper/src/portable_contract.rs:116-123 | Every name of a parsed chord is in canonical form |
| `Portable.Act` | helper/src/portable_action.rs:14-64 | A request that is not valid as a whole makes no call and does not ask the guard; a valid one runs as its action says with a consent for each new effect, leaves nothing held, and reports an unknown outcome exactly when something was tried before it failed |
| `Portable.MalformedTokenIsRefused` | helper/src/portable_action.rs:31-48 | One malformed token anywhere in a key sequence refuses the request |
| `Portable.ScrollIsBounded` | helper/src/portable_action.rs:49-61 | Scroll steps go against the delta, at most a hundred of them, never further than asked for, and are none exactly below one tick |
| `Portable.PressAll` | helper/src/portable_contract.rs:187-195 | Each press has its own consent of the guard, given in turn, and pressing stops at the first refusal or failure |
| `Portable.ReleaseAll` | helper/src/portable_contract.rs:196-199 | Every tried press gets one release attempt, newest first, also after a failed one |
| `Portable.ExecuteChord` | helper/src/portable_contract.rs:185-207 | A chord ends completed, or cut off with all tried presses released; each press has its own consent |
| `Portable.ExecuteChords` | helper/src/portable_contract.rs:179-210 | Completed chords and at most one cut chord; every press of all of them has its own consent, given in turn, and after a refusal only releases are tried; the error is an unknown outcome exactly when some press was tried, and the guard's refusal otherwise |
| `Portable.ExecuteText` | helper/src/portable_contract.rs:216-229 | What was tried is a prefix of the text, each character under a consent of its own given in turn; the error is the guard's only when nothing was tried |
| `Portable.ExecuteClick` | helper/src/input_executor.rs:21-28 | The press and the release are both tried exactly if the move worked and the guard consented after it |
| `Portable.Execute` | helper/src/input_executor.rs:12-32 | Nothing happens when the guard refuses at the start, and its error is returned; any later failure with something tried is an unknown outcome; the guard is asked once to begin and once for each press or character, and a refusal is the last thing it is asked for |
| `Portable.NothingStaysHeld` | helper/src/input_executor.rs:12-32 | Whatever fails, no key and no button is left held |
| `Capture.SumsFitExactly` | helper/src/capture.rs:98-113 | The 32-bit sums are enough for every frame of at most 40,000,000 pixels exactly when the cap is at least three (the program uses 1024) |
| `Capture.InExactlyOneBox` | helper/src/capture.rs:128-135 | Every source column and row is in exactly one box |
| `Capture.BoxesTouch` | helper/src/capture.rs:128-135 | Consecutive boxes touch, none is empty, and the clamps change nothing |
| `Capture.BoxesConserveTheSum` | helper/src/capture.rs:92-110 | The box sums of a channel add up to its sum over the whole frame: every pixel is averaged exactly once |
| `Capture.EdgesShrink` | helper/src/capture.rs:123-126 | No edge grows or vanishes, and the longest becomes exactly the cap |
| `Capture.AverageIsBetween` | helper/src/capture.rs:111-113 | An average lies between the smallest and the largest value of its box |
| `Capture.PixelIsBetween` | helper/src/capture.rs:111-113 | So each channel of the pixel a box becomes lies between that channel's extremes in the box |
| `Capture.SumBox` | helper/src/capture.rs:98-108 | The loops over a box compute its three channel sums and its number of pixels |
| `Capture.DownscaleToMax` | helper/src/capture.rs:84-121 | A frame that fits comes back as it is; a larger one has the cap as its longest edge and at every position the averages of that box |
| `Base64.DecodeUndoesEncode` | helper/src/capture.rs:177-198 | The decoder of RFC 4648, section 4, inverts the encoding of every byte string |
| `Base64.EncodeUndoesDecode` | helper/src/capture.rs:177-198 | Every string that decoder takes, with zero padding bits, is the encoding of what it gives |
| `Base64.EncodeIsInjective` | helper/src/capture.rs:177-198 | Different byte strings have different encodings |
| `Base64.EncodedShape` | helper/src/capture.rs:186-195 | Four characters for every three bytes begun, with padding only at the very end and as much as is missing |
| `Base64.PackedFields` | helper/src/capture.rs:180-195 | The shifts and masks of the packed value are the four 6-bit fields |
| `Base64.ToBase64` | helper/src/capture.rs:177-198 | The loop over chunks computes that encoding |
| `Gnome.DesktopAccess.HandleInput` | helper/wayland/gnome/extension.js:178-252 | A release of a held input is always done and is told to the device; anything else needs access, an unlocked session and the focused target, a key or text also a free keyboard and no secret field, a pointer call a hit inside the target; otherwise nothing changes; afterwards the held inputs are exactly those last pressed |
| `Gnome.DesktopAccess.SetAccess` | helper/wayland/gnome/extension.js:57-69 | After access is turned off or the session locks no input of any caller is down, nobody is open and no approval is left |
| `Gnome.DesktopAccess.Close` | helper/wayland/gnome/extension.js:70-86 | A caller that goes has everything it held released and nobody else's inputs touched |
| `Gnome.DesktopAccess.ReleaseAll` | helper/wayland/gnome/extension.js:73-76 | Every held key and the button of that peer are released, and no other peer's state changes |
| `Gnome.DesktopAccess.Open` | helper/wayland/gnome/extension.js:87-109 | Only an approved helper in an unlocked, enabled session opens, at most 32 at once; a new peer holds nothing |
| `Gnome.DesktopAccess.IsCallerAllowed` | helper/wayland/gnome/extension.js:110-141 | A caller is allowed only by an approval given while access was on |
| `Gnome.DesktopAccess.HandlePointer` | helper/wayland/gnome/extension.js:230-249 | A pointer call succeeds exactly when its point, the given one for a move and the current one otherwise, lies inside the target's rectangle where the target itself is hit, and a scroll is of at most a hundred steps; otherwise nothing is told to the device |
| `Gnome.DesktopAccess.Run` | helper/wayland/gnome/extension.js:41-47 | Over any sequence of toggles, locks, approvals, opens, disconnects and calls, only open callers hold anything, and none once access is off; whatever the devices were told is a release or was warranted by some call for the focused, unlocked target it was made for |
| `Gnome.EffectKeepsStep` | helper/wayland/gnome/extension.js:194-249 | A new effect changes the bookkeeping exactly as it changes what is down |
| `Gnome.ReleaseKeepsStep` | helper/wayland/gnome/extension.js:181-189 | So does a release |
| `Purge.StateFolder.Run` | packages/agent-integration/src/cleanup.ts:161-187 | The survivors are exactly the predating entries, the kept subtrees and the folders leading to a kept path that exists; `removed` says that nothing is left, `retained` lists the topmost survivors, and the purge fails exactly when the marker is missing or a kept path runs through a plain file |
| `Purge.StateFolder.Sweep` | packages/agent-integration/src/cleanup.ts:167-181 | What is left of a folder is what stays, and nothing outside it changes |
| `Purge.StateFolder.SweepEntry` | packages/agent-integration/src/cleanup.ts:168-180 | One entry is spared, kept, entered or removed with exactly what stays at and below it left |
| `Purge.StateFolder.EnterEntry` | packages/agent-integration/src/cleanup.ts:173-178 | A folder that leads to a kept path is dropped once nothing is left in it |
| `Purge.EmptyOrLeading` | packages/agent-integration/src/cleanup.ts:177-178 | A swept folder is empty exactly when no kept path below it exists |
| `Purge.StaysUp` | packages/agent-integration/src/cleanup.ts:168-180 | Nothing that stays loses a folder above it |
| `Rpc.ExtensionRpc.Run` | apps/extension/src/rpc.ts:93-289 | Any events in any order keep the invariant: the current socket was dialled in the current generation, authenticated implies a socket, connected or standby implies authenticated, a manual disconnect implies no socket and no reconnect timer, one attempt per generation and none beside a socket, backoff within its bounds |
| `Rpc.ExtensionRpc.OnReadDone` | apps/extension/src/rpc.ts:148-167 | A late pairing read changes nothing but its own task; a current one goes on, reports or gives up |
| `Rpc.ExtensionRpc.OnProbeDone` | apps/extension/src/rpc.ts:164-188 | A late probe result dials nothing and changes nothing; a current one dials, schedules a retry or gives up |
| `Rpc.ExtensionRpc.OnReceived` | apps/extension/src/rpc.ts:201-273 | A message from a superseded socket changes nothing; commands run only from the current, authenticated, active one |
| `Rpc.ExtensionRpc.OnClosed` | apps/extension/src/rpc.ts:204-218 | The close of a superseded socket changes nothing; an auth frame that was never answered asks to pair again instead of retrying |
| `Rpc.ExtensionRpc.OnOpened` | apps/extension/src/rpc.ts:190-200 | Only the current socket sends the auth frame |
| `Rpc.ExtensionRpc.OnConnect` | apps/extension/src/rpc.ts:134-145 | At most one attempt starts, and none beside a socket or a running attempt |
| `Rpc.ExtensionRpc.OnNewPairing` | apps/extension/src/rpc.ts:93-110 | A new pairing supersedes every attempt and socket and starts one attempt |
| `Rpc.ExtensionRpc.OnDisconnect` | apps/extension/src/rpc.ts:112-132 | A manual disconnect supersedes every attempt and leaves no socket, no timer and no authentication |
| `Rpc.ExtensionRpc.ScheduleReconnect` | apps/extension/src/rpc.ts:222-230 | A retry is scheduled once, never after a manual disconnect, and doubles the backoff up to its bound |
| `Rpc.ExtensionRpc.OnKeepaliveDue` | apps/extension/src/rpc.ts:274-289 | The keepalive runs only for the authenticated current socket and stops when it cannot send |
| `Rpc.AttemptEnds` | apps/extension/src/rpc.ts:165-167 | The end of a superseded attempt leaves the current one alone |

## Left out

- Integration.Installer.ManageAgent: assumes that nobody else edits the manifest, the journal or
  the credentials, that a hash has no collisions, that random file names and credential ids are
  new, and that revoking a credential twice is harmless. A dry run, a status call and an uninstall
  with nothing to do have no effects and are not modelled.
- Integration.Installer.WriteEntry: the editor of config files is any function here; `TomlBlock` is
  about the one for TOML.
- Integration.Installer.Rollback: a text of somebody else's that equals the one the operation wrote is
  taken for it, as in the code; a file in the way of a link is somebody else's link.
- Integration.Installer.Write: the comparison and the replacement of `writeAtomic` are one step;
  temporary files it leaves when it is interrupted are not modelled, nor is the link probe.
- Integration.Installer.Commit: the decisions of the planner (conflicts, refreshes, what is
  retained) are arbitrary inputs, and a refusal is one of the ways to fail.
- Integration.Installer.RecoverJournal: reading and removing a file is one step, and the checks
  that a journal names only expected paths are not modelled.
- Integration.Installer.CleanupCommitted: creating folders, removing empty ones, the git exclude
  and the notes are not modelled.
- Parsing and printing of JSON and TOML: a manifest is its own text, a TOML block is given, and
  `parses` is an arbitrary predicate. Edits of JSON configurations are not modelled.
- TomlBlock.EditRefines: requires what the TOML printer gives, a block without a CR and without a
  marker line.
- Lock.TwoContendersExclude: process ids are not reused and a file's age is an arbitrary answer;
  both are the operating system's.
- Purge.StateFolder.Run: says when the purge fails and not what is left of the tree then; symbolic
  links, which the program refuses, and case folding are not modelled.
- Sse.Exchange: bytes are already decoded to characters; which lines of an event carry data, and
  the message they are parsed to, are not modelled. The limit is stated per chunk, as the code
  checks it.
- Walk.DescribeTree: the tree does not change during the walk; the walk that keeps snapshots for
  background automation is not modelled.
- Handles.HandleTable.BeginGeneration: a build with overflow checks stops at the wrap-around
  instead; that is not modelled.
- Grants.Bridge.Sync: the trust checks of the config and store files are one answer each, and the
  build for test fixtures is not modelled.
- Grants.NonceIsSingleUse: assumes that nobody deletes or shortens the file of used nonces; a missing
  file reads as no used nonces.
- Grants.AuthorizedOpenedUnderCurrent: key bookkeeping of the KDE devices is not modelled.
- Input.Guarded: chords are given as keys; parsing their names on Windows is not modelled, and an
  unwinding panic is like any other failure.
- Portable.Act: the deadline that the guard checks is part of its arbitrary answer; resolving a
  key name is a given function.
- Capture.DownscaleToMax: the three bytes of a pixel are kept together, and its sums are unbounded;
  `Capture.SumsFitExactly` is about the 32-bit ones.
- Gnome.DesktopAccess.HandleInput: a peer's state is a value in the map; windows, focus, hit tests
  and D-Bus identities are inputs, virtual devices are a log, and window capture is not modelled.
- Rpc.ExtensionRpc.Run: safety only. After a disconnect during a probe nothing clears the probing
  flag until a new pairing, so no claim is made that the connection comes back. Error codes, the
  cancelled command ids, timestamps and the one warning per outage are not modelled.
- Real time: timers and delays fire whenever the environment lets them.
- The Linux and macOS tree walks, and everything behind an operating system or library call.
