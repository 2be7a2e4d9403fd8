# NodeWe: a model of the Control Plane and its edges

This project models the parts of NodeWe on which its guarantees rest, and proves those guarantees for all inputs and
for runs of any length, restarts included. What a result assumes of a run it says itself, and runs that meet everything
that is ever assumed exist (`EngineTheorems.OrdinaryRunsExist`, `Restarts.OrderlyRunsExist`).

| file | what it models |
|---|---|
| `Records.dfy`, `Text.dfy`, `Utf8.dfy`, `Numbers.dfy`, `Counting.dfy` | the store's records, and text, bytes, numbers and counting |
| `Engine.dfy` | each request handler as a decision on the store, the edits, and the backend's verdict: commit, or roll back |
| `ControlPlane.dfy` | the server as it works: vectors edited in place under the mutex, handler by handler, proved against `Engine.dfy` |
| `RequestLaws.dfy`, `LawfulRequests.dfy` | the law of each request, told in the records' own columns and in constants, without any function of the engine; and that every request obeys its law |
| `EngineOutcomes.dfy` | when each request succeeds, as one condition |
| `EngineRuns.dfy`, `EngineInvariants.dfy`, `EngineTheorems.dfy`, `EngineChanges.dfy` | runs of any requests; what every edit keeps; what holds over whole runs; which request each change goes back to |
| `AuditChain.dfy`, `AuditBinding.dfy`, `AuditExport.dfy`, `AuditOfRuns.dfy` | the hash chain and what it binds, the paged export and its shell re-check, over a log that grows |
| `Json.dfy`, `SnapshotLines.dfy`, `Snapshot.dfy`, `SnapshotIntegrity.dfy`, `SnapshotOfRuns.dfy` | the snapshot printer and parser, which snapshots a start refuses, and what one restart keeps |
| `Restarts.dfy` | runs in which the server is stopped and started again from its snapshot, at any turns |
| `KeyCollision.dfy` | a run in which two accepted idempotency keys become one after a restart |
| `DataDirectory.dfy` | the file backend and every state a save passes through |
| `WebSocket.dfy`, `Base64.dfy`, `BoundedOutput.dfy` | frames (RFC 6455), base64url (RFC 4648), bounded output |
| `GroupRun.dfy` | the command line's concurrent group run |

`dafny verify dfyconfig.toml` checks everything.

How runs are modelled. A run is any infinite sequence of requests, in the order the store mutex admits them, each with
its clock reading, whether the backend commits, and the identifiers and tokens it would draw. Agents, lost and repeated
replies and late results are all such sequences, so nothing is assumed of who sends what or when. A theorem over runs is
stated of every history of legal edits, and `EngineRuns.RunFollows` shows that a run of the engine is one, and
`Restarts.RunsWithRestartsFollow` that so is a run with restarts, chain hashes apart. Names that are plain and never
repeat (`FreshDraws`), a clock that never goes back (`ClockNeverGoesBack`), authenticated callers (`Authenticated`) and
numbers within machine words (`WithinWords`) are assumed only where a lemma names them. Names have no bounded length
here, since a run has no last request; for any requests, clock and commits such names can be drawn
(`EngineRuns.FreshRunsExist`), and all four assumptions can be met together (`EngineTheorems.OrdinaryRunsExist`).

What the results are measured against. `Engine.dfy` says what each handler decides, in functions the handlers share; the
laws in `RequestLaws.dfy` use none of them, so a shared function that looked at the wrong column, took the first record
for the one named, or let one caller act for another would break its law. The laws are clauses of the handlers
themselves and of `ControlPlane.Server.Handle`, and `EngineChanges.dfy` draws from them what holds over histories. Frames,
digests, the chain, the older line layouts and the shell's verdicts are pinned to bits, columns and literals in the same
way.

How foreign functions appear. SHA-256 is any function from text to text; where its output format or collisions matter
the lemma says so (64 hexadecimal characters, or a conclusion "or these two texts collide"). Grant signatures, the path
policy, label checks and ability negotiation are functions of the configuration; sealing of files is any pair that opens
what it seals.

What the proofs brought to light, where the code differs from what it promises:

- The exporter spells null as `__NODEWE_NULL__`, and that text is itself a valid node id. Once a node of that name is
  enrolled, every export that starts afterwards stops with a hash mismatch (`AuditOfRuns.MarkerBlocksExports`). An
  export of a run succeeds iff the log as its last request found it has no such name, and then it is exact
  (`AuditOfRuns.ExportRun`).
- Idempotency keys are blanked (tab, carriage return and line feed become spaces) when saved, so two distinct keys can
  become one after a restart (`KeyCollision.UntidyKeysCanMeet` gives the run; `SnapshotOfRuns.KeysStayApartExactlyWhen`
  says exactly when; with keys and names free of these characters nothing of the kind happens,
  `Restarts.RunsWithRestartsFollow`).
- An idempotent replay is compared on six fields; a different `output_limit` or `request_id` is not noticed
  (`EngineTheorems.ReplayReturnsTheTask`).
- In approval-record mode an ability the policy gates, other than `task.exec`, can never be accepted, since approvals
  exist for `task.exec` only (`EngineTheorems.OnlyExecIsEverApproved`).
- A heartbeat refused with 422 has already refreshed the node's presence in memory
  (`ControlPlane.Server.Heartbeat`, `EngineTheorems.CommitOrRollback`).
- Under `stop`, a failing worker stops only itself; entries stay unrun only when every worker failed
  (`GroupRun.LeftOverOnlyWhenAllFailed`).
- Revoking a node already revoked is accepted again, and writes another `node.revoked` record.

## Model

| member | source | states |
|---|---|---|
| `ControlPlane.Server.Handle` | control-plane/src/main.rs:1321-1497 | Whatever the request, editing the vectors in place gives the state and reply of the engine's atomic step, and obeys the law of that request: which records it names, which columns change and to what, what is logged, what stays as it was, and each refusal |
| `LawfulRequests.StepIsLawful` | control-plane/src/main.rs:1321-1497 | The engine's step obeys the law of every request, stated in record columns, constants and status codes alone |
| `ControlPlane.Server.PersistOrRollback` | control-plane/src/main.rs:2789-2799 | On commit disk and memory are the edited store; on failure memory is exactly the clone taken before the edit and disk is untouched |
| `ControlPlane.Server.CreateNode` | control-plane/src/main.rs:1502-1572 | A valid, allowed and unused id gets exactly one node, with every column as described or its default, and its record; otherwise the refusal the code gives first |
| `ControlPlane.Server.RedeemGrant` | control-plane/src/main.rs:1680-1772 | The first grant of that code and signature that is genuine, unused, unrevoked and unexpired is spent, and exactly the described node enrolled, in one commit |
| `ControlPlane.Server.RevokeNode` | control-plane/src/main.rs:1779-1820 | 404 iff no node has the id; otherwise the node of that id, and no other, is revoked and offline, the reply and the record name it, its open tasks are cancelled with one record each in order, and every other task is as before |
| `ControlPlane.Server.CancelTasksOf` | control-plane/src/main.rs:1792-1815 | The in-place loop cancels exactly the queued and dispatched tasks of the node named, takes their lease away, leaves every other task as it was, and collects one record for each, in order |
| `ControlPlane.Server.RotateNode` | control-plane/src/main.rs:1827-1858 | The node of the id named, and no other, gets the credential just drawn, unless it is revoked; 404 iff there is none |
| `ControlPlane.Server.CreateGrant` | control-plane/src/main.rs:1579-1620 | A signed grant that expires 300000 ms later, with its record |
| `ControlPlane.Server.RevokeGrant` | control-plane/src/main.rs:1647-1678 | The grant of the code named, and no other, is revoked; or the refusal |
| `ControlPlane.Server.CreateApproval` | control-plane/src/main.rs:1879-1930 | A caller who claims another actor gets 403 and nothing changes; otherwise an approval for `task.exec` only, for 300000 ms, in the name of the caller, of the claimed actor when there is no caller, or of `admin` |
| `ControlPlane.Server.CreateTask` | control-plane/src/main.rs:1937-2168 | A caller who claims another actor gets 403 and nothing changes; otherwise body checks, idempotent replay, policy gates and approval in the code's order, and a task with every column as asked, in the name of its own caller |
| `ControlPlane.Server.SpendApproval` | control-plane/src/main.rs:2089-2130 | In record mode the first approval that covers the submission is marked used and recorded; a refusal leaves memory as it was |
| `ControlPlane.Server.CancelTask` | control-plane/src/main.rs:2184-2224 | The task of the id named, and no other, is cancelled and loses its lease, by its own actor or an administrator, while it is not terminal; or the refusal |
| `ControlPlane.Server.Heartbeat` | control-plane/src/main.rs:2226-2313 | The node of the id named, and no other, is refreshed in the columns the beat speaks of; a 422 leaves its refreshed presence in memory without saving it |
| `ControlPlane.Server.LeaseDueTasks` | control-plane/src/main.rs:3535-3550 | The in-place loop leases exactly the polling node's own tasks that are queued, or dispatched with `lease_until <= now`, each under its own new token for max(timeout, 30000) + 5000 ms, leaves every other task as it was, and returns the leased ones in order |
| `ControlPlane.Server.AgentTasks` | control-plane/src/main.rs:3522-3563 | The reply holds the tasks whose node is the polling one and that wait, all of them and no others, as now leased; every other task is unchanged; one record; with none waiting nothing is saved; a node that is not fresh is refused |
| `ControlPlane.Server.AgentResult` | control-plane/src/main.rs:3565-3667 | A wrong digest is refused; then identity, state, lease and token checks in the code's order; and the task, and no other, ends in the reported state with exit code, digest and the longest whole-character preview that fits |
| `Engine.DecisionsAreLegal` | control-plane/src/main.rs:1302-1497 | Whatever the request, the edit its handler saves is legal for the store it was decided on: positions exist and are those of the record the request names, ids and keys are free, nodes serve, approvals cover, results are reported under the current token, and the edit is in the name of its own caller |
| `EngineOutcomes.QueuedExactlyWhenAllowed` | control-plane/src/main.rs:1937-2168 | A submission queues a task iff its caller claims nobody else, it is within bounds, its key is free, the policy allows it, a fresh node suits it and its approval is given; each condition is told in columns |
| `EngineOutcomes.PolicyRefusalReads` | control-plane/src/main.rs:2024-2088 | The chain of policy and node checks lets a submission through iff the policy allows it and one fresh node of that id has an allowed data class and offers the ability |
| `EngineOutcomes.CancelledExactlyWhenOpen` | control-plane/src/main.rs:2184-2224 | A task is cancelled iff it exists, has not ended and the caller may act for its actor |
| `EngineOutcomes.PollLeasesExactlyTheDue` | control-plane/src/main.rs:3522-3563 | A poll is answered with leases iff a fresh node has the id; they are the tasks of that node that are queued or have run out of lease, all and no others, in order, each under its own token |
| `EngineRuns.RunFollows` | control-plane/src/main.rs:189-266 | Every run of the engine, under any requests, clock and commit failures, is a history of legal edits: the theorems below apply to it |
| `EngineRuns.FreshRunsExist` | control-plane/src/main.rs:2530-2539 | For any requests, clock and commits there is a run of them in which every name is plain and no name is drawn twice: what is assumed of names can be met |
| `EngineInvariants.Reachable` | control-plane/src/main.rs:1498-2313 | The whole invariant (identities, served tasks, ledger, counts, approval pairing) holds after any number of requests |
| `EngineInvariants.InvKept` | control-plane/src/main.rs:1498-2313 | Every legal edit keeps the invariant |
| `EngineInvariants.TasksKept` | control-plane/src/main.rs:1779-1820 | Edits keep task ids and keys unique and every live task on an unrevoked node |
| `EngineInvariants.SettledKept` | control-plane/src/main.rs:1792-1815 | Edits keep one acceptance record per task and one closing record exactly when it is terminal |
| `EngineInvariants.PairedKept` | control-plane/src/main.rs:2089-2167 | Edits keep used approvals, consumption records and gated tasks in one-to-one correspondence |
| `EngineInvariants.ReachableRecords` | control-plane/src/main.rs:2316-2333 | Every record of a reachable log has plain printable names, an actor and a known event |
| `EngineInvariants.ReachableWords` | control-plane/src/main.rs:198-266 | Every number of a reachable store fits its machine word while the clock is 305 s from the end of 64 bits |
| `EngineTheorems.CommitOrRollback` | control-plane/src/main.rs:2789-2799 | After every response memory and the last committed store agree on everything but `online` and `last_seen` |
| `EngineTheorems.NothingGoesBack` | control-plane/src/main.rs:1498-2313 | Over any stretch of a run vectors only grow, submissions and administrator-owned node metadata never change, terminal tasks are frozen, revocation and use are permanent, the log is append-only |
| `EngineTheorems.TaskLedger` | control-plane/src/main.rs:2151-2219 | Exactly one `task.accepted` per task; terminal iff exactly one closing record, live iff none |
| `EngineTheorems.NodesAndGrantsConserved` | control-plane/src/main.rs:1502-1772 | Node ids unique; nodes equal creations plus redemptions; used grants equal redemptions |
| `EngineTheorems.ApprovalsConserved` | control-plane/src/main.rs:2089-2167 | Used approvals, `approval.consumed` records and, in record mode, gated tasks correspond one to one, agreeing on node, ability, program, argument and actor |
| `EngineTheorems.OnlyExecIsEverApproved` | control-plane/src/main.rs:1899-1903 | In record mode no gated ability but `task.exec` is ever accepted |
| `EngineTheorems.OnlyAcceptanceConsumes` | control-plane/src/main.rs:2004-2163 | Refused, rolled-back and replayed submissions change nothing at all, so consume nothing |
| `EngineTheorems.Fencing` | control-plane/src/main.rs:3522-3667 | Each task accepts at most one result in a whole run, under the token of its latest committed lease, whatever is delayed, duplicated or reordered and whatever the clock does |
| `EngineTheorems.TokenMovesOn` | control-plane/src/main.rs:3536-3549 | After a second lease the task's token differs for good from the first one's |
| `EngineTheorems.StaleResultRefused` | control-plane/src/main.rs:3633-3638 | A result under an earlier lease's token is refused and changes nothing |
| `EngineTheorems.WrongTokenRefused` | control-plane/src/main.rs:3633-3638 | A result under any other token than the task's is refused and changes nothing |
| `EngineTheorems.BoundaryInstant` | control-plane/src/main.rs:3538 | At the instant `lease_until == now` reclaiming and reporting are both enabled, and either order is safe |
| `EngineTheorems.LeasesAreSpaced` | control-plane/src/main.rs:3536-3549 | When each poll reads the clock once: first leased at t0 and last at t1, a task has been leased at most 1 + (t1 - t0)/35000 times, however the clock moves from request to request |
| `EngineTheorems.OrdinaryRunsExist` | control-plane/src/main.rs:198-266 | For any requests by checked callers, any commits and any clock in order and within words there is a run that meets fresh names, authentication, machine words and an ordered clock together |
| `EngineTheorems.PromptReporterHoldsLease` | control-plane/src/main.rs:3536-3549 | Under a nondecreasing clock an agent within its timeout still holds the task, with at least 5000 ms of lease left while it is dispatched |
| `EngineTheorems.AcceptedExactlyWhenHeld` | control-plane/src/main.rs:3565-3662 | A result is accepted iff it is well formed and comes from the task's node, in time, for a task still leased and under its current token; otherwise it is refused and changes nothing |
| `EngineTheorems.PromptResultAccepted` | control-plane/src/main.rs:3536-3662 | Under a nondecreasing clock a well-formed result under its own token within the timeout is accepted, unless the task was ended meanwhile or the commit fails |
| `EngineTheorems.OwnDigestIsVerified` | control-plane/src/main.rs:3600-3617 | The digest an agent computes itself always passes the digest check |
| `EngineTheorems.OneTaskPerKey` | control-plane/src/main.rs:2004-2023 | At most one task ever has a given non-empty key, and it keeps its place and submission |
| `EngineTheorems.ReplayReturnsTheTask` | control-plane/src/main.rs:2004-2023 | A replay agreeing on the six compared fields returns the task, any other is a conflict; neither changes anything, even when the task is terminal or its node revoked |
| `EngineTheorems.RevokedForGood` | control-plane/src/main.rs:1779-1820 | A revoked node stays revoked and offline, owns no live task, and no submission, lease, heartbeat, rotation or result for it is ever saved |
| `EngineTheorems.RevocationIsLocal` | control-plane/src/main.rs:1779-1820 | Revoking leaves every other node, every task of another node, all grants and approvals unchanged |
| `EngineTheorems.RevokedGrantNeverUsed` | control-plane/src/main.rs:1717-1734 | A grant revoked before redemption is never used later |
| `EngineTheorems.ExpiredGrantNeverUsed` | control-plane/src/main.rs:1717-1734 | A grant expired before redemption is never used later, under a nondecreasing clock |
| `EngineChanges.TaskChangesAreAsked` | control-plane/src/main.rs:1779-3667 | Over any history, restarts included, a task changes only at a saved request that asks for it: a poll by its own node, a result from its node under its token and in time, its cancellation by its actor or an administrator, or its node's revocation; and exactly as that request says |
| `EngineChanges.TokensChangeAtOwnPolls` | control-plane/src/main.rs:3536-3549 | A task's token or lease is given only by a poll of the task's own node |
| `EngineChanges.NodeChangesAreAsked` | control-plane/src/main.rs:1779-2313 | A node changes only by its own revocation, rotation or heartbeat, in the columns that request may touch, or in presence at a restart |
| `EngineChanges.GrantChangesAreAsked` | control-plane/src/main.rs:1647-1772 | A grant changes only when a saved request brings its code: revoked, or used while it is good |
| `EngineChanges.ApprovalChangesAreAsked` | control-plane/src/main.rs:2089-2130 | An approval changes only by being used, while good, for a submission of the node, ability, program, argument and actor it names |
| `EngineChanges.TasksAreGenuine` | control-plane/src/main.rs:1864-2168 | Every task of every reachable store goes back to a saved submission that asked for its node, ability, program, argument and key, by a caller acting as itself |
| `EngineChanges.ApprovalsAreGenuine` | control-plane/src/main.rs:1864-1930 | Every approval goes back to a saved request that asked for exactly it, by a caller acting as itself |
| `EngineChanges.RevokedByName` | control-plane/src/main.rs:1779-1820 | Once a revocation of an id is saved, ever after the node of that id is revoked and offline, has no open task, and nothing is saved on its behalf |
| `AuditChain.SealedRecord` | control-plane/src/main.rs:2473-2483 | Restarting from GENESIS for each record gives the record one linear pass seals at that index, and nothing past the end |
| `AuditChain.SealLinks` | control-plane/src/main.rs:2473-2493 | Sealing changes only the links: each record names the hash of the one before it, the first one `GENESIS`, and carries its own hash under that name |
| `AuditChain.SealIsStable` | control-plane/src/main.rs:2473-2493 | Appending records leaves every seal already given unchanged |
| `AuditChain.AuditChainValid` | control-plane/src/main.rs:2949-2963 | The one-pass check accepts iff every record that carries a hash carries the links of the linear pass; blank hashes are let through |
| `AuditChain.SealedLogIsValid` | control-plane/src/main.rs:2473-2493 | A sealed log passes the check, and sealing it again changes nothing |
| `AuditChain.ActivityHashReadsBodyOnly` | control-plane/src/main.rs:2445-2471 | A record's hash does not read the hashes it carries |
| `AuditChain.TipBinds` | control-plane/src/main.rs:2445-2471 | Equal last hashes mean equal logs text by text, or a collision on two of their texts |
| `AuditChain.ChainBinds` | control-plane/src/main.rs:2949-2963 | Two accepted logs with the same non-empty last hash agree in length and in every canonical text, or exhibit a collision, even with blank hashes earlier |
| `AuditBinding.TipBindsRecords` | control-plane/src/main.rs:2445-2471 | Two logs of records as the program writes them, under one tip, hold the same records apart from links, or the hash collides |
| `AuditBinding.ChainBindsRecords` | control-plane/src/main.rs:2949-2963 | Two such logs that the check on load accepts, with the same last hash, hold the same records apart from links, or the hash collides on two of their texts |
| `AuditBinding.ArchiveBindsRecords` | scripts/export-audit.sh:78-126 | An archive that passes the shell's check and ends in the hash a log is known to end in holds that log's records, whoever served it, or the hash collides |
| `AuditExport.ServePage` | control-plane/src/main.rs:2495-2528 | The page is the slice of the sealed log, with the next cursor iff more follows, or the 400 or 416 refusal |
| `AuditExport.CheckPage` | scripts/export-audit.sh:86-106 | The inner loop stops at the first record that is not linked, with that record's verdict, or carries the last hash on |
| `AuditExport.CheckRecordExactly` | scripts/export-audit.sh:86-106 | On any record of plain names the shell's verdict is a discontinuity iff it names another previous hash, else a hash mismatch iff its hash is not that of its canonical text |
| `AuditExport.PassesExactlyWhenSealed` | scripts/export-audit.sh:80-107 | Any archive of such records, whoever served it, passes the check iff it is the sealed log of its own records: a tampered page stops the export |
| `AuditExport.WordsRead` | scripts/export-audit.sh:86-107 | Eight columns come back as they were escaped when none is blank; a blank one lets the others move up and leaves the last word blank |
| `AuditExport.BlankNameNeverPasses` | scripts/export-audit.sh:86-107 | A record with a blank name never passes the check |
| `AuditExport.FetchPage` | scripts/export-audit.sh:82-115 | One turn at the tip of the log: the slice archived and the tip moved on, or the first record with a marked name reported as a hash mismatch |
| `AuditExport.Export` | scripts/export-audit.sh:78-126 | Against a growing log and any page size from 1 to 10000: never refused, never a discontinuity or bad cursor, cursors strictly increase; it archives exactly the sealed log as it stood at the last page iff no record has a name spelled like the null marker, and else stops at the first that has |
| `AuditExport.ReadBackIsCanonical` | scripts/export-audit.sh:86-100 | The text the shell hashes is the server's canonical text iff no name is spelled like the null marker |
| `AuditExport.VerdictOnSealed` | scripts/export-audit.sh:86-106 | A sealed record is found linked unless a name is spelled like the marker; then a hash mismatch, or a collision |
| `AuditExport.PlainColumnsComeBack` | scripts/export-audit.sh:86-106 | Non-empty printable columns survive the TSV escaping and the shell's word splitting |
| `AuditExport.ShellReadsRight` | scripts/export-audit.sh:86-106 | The shell's check satisfies what `Export` asks of a check, on every log of plain records |
| `AuditExport.MarkedRecordStops` | scripts/export-audit.sh:78-126 | A marked record in the log when some page was served stops the export with a hash mismatch, at that record or before it |
| `AuditExport.SuchHashesExist` | scripts/export-audit.sh:86-100 | Some hash has digests of the right form and tells apart, on every log of plain records, the text the shell hashes from the server's: what the export's results assume of the hash can be met |
| `AuditOfRuns.RunsExport` | scripts/export-audit.sh:78-126 | Whatever requests run between the pages, the log of a run only grows and the check is right about it, so `Export` applies to every run |
| `AuditOfRuns.ExportRun` | scripts/export-audit.sh:78-126 | The export of a run, whatever requests come between its pages and whatever the page size, archives exactly the sealed log as its last request found it iff no record of it has a name spelled like the null marker; otherwise it stops with a hash mismatch at the first that has |
| `AuditOfRuns.MarkerIsEnrolled` | control-plane/src/main.rs:1502-1572 | A node named like the null marker is answered 201, and the record it leaves is a marked one |
| `AuditOfRuns.MarkerBlocksExports` | scripts/export-audit.sh:78-126 | Counterexample over runs: once a run has enrolled such a node, every export that starts afterwards stops with a hash mismatch, whatever the page size and whatever happens between its pages |
| `AuditOfRuns.FinalHashNamesTheLog` | control-plane/src/main.rs:2445-2493 | Two runs, of any two servers at any two moments, whose logs seal to one final hash have recorded exactly the same, or the hash collides on two of their texts |
| `AuditOfRuns.FinalHashNamesTheArchive` | scripts/export-audit.sh:78-126 | Two exports that archived under one final hash archived the same records, or the hash collides |
| `Snapshot.ParseSnapshot` | control-plane/src/main.rs:2923-2947 | The loop over lines, sections and the chain check computes the parse the results below are about; what it returns begins with the magic line, and every hashed record of it names the hash before it and carries its own |
| `Snapshot.LoadsExactlyWhenIntact` | control-plane/src/main.rs:2923-2963 | A text of sections of data lines loads, as exactly the records its lines say, iff every hashed record carries the links of one pass from GENESIS; otherwise it is refused; malformed lines are passed over |
| `Snapshot.BeginsExactlyWhen` | control-plane/src/main.rs:2923-2928 | A text is taken for a snapshot iff its first line is `NODEWE-SNAPSHOT-V1` |
| `Snapshot.LeadingLinesIgnored` | control-plane/src/main.rs:2929-2942 | Lines before the first header change nothing of what is loaded |
| `Snapshot.UnknownSectionIgnored` | control-plane/src/main.rs:2929-2942 | Lines under a header that is none of the five add nothing |
| `SnapshotIntegrity.AlteredLoadsExactlyWhenIntact` | control-plane/src/main.rs:2923-2963 | A saved snapshot with any other audit log written in its place loads iff every hash in that log is right |
| `SnapshotIntegrity.AlteredIsRefused` | control-plane/src/main.rs:2923-2963 | A saved snapshot whose records were edited, left out, added or exchanged, its last hash left in place, is refused, or two texts collide |
| `Snapshot.RoundTrip` | control-plane/src/main.rs:2547-2643 | For every storable store, reading the printed snapshot succeeds and returns the store with cleaned columns blanked, revoked nodes offline and audit hashes filled in |
| `Snapshot.SavedAgain` | control-plane/src/main.rs:2547-2643 | Saving the reloaded store again is byte-identical |
| `Snapshot.WrittenLinesAreData` | control-plane/src/main.rs:2929-2934 | No data line is ever taken for a section header, and every record is one line |
| `Snapshot.TakeAssembled` | control-plane/src/main.rs:2929-2942 | Section by section, lines that yield records are collected into exactly the store |
| `SnapshotLines.NodeRoundTrip` | control-plane/src/main.rs:2965-2997 | A node line reads back as the node, cleaned columns blanked |
| `SnapshotLines.TaskRoundTrip` | control-plane/src/main.rs:2999-3068 | A task line reads back as the task, cleaned columns blanked, limits within bounds |
| `SnapshotLines.TaskLineIsModern` | control-plane/src/main.rs:3013-3018 | A 17-column task line splits into its columns and is never read in the older layout |
| `SnapshotLines.OlderTaskRoundTrip` | control-plane/src/main.rs:3010-3044 | Task lines of both older layouts, without digest and truncation mark, read back with those blank and every other column in its place |
| `SnapshotLines.ShortNodeLineRead` | control-plane/src/main.rs:2965-2997 | A node line of three columns is read with the defaults |
| `SnapshotLines.MalformedNodeRead` | control-plane/src/main.rs:2965-2997 | Node columns that make no sense are read as the defaults |
| `SnapshotLines.MalformedTaskRead` | control-plane/src/main.rs:2999-3068 | Task columns that make no sense are read as `echo`, `admin`, no lease, no token and the usual limits |
| `SnapshotLines.LimitsAreRestored` | control-plane/src/main.rs:3038-3048 | Whatever a task line says, its limits are read within those of a submission |
| `SnapshotLines.MalformedIsDropped` | control-plane/src/main.rs:3070-3130 | An approval or a grant whose columns make no sense is dropped |
| `SnapshotLines.OlderGrantRead` | control-plane/src/main.rs:3070-3087 | A grant line of four columns is a grant that is not revoked |
| `SnapshotLines.TooFewColumns` | control-plane/src/main.rs:2965-3130 | A line with too few columns for its section is no record |
| `SnapshotLines.GrantRoundTrip` | control-plane/src/main.rs:3070-3087 | A grant line reads back as the grant |
| `SnapshotLines.ApprovalRoundTrip` | control-plane/src/main.rs:3089-3130 | An approval line reads back as the approval |
| `SnapshotLines.ActivityRoundTrip` | control-plane/src/main.rs:3132-3150 | An audit line reads back as the record, absent names and actors included |
| `SnapshotLines.KnownEventsAreNamed` | control-plane/src/main.rs:3132-3150 | The name of an event a handler writes determines it |
| `SnapshotOfRuns.RunsSurviveRestart` | control-plane/src/main.rs:2547-2643 | At every point of every run the saved snapshot loads and saves again byte-identically |
| `SnapshotOfRuns.ProtocolSurvivesRestart` | control-plane/src/main.rs:2923-3150 | A restart keeps tasks' ids, nodes, actors, states, leases and tokens, nodes' ids, presence and revocation, grants' codes and use |
| `SnapshotOfRuns.KeysStayApartExactlyWhen` | control-plane/src/main.rs:3459-3461 | Non-empty keys stay distinct across a restart iff no two of them differ only in the kind of their blanks (space, tab, carriage return, line feed) |
| `SnapshotOfRuns.TidyKeysStayApart` | control-plane/src/main.rs:2004-2023 | Keys free of tabs and line breaks stay distinct across a restart |
| `KeyCollision.UntidyKeysCanMeet` | control-plane/src/main.rs:3459-3461 | Counterexample over a run: a node is enrolled, then two submissions under keys that differ only in a tab and a space are both answered 202; their keys are apart in the store and one key after a restart |
| `Restarts.RunsWithRestartsFollow` | control-plane/src/main.rs:2923-3150 | A run that is stopped and started again from its printed snapshot, at any turns and any number of times, is, chain hashes apart, a history of legal edits, when names and keys hold no tab or line break: every theorem over histories holds of it |
| `Restarts.OrderlyRunsExist` | control-plane/src/main.rs:2530-2539 | For any tidy requests, clock, commits and restarts there is a run that meets all that the results across restarts assume |
| `Restarts.FencingAcrossRestarts` | control-plane/src/main.rs:3522-3667 | Across any number of restarts each task accepts at most one result, under the token of its latest saved lease |
| `Restarts.LedgerAcrossRestarts` | control-plane/src/main.rs:2151-2219 | Across restarts each task has one acceptance record; it is terminal iff it has one closing record, live iff none |
| `Restarts.ReplayAcrossRestarts` | control-plane/src/main.rs:2004-2023 | A submission under a key taken before any number of restarts returns the task that has it, or is a conflict, and changes nothing |
| `Json.ObjectRoundTrip` | control-plane/src/main.rs:2441-2443 | A printed flat object reads back as its members, whatever text they hold |
| `Json.TrailingRefused` | control-plane/src/main.rs:2365-2369 | A printed object with anything after it is refused |
| `Json.EscCharExactly` | control-plane/src/main.rs:2371-2387 | Exactly quotes, backslashes and control characters are escaped, the latter as four lower-case hexadecimal digits unless they have a short form |
| `Json.ReadStringOfEsc` | control-plane/src/main.rs:2371-2387 | An escaped string reads back as the string, whatever follows it |
| `Json.MembersAreTidy` | control-plane/src/main.rs:2371-2387 | Escaped members hold no tab and no line break |
| `Text.SplitNJoin` | control-plane/src/main.rs:2966 | Splitting with a limit undoes joining, for pieces free of the separator |
| `Text.JoinSplitN` | control-plane/src/main.rs:2966 | Joining undoes splitting, whatever the limit: the last piece holds what is left |
| `Text.IdRefusedExactlyWhen` | control-plane/src/main.rs:3768-3775 | An id is refused iff it is empty, longer than 128, or holds a blank, control, non-ASCII, path or query character |
| `Text.LinesUnlines` | control-plane/src/main.rs:2929 | `lines` undoes writing each line with a line break |
| `Text.ReturnsAreStripped` | control-plane/src/main.rs:2929 | A carriage return before a line break is taken along with it |
| `Text.ParseU64OfDec` | control-plane/src/main.rs:2992-2995 | Decimal columns read back, within 64 bits |
| `Text.ParseI32OfSigned` | control-plane/src/main.rs:3019-3025 | Exit codes read back, sign included |
| `Utf8.HexRoundTrip` | control-plane/src/main.rs:3463-3480 | A hex column reads back as its text |
| `Utf8.HexReadExactlyWhen` | control-plane/src/main.rs:3471-3480 | Hex text reads as bytes iff it is pairs of digits of either case, or of a plus sign and a digit |
| `Utf8.DecodeEncode` | control-plane/src/main.rs:3471-3480 | Strict UTF-8 decoding undoes encoding |
| `Utf8.EncodeDecode` | control-plane/src/main.rs:3471-3480 | Only the encoding of a text decodes to it: overlong forms, surrogates and stray bytes are refused |
| `DataDirectory.Directory.AtomicWrite` | control-plane/src/main.rs:2801-2814 | The files a start reads change in the last step only, and only at that file, whatever torn bytes the temporary file held |
| `DataDirectory.Directory.BackupBytes` | control-plane/src/main.rs:2817-2828 | The backup's plaintext is the plaintext of the snapshot it copies, sealed or not; with a key the backup is always sealed |
| `DataDirectory.Directory.Persist` | control-plane/src/main.rs:2662-2776 | In every state passed through the snapshot is the old one before one moment and the new one after; from then on the old one is whole in the backup |
| `DataDirectory.Directory.PersistAll` | control-plane/src/main.rs:2662-2776 | In the end the snapshot and each of the five separate files hold their own text, sealed when there is a key |
| `DataDirectory.Directory.PersistSafely` | control-plane/src/main.rs:2662-2838 | Stopped anywhere, a start loads what it would have loaded before or the new store, never a mixture; the backup then restores the old one; a finished save loads as the new store |
| `DataDirectory.LoadsWhatWasSaved` | control-plane/src/main.rs:2878-2885 | A snapshot file as saved, sealed or plain, loads as the saved store |
| `DataDirectory.LoadsOnlyIntact` | control-plane/src/main.rs:2878-2963 | A start that loads a snapshot file has opened it, found the magic line, and checked every hash of its audit log |
| `DataDirectory.AlteredIsNotLoaded` | control-plane/src/main.rs:2878-2963 | A snapshot file that says an altered audit log under the old last hash is not loaded, or two texts collide |
| `DataDirectory.SealedNeedsItsKey` | control-plane/src/main.rs:2645-2660 | A sealed snapshot file is not loaded without a key |
| `WebSocket.FrameRoundTrip` | control-plane/src/main.rs:1217-1297 | A reader recovers the frame from its bytes and leaves whatever follows |
| `WebSocket.StreamRoundTrip` | control-plane/src/main.rs:1217-1297 | From the concatenation of any sendable frames under any masks the other side's reader recovers exactly that list and leaves trailing bytes untouched |
| `WebSocket.ShortestLength` | node-runtime/src/main.rs:548-558 | No spelling of a length that a reader accepts is shorter than the one writers use |
| `WebSocket.ReadsOnlySendable` | control-plane/src/main.rs:1226-1264 | Readers yield only frames a writer could have sent |
| `WebSocket.MaskedTwice` | control-plane/src/main.rs:1269-1271 | Masking twice with one mask gives the payload back |
| `WebSocket.XorByBits` | control-plane/src/main.rs:1269-1271 | Each of the eight bits of `a ^ b` is set iff it is set in exactly one of `a` and `b` |
| `WebSocket.WireIsSpelled` | control-plane/src/main.rs:1275-1297 | What a writer sends is laid out, bit by bit, as section 5.2 of RFC 6455 says: final bit, opcode, mask bit, length in 7, 16 or 64 bits, mask, payload |
| `WebSocket.ReadExactlyWhenSpelled` | control-plane/src/main.rs:1217-1273 | A reader yields a frame and a rest iff the bytes are that frame so laid out, in some spelling of its length and some mask, followed by that rest |
| `WebSocket.HeadersTurnedDown` | control-plane/src/main.rs:1221-1264 | Which headers are refused, and with which error: fragments, extension bits, wrong masking |
| `WebSocket.PayloadsTurnedDown` | control-plane/src/main.rs:1241-1267 | After the header, a length over the limit is refused before anything more is read, and one within it when too few bytes are left |
| `WebSocket.ServerReadFrame` | control-plane/src/main.rs:1217-1273 | The server's reader does what the frame format says of any bytes, error cases included; each payload byte it yields differs from the byte on the wire in exactly the mask byte's set bits |
| `WebSocket.ClientReadFrame` | node-runtime/src/main.rs:482-531 | The agent's reader does what the frame format says of any bytes, error cases included; the payload it yields is the one on the wire |
| `WebSocket.ServerWriteFrame` | control-plane/src/main.rs:1275-1297 | The server's writer sends the unmasked wire form, or refuses a frame over the limit |
| `WebSocket.ClientWriteFrame` | node-runtime/src/main.rs:533-569 | The agent's writer sends the frame laid out with its mask bit, mask and length, each payload byte differing from the frame's in exactly the mask byte's set bits, or refuses a frame over the limit |
| `WebSocket.MaskInPlace` | node-runtime/src/main.rs:560-563 | The in-place loop leaves every byte different from what it was in exactly the set bits of its mask byte |
| `Base64.UrlDecode` | control-plane/src/main.rs:1182-1207 | The accumulator loop accepts exactly non-empty texts over the URL-safe alphabet whose length is not 1 mod 4, and yields floor(6n/8) bytes equal to the leading bits |
| `Base64.DecodesOnce` | control-plane/src/main.rs:1182-1207 | The leading bits determine the bytes |
| `Base64.DecodingUndoesEncoding` | control-plane/src/main.rs:1159-1215 | Decoding inverts encoding once padding is stripped and `+` and `/` are swapped |
| `Base64.UrlDigitRead` | control-plane/src/main.rs:1188-1195 | A character is read as a sextet iff it is the URL-safe character of that sextet |
| `Base64.Encode` | control-plane/src/main.rs:1159-1180 | The loop over chunks of three writes the text the inverse is about |
| `Utf8.EncodeLength` | control-plane/src/main.rs:3463-3469 | The byte length of a text is the number of its bytes |
| `Utf8.TruncateUtf8` | control-plane/src/main.rs:3670-3683 | The walk over characters returns the truncation the lemmas below characterise |
| `Utf8.TruncateIsLongestFit` | control-plane/src/main.rs:3670-3683 | The cut is the longest whole-code-point prefix within the budget |
| `Utf8.LongestFitIsTruncate` | control-plane/src/main.rs:3670-3683 | Being the longest fitting prefix determines the cut |
| `Utf8.TruncateTwice` | node-runtime/src/main.rs:1078-1091 | Cutting twice is cutting once to the smaller budget |
| `Utf8.TruncateKeepsWhatFits` | control-plane/src/main.rs:3648-3650 | Text is left alone exactly when it fits |
| `BoundedOutput.ReadPipeBounded` | node-runtime/src/main.rs:930-951 | However the pipe splits the stream, the first `limit` bytes are kept, and `truncated` iff there were more |
| `BoundedOutput.PreviewIsOneCut` | control-plane/src/main.rs:3648-3655 | The stored preview is the agent's redacted text cut at min(output_limit, 4096), marked truncated iff it differs from what was sent |
| `BoundedOutput.AcceptedPreview` | control-plane/src/main.rs:3648-3662 | Once accepted in a run, the task keeps that preview for the rest of it |
| `GroupRun.Runner.TakeNext` | cli/src/main.rs:601-603 | Taking an entry pops the end of the shared queue, or ends the worker |
| `GroupRun.Runner.Complete` | cli/src/main.rs:604-620 | An error is recorded and ends the worker under `stop`; a panic ends it; otherwise it goes on |
| `GroupRun.Runner.Join` | cli/src/main.rs:623-630 | Joining reports each worker's failures in order, and `worker panicked` instead for each that panicked: a line is reported iff some worker reports it |
| `GroupRun.TakenFromTheEnd` | cli/src/main.rs:592-603 | Entries are taken from the end of the group: what is queued is always its beginning |
| `GroupRun.ReportNamesEveryFailure` | cli/src/main.rs:592-630 | When no worker panicked the report holds, for each entry that failed, its name and error once, and nothing else |
| `GroupRun.FailureEndsOnlyItsWorker` | cli/src/main.rs:604-620 | A failing entry ends its worker under `stop` and only then, and affects no other worker and not the queue |
| `GroupRun.EntriesConserved` | cli/src/main.rs:592-622 | Under any schedule queued, running and run copies of every entry add up to the group's, with exactly min(max_concurrency, n) workers |
| `GroupRun.LeftOverOnlyWhenAllFailed` | cli/src/main.rs:592-631 | At the end either every entry was run exactly once, or every worker ended on a failure; under `continue` only if every worker panicked |
| `GroupRun.SuccessMeansAllRanOk` | cli/src/main.rs:631-639 | Success is reported iff every entry was run exactly once and succeeded |
| `GroupRun.ComesToAnEnd` | cli/src/main.rs:592-622 | Every event uses up work, and some event is enabled until all workers have ended |

## Left out

- HTTP, TLS, sockets, threads and routing, including the trimming of paths and the JSON type checks before a handler: a request arrives parsed.
- One request reads the clock once here; the code reads it again at each use.
- EngineTheorems.LeasesAreSpaced: a poll reads the clock for the due test (`control-plane/src/main.rs:3538`) and again to date the new lease (`control-plane/src/main.rs:3547`); were the clock set back in between, that lease would run for less than 35 seconds from the first reading, which one reading per request does not show.
- Overflow of `now() + constant` in 64 bits: arithmetic is unbounded, and `EngineInvariants.ReachableWords` states the clock range in which this makes no difference.
- Failure of the token source, and the two early returns it leaves without a rollback (`control-plane/src/main.rs:1735-1741`, `control-plane/src/main.rs:3540-3545`): tokens are always drawn.
- `valid_labels`, `normalize_abilities`, `policy_allows_path`, grant signatures and SHA-256 are functions of the configuration, not modelled further.
- The multi-file backend failing part-way, for commit-or-rollback: the backend commits the whole store or nothing. Its crash points are `DataDirectory.dfy`.
- PostgreSQL and SQLite backends, several instances on one database, the lock file.
- Restarts inside runs with names or keys that hold tabs or line breaks: `Restarts.dfy` is about tidy ones, and `KeyCollision.dfy` shows what happens to others.
- `load_legacy_store`: a start without a valid snapshot is only said not to load one.
- serde_json: `Json.ReadObject` reads the flat objects `activity_json_with_chain` writes, without white space, nesting, fractions or surrogate pairs, and refuses other text.
- Hex columns with characters outside ASCII, on which the code's byte slicing would panic, count as malformed.
- A JSON reader that holds numbers as doubles, such as `jq`, spells timestamps from 2^53 on differently; the exporter is modelled with exact timestamps.
- The exporter's arguments, tokens, files, modes and checksums, and its check of `protocol_version` and `count`.
- Durability of a rename before the directory is synced, and file permissions.
- AES-256-GCM and its authentication of altered files.
- The WebSocket handshake, the message envelope and the loops that answer frames; what a failed read has consumed.
- The agent's polling loop with its back-off, process execution, scopes, and redaction, which is any text here.
- CLI parsing and printing, and threads that cannot be spawned or a queue mutex poisoned by a panic.
- ControlPlane.Server.Persist: a transactional backend; see above.
- Admin page, listings, metrics, policy and OIDC configuration, deployment scripts.
