# Verification of the collaboration kernel

A Dafny model of the collaboration kernel in `packages/core` with proofs about it: the operational-transform
client and its server, the undo history on top of it, the generators that turn commands into JSON actions, and the
upkeep of derived data (reference graphs between computed fields, two-way links, automation operands).
`dafny verify dfyconfig.toml` checks everything.

## Layout

| part | files |
|---|---|
| operational transform, lists and laws; a concrete JSON instance | `Options`, `Sequences`, `Ot`, `JsonOt` |
| client, server and network; convergence, delivery, and the runs that break them | `Changesets`, `Composing`, `ClientState`, `Protocol`, `Bookkeeping`, `Convergence`, `Delivery`, `Divergence`, `Amendments` |
| the engine's classes, proved against the client's transitions | `Storage`, `Engines`, `Sessions` |
| undo and redo | `History`, `Commands` |
| references between computed fields | `References`, `Compute` |
| two-way links | `LinkedData`, `LinkMaintainer`, `LinkSymmetry`, `LinkRuns`, `LinkMerge` |
| automation operands | `Operands`, `DeepMerge`, `MergePaths`, `OperandUtils`, `OperandProperty`, `OperandExec` |
| action generators on datasheet snapshots | `Datasheet`, `ViewEdits`, `AddField`, `DeleteField`, `Records`, `DeleteRecords`, `DatasheetActions`, `WellFormed`, `ViewPatch` |
| concrete inputs behind the exact conditions | `Witnesses` |

Objects that the source updates in place are classes here (`Engine`, `BufferStorage`, `UndoManager`,
`CollaCommandManager`, `ComputeRefManager`, `LinkedDataConformanceMaintainer`); each method's contract equates the new
state with a function of the old one, and the theorems are about those functions. Generators that push in loops are
methods with loops. Protocol steps are one event per section between two awaits, so a run covers every interleaving
of the asynchronous handlers.

The `jot` library is not in the repository: it is the record `Ot.Ot` with explicit laws, and `JsonOt` is an instance
that meets them. List-level transformation is defined from the transformation of single actions and its laws proved.
The snapshots of `Datasheet` are edited as the library edits them: list insert, delete and move by JavaScript's `splice`
(a negative index counts from the end, one outside is moved to the nearer end), old values unchecked. That the library
does so is an assumption here.

## Where the code departs from what one would expect

The code is modelled as it is. The lemmas named say exactly when the code meets the expectation (those ending in `Iff`)
or show a concrete input on which it does not (those of `Divergence`, `Amendments` and `Witnesses`).

- After an acknowledgement the pending changeset is only cleared by the next send, which the room throttles by 500 ms.
  An entry taken in before that is rebased past a changeset the server already has: `ClientState.CountedTakeInIff`,
  `Convergence.HarmfulBreaks`, `Divergence.StaleWindowDiverges`, `Divergence.DeletedAfterAckStays`.
- A send may start while a changeset still waits, and the engine then overwrites the waiting one. The room refuses a
  send until the last request is answered, so this takes a fetch inside the acknowledgement handler, during which the
  room is already clear again, or the answer to a changeset sent twice, which starts the next send:
  `ClientState.OverwriteIff`, `Divergence.OverwrittenPendingDiverges`. Nothing is lost by that exactly as long as what
  is overwritten is logged already: `Delivery.ExactlyOnceInOrder`.
- Where two clients change one link cell, the server does not append the rebased value but merges the two, and refuses
  some operations altogether. The author of the later change counts the entry without applying it and goes on with its
  own value: `ClientState.AckedIff`, `Convergence.AmendedIff`, `LinkMerge.AuthorAgreesIff`,
  `Amendments.MergedCellDiverges`.

Convergence is therefore proved for *disciplined* runs (`Protocol.Disciplined`): fresh message ids, a new changeset only
when none is waiting for its acknowledgement, only harmless entries taken in between an acknowledgement and the
clearing, and amendments of the server only where they keep the effect of rebasing alone (`Protocol.Faithful`). What
`Bookkeeping` states holds in all runs, and `Delivery.ExactlyOnceInOrder` in all with fresh message ids. Other departures:

- A client's own changeset inside a fetched list starts an acknowledgement that is not awaited, so the entry behind it
  throws: `ClientState.FetchedListThrowsIff`.
- Undo stacks are rebased on remote actions before these pass the local ones: `Sessions.TakeInCommutesIff`,
  `Divergence.RawRebaseBreaksUndo`. Commands that cannot be undone change the snapshot under the stacks:
  `History.NonUndoableIff`, `Divergence.NonUndoableBreaksUndo`. The stacks keep the inverse of a command's own actions,
  not of the checked ones that were applied: `History.CheckedUndoneIff`.
- An undo entry rebased to nothing is popped and lost: `History.UndoRedoRoundTrip`, `Witnesses.RebasedAwayEntryIsLost`.
- Recording a field again without cleaning leaves edges of lost dependencies: `References.RecordedExactIff`,
  `Witnesses.StaleEdgeStays`.
- A link to a missing record gets no other end: `LinkSymmetry.SymmetricIff`, `Witnesses.DanglingLinkIsOneSided`.
- Deleting records drops cells that cannot be edited from the undo data: `DeleteRecords.DeleteUndoneIff`. The comment
  on the bulk strategy speaks of 160 records, the code compares with 100; the model follows the code.
- Deleting a field removes only its first group or sort rule: `DeleteField.NothingRefersIff`,
  `Witnesses.SecondRuleStays`. A filter whose list of conditions is already empty is deleted too.
- A column index of 0 counts as not given, and a reference field missing from a view gives an index of `offset - 1`,
  from which undoing can remove another column: `AddField.AddFieldUndoneIff`, `Witnesses.MissingReferenceIsNotUndone`.
  Indices given for rows and targets of moves are not checked either: `Records.AddRecordUndoneIff`,
  `Records.MoveRowMoves`.
- Writing an empty list to an absent cell yields a deletion whose inverse stores a null:
  `Records.SetRecordUndoneIff`, `Witnesses.EmptyListIsNotUndone`.
- The generators for saving and resetting a view compare the view index with null, which it never is:
  `ViewPatch.ManualSaveView`. Resetting treats falsy values as absent: `ViewPatch.ResetExactIff`,
  `ViewPatch.ResetUndoneIff`, `Witnesses.ResetKeepsFalsy`.
- Edits that cancel out are composed to nothing, and a changeset without operations is sent:
  `Composing.ReplacedTwiceSentOnce`.
- Reading an object operand's property looks for the key in value positions too:
  `OperandProperty.PositionInPairsIff`, `OperandProperty.ValueTakenForKey`.
- Executing the operand of a list that holds one number and nothing else gives a list of that length:
  `OperandExec.ExecDataIff`, `OperandExec.LoneNumberIsLength`.

## Model

| member | source | states |
|---|---|---|
| Ot.TransformXDiamond | packages/core/src/engine/engine.ts:413-414 | For any two concurrent action lists that fit a document, the two rewritten lists lead to one and the same document; proved from the law for single actions by tiling |
| Ot.TransformXSplitLeft | packages/core/src/engine/engine.ts:413-450 | Rebasing a list in two parts, handing the leftover remote actions from the first part to the second, is rebasing the whole list |
| Ot.InvertUndoes | packages/core/src/command_manager/undo_manager.ts:86-117 | The inverted list takes the document back, for every list that fits |
| Ot.InvertInvolution | packages/core/src/command_manager/undo_manager.ts:86-117 | Inverting twice gives the original list |
| JsonOt.JsonOtLaws | packages/core/src/engine/ot/interface.ts:38-103 | Number add, list insert/delete/replace and object insert/delete/replace at any depth meet every law the other modules assume (diamond, undo, involution, compose, redundancy), so no theorem here rests on an unmet hypothesis |
| JsonOt.ActionDiamond | packages/core/src/engine/ot/interface.ts:38-103 | Any two concurrent actions on one document meet after crossing, including inserts at one place, edits inside a deleted value, and double deletes |
| JsonOt.ComposeSound | packages/core/src/engine/ot/index.ts:29-42 | Composing two lists keeps their effect on every document they fit |
| Changesets.TransformOpsIsTransformX | packages/core/src/engine/engine.ts:413-450 | Rewriting operation by operation with the remote actions threaded through is one transformation of all their actions |
| Changesets.ComposeSound | packages/core/src/engine/ot/compose.ts:28-75 | Composing operations before they are sent keeps their combined effect on every document, also when a composed pair vanishes |
| Storage.ComposeOperations | packages/core/src/engine/ot/compose.ts:28-47 | The reducing loop computes the fold whose soundness is proved |
| Composing.ComposeNextIs | packages/core/src/engine/ot/compose.ts:28-75 | One more operation folds into the last one if and only if both are single actions at equally deep places of which at most one composed action matters; what is left keeps the older name and link with that action, or both vanish; otherwise it is put behind |
| Composing.ComposedTaken | packages/core/src/engine/ot/compose.ts:28-47 | What is sent are the given operations under their own names and links, in order, some of them dropped |
| Composing.OthersSentAsTheyAre | packages/core/src/engine/ot/compose.ts:55-60 | Operations that are not single actions are sent as they are |
| Composing.ReplacesFoldIff | packages/core/src/engine/ot/compose.ts:55-75 | Of two operations that replace a value each, at any depth of a JSON document, the second folds into the first if and only if they replace at one place, and both vanish if and only if the last value is the first |
| Composing.SentIs | packages/core/src/engine/buffer_storage.ts:184-205 | What goes into flight is the buffer composed: its operations in order under their own names, those that are not single actions unchanged, with the new id on the client's revision |
| Composing.ReplacedTwiceSentOnce | packages/core/src/engine/buffer_storage.ts:184-205 | Of a value replaced twice only the last is sent; replaced back, a changeset without operations goes out |
| ClientState.DoTransformDiamond | packages/core/src/engine/engine.ts:399-464 | Local edits and then the returned remote actions reach the document that the remote changeset and then the rewritten pending changeset and buffer reach; operation counts and command names are kept |
| ClientState.TakeInSynced | packages/core/src/engine/engine.ts:286-327 | Taking in the next server entry keeps snapshot = server document + pending + buffer |
| ClientState.DeOpBufferSynced | packages/core/src/engine/buffer_storage.ts:184-205 | Moving the composed buffer into flight keeps that equation when nothing was waiting |
| ClientState.OverwriteIff | packages/core/src/engine/buffer_storage.ts:184-205 | Started while a changeset still waits, the next one keeps that equation if and only if the overwritten one had no effect; for every buffer, also one that only fits after the waiting changeset |
| ClientState.EditSynced | packages/core/src/engine/engine.ts:92-104 | A local command keeps that equation |
| ClientState.EditQueues | packages/core/src/engine/engine.ts:92-104 | A command whose actions fit is queued last, unless it has none; what is in flight stays |
| ClientState.CountedTakeIn | packages/core/src/engine/engine.ts:216-246 | Taking an entry in between an acknowledgement and the clearing of the acknowledged changeset is harmless when that changeset passes the entry on unchanged |
| ClientState.CountedTakeInIff | packages/core/src/engine/engine.ts:216-246 | Whatever is buffered, it is harmless if and only if that changeset passes the entry on with the effect the entry itself has on the acknowledged document |
| ClientState.CountedUnbufferedIff | packages/core/src/engine/engine.ts:216-246 | The same with an empty buffer, also when what is passed on does not fit and the library throws |
| ClientState.CatchesUp | packages/core/src/engine/engine.ts:272-348 | The handler of a pushed changeset: the list fetched for what was missing at its start and then the changeset go through without a throw, even if other handlers moved the client on meanwhile, and leave it at the later of the two revisions |
| ClientState.FetchedListThrowsIff | packages/core/src/engine/engine.ts:286-348 | A contiguous fetched list throws "miss changes" exactly when the client's own uncounted changeset is in it with an entry behind; without own changesets it never throws and the revision ends at the last entry |
| ClientState.OutcomeIff | packages/core/src/engine/engine.ts:286-327 | An entry with the id of the changeset in flight is left to the acknowledgement handler whatever its revision; of the others exactly the next one is taken in, old ones are ignored and one too far ahead throws; only taking in changes anything |
| ClientState.AckIff | packages/core/src/engine/engine.ts:216-246 | The acknowledgement handler counts an entry exactly if it is the next one and carries the id of the changeset in flight; otherwise nothing changes |
| ClientState.NextEntryCounts | packages/core/src/engine/engine.ts:216-327 | Handled to its end, the acknowledgement handler included, the next entry of the log is counted whoever wrote it, and an older one changes nothing |
| ClientState.HandedInOrder | packages/core/src/engine/engine.ts:216-348 | A client handed a contiguous stretch of entries one after the other, beginning no later than its next revision, ends at the last one's revision, whichever of them are its own |
| Convergence.CommitIsRebase | packages/room-server/src/database/ot/services/ot.service.ts:480-535 | Where the server amends nothing, what it appends has the submitted actions rebased past every entry after the base revision |
| Convergence.PlainIsFaithful | packages/room-server/src/database/ot/services/ot.service.ts:480-535 | Such a server always logs the effect of rebasing alone |
| Convergence.AmendedIff | packages/room-server/src/database/ot/services/ot.service.ts:612-703 | Where the server merges or otherwise amends what it rebased: an author at the end of the log is in step after the acknowledgement if and only if the logged entry has the effect of rebasing alone |
| ClientState.AckedIff | packages/core/src/engine/engine.ts:216-246 | Counting the own entry keeps the client in step if and only if that entry has the effect of the changeset in flight, whatever the server has made of it |
| Convergence.StepInv | packages/core/src/engine/engine.ts:92-464 | Every step (local edit, send, resend, server receipt, delivery, acknowledgement, a client joining) keeps the global invariant |
| Convergence.RunInv | packages/core/src/engine/engine.ts:92-464 | The invariant holds after every disciplined run |
| Convergence.Converges | packages/core/src/engine/engine.ts:92-464 | After any disciplined run, for any limits and amendments of the server that keep effects, with clients joining at any revision and whatever is lost, duplicated, delayed or reordered: each client shows the server document at its revision plus its unacknowledged actions; with clear storage exactly the server document; two such clients at one revision agree |
| Convergence.StrictRunDisciplined | packages/core/src/engine/engine.ts:216-246 | Runs without any take-in between an acknowledgement and the clearing, on a server that amends nothing, are disciplined |
| Convergence.HarmfulBreaks | packages/core/src/engine/engine.ts:286-327 | Between an acknowledgement and the clearing, an entry whose rebased actions fit keeps the client in step if and only if they have the entry's own effect on the acknowledged document |
| Convergence.HandedLogOk | packages/core/src/engine/engine.ts:216-348 | In doing so, a client in step whose own changeset is not in front of others' entries there is in step at the end of the log |
| Bookkeeping.PendingBase | packages/core/src/engine/engine.ts:421-425 | After every run, disciplined or not, a pending changeset's base revision is the client's revision until its acknowledgement is counted, and never a later one |
| Bookkeeping.StrictPendingBase | packages/core/src/engine/engine.ts:421-425 | In a run without any take-in before the clearing: exactly until then |
| Bookkeeping.StrictRunInv | packages/core/src/engine/engine.ts:216-246 | In such a run a smaller base revision is the sign of an acknowledged changeset |
| Delivery.ExactlyOnceInOrder | packages/core/src/engine/engine.ts:116-141 | In any run with fresh message ids, whatever is taken in when and whatever the server amends: after every event the log holds each author's changesets once each, in the order sent, commands in order, with only the one in flight possibly missing, if and only if no send has replaced a changeset that was not logged |
| Delivery.SendDeliversIff | packages/core/src/engine/buffer_storage.ts:184-205 | One send loses nothing if and only if what it replaces is logged |
| Delivery.SentIsLogged | packages/core/src/engine/engine.ts:116-141 | At the end of such a run a client with nothing in flight has everything it ever sent in the log, in order |
| Delivery.DisciplinedReplacesLogged | packages/core/src/engine/engine.ts:116-141 | Disciplined runs are among those |
| Bookkeeping.AppliedPrefix | packages/core/src/engine/engine.ts:286-348 | From any point of any run on, the entries a client takes in or counts are those behind its revision, in order and once each; so for the first clients the log's first ones, for one that joins those behind the document it loaded |
| Bookkeeping.HandledIsSteps | packages/core/src/engine/engine.ts:216-327 | Handling an entry to its end is a delivery and an acknowledgement of the protocol |
| Bookkeeping.ReachesLogEnd | packages/core/src/engine/engine.ts:216-348 | In every reachable system, a client handed what it has not seen of the log, entry by entry, reaches the end of the log |
| Bookkeeping.CommitShape | packages/room-server/src/database/ot/services/ot.service.ts:480-535 | An entry has the submitted message id, which the log does not have yet, the next revision and the submitted commands, whatever the server amends |
| Bookkeeping.CommitIff | packages/room-server/src/database/ot/services/ot.service.ts:480-535 | A submitted changeset is appended if and only if its id is new, its base revision is no later than the log's end and at most 100 entries back, and, unless it is the end, rebasing is within the limit and no operation is refused |
| Bookkeeping.JoinedShows | packages/core/src/engine/engine.ts:92-464 | Loading any revision up to the end of the log adds a client that shows it with nothing to send; nothing else changes |
| Divergence.StaleWindowDiverges | packages/core/src/sync/room.ts:538-552 | A reachable run in which a remote entry is taken in after the acknowledgement and before the throttled next send: the client ends at the server's revision with clear storage and a different document |
| Divergence.OverwrittenPendingDiverges | packages/core/src/sync/room.ts:438-483 | A reachable run in which the answer is late, the watcher sends the changeset again and the answer to the duplicate (room.ts:556-562) starts the next one: the client applies its own change twice |
| Divergence.DeletedAfterAckStays | packages/core/src/engine/engine.ts:286-327 | A reachable run in which another client deletes what was just acknowledged: passed on by the uncleared changeset the deletion does not fit, the library throws, and the client goes on at the server's revision with the deleted element |
| Amendments.MergedCellDiverges | packages/room-server/src/database/ot/services/ot.service.ts:621-703 | For any three values, a reachable run in which two clients replace the links of one cell: acknowledged, cleared and at the server's revision, the author of the later change shows its own links and the server holds the merged ones |
| Amendments.BothAdd | packages/room-server/src/database/ot/services/ot.service.ts:715-738 | For example where each adds a link of its own |
| LinkMerge.MergedIs | packages/room-server/src/database/ot/services/ot.service.ts:715-720 | The merge is a three-way one: an old link stays if neither side removed it, a new one comes if either side added it, and nothing is there twice |
| LinkMerge.MergedInOrder | packages/room-server/src/database/ot/services/ot.service.ts:715-720 | Old links come first in the order of the old value, then those the server's side has added in its order, then those only the client's side has added in its order |
| LinkMerge.ActionReads | packages/room-server/src/database/ot/services/ot.service.ts:715-718 | For the action that sets a cell, the values merged are the cell's links before and after it |
| LinkMerge.MergedEitherWay | packages/room-server/src/database/ot/services/ot.service.ts:715-720 | Whichever side is logged first, the same links result |
| LinkMerge.AuthorAgreesIff | packages/room-server/src/database/ot/services/ot.service.ts:715-720 | The author of the later change shows the merged links if and only if the other side removed nothing the author kept and added nothing the author did not add |
| LinkMerge.TransformedMerges | packages/room-server/src/database/ot/services/ot.service.ts:715-738 | The logged action takes the server's cell to the merged links, records the value it finds, stores no empty list, leaves other cells alone, and is left out exactly where only the order would change |
| Divergence.RawRebaseBreaksUndo | packages/core/src/engine/engine.ts:405 | With a non-empty buffer, rebasing the undo stack on the raw remote actions leaves an undo entry that does not fit the snapshot |
| Divergence.NonUndoableBreaksUndo | packages/core/src/commands/datasheet/rollback.ts:124-130 | An executed command that cannot be undone leaves the undo stack with an entry that does not fit |
| Storage.BufferStorage.constructor | packages/core/src/engine/buffer_storage.ts:134-136 | Resumes buffer and pending changeset from the store and mirrors them |
| Storage.BufferStorage.SetOpBuffer | packages/core/src/engine/buffer_storage.ts:144-155 | Memory holds the value; the store holds it too, with no entry for an empty buffer |
| Storage.BufferStorage.SetLocalPendingChangeset | packages/core/src/engine/buffer_storage.ts:162-175 | Memory and store hold the value |
| Storage.BufferStorage.DeOpBuffer | packages/core/src/engine/buffer_storage.ts:184-205 | The buffer is empty, the composed operations are in flight at the given revision (or nothing is), and the store mirrors both |
| Storage.BufferStorage.PushOpBuffer | packages/core/src/engine/buffer_storage.ts:215-219 | The operation is appended and the store keeps mirroring |
| Storage.BufferStorage.ClearOpBuffer | packages/core/src/engine/buffer_storage.ts:208-210 | The buffer is empty and the store keeps mirroring |
| Storage.BufferStorage.ClearLocalPendingChangeset | packages/core/src/engine/buffer_storage.ts:221-227 | Nothing is in flight and the store keeps mirroring |
| Engines.Engine.PushOpBuffer | packages/core/src/engine/engine.ts:92-104 | Implements the queueing transition; operations without actions are dropped |
| Engines.Engine.OperationExecuted | packages/core/src/engine/engine.ts:92-104 | Implements the local-edit transition of the protocol |
| Engines.Engine.IsStorageClear | packages/core/src/engine/engine.ts:109-114 | True exactly when nothing is buffered or in flight |
| Engines.Engine.GetNextChangeset | packages/core/src/engine/engine.ts:116-141 | Implements the transition into flight and returns the changeset |
| Engines.Engine.FlatActions | packages/core/src/engine/engine.ts:400-403 | Collects all actions of a changeset in order |
| Engines.Engine.Rebase | packages/core/src/engine/engine.ts:413-420 | The loop that threads the remote actions through the operations computes the list-level rebase |
| Engines.Engine.Transform | packages/core/src/engine/engine.ts:399-464 | Rebases both undo stacks on the raw actions, then pending, then buffer, exactly as the diamond theorem assumes |
| Engines.Engine.ApplyChanges | packages/core/src/engine/engine.ts:286-327 | Implements the protocol's delivery step, stacks included: own message left to the acknowledgement handler, gap, old entry, or taken in |
| Engines.Engine.ApplyMissed | packages/core/src/engine/engine.ts:344-347 | Handles a fetched list entry by entry; a throw leaves the rest unhandled |
| Engines.Engine.HandleAcceptCommit | packages/core/src/engine/engine.ts:219-246 | Implements the acknowledgement step: counts the revision and leaves the pending changeset in place |
| Engines.Engine.HandleNewChanges | packages/core/src/engine/engine.ts:216-327 | A pushed changeset handled to its end, by the acknowledgement handler where it is the client's own: afterwards the next entry is counted (`ClientState.NextEntryCounts`) |
| Engines.Engine.Execute | packages/core/src/command_manager/command_manager.ts:222-304 | Executing a command on the shared store is one step of the session: what is handed on reaches snapshot and queue |
| Engines.Engine.Undo | packages/core/src/command_manager/undo_manager.ts:43-53 | The same for the undo key: the undone change is queued to be sent |
| Engines.Engine.Redo | packages/core/src/command_manager/undo_manager.ts:55-65 | The same for the redo key |
| Sessions.OutgoingIs | packages/core/src/command_manager/command_manager.ts:222-304 | Executing, undoing or redoing hands on an operation with exactly the entry's actions under its name, marked UNDO: if and only if it is an undo; nothing is handed on exactly when the command is unknown, cannot be undone or redone, or is empty |
| Sessions.HandedOnSynced | packages/core/src/command_manager/command_manager.ts:254-304 | A client in step that shows the old snapshot is in step with the new one once it has queued what is handed on, or nothing if nothing is |
| Sessions.KeysHandedOnSynced | packages/core/src/command_manager/undo_manager.ts:43-65 | The same for the undo and the redo key, whose results carry the popped entries' names |
| Sessions.StepSynced | packages/core/src/engine/engine.ts:92-104 | Commands and keys keep a session's client in step with the server, whether their actions fit or not |
| Sessions.StepIsProtocol | packages/core/src/engine/engine.ts:92-464 | Of a session's steps, sending, taking in and acknowledging are those of one client of the protocol; a command or a key is a local edit there with the actions handed on, or nothing |
| Sessions.StepHistory | packages/core/src/command_manager/undo_manager.ts:43-124 | Commands and keys are the steps of the history alone, so what is proved of histories holds of sessions |
| Sessions.ApplyMissedClient | packages/core/src/engine/engine.ts:344-347 | Handling a list with the stacks attached does to the client what it does without them |
| Sessions.TakeInCommutesIff | packages/core/src/engine/engine.ts:399-405 | For either stack and every depth of kept entries: undoing rebased entries after a remote changeset agrees with undoing the original ones and applying the residual if and only if the raw actions have the effect on the snapshot that taking them in had |
| Sessions.TakeInKeepsHistory | packages/core/src/engine/engine.ts:399-405 | Where remote actions pass the local ones with their effect on the snapshot, every undo and redo entry stays valid |
| Sessions.ClearTakeInKeepsHistory | packages/core/src/engine/engine.ts:399-405 | In particular with nothing buffered or pending |
| Sessions.StepKeepsHistory | packages/core/src/engine/engine.ts:92-464 | Commands, undos, redos, sending, deliveries and acknowledgements on the client with its stacks keep every entry valid |
| Sessions.LoadedKeepsHistory | packages/core/src/engine/engine.ts:92-464 | So do all runs of them from a freshly loaded document, as long as commands that change the snapshot can be undone and entries pass the local operations with their effect |
| Sessions.RunWithinLimit | packages/core/src/command_manager/undo_manager.ts:70-124 | Through any run of commands, undos, redos, sending, deliveries and acknowledgements, whatever is buffered and whatever fits, the stacks hold at most 50 entries together |
| Sessions.StepWithinLimit | packages/core/src/command_manager/undo_manager.ts:43-124 | Of these only a fresh command can make them hold more than before, and a redo keeps every undo entry |
| History.TransformStackCommutes | packages/core/src/command_manager/undo_manager.ts:157-189 | For every depth k of kept entries: undoing k rebased entries after the remote actions reaches the document that undoing k original ones and then the residual remote actions reaches |
| History.KeptIff | packages/core/src/command_manager/undo_manager.ts:153-175 | At least the top k entries are kept if and only if each of them is within the size limit against what is left of the remote actions there |
| History.KeptFromTop | packages/core/src/command_manager/undo_manager.ts:157-175 | The kept entries carry the command names of the stack's top ones, in order |
| History.ExecuteEvictsIff | packages/core/src/command_manager/undo_manager.ts:98-123 | Whatever fits: a fresh command evicts at most the oldest undo entry, exactly when the stack is full and the command is recorded, and then empties the redo stack |
| History.KeysEvictNothing | packages/core/src/command_manager/undo_manager.ts:43-65 | Whatever fits: an undo or a redo takes its entry off the top of one stack, adds at most one to the other and evicts nothing |
| History.RunWithinLimit | packages/core/src/command_manager/undo_manager.ts:43-189 | In every run of commands, undos, redos and remote edits, whatever fits or can be undone, the two lengths together never exceed 50 |
| History.ExecuteOk | packages/core/src/command_manager/undo_manager.ts:98-123 | A fresh command keeps both stacks valid |
| History.UndoOk | packages/core/src/command_manager/undo_manager.ts:43-53 | An undo applies its entry and keeps both stacks valid |
| History.RedoOk | packages/core/src/command_manager/undo_manager.ts:55-65 | A redo keeps both stacks valid and evicts nothing |
| History.RemoteOk | packages/core/src/command_manager/undo_manager.ts:177-189 | A remote edit keeps both stacks valid |
| History.RebaseCommutesIff | packages/core/src/command_manager/undo_manager.ts:157-189 | With the snapshot changed to s1 while a stack is rebased: undoing k rebased entries from s1 agrees with undoing the original ones and applying the residual if and only if s1 is what the remote actions make of the snapshot |
| History.NonUndoableIff | packages/core/src/command_manager/command_manager.ts:233-235 | After a command that cannot be undone, replaying any number of entries of either stack leads where it led before if and only if the command did not change the snapshot |
| History.CheckedUndoneIff | packages/core/src/command_manager/command_manager.ts:233-247 | The stored inverse of the original actions takes back the checked ones that were applied if and only if both have the same effect |
| History.RunOk | packages/core/src/command_manager/undo_manager.ts:43-189 | In every run in which commands and remote edits fit and commands that change the snapshot can be undone, each entry of both stacks is valid where it would be applied |
| History.UndoNIsAfter | packages/core/src/command_manager/undo_manager.ts:43-53 | k undos walk down the undo stack: the snapshot is the replay of the top k entries and those are gone from the stack |
| History.RedoUndoesUndo | packages/core/src/command_manager/undo_manager.ts:43-124 | An undo followed by a redo restores snapshot and both stacks |
| History.UndoRedoRoundTrip | packages/core/src/command_manager/undo_manager.ts:43-124 | k undos and k redos restore everything if and only if none of the k entries had been rebased to nothing |
| History.UndoRestores | packages/core/src/command_manager/undo_manager.ts:43-124 | Executing up to 50 undoable commands and undoing as many restores the snapshot |
| Commands.UndoManager.AddUndoStack | packages/core/src/command_manager/undo_manager.ts:78-124 | Pushes the inverse on the right stack, trims only the undo stack, forgets redo only on a fresh command |
| Commands.UndoManager.TransformStack | packages/core/src/command_manager/undo_manager.ts:157-175 | The downward loop with its break and final reversal computes the rebased stack |
| Commands.UndoManager.DoTransform | packages/core/src/command_manager/undo_manager.ts:177-189 | Rebases both stacks, or nothing when there are no actions |
| Commands.UndoManager.Undo | packages/core/src/command_manager/undo_manager.ts:43-53 | Pops and executes the top entry; stacks, snapshot and the operation handed on are those of `Sessions.Undone` |
| Commands.UndoManager.Redo | packages/core/src/command_manager/undo_manager.ts:55-65 | The same for redo |
| Commands.CollaCommandManager.ExecuteActions | packages/core/src/command_manager/command_manager.ts:207-304 | Early exits change nothing and hand on nothing; otherwise the inverse is recorded, the actions are applied, and the operation of `Sessions.Executed` is handed on |
| References.CheckRefIff | packages/core/src/compute_manager/compute_reference_manager.ts:82-93 | The check succeeds if and only if no cycle can be reached from the key, on every finite graph |
| Compute.ComputeRefManager.CheckRef | packages/core/src/compute_manager/compute_reference_manager.ts:82-93 | The recursion with copied visited sets terminates and answers exactly that |
| Compute.ComputeRefManager.GetAllEffectKeysByKey | packages/core/src/compute_manager/compute_reference_manager.ts:206-232 | Returns exactly the keys reachable by one or more edges, on cyclic graphs too |
| Compute.Collect | packages/core/src/compute_manager/compute_reference_manager.ts:211-219 | The depth-first walk adds only reachable keys and leaves the new ones closed under edges; it terminates because collected keys are not entered again |
| Compute.GetRefDstIds | packages/core/src/compute_manager/compute_reference_manager.ts:55-79 | Exactly the datasheets of the keys reachable from any key made of the datasheet id, a dash and one of the given fields |
| Compute.DstOfIs | packages/core/src/compute_manager/compute_reference_manager.ts:77 | The datasheet of a key is its longest start without a dash |
| Compute.DstOfKeyOf | packages/core/src/compute_manager/compute_reference_manager.ts:77 | The datasheet id is read back from a key exactly when it has no dash |
| Compute.ComputeRefManager.AddReRef | packages/core/src/compute_manager/compute_reference_manager.ts:35-37 | The forward entry is replaced |
| Compute.ComputeRefManager.AddRef | packages/core/src/compute_manager/compute_reference_manager.ts:39-47 | One backward edge is added |
| Compute.ComputeRefManager.RecordField | packages/core/src/compute_manager/compute_reference_manager.ts:163-177 | Recording one field replaces its forward edges and adds, never removes, backward edges |
| Compute.ComputeRefManager.CleanFieldRef | packages/core/src/compute_manager/compute_reference_manager.ts:105-119 | Removes the edges recorded for the key from both maps and drops emptied entries |
| Compute.ComputeRefManager.Clear | packages/core/src/compute_manager/compute_reference_manager.ts:124-127 | Both maps are empty |
| References.RecordedEdges | packages/core/src/compute_manager/compute_reference_manager.ts:163-177 | Which edges exist in both maps after recording a field |
| References.CleanedEdges | packages/core/src/compute_manager/compute_reference_manager.ts:105-119 | Cleaning removes exactly the edges recorded for the key, keeps all others and leaves no empty entry it touched |
| References.LastEventDecides | packages/core/src/compute_manager/compute_reference_manager.ts:105-193 | After every run of recordings and cleanings a key has the dependencies recorded for it last, and none if it was cleaned since |
| References.RunCovers | packages/core/src/compute_manager/compute_reference_manager.ts:138-193 | After every run of recordings and cleanings the backward map contains the converse of the forward map |
| References.RecordedExactIff | packages/core/src/compute_manager/compute_reference_manager.ts:138-193 | One recording keeps the maps exact converses if and only if no old dependency is lost |
| References.RunExact | packages/core/src/compute_manager/compute_reference_manager.ts:105-193 | They stay exact converses in every run in which each recording follows a cleaning of its key |
| References.ExactThroughoutIff | packages/core/src/compute_manager/compute_reference_manager.ts:105-193 | They stay exact converses throughout a run if and only if no recording in it loses a dependency its key has at that point |
| References.DependentsAreAffected | packages/core/src/compute_manager/compute_reference_manager.ts:206-232 | Whatever a key depends on, at any distance, has that key among the keys it affects |
| LinkedData.SetRecordSets | packages/core/src/model/datasheet.ts:778-827 | The cell action, computed on the snapshot before the command, sets that cell and nothing else |
| LinkMaintainer.LinkedDataConformanceMaintainer.InsertLinkedRecordChange | packages/core/src/model/linked_data_conformance_maintainer.ts:114-146 | The nested maps then hold one more noted addition or removal, and nothing else changes |
| LinkMaintainer.LinkedDataConformanceMaintainer.InsertCell | packages/core/src/model/linked_data_conformance_maintainer.ts:54-112 | Notes, at the other end, what the value gained and lost; a removal only where the other cell holds the record |
| LinkMaintainer.LinkedDataConformanceMaintainer.FlushLinkedActions | packages/core/src/model/linked_data_conformance_maintainer.ts:152-192 | One action list per noted datasheet, each taking that datasheet to exactly the snapshot the notes describe; the notes are forgotten |
| LinkMaintainer.FlushDatasheet | packages/core/src/model/linked_data_conformance_maintainer.ts:161-187 | Actions all computed on the old snapshot add up when applied in order |
| LinkSymmetry.SymmetricIff | packages/core/src/model/linked_data_conformance_maintainer.ts:54-192 | After the direct writes and the flush the two ends agree on every pair again if and only if every added link leads to an existing record |
| LinkSymmetry.PairAgrees | packages/core/src/model/linked_data_conformance_maintainer.ts:54-192 | For one pair whose far record exists, the two ends agree |
| LinkSymmetry.DupFreeKept | packages/core/src/model/linked_data_conformance_maintainer.ts:173-179 | Without duplicates in the cells and the new values before, no cell of either end holds a record twice afterwards |
| LinkSymmetry.OthersUntouched | packages/core/src/model/linked_data_conformance_maintainer.ts:152-192 | Every cell that no change is to keeps its value, and at the far end every cell to which no change adds or removes a link, order included |
| LinkSymmetry.ExecuteSetRecords | packages/core/src/commands/datasheet/set_records.ts:154-167 | The command's loop notes every changed cell with its true old value and collects the direct writes |
| LinkSymmetry.SetLinkCells | packages/core/src/command_manager/command_manager.ts:181-193 | Executing and flushing yields action lists that reach the two snapshots the theorems speak of |
| LinkRuns.StepLinkedIff | packages/core/src/model/linked_data_conformance_maintainer.ts:54-192 | A command on either end leaves linked datasheets linked (symmetric, cells in existing records only) if and only if every link it adds leads to an existing record |
| LinkRuns.LinkedThroughoutIff | packages/core/src/model/linked_data_conformance_maintainer.ts:54-192 | Through any sequence of commands from either end the datasheets stay linked if and only if every link added at its turn leads to an existing record |
| LinkRuns.RunKeepsNoRepeats | packages/core/src/model/linked_data_conformance_maintainer.ts:173-179 | In such a run no cell comes to hold a record twice, if none did and no value does |
| Operands.MergeOperand | packages/core/src/automation_manager/utils.ts:210-220 | A merge is never larger than its inputs together, and smaller when it merges, which is why merging merged values terminates |
| Operands.ObjectComb | packages/core/src/automation_manager/utils.ts:139-164 | The folded list is never larger than the input |
| Operands.ObjectCombKeys | packages/core/src/automation_manager/utils.ts:139-164 | The keys of the result are distinct and in order of first occurrence |
| OperandUtils.ObjectCombOperand | packages/core/src/automation_manager/utils.ts:139-164 | The loop over the flat, growing list with its index arithmetic computes the fold |
| OperandUtils.CombineInto | packages/core/src/automation_manager/utils.ts:141-161 | One round: a known key, found at an even position, has the value behind it merged or replaced; a new key is appended with its value |
| OperandUtils.MergeOperands | packages/core/src/automation_manager/utils.ts:210-220 | The mutually recursive merge computes the same |
| DeepMerge.MergeOperandIsMerge | packages/core/src/automation_manager/utils.ts:177-220 | Merging the operands of two objects is the operand of their deep merge in which the later value wins |
| DeepMerge.MergeWellFormed | packages/core/src/automation_manager/utils.ts:177-220 | The deep merge of objects with distinct keys has distinct keys at every level |
| OperandExec.DenotesData | packages/core/src/automation_manager/utils.ts:172-208 | An operand can be read back: the operand made of data stands for exactly that data, item by item and key by key |
| OperandExec.Data2OperandInjective | packages/core/src/automation_manager/utils.ts:172-208 | Different data have different operands |
| OperandExec.MergedDenotes | packages/core/src/automation_manager/utils.ts:177-220 | The merge of two objects' operands stands for the objects' deep merge |
| OperandExec.ExecDataIff | packages/core/src/automation_manager/magic_variable/sys_functions/base.ts:81-103 | Executing the operand made of data yields that data if and only if no array in it is a number alone, which the Array constructor takes for a length |
| OperandExec.ExecWellFormed | packages/core/src/automation_manager/magic_variable/sys_functions/base.ts:81-103 | Whatever execution yields has no key twice in an object, at any level |
| OperandExec.FromEntriesLast | packages/core/src/automation_manager/magic_variable/sys_functions/base.ts:85-95 | Of several values under one key the object has the last |
| OperandExec.LoneNumberIsLength | packages/core/src/automation_manager/magic_variable/sys_functions/base.ts:100-103 | The list of a number alone comes out as a list of that many holes, and not at all if the number is negative or does not fit 32 bits |
| MergePaths.MergeAt | packages/core/src/automation_manager/utils.ts:210-220 | At every path of keys the second object has the last word: what it replaces further up is its own, two objects stay an object, anything else it has is taken, and what it does not mention stays as in the first |
| OperandProperty.PositionInPairsIff | packages/core/src/automation_manager/utils.ts:53-61 | The search through keys and values finds the key's own position if and only if no value in front of it is the bare string of the key |
| OperandProperty.PropertyOfData | packages/core/src/automation_manager/utils.ts:53-75 | Reading a property of an object's operand gives the operand of that property, or null when the object lacks it |
| OperandProperty.PropertyOfMerge | packages/core/src/automation_manager/utils.ts:53-75 | Reading a property after a merge gives the merge of the property |
| OperandProperty.PropertyOfNoObject | packages/core/src/automation_manager/utils.ts:63-75 | What is no object operand gives the empty object or list its schema asks for, else null, and null where there is nothing at all |
| OperandProperty.ValueTakenForKey | packages/core/src/automation_manager/utils.ts:54-61 | A bare string in a value position that equals the key is taken for the key |
| Datasheet.AllUndone | packages/core/src/model/datasheet.ts:342-905 | Actions that record what they find are undone by their reversed inverse |
| ViewEdits.AllViewsApply | packages/core/src/model/datasheet.ts:349-407 | Although each view's actions are computed on the old snapshot, each view gets exactly its own edits, and the whole list fits exactly when every view's does |
| Datasheet.SlotUndoneIff | packages/core/src/command_manager/undo_manager.ts:86-117 | The inverse of an object edit restores the slot if and only if the edit records what the slot held |
| DeleteRecords.RowDeletesApply | packages/core/src/model/datasheet.ts:882-899 | Behind the rows kept so far, the remaining deletes are in range, name the right rows and leave the kept ones |
| DeleteRecords.StrategiesAgree | packages/core/src/model/datasheet.ts:862-905 | One-by-one deletes and bulk replacement reach the same rows, both in range and recording exactly what they find |
| DeleteRecords.DeleteActionsApply | packages/core/src/model/datasheet.ts:832-949 | Whichever strategy is chosen, the records and their rows are gone and nothing else has changed |
| DeleteRecords.DeleteUndoneIff | packages/core/src/model/datasheet.ts:907-946 | Undoing a deletion restores the snapshot if and only if every cell of the deleted records can be edited |
| DeleteRecords.DeletedMeans | packages/core/src/model/datasheet.ts:832-949 | On the snapshot the actions reach: no deleted record is left, every other one is as it was, and each view is as it was but for the rows of deleted records |
| DeleteRecords.KeptInOrder | packages/core/src/model/datasheet.ts:867-872 | The rows that stay are chosen one by one (with `KeptOne`) and keep their order |
| DeleteRecords.ActionsPerView | packages/core/src/model/datasheet.ts:853-905 | One bulk action per view exactly when more than half of more than 100 records, or more than 500 records, are deleted; otherwise one action per row that goes |
| DeleteRecords.DeletedAndUndone | packages/core/src/model/datasheet.ts:907-946 | Deleting and undoing, on the snapshots reached: views and other records are as they were, and of each deleted record, under its id, exactly the editable cells are back with their values |
| DeleteField.CleanTakes | packages/core/src/model/datasheet.ts:443-558 | The cleaning edits of one view do not get in each other's way and record what they find |
| DeleteField.NothingRefersIff | packages/core/src/model/datasheet.ts:443-558 | In a view that may be cleaned nothing (filter condition, group or sort rule, kanban or gantt field) refers to the field afterwards if and only if at most one group rule and at most one sort rule did; existing frozen columns still exist |
| DeleteField.RulesAfterIff | packages/core/src/model/datasheet.ts:443-474 | No rule of the field is left if and only if it had at most one |
| DeleteField.RulesAfterInOrder | packages/core/src/model/datasheet.ts:443-474 | Only the first rule of the field goes; the others stay in their order |
| DeleteField.OtherConditionsInOrder | packages/core/src/model/datasheet.ts:520-545 | The filter conditions that stay are those on other fields, in their order: two stretches are filtered one by one |
| DeleteField.DeleteFieldApplies | packages/core/src/model/datasheet.ts:424-586 | The generated actions delete the field as described, each in range and recording what it finds |
| DeleteField.DeleteFieldMeans | packages/core/src/model/datasheet.ts:424-586 | On the snapshot the actions reach: every view that shows the field loses its column, and, unless it is locked, of the command's datasheet and not the command's own view, the filter conditions on the field, its first group and sort rule, its kanban and gantt places and one frozen column if it was one; nothing else changes |
| DeleteField.DeleteFieldCleansIff | packages/core/src/model/datasheet.ts:509-558 | A view that is unlocked, the command's own or not of the command's datasheet has nothing referring to the field afterwards if and only if it had at most one group and one sort rule on it; any other differs in its columns only |
| DeleteField.OnlyItsColumn | packages/core/src/model/datasheet.ts:424-586 | A view in which nothing but its column refers to the field gets one action, the deletion of the column |
| DeleteField.DeleteFieldUndone | packages/core/src/model/datasheet.ts:424-586 | Undoing a field deletion restores the snapshot |
| AddField.AddFieldApplies | packages/core/src/model/datasheet.ts:342-419 | Whatever the computed index, every view that does not show the field gets one column for it, where splicing puts it, and the field is recorded |
| AddField.AddFieldMeans | packages/core/src/model/datasheet.ts:342-419 | On the snapshot the actions reach: every view that does not show the field has one more column, spliced in at the index found for that view, and nothing else changes but the recorded field |
| AddField.NewColumnIndexIs | packages/core/src/model/datasheet.ts:351-367 | The index is `offset` places from the reference field if one is given, else the given one in the view it is for, else the end |
| AddField.NewColumnHidden | packages/core/src/model/datasheet.ts:373-400 | Whether the new column is hidden, for every kind of view: as asked in the view it is added from and in views that show all columns, hidden in others, and hidden in their own way in gantt, calendar and organisation chart views |
| AddField.AddFieldUndoneIff | packages/core/src/model/datasheet.ts:342-419 | Undoing an added field restores the snapshot if and only if, in every view that got a column, the computed index was in range or lay in front of the whole list |
| AddField.NewColumnPlaced | packages/core/src/model/datasheet.ts:351-367 | The new column is the only one added and the others keep their order; with an index in range it stands `offset` places from the reference field |
| Records.AddRecordApplies | packages/core/src/model/datasheet.ts:739-773 | Whatever the index, every view that does not show the record gets one row for it, and the record is stored |
| Records.AddRecordMeans | packages/core/src/model/datasheet.ts:739-773 | On the snapshot the actions reach: the given view has the row at the index, where splicing puts it, every other view that does not show the record at its end, and nothing else changes but the stored record |
| Records.AddRecordUndoneIff | packages/core/src/model/datasheet.ts:739-773 | Undoing an added record restores the snapshot if and only if every view that got a row finds it again; only the active view, with an index out of range, can fail to |
| Records.MoveRowMoves | packages/core/src/model/datasheet.ts:1027-1045 | The row ends up at the target, or as near as splicing puts it, the others keep their order and nothing else changes; the inverse takes it back if and only if the target is a row |
| Records.MoveColumnMoves | packages/core/src/model/datasheet.ts:610-629 | The same for a column |
| Records.SetRecordSets | packages/core/src/model/datasheet.ts:778-827 | The cell reads as the value, an empty list as no value, and nothing else has changed |
| Records.SetRecordNormalised | packages/core/src/model/datasheet.ts:800-808 | No cell is ever stored empty |
| Records.SetRecordUndoneIff | packages/core/src/model/datasheet.ts:787-827 | The recorded inverse restores the snapshot exactly, unless an empty list was written to an absent cell or a stored null was overwritten |
| Records.NormalisedUndone | packages/core/src/model/datasheet.ts:787-827 | Where no cell is stored empty, only the empty list written to an absent cell is not undone |
| Records.LinkCellsAgree | packages/core/src/model/datasheet.ts:778-827 | On link cells the generator is the one whose symmetry is proved |
| DatasheetActions.AddField2Action | packages/core/src/model/datasheet.ts:342-419 | The loop over the views pushes exactly the actions the theorems speak of |
| DatasheetActions.AddRecord2Action | packages/core/src/model/datasheet.ts:739-773 | The same for adding a record |
| DatasheetActions.DeleteField2Action | packages/core/src/model/datasheet.ts:424-586 | The same for deleting a field |
| DatasheetActions.RowsToDelete | packages/core/src/model/datasheet.ts:882-899 | Noting indices first and shifting them by position afterwards gives the deletes of a single pass |
| DatasheetActions.NextViewRows | packages/core/src/model/datasheet.ts:867-872 | The loop keeps the rows that are not deleted, in order |
| DatasheetActions.DeleteRecords | packages/core/src/model/datasheet.ts:832-949 | The whole generator, both strategies, builds exactly the actions the theorems speak of |
| WellFormed.ExecuteIs | packages/core/src/model/datasheet.ts:342-1045 | Every command's actions fit, whatever its indices, and lead to the snapshot described for it |
| WellFormed.ExecuteKeeps | packages/core/src/model/datasheet.ts:342-1045 | Each command keeps every view listing every field once and every record once |
| WellFormed.RunKeeps | packages/core/src/model/datasheet.ts:342-1045 | So does any sequence of commands, also with indices out of range |
| WellFormed.CommandUndoneIff | packages/core/src/model/datasheet.ts:342-1045 | A command is undone by the reversed inverse of its actions if and only if it drops no cell on the way and its indices lead the inverse back to the same place |
| WellFormed.RunUndone | packages/core/src/model/datasheet.ts:342-1045 | Undoing a whole run of such commands, last first, restores the first snapshot |
| ViewPatch.SaveReads | packages/core/src/model/datasheet.ts:1793-1833 | The saved edits take the server's view to one that reads like the local one on every key but the ignored ones, which stay |
| ViewPatch.SavedKeys | packages/core/src/engine/view_property_filter.ts:44 | Exactly the differing properties other than id, type, rows, name and lockInfo are sent |
| ViewPatch.ResetKeys | packages/core/src/engine/view_property_filter.ts:44 | Exactly these are reset, but for those that are falsy on both sides |
| ViewPatch.SaveExactIff | packages/core/src/model/datasheet.ts:1793-1833 | The keys present agree too if and only if no key is present but undefined on one side only |
| ViewPatch.SaveUndoneIff | packages/core/src/model/datasheet.ts:1793-1833 | The inverse gives the server back its view if and only if no key that it holds with an undefined value was given a value |
| ViewPatch.ResetReads | packages/core/src/model/datasheet.ts:1835-1876 | The reset view reads like the server's up to falsy values and keeps its own ignored properties |
| ViewPatch.ResetExactIff | packages/core/src/model/datasheet.ts:1835-1876 | It reads exactly like the server's if and only if no falsy value of the server's is lost |
| ViewPatch.ResetUndoneIff | packages/core/src/model/datasheet.ts:1835-1876 | The inverse restores the local view if and only if no stored falsy value was overwritten by an insert |
| ViewPatch.ManualSaveView | packages/core/src/model/datasheet.ts:1793-1833 | The loop over the keys, in any order, builds one edit per differing key; a view that is not found makes it throw, as the index is compared with null, unless the server's view has only ignored keys |
| ViewPatch.ResetView | packages/core/src/model/datasheet.ts:1835-1876 | The same for resetting |
| Witnesses.RebasedAwayEntryIsLost | packages/core/src/command_manager/undo_manager.ts:43-65 | A reachable history in which one undo and one redo lose an entry |
| Witnesses.EmptyListIsNotUndone | packages/core/src/model/datasheet.ts:800-808 | Undoing an empty list written to an absent cell stores a null |
| Witnesses.UneditableCellIsLost | packages/core/src/model/datasheet.ts:911-921 | A cell that cannot be edited does not come back |
| Witnesses.SecondRuleStays | packages/core/src/model/datasheet.ts:443-474 | Of two sort rules on the deleted field the second stays |
| Witnesses.MissingReferenceIsNotUndone | packages/core/src/model/datasheet.ts:362-366 | Placed before a field the view does not show, the column index is -1: the column lands before the last one and undoing removes that one instead |
| Witnesses.ResetKeepsFalsy | packages/core/src/model/datasheet.ts:1848-1876 | A local 0 stays where the server has an empty string |
| Witnesses.StaleEdgeStays | packages/core/src/compute_manager/compute_reference_manager.ts:163-177 | A field recomputed without cleaning keeps an edge to a field it no longer uses |
| Witnesses.DanglingLinkIsOneSided | packages/core/src/model/linked_data_conformance_maintainer.ts:168-171 | A link to a record that is not there has no other end |

## Left out

- Convergence.Converges: speaks of disciplined runs, because outside them the code can diverge (`Divergence`); so it does not cover runs in which the server's merge of a link cell changes what the author shows (`Amendments`).
- Delivery.ExactlyOnceInOrder: asks that message ids are fresh, as they are drawn at random.
- Convergence.HarmfulBreaks: says nothing where what is passed on does not fit, like `ClientState.CountedTakeInIff`; `Divergence.DeletedAfterAckStays` shows such a run.
- Convergence.AmendedIff: speaks of an author at the end of the log, where rebasing and acknowledgement meet; `ClientState.AckedIff` speaks of any author about to count its entry.
- ClientState.CountedTakeInIff: asks that what is passed on fits the acknowledged document; with an empty buffer `ClientState.CountedUnbufferedIff` does not, with a non-empty one the laws of the library say nothing about actions that do not fit.
- History.RunOk: for the validity of the entries, speaks of remote edits as they come with nothing pending or buffered, and of undoable commands or ones without effect; `History.NonUndoableIff` and `Sessions.TakeInCommutesIff` say exactly what happens otherwise.
- LinkSymmetry.SymmetricIff: speaks of two distinct datasheets whose link was symmetric before the command.
- Commands.CollaCommandManager.ExecuteActions: a command's registered undoability stands for its undo and redo hooks, which no command of the repository defines; the checks that may change actions are not modelled, only their consequence for undo (`History.CheckedUndoneIff`).
- Protocol.Join: a client loads a document with nothing stored locally. Resuming from locally stored changes (`packages/core/src/engine/engine.ts:352-397`): when no fetched entry matches, the last one is dropped, so it is outside the convergence theorem; timers and polling of `prepare` likewise.
- The answer to a duplicate message (`packages/core/src/sync/room.ts:556-562`), the clearing of all storage after a rejection, and sockets, fetch failures, localStorage failures, logging, tracking and redux dispatch.
- How the server finds the actions to merge (`packages/room-server/src/database/ot/services/ot.service.ts:543-611,621-703`): composing the missed actions of a cell, refusing a changed link field and column replacements of different length. In `Protocol` any function of the log and the actions stands for it; the merge of two values and the merged action are modelled (`LinkMerge`), and in `Amendments` two single actions are merged.
- Operations the server appends on acknowledgement (system record and field changes).
- List move and text edits in the concrete JSON instance; the generic theorems hold for every instance that meets the laws. Move actions are modelled in the snapshot language of `Datasheet`.
- ViewPropertyFilter: taken as the identity, as it is with manual saving of views switched off.
- The cell-format and link-integrity checks themselves, commands with a field-map snapshot, and actions of linked datasheets inside undo entries (inverted but never rebased).
- Alarms, field types beyond numeric or not, column widths and other view style properties; record metadata.
- Self-links, where a link field is its own other end.
- Formula parsing and value evaluation: a field's dependencies are a parameter of `RecordField`.
- Sharing of dependency sets between two managers built from shallow copies of the same maps: the sets are values here.
- JavaScript's enumeration order: loops over sets, maps and object keys take their elements in any order, and the contracts hold for every order. The enumeration order of data merged by operands is that of the entry list, so integer-like keys are not reordered.
- Operand execution beyond `newObject` and `newArray`, and object keys that are not strings; the holes of a list read as null, and numbers are integers.
- Bookkeeping.ReachesLogEnd: speaks of entries handled one after the other; what a fetched list does in one go is said by `ClientState.FetchedListThrowsIff`.
- Array, text and widget operations of the automation utilities, permissions, the cell cache, user interface and server bootstrap.
