# Notelayer: verified models of its data layer

Notelayer is a to-do app. This project models the parts of it where state and wire formats are intricate, and
proves what they promise. Each module mirrors one component.

* **Protocol buffers** (`PbWire`, `PbMessage`, `PbStream`, `PbEncode`, `PbDecode`, `PbRoundTrip`, `PbMessageIO`,
  `PbDefault`, `PbFormat`, `PbFieldIter`, `PbStruct`): the nanopb encoder as methods over a mutable output stream. A
  message is a finite tree of descriptors and values. `Enc` says which bytes a message stands for; every encoding
  method is proved to emit exactly those bytes, on a sizing stream as on a bounded one, and to fail exactly when the
  message is bad or the space is short. `PbDecode` is a reader written from the Protocol Buffers "Encoding" guide
  (sections "Base 128 Varints", "Signed Integers", "Message Structure" and the one on packed repeated fields), and
  `PbRoundTrip` proves that it recovers every message; `PbFormat` says with numbers which bytes these are. `PbStruct`
  joins encoder and field iterator: encoding the bytes of a struct, nested structs included, at the addresses the
  iterators yield, emits the message stored there.
* **Tasks** (`TaskModel`, `TaskHierarchy`, `TaskDeletion`, `TaskReorder`, `TaskEdits`, `TaskImport`, `TaskRuns`,
  `TaskLoose`, `TaskUndo`, `TaskEffects`, `TaskExamples`, `TaskStore`): the flat task array of `LocalStore` with one
  level of subtasks, completion that moves from children to parent, manual reopening, drag and drop, imports, undone
  deletions, and the clean-up of stored data. `TaskStore.LocalStore` updates the array in place; the functions it is
  proved against are where the invariant over all runs is proved.
* **Categories** (`CategoryBoard`, `CategoryEffects`, `CategoryStore`): the ordered list with the interleaved
  "Uncategorized" slot.
* **Shared imports** (`Texts`, `SharedImport`, `SharedContent`, `SharedQueue`, `SharedTasks`): the retry queue filled
  by the share extension.
* **Metadata sync** (`MetadataSync`, `MetadataRest`, `MetadataEnds`, `MetadataStore`): several devices, one server
  document, unconditional pushes that may land late and in any order, and a last-writer-wins reconcile on every
  snapshot. Safety over every interleaving, and convergence: left alone, the exchange ends in agreement.
* **Usage log** (`TelemetryKey`, `Telemetry`, `TelemetryStore`, `TelemetryLog`, `UsageLog`, `Quartile`, `Insights`):
  raw events folded into counted buckets, and the aggregator that reads both.
* **CSV export** (`CsvExport`): the printer against a strict reader for section 2 of RFC 4180 that also accepts LF.

`Prelude`, `Lists`, `Sorting` and `Texts` hold shared vocabulary. Run `dafny verify dfyconfig.toml` to check everything.

## What the proofs brought to light

* Dates, priority and id are not escaped in the CSV export. The export is readable exactly when these texts hold no
  comma, quote or line end, and the date style in use has a comma in American English
  (`CsvExport.ExportIsReadIff`, `CsvExport.AmericanDatesBreakRows`).
* `addTask` drops a reopen mark only when the new task has no parent. A new subtask that carries a mark breaks the
  rule that marks are on parents (`TaskHierarchy.AddKeepsInv`, `TaskExamples.AddedMarkExample`). No caller passes both.
* `deleteTask` on a task with subtasks always leaves references to nothing (`TaskHierarchy.DeleteKeepsInv`,
  `TaskExamples.DeletedParentExample`). The app does call it so: `handleDelete` (TodosView.swift:1737-1742) asks only
  when `hierarchyEnabled`, which is false at lines 702, 861, 919 and 1155, and the editor (TaskEditView.swift:148-151)
  only when experimental features are on. `TaskLoose` proves what holds over runs with such deletions, and exactly
  which lists the clean-up on loading restores to all rules (`TaskLoose.SanitizeRepairs`, `TaskLoose.RunRepaired`).
* Undoing a deletion adds the task again, and `addTask` takes the mark of a top-level task off. The rules hold
  afterwards exactly when the task was not a parent reopened by hand above complete subtasks only
  (`TaskUndo.UndoneInvIff`, `TaskExamples.UndoneDeletionExample`), and the clean-up does not help
  (`TaskUndo.CleanedUndoIff`). Nor is everything restored that the rules leave open: undoing the deletion of a subtask
  takes the mark off its parent, and reopens a parent that was completed above an open subtask
  (`TaskExamples.UndoneSubtaskExample`, `TaskExamples.UndoneOpenSubtaskExample`; `TaskUndo.UndoneSameIff` says exactly
  when all comes back).
* Imported tasks are appended without reconciling their parents: a parent whose first subtasks arrive complete stays
  open (`TaskImport.ImportKeepsInv`, `TaskExamples.ImportedFirstSubtaskExample`). The only caller,
  `buildSharedImportPayload`, never sets a parent, so the app itself does not reach this
  (`SharedTasks.ImportsKeepInv`).
* `updateTask` reconciles nothing. The edits that keep the rules are exactly those of `TaskEdits.EditKeepsInvIff`; the
  four callers (TodosView.swift:753, 1038 and 1207, TaskEditView.swift:288) change no hierarchy field, so the app
  itself does not reach the edits that break them (`TaskExamples.EditedSubtaskExample`).
* A shared note is never rejected as empty: the attribution line is always there (`SharedImport.RejectedIffUntitled`).
* Without further user changes the devices agree after boundedly many steps, also when every push is heard of once by
  its own device and snapshots are fetched or folded finitely often (`MetadataEnds.ExchangeEndsInAgreement`). If the
  server keeps folding snapshots into later ones, a stale push and the newest one can overwrite each other without end
  (`MetadataEnds.FoldingCanLoop`); and so can two changes with the same timestamp (`MetadataEnds.EqualTimesCanLoop`).
* The iterator's marker for "same union" is an ordinary offset value. Two neighbouring unions with exactly that much
  padding between them are walked wrongly (`PbFieldIter.AddressesTrueIff`, `PbFieldIter.PaddingCanClash`). With a
  one-byte pb_size_t 255 bytes are enough; this repository builds nanopb with PB_FIELD_32BIT=1
  (ios-swift/Notelayer/Pods/Target Support Files/nanopb/nanopb.release.xcconfig:3), where it takes 4294967295.
* A oneof selector that names no member makes an otherwise empty submessage count as set
  (`PbDefault.StraySelectorCountsAsSet`).
* A bad entry of a packed array is met while its size is measured, on another stream, and the message is not copied
  back as `pb_encode_submessage` does: encoding fails and the stream names no reason (pb_encode.c:178-186;
  `PbEncode.EncodePackedArray`).
* A `|` inside an event or feature name can merge the counts of two features (`TelemetryKey.BarsCollide`), so that a
  feature that was used is reported as never used (`Insights.BarsHideUsage`). Over a set of events every run keeps all
  totals exactly when no two of them share a key and differ in what it stands for (`TelemetryLog.StandsIffUnmixed`).
* Compaction puts events at the start of their hour. The counts of a window survive every run exactly when no event is
  on the other side of one of its edges than that (`Insights.WindowAgreesIff`), as it can be when it was recorded in
  another time zone or lies in the future.

## Model

| member | source | states |
|---|---|---|
| PbStream.OStream.Sizing | ios-swift/Notelayer/Pods/nanopb/pb_encode.c:86-101 | a sizing stream has no memory behind it and starts at count 0 |
| PbStream.OStream.FromBuffer | ios-swift/Notelayer/Pods/nanopb/pb_encode.c:86-101 | a buffer stream starts at its buffer with nothing written and may write exactly bufsize bytes |
| PbStream.OStream.BufWrite | ios-swift/Notelayer/Pods/nanopb/pb_encode.c:74-84 | the bytes land at the write pointer, the pointer moves on by their number, the rest of the memory stays |
| PbStream.OStream.Write | ios-swift/Notelayer/Pods/nanopb/pb_encode.c:103-124 | a write succeeds exactly when it fits (always on a sizing stream), then advances bytes_written by its length; otherwise the stream reports an error; the write pointer stays start plus bytes_written and bytes_written stays within max_size |
| PbStream.EmitsThen | ios-swift/Notelayer/Pods/nanopb/pb_encode.c:528-550 | two calls in a row encode the concatenation, and fail when either part is bad or does not fit |
| PbStream.EmitsRound | ios-swift/Notelayer/Pods/nanopb/pb_encode.c:180-202 | one round of an encoding loop, on success and on the early return |
| PbWire.VarintRoundTrip | ios-swift/Notelayer/Pods/nanopb/pb_encode.c:608-628 | base-128 text of any 64-bit number is parsed back, whatever follows |
| PbWire.VarintLength | ios-swift/Notelayer/Pods/nanopb/pb_encode.c:608-628 | a number takes at most n groups exactly when it is below 128 to the n |
| PbWire.VarintFitsTenBytes | ios-swift/Notelayer/Pods/nanopb/pb_encode.c:608-628 | every 64-bit number fits the ten-byte local buffer |
| PbWire.FixedRoundTrip | ios-swift/Notelayer/Pods/nanopb/pb_encode.c:641-667 | little-endian bytes give the number back |
| PbEncode.VarintBytes | ios-swift/Notelayer/Pods/nanopb/pb_encode.c:618-625 | the loop of seven-bit groups fills the buffer with the base-128 text |
| PbEncode.EncodeVarint | ios-swift/Notelayer/Pods/nanopb/pb_encode.c:608-628 | a one-byte short cut or the group loop, then one write: exactly the base-128 text of the number |
| PbEncode.EncodeSvarint | ios-swift/Notelayer/Pods/nanopb/pb_encode.c:630-639 | shift and complement on 64-bit patterns emit the zigzag number |
| PbEncode.ShiftIsZigZag | ios-swift/Notelayer/Pods/nanopb/pb_encode.c:630-639 | the wrapped shift and complement is the zigzag map for every signed 64-bit number |
| PbEncode.EncodeFixed32 | ios-swift/Notelayer/Pods/nanopb/pb_encode.c:641-651 | emits the four little-endian bytes |
| PbEncode.EncodeFixed64 | ios-swift/Notelayer/Pods/nanopb/pb_encode.c:653-667 | emits the eight little-endian bytes |
| PbEncode.EncodeTag | ios-swift/Notelayer/Pods/nanopb/pb_encode.c:669-673 | emits the key of wire type and field number |
| PbEncode.EncodeTagForField | ios-swift/Notelayer/Pods/nanopb/pb_encode.c:675-707 | emits the key with the wire type that belongs to the field type |
| PbEncode.EncodeString | ios-swift/Notelayer/Pods/nanopb/pb_encode.c:709-715 | emits length and bytes |
| PbEncode.StringLength | ios-swift/Notelayer/Pods/nanopb/pb_encode.c:873-897 | the loop finds the text before the first NUL within the array |
| PbEncode.EncodeFixedSize | ios-swift/Notelayer/Pods/nanopb/pb_encode.c:769-850 | bool, fixed32 and fixed64 emit their wire form |
| PbEncode.EncodeInteger | ios-swift/Notelayer/Pods/nanopb/pb_encode.c:776-833 | integers are read at their C size, sign-extended and emitted; an illegal size is an error and emits nothing |
| PbEncode.EncodeBytes | ios-swift/Notelayer/Pods/nanopb/pb_encode.c:852-911 | bytes, strings and fixed-length bytes emit length and content; oversized bytes are an error |
| PbEncode.EncodeValue | ios-swift/Notelayer/Pods/nanopb/pb_encode.c:769-911 | the encoder of every field type emits exactly the value encoding or rejects exactly the bad values |
| PbEncode.CheckProto3DefaultValue | ios-swift/Notelayer/Pods/nanopb/pb_encode.c:240-337 | the recursive check, with its field loop for submessages, decides the default predicate for every field kind |
| PbEncode.SingularIsDefault | ios-swift/Notelayer/Pods/nanopb/pb_encode.c:271-337 | the check of one singular datum, submessages at any depth included |
| PbEncode.EncodeArray | ios-swift/Notelayer/Pods/nanopb/pb_encode.c:147-236 | arrays emit packed or unpacked form; a count above the array size is an error |
| PbEncode.EncodeUnpackedArray | ios-swift/Notelayer/Pods/nanopb/pb_encode.c:207-233 | a key before every entry |
| PbEncode.EncodePackedArray | ios-swift/Notelayer/Pods/nanopb/pb_encode.c:164-206 | key, payload length, payload: the length written equals the payload written after it; a bad entry is an error that the stream does not report |
| PbEncode.EncodePackedEntries | ios-swift/Notelayer/Pods/nanopb/pb_encode.c:197-205 | the entries one after the other |
| PbEncode.PackedSize | ios-swift/Notelayer/Pods/nanopb/pb_encode.c:168-189 | the size known in advance or measured on a sizing stream is the payload size |
| PbEncode.FixedArraySize | ios-swift/Notelayer/Pods/nanopb/pb_encode.c:170-177 | the two sizes that are computed without measuring are right |
| PbEncode.EncodeBasicField | ios-swift/Notelayer/Pods/nanopb/pb_encode.c:341-426 | presence, default suppression, oneof selection and arrays, field by field |
| PbEncode.EncodeSubmessage | ios-swift/Notelayer/Pods/nanopb/pb_encode.c:717-765 | size it, write the size, write it through a bounded substream: the emitted length is the emitted payload, at any depth |
| PbEncode.EncodeThroughSubstream | ios-swift/Notelayer/Pods/nanopb/pb_encode.c:744-765 | the writing pass emits as many bytes as were measured, so the "submsg size changed" branch is dead |
| PbEncode.Encode | ios-swift/Notelayer/Pods/nanopb/pb_encode.c:528-550 | the field loop emits the encoding of the message, and fails exactly when the message is bad or the space is short |
| PbEncode.GetEncodedSize | ios-swift/Notelayer/Pods/nanopb/pb_encode.c:567-576 | the reported size is the length of the encoding |
| PbEncode.EncodeToBuffer | ios-swift/Notelayer/Pods/nanopb/pb_encode.c:86-124 | encoding into n bytes succeeds exactly when the encoded size is at most n; the buffer then holds the encoding and is otherwise untouched |
| PbMessageIO.EncodeAndReadBack | ios-swift/Notelayer/Pods/nanopb/pb_encode.c:528-550 | what an encoding leaves in the buffer is read back as the message |
| PbRoundTrip.SignExtension | ios-swift/Notelayer/Pods/nanopb/pb_encode.c:583-606 | a negative int32 sent as ten bytes comes back as itself |
| PbRoundTrip.DecodesPacked | ios-swift/Notelayer/Pods/nanopb/pb_encode.c:164-206 | a packed payload is read back entry by entry |
| PbRoundTrip.DecodesArray | ios-swift/Notelayer/Pods/nanopb/pb_encode.c:147-236 | an array, packed or not, is collected again in order |
| PbRoundTrip.DefaultMsgIsCanon | ios-swift/Notelayer/Pods/nanopb/pb_encode.c:240-337 | a suppressed submessage equals what the reader starts from |
| PbRoundTrip.DecodesField | ios-swift/Notelayer/Pods/nanopb/pb_encode.c:341-426 | reading the bytes of field k turns the struct with fields below k into the one with fields up to k |
| PbRoundTrip.RoundTrip | ios-swift/Notelayer/Pods/nanopb/pb_encode.c:528-550 | a reader written from the Encoding guide, started from a default-filled struct, recovers every message that encodes without an error |
| PbRoundTrip.SameBytesSameMessage | ios-swift/Notelayer/Pods/nanopb/pb_encode.c:528-550 | messages with equal bytes agree in everything C looks at |
| PbDefault.DefaultIffNoBytes | ios-swift/Notelayer/Pods/nanopb/pb_encode.c:240-337 | a submessage counts as default exactly when it encodes to no bytes and its selectors name members and its fixed arrays are not empty |
| PbDefault.StraySelectorCountsAsSet | ios-swift/Notelayer/Pods/nanopb/pb_encode.c:258-262 | a selector that names no member makes an empty submessage count as set |
| PbFormat.VarintFormat | ios-swift/Notelayer/Pods/nanopb/pb_encode.c:608-628 | every byte but the last says that more follow, the seven-bit groups give the number, low group first, and none is wasted |
| PbFormat.KeyFormat | ios-swift/Notelayer/Pods/nanopb/pb_encode.c:669-707 | the key of a field is eight times its number plus 0 for bools and integers, 1 for fixed64, 2 for bytes, strings and submessages, 5 for fixed32 |
| PbFormat.VarintValues | ios-swift/Notelayer/Pods/nanopb/pb_encode.c:630-639 | a bool is one byte, an integer the varint of its 64-bit pattern, an sint of 2n or -2n-1 |
| PbFormat.FixedValues | ios-swift/Notelayer/Pods/nanopb/pb_encode.c:641-667 | fixed-width numbers are four or eight bytes, the low byte first |
| PbFormat.LengthPrefixed | ios-swift/Notelayer/Pods/nanopb/pb_encode.c:709-765 | bytes, strings up to their first NUL and submessages come after their length |
| PbFormat.FlaggedFields | ios-swift/Notelayer/Pods/nanopb/pb_encode.c:341-426 | a required field is always sent, a flagged one when its flag is set, a union member when its selector names it, whatever the value |
| PbFormat.UnflaggedFields | ios-swift/Notelayer/Pods/nanopb/pb_encode.c:240-337 | a proto3 field is left out exactly when it is false, zero, without bytes, an empty string or a default message |
| PbFormat.ArrayFields | ios-swift/Notelayer/Pods/nanopb/pb_encode.c:147-236 | an empty array is left out; numbers and bools are packed behind one key of type 2 and a length; the rest goes entry by entry |
| PbFormat.MessageFormat | ios-swift/Notelayer/Pods/nanopb/pb_encode.c:528-550 | the fields come one after the other in the order of the table |
| PbFormat.ValueErrors | ios-swift/Notelayer/Pods/nanopb/pb_encode.c:776-911 | a value is bad exactly when it is an integer of C size other than 1, 2, 4, 8, bytes that exceed their array, or a bad submessage |
| PbFormat.MessageErrors | ios-swift/Notelayer/Pods/nanopb/pb_encode.c:147-426 | a message is bad exactly when a field that is sent is bad or an array has more entries than room |
| PbFieldIter.AdvanceLands | ios-swift/Notelayer/Pods/nanopb/pb_common.c:54-82 | adding the previous size and the offset delta lands on the next member exactly when the padding between two adjacent unions is not the marker value |
| PbFieldIter.AddressesTrueIff | ios-swift/Notelayer/Pods/nanopb/pb_common.c:29-85 | every field is reported at its true address and with its true companion exactly when no padding of the struct clashes with the marker |
| PbFieldIter.StepLoses | ios-swift/Notelayer/Pods/nanopb/pb_common.c:54-82 | what one step adds to either pointer, clashes included |
| PbFieldIter.PaddingCanClash | ios-swift/Notelayer/Pods/nanopb/pb.h:399-409 | a struct that C allows in which the second union is reported at the address of the first |
| PbFieldIter.TableIs | ios-swift/Notelayer/Pods/nanopb/pb.h:415-457 | an entry of the table leads to the count, flag or selector of its member, and has the size of one item and how many fit |
| PbFieldIter.RequiredAre | ios-swift/Notelayer/Pods/nanopb/pb_common.c:69-79 | the index of required fields is the number of required fields passed |
| PbFieldIter.FieldIter.constructor | ios-swift/Notelayer/Pods/nanopb/pb.h:399-409 | an iterator over the table that the offset macros make of any valid struct layout starts at the first field |
| PbFieldIter.FieldIter.Begin | ios-swift/Notelayer/Pods/nanopb/pb_common.c:8-27 | true exactly when there is a field; both pointers are the true addresses of the first one |
| PbFieldIter.FieldIter.Next | ios-swift/Notelayer/Pods/nanopb/pb_common.c:29-85 | goes to the next field, or wraps around to the begin state and returns false; both pointers are the true addresses less what the clashes so far have cost |
| PbFieldIter.FieldIter.Find | ios-swift/Notelayer/Pods/nanopb/pb_common.c:87-104 | terminates; true exactly when the tag exists on a field that is no extension; on failure the iterator stands where it stood |
| PbFieldIter.FieldIter.Walk | ios-swift/Notelayer/Pods/nanopb/pb_encode.c:528-550 | the encoding loop visits every field once, in order, at struct base plus its offset less what the clashes before it have cost |
| PbStruct.MsgReported | ios-swift/Notelayer/Pods/nanopb/pb_common.c:29-85 | without a clash at any depth a message lies at the addresses that the iterators report exactly when it lies at the places of the members |
| PbStruct.ScalarIs | ios-swift/Notelayer/Pods/nanopb/pb_encode.c:769-911 | a bool in memory is true unless it is 0, bytes are counted in front, a string is its whole array |
| PbStruct.ScalarIsTyped | ios-swift/Notelayer/Pods/nanopb/pb_encode.c:769-911 | any bytes of memory read as a field give a value that the theorems about messages cover |
| PbStruct.ReadsAre | ios-swift/Notelayer/Pods/nanopb/pb_encode.c:776-833 | an integer is read from its bytes, the low byte first, a signed one in two's complement of its C size |
| PbStruct.SameFieldEncodes | ios-swift/Notelayer/Pods/nanopb/pb_encode.c:341-426 | what a field emits depends on nothing but what C looks at: value, has flag, count, selected union member |
| PbStruct.LoadField | ios-swift/Notelayer/Pods/nanopb/pb_encode.c:341-426 | a field read from the bytes at the address of its data, its companion at the offset of the descriptor, agrees with the field of the message; unselected members are not read |
| PbStruct.LoadStruct | ios-swift/Notelayer/Pods/nanopb/pb_encode.c:717-765 | a nested struct, walked with an iterator of its own at any depth, is read as the message stored in it |
| PbStruct.EncodeFieldAt | ios-swift/Notelayer/Pods/nanopb/pb_encode.c:341-426 | a field in memory emits what the field of the message emits |
| PbStruct.EncodeStruct | ios-swift/Notelayer/Pods/nanopb/pb_encode.c:528-550 | the do/while loop over the iterator emits the encoding of the message in the bytes of a struct, and fails exactly when the message is bad or the space is short |
| PbMessageIO.EncodeStructAndReadBack | ios-swift/Notelayer/Pods/nanopb/pb_encode.c:528-550 | iterators, encoder, buffer and reader together give back the message that is stored in the bytes of a struct without clashes |
| TaskHierarchy.ReconcileSettles | ios-swift/Notelayer/Notelayer/Data/LocalStore.swift:979-1029 | reconciling a parent restores the invariant of that parent and disturbs no other task |
| TaskHierarchy.AddKeepsInv | ios-swift/Notelayer/Notelayer/Data/LocalStore.swift:609-636 | adding a new task keeps the invariant exactly when it does not bring a reopen mark together with a parent |
| TaskHierarchy.SetParentKeepsInv | ios-swift/Notelayer/Notelayer/Data/LocalStore.swift:760-797 | reparenting keeps the invariant whatever ids it is given |
| TaskHierarchy.CompleteKeepsInv | ios-swift/Notelayer/Notelayer/Data/LocalStore.swift:878-919 | completing any task keeps the invariant |
| TaskHierarchy.RestoreKeepsInv | ios-swift/Notelayer/Notelayer/Data/LocalStore.swift:921-977 | reopening any task keeps the invariant |
| TaskHierarchy.DeleteKeepsInv | ios-swift/Notelayer/Notelayer/Data/LocalStore.swift:821-853 | deleting a task keeps the invariant exactly when it has no subtasks |
| TaskEdits.EditKeepsInvIff | ios-swift/Notelayer/Notelayer/Data/LocalStore.swift:656-663 | for any edit of a task the invariant survives exactly when the edit fits: below a top-level task only without subtasks, within the rules itself, and its old and new parent still within theirs, since nothing is reconciled |
| TaskEffects.ReconcileEffect | ios-swift/Notelayer/Notelayer/Data/LocalStore.swift:979-1029 | settling a parent changes no other task; without subtasks it loses its mark, with all complete it is completed unless a mark may stay, with one open it is reopened and loses its mark; it is stamped as the source stamps it |
| TaskEffects.AddEffect | ios-swift/Notelayer/Notelayer/Data/LocalStore.swift:609-636 | the new task comes last with order index, parent, categories and mark as the source fills them in; only its parent changes |
| TaskEffects.SetParentEffect | ios-swift/Notelayer/Notelayer/Data/LocalStore.swift:760-797 | refused exactly for an unknown task, itself, a task with subtasks or a parent that is not top-level; otherwise exactly parent, stamp, mark and empty categories of the task change, and its old and new parent are settled |
| TaskEffects.DeleteEffect | ios-swift/Notelayer/Notelayer/Data/LocalStore.swift:821-853 | exactly the task is gone, the others keep their order, only its parent changes |
| TaskEffects.CompleteEffect | ios-swift/Notelayer/Notelayer/Data/LocalStore.swift:878-919 | completedAt is now, reminder and mark are gone; only the parent changes beside it |
| TaskEffects.LastSubtaskCompleted | ios-swift/Notelayer/Notelayer/Data/LocalStore.swift:917-919 | completing the last open subtask completes the parent, but a parent with a reopen mark keeps it and stays open |
| TaskEffects.RestoreEffect | ios-swift/Notelayer/Notelayer/Data/LocalStore.swift:921-977 | completedAt is gone, a task with subtasks is marked, a past reminder is dropped; the parent is open and unmarked afterwards |
| TaskEffects.EditEffect | ios-swift/Notelayer/Notelayer/Data/LocalStore.swift:656-663 | the task becomes what the closure makes of it, stamped; nothing else changes |
| TaskEffects.ReorderedFirst | ios-swift/Notelayer/Notelayer/Data/LocalStore.swift:1118-1139 | the named tasks come first in the order of their names, numbered down from the base and stamped |
| TaskEffects.ReorderedRest | ios-swift/Notelayer/Notelayer/Data/LocalStore.swift:1118-1139 | the other tasks follow, unchanged and in their old order |
| TaskEffects.SortEffect | ios-swift/Notelayer/Notelayer/Views/TodosView.swift:467-469 | lists are sorted by descending order index, a missing one counting as 0 |
| TaskEffects.RemoveCategoryEffect | ios-swift/Notelayer/Notelayer/Data/LocalStore.swift:1261-1280 | the category is taken out everywhere, the replacement added last unless it is there, the task stamped; tasks without it stay |
| TaskEffects.WithoutIsFilter | ios-swift/Notelayer/Notelayer/Data/LocalStore.swift:1261-1280 | taking a category out keeps all others in order |
| TaskEffects.ImportEffect | ios-swift/Notelayer/Notelayer/Data/LocalStore.swift:1430-1477 | imported tasks come last in order, their order index, parent, categories and mark filled in as the source does |
| TaskDeletion.ParentDeletionConserves | ios-swift/Notelayer/Notelayer/Data/LocalStore.swift:799-819 | deleting with subtasks removes exactly the parent and its children; detaching removes exactly the parent and frees each child; order and all other fields stay |
| TaskDeletion.DeleteParentKeepsInv | ios-swift/Notelayer/Notelayer/Data/LocalStore.swift:799-819 | either strategy keeps the invariant |
| TaskReorder.ReorderPermutes | ios-swift/Notelayer/Notelayer/Data/LocalStore.swift:1118-1139 | reordering permutes the array and changes only order index and update time |
| TaskReorder.MovedOnlyMoves | ios-swift/Notelayer/Notelayer/Views/TodosView.swift:648-661 | the id list after a drop is the old one without the dragged id, which stands just before its target, or at the end, or first when no shown target is given |
| TaskReorder.ReorderShows | ios-swift/Notelayer/Notelayer/Views/TodosView.swift:467-469 | sorting the reordered tasks by descending order index shows the ids in the order that was asked for |
| TaskReorder.ListDropShows | ios-swift/Notelayer/Notelayer/Views/TodosView.swift:648-661 | after a list drop the group shows the old order with only the dragged task moved |
| TaskReorder.SubtaskDropShows | ios-swift/Notelayer/Notelayer/Views/TodosView.swift:1746-1763 | after an accepted subtask drop the list below the parent shows the old order with only the dragged task moved |
| TaskReorder.ReorderKeepsInv | ios-swift/Notelayer/Notelayer/Data/LocalStore.swift:1118-1139 | reordering keeps the hierarchy invariant |
| TaskRuns.StepKeepsInv | ios-swift/Notelayer/Notelayer/Data/LocalStore.swift:609-1477 | every call keeps the invariant exactly when it fits: a new id without mark and parent together, a fitting edit, a deletion of a task without subtasks, a fitting import; every other call always |
| TaskRuns.RunKeepsInv | ios-swift/Notelayer/Notelayer/Data/LocalStore.swift:609-1477 | over any run of calls, in every state parents exist, are top-level and not the task itself, a parent whose children are complete is complete or marked, and a mark implies top-level, open and a child, exactly when every call fits the state it is made in |
| TaskImport.ImportKeepsInv | ios-swift/Notelayer/Notelayer/Data/LocalStore.swift:1430-1477 | appending imported tasks with new ids keeps the invariant exactly when none brings a mark along with a parent and no open unmarked parent gets its first subtasks all complete |
| TaskLoose.DeleteKeepsLoose | ios-swift/Notelayer/Notelayer/Data/LocalStore.swift:821-853 | deleting any task, a parent included, keeps the looser invariant |
| TaskLoose.StepKeepsLoose | ios-swift/Notelayer/Notelayer/Data/LocalStore.swift:609-1139 | every operation keeps the looser invariant, with deletion unrestricted |
| TaskLoose.RunKeepsLoose | ios-swift/Notelayer/Notelayer/Data/LocalStore.swift:609-1139 | over every run with unrestricted deletions and their undoing: a reference names another top-level task or nothing at all; a mark implies top-level, open and a child |
| TaskLoose.SanitizeRepairs | ios-swift/Notelayer/Notelayer/Data/LocalStore.swift:231-245 | cleaning such a list restores the whole invariant exactly when the list itself has no open unmarked parent above complete children |
| TaskLoose.RunRepaired | ios-swift/Notelayer/Notelayer/Data/LocalStore.swift:231-245 | the same for the list at the end of any such run |
| TaskUndo.UndoneInvIff | ios-swift/Notelayer/Notelayer/Data/LocalStore.swift:855-868 | undoing the deletion of any task restores the invariant exactly when the task was not a marked parent above complete children only |
| TaskUndo.CleanedUndoIff | ios-swift/Notelayer/Notelayer/Data/LocalStore.swift:855-868 | cleaning the list afterwards restores it in no further case |
| TaskUndo.UndoneSameIff | ios-swift/Notelayer/Notelayer/Data/LocalStore.swift:855-868 | undoing brings every task back to its place with its completion and its mark exactly when neither the task nor its parent was marked and the parent was not complete above an open child |
| TaskExamples.AddedMarkExample | ios-swift/Notelayer/Notelayer/Data/LocalStore.swift:609-636 | a new subtask of an existing task that brings a mark breaks the invariant |
| TaskExamples.ImportedFirstSubtaskExample | ios-swift/Notelayer/Notelayer/Data/LocalStore.swift:1430-1477 | a task whose first imported subtask is complete stays open |
| TaskExamples.EditedSubtaskExample | ios-swift/Notelayer/Notelayer/Data/LocalStore.swift:656-663 | an edit that completes the only subtask breaks the invariant |
| TaskExamples.DeletedParentExample | ios-swift/Notelayer/Notelayer/Data/LocalStore.swift:821-853 | a parent deleted as a plain task breaks the invariant |
| TaskExamples.UndoneDeletionExample | ios-swift/Notelayer/Notelayer/Data/LocalStore.swift:855-868 | a list on which undoing the deletion of a reopened parent breaks the invariant, also after cleaning |
| TaskExamples.UndoneSubtaskExample | ios-swift/Notelayer/Notelayer/Data/LocalStore.swift:855-868 | undoing the deletion of the complete subtask of a reopened parent does not bring its mark back |
| TaskExamples.UndoneOpenSubtaskExample | ios-swift/Notelayer/Notelayer/Data/LocalStore.swift:855-868 | undoing the deletion of the open subtask of a complete parent reopens it |
| TaskRuns.SanitizeKeepsExactlyValid | ios-swift/Notelayer/Notelayer/Data/LocalStore.swift:231-245 | a reference is kept exactly when it was valid, and nothing else but stray marks changes |
| TaskRuns.SanitizeEnforcesOneLevel | ios-swift/Notelayer/Notelayer/Data/LocalStore.swift:231-245 | for any input graph the result has one level |
| TaskRuns.SanitizeIdempotent | ios-swift/Notelayer/Notelayer/Data/LocalStore.swift:231-245 | a second application changes nothing |
| TaskStore.LocalStore.ReconcileParentCompletion | ios-swift/Notelayer/Notelayer/Data/LocalStore.swift:979-1029 | the guard chain computes the reconciled task list |
| TaskStore.LocalStore.AddTask | ios-swift/Notelayer/Notelayer/Data/LocalStore.swift:609-636 | the new task list, its id, and when the invariant survives |
| TaskStore.LocalStore.SetParent | ios-swift/Notelayer/Notelayer/Data/LocalStore.swift:760-797 | the new task list through both reconciliations; the invariant survives |
| TaskStore.LocalStore.DeleteTask | ios-swift/Notelayer/Notelayer/Data/LocalStore.swift:821-853 | the new task list; the invariant survives exactly for childless tasks |
| TaskStore.LocalStore.ApplySharedImports | ios-swift/Notelayer/Notelayer/Data/LocalStore.swift:1430-1477 | the loop with its parent branch appends the prepared tasks; the invariant survives exactly under the condition of ImportKeepsInv, and always for tasks without a parent |
| TaskStore.LocalStore.DeleteParentTask | ios-swift/Notelayer/Notelayer/Data/LocalStore.swift:799-819 | the loop of deletions or detachments, each with its reconcile, ends in the conserved list |
| TaskStore.LocalStore.CompleteTask | ios-swift/Notelayer/Notelayer/Data/LocalStore.swift:878-919 | the new task list; the invariant survives |
| TaskStore.LocalStore.RestoreTask | ios-swift/Notelayer/Notelayer/Data/LocalStore.swift:921-977 | the new task list, past reminders dropped; the invariant survives |
| TaskStore.LocalStore.MigrateTasks | ios-swift/Notelayer/Notelayer/Data/LocalStore.swift:369-385 | the in-place loop computes what sanitizeHierarchy computes, and reports a change exactly when there was one |
| TaskStore.LocalStore.UpdateTasksForCategoryRemoval | ios-swift/Notelayer/Notelayer/Data/LocalStore.swift:1261-1280 | the category is replaced or removed in every task that had it, and exactly those tasks are returned |
| TaskStore.LocalStore.ReorderTasks | ios-swift/Notelayer/Notelayer/Data/LocalStore.swift:1118-1139 | the reordered array; the invariant survives |
| TaskStore.LocalStore.PlaceDragged | ios-swift/Notelayer/Notelayer/Views/TodosView.swift:648-657 | the edits of the local id list move the dragged id to its target |
| TaskStore.LocalStore.DropOnList | ios-swift/Notelayer/Notelayer/Views/TodosView.swift:648-661 | any listing of the group afterwards shows the moved order |
| TaskStore.LocalStore.DropOnSubtasks | ios-swift/Notelayer/Notelayer/Views/TodosView.swift:1746-1763 | reparenting and reordering together show the moved order below the parent |
| Sorting.SortInOrder | ios-swift/Notelayer/Notelayer/Data/LocalStore.swift:92-101 | sorting by a total transitive order puts values in that order |
| Sorting.SortKeeps | ios-swift/Notelayer/Notelayer/Data/LocalStore.swift:92-101 | sorting loses and invents nothing |
| CategoryBoard.SortSorts | ios-swift/Notelayer/Notelayer/Data/LocalStore.swift:92-101 | sorting puts categories in the order of order and id |
| CategoryBoard.SortedUnique | ios-swift/Notelayer/Notelayer/Data/LocalStore.swift:92-101 | there is one sorted arrangement of distinct ids |
| CategoryBoard.AddShows | ios-swift/Notelayer/Notelayer/Data/LocalStore.swift:1143-1160 | a new category appears on top and everything else keeps its place |
| CategoryBoard.DeleteShows | ios-swift/Notelayer/Notelayer/Data/LocalStore.swift:1232-1259 | deleting takes exactly that group off the screen and the slot stays where it was |
| CategoryBoard.ReorderAll | ios-swift/Notelayer/Notelayer/Data/LocalStore.swift:1185-1211 | reordering by a list of all ids gives that order |
| CategoryBoard.DragShows | ios-swift/Notelayer/Notelayer/Views/TodosView.swift:1005-1027 | a dragged group, the Uncategorized slot included, stands before its target or at the end |
| CategoryBoard.RunSimulates | ios-swift/Notelayer/Notelayer/Data/LocalStore.swift:1143-1294 | over any run the screen behaves like a plain list of keys and the slot position stays within 0 and the count |
| CategoryEffects.SortedList | ios-swift/Notelayer/Notelayer/Data/LocalStore.swift:92-101 | by order, and by the characters of the id where orders agree |
| CategoryEffects.DisplayIs | ios-swift/Notelayer/Notelayer/Data/LocalStore.swift:176-182 | the sorted ids with "uncategorized" in its slot |
| CategoryEffects.AddEffect | ios-swift/Notelayer/Notelayer/Data/LocalStore.swift:1143-1160 | the new category gets order 0, the others one more each, the slot moves down by one; nothing else changes |
| CategoryEffects.DeleteEffect | ios-swift/Notelayer/Notelayer/Data/LocalStore.swift:1232-1259 | the sorted list without the category, numbered from 0; the slot moves up exactly when the category stood above it |
| CategoryEffects.DeleteUnknown | ios-swift/Notelayer/Notelayer/Data/LocalStore.swift:1232-1259 | an unknown id only numbers the list |
| CategoryEffects.ReorderEffect | ios-swift/Notelayer/Notelayer/Data/LocalStore.swift:1185-1211 | every known named category gets its place in the id list, the others follow numbered behind as many as were known |
| CategoryStore.CategoryList.constructor | ios-swift/Notelayer/Notelayer/Data/LocalStore.swift:176-182 | a loaded position is clamped to the list |
| CategoryStore.CategoryList.SetUncategorizedPosition | ios-swift/Notelayer/Notelayer/Data/LocalStore.swift:1213-1217 | the position is clamped to 0 and the count |
| CategoryStore.CategoryList.AddCategory | ios-swift/Notelayer/Notelayer/Data/LocalStore.swift:1143-1160 | the loop over the orders, the append and the sort: new key first on screen |
| CategoryStore.CategoryList.NormalizeCategoryOrder | ios-swift/Notelayer/Notelayer/Data/LocalStore.swift:1282-1289 | sorted and numbered from 0 |
| CategoryStore.CategoryList.DeleteCategory | ios-swift/Notelayer/Notelayer/Data/LocalStore.swift:1232-1259 | the list, the slot and the screen without the key |
| CategoryStore.CategoryList.ReorderCategories | ios-swift/Notelayer/Notelayer/Data/LocalStore.swift:1185-1211 | the loop numbers known ids by place, skips unknown ones, and keeps the rest behind them |
| CategoryStore.CategoryList.DraggedGroups | ios-swift/Notelayer/Notelayer/Views/TodosView.swift:1011-1020 | the local edits put the key before its target or at the end; a key that is not shown changes nothing |
| CategoryStore.CategoryList.ApplyCategoryGroupReorder | ios-swift/Notelayer/Notelayer/Views/TodosView.swift:1005-1027 | the screen after the drag; a key that is not shown changes nothing |
| SharedImport.RejectedIffUntitled | ios-swift/Notelayer/Notelayer/Data/LocalStore.swift:1487-1559 | an item is rejected exactly when it becomes tasks without a title; a note is never rejected |
| SharedImport.SamePayload | ios-swift/Notelayer/Notelayer/Data/SharedItem.swift:183-196 | the outcome does not depend on status, last error or retry count |
| SharedContent.NoteIs | ios-swift/Notelayer/Notelayer/Data/LocalStore.swift:1578-1604 | heading, text, link, and the line that says where and when it came from, each present exactly when there is something in it |
| SharedContent.TaskNotesAre | ios-swift/Notelayer/Notelayer/Data/LocalStore.swift:1561-1576 | link, then the draft's notes or else the text, then that line |
| SharedContent.TaskFromIs | ios-swift/Notelayer/Notelayer/Data/LocalStore.swift:1495-1509 | a task keeps categories, priority, due date and reminder of the item, and always has notes |
| SharedContent.TaskTitleIs | ios-swift/Notelayer/Notelayer/Data/LocalStore.swift:1546-1559 | the trimmed title, or else the first six words of the text |
| SharedContent.PayloadIs | ios-swift/Notelayer/Notelayer/Data/LocalStore.swift:1487-1559 | more than one draft makes a batch; what each destination becomes, and the reason of every rejection |
| SharedContent.BatchIs | ios-swift/Notelayer/Notelayer/Data/LocalStore.swift:1510-1536 | one task per titled draft, in order |
| SharedContent.MarkedIs | ios-swift/Notelayer/Notelayer/Data/SharedItem.swift:183-196 | a failure records its reason and one retry more and changes nothing else |
| Prelude.StrLessIs | ios-swift/Notelayer/Notelayer/Services/InsightsTelemetryStore.swift:168-172 | ids and texts are sorted by the first character in which they differ, a proper beginning first |
| Texts.BlankIs | ios-swift/Notelayer/Notelayer/Data/LocalStore.swift:1546-1559 | whitespace is what Unicode calls whitespace or a line end, character by character |
| Texts.TrimIs | ios-swift/Notelayer/Notelayer/Data/LocalStore.swift:1546-1559 | trimming takes blanks off both ends and nothing else |
| Texts.WordsAre | ios-swift/Notelayer/Notelayer/Data/LocalStore.swift:1546-1559 | words are the runs between blanks |
| Texts.JoinedOrder | ios-swift/Notelayer/Notelayer/Data/LocalStore.swift:1561-1598 | parts are joined in order with the separator between any two |
| SharedQueue.BuildSharedImportPayload | ios-swift/Notelayer/Notelayer/Data/LocalStore.swift:1487-1537 | note, task or batch with its loop over drafts, or the reason for the rejection |
| SharedQueue.ImportQueue.AppendItem | ios-swift/Notelayer/NotelayerShareExtension/ShareViewController.swift:557-571 | an item joins the queue at the end |
| SharedQueue.ImportQueue.ApplySharedImports | ios-swift/Notelayer/Notelayer/Data/LocalStore.swift:1430-1477 | notes and tasks without a parent, as the queue makes them, are appended in order, missing order indices counted up |
| SharedTasks.ImportsAgree | ios-swift/Notelayer/Notelayer/Data/LocalStore.swift:1430-1477 | on such tasks, given their ids, the full loop with its parent branch appends the same |
| SharedTasks.ImportsKeepInv | ios-swift/Notelayer/Notelayer/Data/LocalStore.swift:1430-1477 | whatever is shared, importing it under fresh ids keeps the hierarchy invariant |
| SharedQueue.ImportQueue.ProcessSharedItems | ios-swift/Notelayer/Notelayer/Data/LocalStore.swift:1345-1416 | one round imports what succeeds in order, keeps what fails in order with one retry more, and reports count and first error |
| SharedQueue.RoundStanding | ios-swift/Notelayer/Notelayer/Data/SharedItem.swift:190-196 | an item that failed n rounds and one more is one that failed n+1 rounds |
| SharedQueue.QueueFate | ios-swift/Notelayer/Notelayer/Data/LocalStore.swift:1345-1428 | over any run the queue holds every failing item in order, its retry count raised by the rounds it has been through, and of the others only those no round has seen |
| SharedQueue.ImportedOnce | ios-swift/Notelayer/Notelayer/Data/LocalStore.swift:1345-1428 | over any run the notes and tasks of every item a round has seen are imported once, in order of arrival |
| MetadataSync.ReconcileLowersIff | ios-swift/Notelayer/Notelayer/Data/LocalStore.swift:455-486 | a reconcile lowers the stored timestamp only on a device that stored nothing and met an older value |
| MetadataSync.ReconcileIs | ios-swift/Notelayer/Notelayer/Data/LocalStore.swift:455-531 | the remote value wins when nothing was stored or it is strictly newer; otherwise the local one stays and is pushed, unless there is neither |
| MetadataSync.NoEventLowers | ios-swift/Notelayer/Notelayer/Data/LocalStore.swift:455-531 | in every reachable state no delivery, landing or subscription lowers a stored timestamp |
| MetadataSync.StepKeepsInv | ios-swift/Notelayer/Notelayer/Services/FirebaseBackendService.swift:208-234 | every step keeps the protocol invariant |
| MetadataSync.RunKeepsInv | ios-swift/Notelayer/Notelayer/Services/FirebaseBackendService.swift:208-273 | every run keeps the protocol invariant |
| MetadataSync.NewestIsHeld | ios-swift/Notelayer/Notelayer/Services/FirebaseBackendService.swift:208-273 | over every interleaving some device holds the newest write |
| MetadataSync.RestAgrees | ios-swift/Notelayer/Notelayer/Services/FirebaseBackendService.swift:99-273 | whenever nothing is in flight or unread and all devices listen, every device and the server hold exactly the newest write |
| MetadataRest.LandAll | ios-swift/Notelayer/Notelayer/Services/FirebaseBackendService.swift:208-273 | all pushes under way can land, any one of them last |
| MetadataRest.ReadFrom | ios-swift/Notelayer/Notelayer/Services/FirebaseBackendService.swift:208-234 | every device can read what the server holds; what this pushes is not older than the document |
| MetadataRest.CanRest | ios-swift/Notelayer/Notelayer/Services/FirebaseBackendService.swift:99-273 | from every state a run can lead to, some continuation without user changes comes to rest |
| MetadataRest.AgreementStaysPossible | ios-swift/Notelayer/Notelayer/Services/FirebaseBackendService.swift:99-273 | no interleaving traps the devices: any run can be continued, without another user change, to a state where all hold the newest write |
| MetadataEnds.StepLowers | ios-swift/Notelayer/Notelayer/Services/FirebaseBackendService.swift:208-273 | every event within the budget lowers the rank of network and budget |
| MetadataEnds.RunsEnd | ios-swift/Notelayer/Notelayer/Services/FirebaseBackendService.swift:208-273 | from every reachable state and for every budget there is a bound on the length of all runs without user changes |
| MetadataEnds.AtEndIffQuiescent | ios-swift/Notelayer/Notelayer/Services/FirebaseBackendService.swift:99-273 | no landing, delivery or subscription is left exactly when nothing is in flight or unread and all devices listen |
| MetadataEnds.ExchangeEndsInAgreement | ios-swift/Notelayer/Notelayer/Services/FirebaseBackendService.swift:99-273 | after any run, whatever order pushes land and snapshots are read in, with every push heard of once by its own device and any finite number of fetches and folded snapshots in between, the exchange is over after boundedly many steps, and wherever it is over all hold the newest write |
| MetadataEnds.FoldingCanLoop | ios-swift/Notelayer/Notelayer/Services/FirebaseBackendService.swift:208-234 | with endless folding a stale push and the newest one can overwrite each other forever |
| MetadataEnds.TornIsReached | ios-swift/Notelayer/Notelayer/Services/FirebaseBackendService.swift:208-273 | two devices can get into that loop from the start |
| MetadataEnds.EchoingCanLoop | ios-swift/Notelayer/Notelayer/Services/FirebaseBackendService.swift:208-234 | if the pushes of echoes were heard of again, a device at rest would push its value forever |
| MetadataEnds.EqualTimesCanLoop | ios-swift/Notelayer/Notelayer/Services/FirebaseBackendService.swift:208-234 | two different changes with the same timestamp can overwrite each other forever by landings and deliveries alone |
| MetadataStore.LocalMetadata.constructor | ios-swift/Notelayer/Notelayer/Data/LocalStore.swift:123-134 | the defaults, nothing stored |
| MetadataStore.LocalMetadata.BeginExperimentalReconciliation | ios-swift/Notelayer/Notelayer/Data/LocalStore.swift:450-452 | only the state changes |
| MetadataStore.LocalMetadata.ReconcileExperimentalPreference | ios-swift/Notelayer/Notelayer/Data/LocalStore.swift:455-486 | value, timestamp and push decision are those of the reconcile step; the state settles; the preference counts as stored |
| MetadataStore.LocalMetadata.SetExperimentalFeaturesEnabled | ios-swift/Notelayer/Notelayer/Data/LocalStore.swift:488-508 | a new value is stamped with the time; the same value changes nothing |
| MetadataStore.LocalMetadata.ReconcileInsightsHintState | ios-swift/Notelayer/Notelayer/Data/LocalStore.swift:513-531 | value and push decision are those of the reconcile step |
| MetadataStore.LocalMetadata.RecordInsightsInteraction | ios-swift/Notelayer/Notelayer/Data/LocalStore.swift:555-562 | only the first interaction is recorded |
| TelemetryKey.KeyInjective | ios-swift/Notelayer/Notelayer/Services/InsightsTelemetryStore.swift:280-294 | with plain names two bucket keys are equal exactly when everything agrees but an absent tab or view and one called "-" |
| TelemetryKey.BucketKeyText | ios-swift/Notelayer/Notelayer/Services/InsightsTelemetryStore.swift:280-294 | scope, day, hour, event, feature, tab, view and categories with bars between them |
| TelemetryKey.DigitsAreDecimal | ios-swift/Notelayer/Notelayer/Services/InsightsTelemetryStore.swift:280-294 | numbers are printed in decimal |
| TelemetryKey.BarsCollide | ios-swift/Notelayer/Notelayer/Services/InsightsTelemetryStore.swift:280-294 | a bar inside a name makes two features share a key |
| Telemetry.AddKeepsTotalsIff | ios-swift/Notelayer/Notelayer/Services/InsightsTelemetryStore.swift:236-267 | folding an event keeps every total exactly when its key is not taken by a bucket of something else |
| Telemetry.SingleIs | ios-swift/Notelayer/Notelayer/Services/InsightsTelemetryStore.swift:236-267 | a new bucket has the names of its event, its day and hour in the event's own zone, and counts one |
| Telemetry.AddEventIs | ios-swift/Notelayer/Notelayer/Services/InsightsTelemetryStore.swift:236-267 | the first bucket with the key counts one more; without one a new bucket is added |
| Telemetry.PlainUnmixed | ios-swift/Notelayer/Notelayer/Services/InsightsTelemetryStore.swift:280-294 | events with names without a bar and category ids without a comma never mix |
| Telemetry.AddAllUnmixed | ios-swift/Notelayer/Notelayer/Services/InsightsTelemetryStore.swift:236-267 | folding events that do not mix keeps every total |
| Telemetry.AddAllCounts | ios-swift/Notelayer/Notelayer/Services/InsightsTelemetryStore.swift:236-267 | folding loses and invents no event, whatever the names |
| Telemetry.PutAllIdentity | ios-swift/Notelayer/Notelayer/Services/InsightsTelemetryStore.swift:221-234 | stored buckets enter the table unchanged |
| Telemetry.RearrangedTotal | ios-swift/Notelayer/Notelayer/Services/InsightsTelemetryStore.swift:269-277 | totals do not depend on the order of the buckets |
| TelemetryStore.SortBucketsSorts | ios-swift/Notelayer/Notelayer/Services/InsightsTelemetryStore.swift:269-277 | buckets are sorted and none is lost |
| TelemetryStore.SortBucketsOrder | ios-swift/Notelayer/Notelayer/Services/InsightsTelemetryStore.swift:269-277 | by day, then hour, then the characters of the feature |
| TelemetryStore.FoldedCount | ios-swift/Notelayer/Notelayer/Services/InsightsTelemetryStore.swift:212-219 | above the cap a whole batch is folded, or what exceeds the cap if that is more, or everything if there is no more |
| TelemetryStore.TableOf | ios-swift/Notelayer/Notelayer/Services/InsightsTelemetryStore.swift:221-234 | the first loop builds the dictionary of the stored buckets |
| TelemetryStore.CountInto | ios-swift/Notelayer/Notelayer/Services/InsightsTelemetryStore.swift:236-267 | the second loop counts every event in the bucket with its key |
| TelemetryStore.Values | ios-swift/Notelayer/Notelayer/Services/InsightsTelemetryStore.swift:269-269 | the values of the dictionary, each once, in some order |
| TelemetryStore.CompactIfNeeded | ios-swift/Notelayer/Notelayer/Services/InsightsTelemetryStore.swift:212-278 | the oldest events, at least a batch, are folded into sorted buckets; below the cap nothing changes |
| TelemetryLog.FoldedCounts | ios-swift/Notelayer/Notelayer/Services/InsightsTelemetryStore.swift:212-278 | compaction conserves the number of events |
| TelemetryLog.FoldsAreRare | ios-swift/Notelayer/Notelayer/Services/InsightsTelemetryStore.swift:152-219 | a full log folds a batch, and none of the next batch - 1 recordings folds anything |
| TelemetryLog.FoldedUnmixed | ios-swift/Notelayer/Notelayer/Services/InsightsTelemetryStore.swift:212-278 | compaction conserves every total over events that do not mix |
| TelemetryLog.RecordKeepsInv | ios-swift/Notelayer/Notelayer/Services/InsightsTelemetryStore.swift:152-193 | after each record: raw events are a tail of the history within the cap, keys are distinct, held events grow by one, totals are those of the history |
| TelemetryLog.RecordingKeepsInv | ios-swift/Notelayer/Notelayer/Services/InsightsTelemetryStore.swift:152-193 | the same over any run from a fresh scope |
| TelemetryLog.StandsIffUnmixed | ios-swift/Notelayer/Notelayer/Services/InsightsTelemetryStore.swift:152-278 | for a set of events, every run over it keeps every total exactly when no two of its events share a key and differ in what the key stands for |
| UsageLog.NormalizedCategoriesAre | ios-swift/Notelayer/Notelayer/Services/InsightsTelemetryStore.swift:170-172 | stored category ids are the non-empty ones, sorted, each as often as given |
| UsageLog.ScopesAreApart | ios-swift/Notelayer/Notelayer/Services/InsightsTelemetryStore.swift:296-301 | two ids that are not blank share a scope exactly when they are equal; none or a blank one is anonymous |
| UsageLog.RecordedPlain | ios-swift/Notelayer/Notelayer/Services/InsightsTelemetryStore.swift:152-193 | recording names without a bar and ids without a comma keeps the history free of them |
| UsageLog.InsightsTelemetryStore.constructor | ios-swift/Notelayer/Notelayer/Services/InsightsTelemetryStore.swift:103-122 | cap and batch are at least 1; one empty anonymous scope |
| UsageLog.InsightsTelemetryStore.SetUserScope | ios-swift/Notelayer/Notelayer/Services/InsightsTelemetryStore.swift:124-137 | the current scope becomes the id itself, or "anonymous" without one or with a blank one; a new scope starts empty; no other is touched |
| UsageLog.InsightsTelemetryStore.ClearScopeData | ios-swift/Notelayer/Notelayer/Services/InsightsTelemetryStore.swift:143-150 | the scope of exactly that id, or "anonymous" for a blank one, becomes empty; no other is touched |
| UsageLog.InsightsTelemetryStore.Append | ios-swift/Notelayer/Notelayer/Services/InsightsTelemetryStore.swift:165-192 | the event joins the current scope, which is compacted; no other scope is touched |
| UsageLog.InsightsTelemetryStore.Record | ios-swift/Notelayer/Notelayer/Services/InsightsTelemetryStore.swift:152-193 | the event, with its id, scope, metadata and normalized categories, joins the history of the current scope; the events held grow by exactly one; how many stay raw is what cap and batch say; no other scope is touched; plain input keeps the history plain; a disabled store changes nothing |
| Insights.NormalizeTelemetry | ios-swift/Notelayer/Notelayer/Services/InsightsAggregator.swift:574-616 | one record per raw event and one per bucket, in order |
| Insights.RecordsAre | ios-swift/Notelayer/Notelayer/Services/InsightsAggregator.swift:574-616 | an event is one use at its own time, a bucket its uses at the start of its hour; day and hour of an event are those of its own zone |
| Insights.WindowStartIs | ios-swift/Notelayer/Notelayer/Services/InsightsAggregator.swift:176-176 | the window begins at midnight so many days before the end of today |
| Insights.NormalizedAre | ios-swift/Notelayer/Notelayer/Services/InsightsAggregator.swift:574-617 | the records of the raw events come first, in order, then those of the buckets, in order |
| Insights.CountFeatures | ios-swift/Notelayer/Notelayer/Services/InsightsAggregator.swift:476-485 | the counting loop gives every feature its all-time sum, its window sum and its latest use |
| Insights.BuildFeatureStats | ios-swift/Notelayer/Notelayer/Services/InsightsAggregator.swift:466-510 | key and title of the catalog item, uses in all and in the window, the latest use; unused exactly without use in the window, used exactly from 3 and from the lower quartile of all window counts on, underused otherwise |
| Insights.BuildUsageHours | ios-swift/Notelayer/Notelayer/Services/InsightsAggregator.swift:397-408 | the usage column of the 24-hour histogram |
| Insights.CountExports | ios-swift/Notelayer/Notelayer/Services/InsightsAggregator.swift:315-324 | the export count of every category |
| Insights.ExportsAre | ios-swift/Notelayer/Notelayer/Services/InsightsAggregator.swift:315-324 | an export counts once for each time a category is named, and for "uncategorized" without one |
| Quartile.PercentileIs | ios-swift/Notelayer/Notelayer/Services/InsightsAggregator.swift:652-657 | the value at place (n - 1) / 4 of the sorted counts, said by how many lie below and up to it |
| Quartile.QuarterUnique | ios-swift/Notelayer/Notelayer/Services/InsightsAggregator.swift:652-657 | there is only one such value |
| Insights.SameReading | ios-swift/Notelayer/Notelayer/Services/InsightsAggregator.swift:574-616 | any reading of tags gives on the kept log what it gives on the full history |
| Insights.CompactionIsInvisible | ios-swift/Notelayer/Notelayer/Services/InsightsAggregator.swift:315-510 | after any run of recordings over events that do not mix, all-time counts, usage histogram and export counts are those of the uncompacted history |
| Insights.StoreReportsHistory | ios-swift/Notelayer/Notelayer/Services/InsightsAggregator.swift:315-510 | every scope of a store with plain names reports what it would from everything ever recorded |
| Insights.BarsHideUsage | ios-swift/Notelayer/Notelayer/Services/InsightsTelemetryStore.swift:280-294 | three recordings after which a feature that was used is reported as never used |
| Insights.HourStart | ios-swift/Notelayer/Notelayer/Services/InsightsAggregator.swift:598-612 | rounding to the hour start moves a time by less than an hour and never across a local midnight |
| Insights.WindowAgreesIff | ios-swift/Notelayer/Notelayer/Services/InsightsAggregator.swift:466-509 | over events that do not mix every run keeps every count of a window exactly when no event is on the other side of one of its edges than the start of its hour |
| Insights.LastUseSurvives | ios-swift/Notelayer/Notelayer/Services/InsightsAggregator.swift:476-485 | the time of last use is kept or moved back by less than an hour |
| Insights.WindowsSurvive | ios-swift/Notelayer/Notelayer/Services/InsightsAggregator.swift:466-509 | in one zone, with no future events and none that mix, the whole feature report survives compaction: counts, windows and gap statuses exactly, times of last use within the hour |
| CsvExport.GenerateCsv | ios-swift/Notelayer/Notelayer/Views/ManageAccountView.swift:148-168 | the loop prints header and rows, and the file is read back as such exactly under the condition of ExportIsReadIff |
| CsvExport.EscapedIsRead | ios-swift/Notelayer/Notelayer/Views/ManageAccountView.swift:170-173 | an escaped cell is read back for every string |
| CsvExport.BareIsReadIff | ios-swift/Notelayer/Notelayer/Views/ManageAccountView.swift:164-164 | an unescaped cell is read back exactly when it has no comma, quote or line end |
| CsvExport.LineIsReadIff | ios-swift/Notelayer/Notelayer/Views/ManageAccountView.swift:164-164 | a line is read back as its cells exactly when its unescaped cells are plain |
| CsvExport.ExportIsReadIff | ios-swift/Notelayer/Notelayer/Views/ManageAccountView.swift:148-168 | the export is read back as the header and one ten-cell row per task exactly when every id, priority and date text is plain |
| CsvExport.RowsAre | ios-swift/Notelayer/Notelayer/Views/ManageAccountView.swift:148-168 | the ten columns of the header and of every row |
| CsvExport.HeaderTextIs | ios-swift/Notelayer/Notelayer/Views/ManageAccountView.swift:149-149 | the header line |
| CsvExport.LineIsJoined | ios-swift/Notelayer/Notelayer/Views/ManageAccountView.swift:164-164 | cells with commas between them and a line end |
| CsvExport.AmericanDatesBreakRows | ios-swift/Notelayer/Notelayer/Views/ManageAccountView.swift:158-161 | a date text with a comma breaks its row |

## Left out

Protocol buffers:

- PbEncode.Encode: user callbacks, extension fields, pointer allocation, delimited and NUL-terminated framing and the
  build options PB_WITHOUT_64BIT, PB_BUFFER_ONLY and PB_ENCODE_ARRAYS_UNPACKED are not modelled.
- PbEncode.EncodeSubmessage: a NULL submessage descriptor pointer cannot be expressed; descriptors are finite trees.
- PbEncode.EncodeToBuffer: message sizes are assumed to fit in a 64-bit size_t, so the overflow test of pb_write is
  modelled but never decides.
- PbRoundTrip.RoundTrip: what C ignores is not recovered: chars after the NUL of a string, the data of an absent
  optional field, a union whose selector names no member. The reader starts from zeros, so proto2 defaults other than
  zero are not modelled. Floating-point fields travel as their bit patterns.
- PbStruct.EncodeStruct: a nested struct is read once, with an iterator of its own, before it is encoded; the source
  walks it again for its size and again to write it. The machine is little-endian and a bool is one byte. Where
  padding clashes with the marker the message must lie where the iterator looks.

Tasks and categories:

- TaskStore.LocalStore.AddTask: analytics, notifications, undo and backend pushes have no effect on the array and are
  left out; the several Date() calls of one method are one value.
- TaskEdits.EditKeepsInvIff: a closure that puts a task with another id in place of the task is not covered.
- TaskRuns.RunKeepsInv: reorderTasks is called with distinct ids, as it traps on others; remote snapshots replace the
  array as a whole and are not calls of a run; reminders are edits.
- TaskLoose.RunKeepsLoose: a task is not added or imported as a subtask under an id that other tasks still refer to.
- TaskReorder.ReorderShows: ids are distinct and known, as Dictionary(uniqueKeysWithValues:) and the views provide.
- TaskStore.LocalStore.DropOnList: what applyPriorityDrop does beside reordering, setting the priority, is an edit.
- CategoryStore.CategoryList.DeleteCategory: the effect on tasks is TaskStore.LocalStore.UpdateTasksForCategoryRemoval;
  updateCategory and onboarding presets are not modelled. Sorting is a function, because the array sort of the standard
  library is not part of this model.

Shared imports:

- SharedQueue.ImportQueue.ProcessSharedItems: a round is atomic, so appends by the share extension between reading and
  writing the queue are not covered; JSON coding never fails; the formatted import date is a field of the item; new
  tasks get the time of the round as their order index and no id.
- SharedQueue.ImportQueue.ApplySharedImports: the tasks here have no id and no parent; ids and the parent branch of the
  loop are in TaskStore.LocalStore.ApplySharedImports, and SharedTasks.ImportsAgree joins the two.
- SharedImport.RejectedIffUntitled: the set of blank characters is written out; grapheme clusters are not modelled.

Metadata sync:

- MetadataSync.RestAgrees: pushes are never lost, users do not sign out, timestamps of different writes differ, and
  each device's own writes have increasing timestamps. That they differ is needed (MetadataEnds.EqualTimesCanLoop).
- MetadataEnds.ExchangeEndsInAgreement: an echo's own push repeats what is already pending and is not heard of again.
- MetadataStore.LocalMetadata.ReconcileExperimentalPreference: clamping of dates to the range of the server is left
  out, as is the position of the Uncategorized slot, which is synchronized without timestamps.

Usage log:

- TelemetryKey.KeyInjective: a day is its number, printed in decimal, in place of a yyyy-MM-dd text.
- TelemetryStore.CompactIfNeeded: buckets are sorted by day number in place of its text.
- Insights.NormalizeTelemetry: the day key of a record is its day number.
- Insights.WindowsSurvive: the calendar has a fixed offset, which every event was recorded with; time zone rules are
  not modelled. Without that condition Insights.WindowAgreesIff says which counts survive.
- Insights.BuildFeatureStats: rankings, trends and task statistics read no buckets or follow from these counts, and are
  left out.

CSV export:

- CsvExport.GenerateCsv: dates are the texts of the formatter, which is not part of this model.

Elsewhere: the user interface, sign-in, notifications, calendar export, audio and speech, voice and share-sheet parsing,
build scripts and PDF generation are plumbing around libraries and are not modelled.
