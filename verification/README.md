# Verification of gemel

Gemel records changes as content-addressed objects: file states, the operations between them,
trajectories of changes, and packs that carry them from one repository to another. This project models
its logic in Dafny and proves what that logic is relied on for. It has five parts.

- **Line diff.** `EditDistance` defines edit scripts, their cost and the insert/delete distance on a plane
  that extends beyond the two lists, as the search arrays do. `Frontier` says what one depth of the
  greedy search holds. `Myers` is the search with a recorded trace, `MiddleSnake` the linear-space
  recursion, `Hunks` the grouping of a script into unified-diff hunks and the patch that undoes it.
- **Canonical codec.** `Varint` and `Paths` are the byte level, `Objects` and `Validate` the data and the
  family rules. `Codec` says what encoder and decoder compute, `CodecPrograms` are the two programs with
  their output buffer and cursor, and `CodecLaws` proves that they undo each other. `Characters`, `Rules` and
  `Conformance` say what strings, paths, family rules, schemas and bytes are without any of these functions,
  and prove that validation, encoder and decoder keep to it.
- **States.** `States` is the delta between two file maps, `Moves` which moves it finds, `Reconcile` the merge
  of trajectories, `Store`
  the content-addressed store, `Trees`, `TreeLaws` and `TreePrograms` the nested trees of a file map, and
  `StateLaws` what every state that can be read is like.
  A store keeps canonical bytes under a digest; the hash is any function of the bytes, and a collision
  is an error, so no theorem assumes a hash without collisions.
- **Exchange.** `Graph` is reachability and the worklist that computes it. `Export` collects what is
  exported, `Packs` is the pack format, `PackBuilder` and `PackPrograms` cut objects into packs, `PackLayout`
  says where every byte of a pack stands and in which order packs and objects are,
  `Quarantine` validates a frontier with everything it builds on, `Ingest` stores and activates it.
- **History and runs.** `History` is the causal closure of the head, the Git parents of its commits and the
  persistence of residuals. `Chains` is the latest version of a version chain. `Workflow` is begin,
  finish, close and reconcile as steps over shared records, and what every run of them keeps.

Where the source changes variables step by step, a method with the same steps is proved equal to a
function of its inputs or of the old state, and the laws are lemmas about that function.

What the proofs found out about the code, beyond its own documentation:

- The decoder holds identities against the string limit and the encoder does not, and it reads a boolean
  only where a single byte of the field is left. So an encodable object survives a round trip exactly when
  that limit is at least 33 or it has no identity, and every boolean in it ends its field
  (`CodecLaws.RoundTrip`, for every schema). An array of booleans that is a whole field survives exactly
  when it holds at most one (`CodecLaws.BoolArrayReads`).
- Patching with hunks of context zero, checked against both sides of every header as `Hunks.Patch` does,
  works exactly when every block of changes, but one that starts the script, both deletes and inserts
  (`Hunks.ScriptToHunks`): the header of a side with no lines says 0. Inserting a line after a kept one is
  enough to fail (`Hunks.LosesItsPlace`). An applier that finds a hunk by its old side only also takes blocks
  that only delete.
- A hunk that takes in a further change ends the context from the start of that change and not after it, so its
  last change can have less context, or none (`Hunks.ShortTail`).
- Moves are paired in one pass over the deleted and the created paths, both in path order. When contents come in
  the same order as paths, no deletion is left beside a creation of the same content (`Moves.MovesFound`); when
  they do not, a move can be reported as a deletion and a creation (`Moves.MoveMissed`).
- The encoder counts 17 bytes for an envelope that can be shorter, so an object whose bytes come within 8 of the
  size limit can be loaded and yet not be encoded again (`Store.LoadsExactly`).
- Closing a trajectory moves one name only, the first in name order. Its own name comes before "current", which
  stays at the version that was closed (`Workflow.CurrentStays`); the next finish with the intent starts afresh
  exactly when the latest trajectory's name is the first of the version it means (`Workflow.CloseEnds`).
- First-trajectory-wins by path does not make the merge a state. One trajectory can create a file and another a
  file inside it; they dispute no path, both are adopted, and the analysis fails (`Reconcile.NestedHasNoPlan`).
  There is a plan exactly when no file and no file inside it come from different changes, or from a change
  and the base, and everything is within the limits (`Reconcile.PlannedExactly`).
- The tree builders call themselves on their own arguments exactly when some key starts with a separator
  and the empty string is no key (`Trees.NeverEnds`). They end on all other maps, and those are what
  `Trees.Buildable` requires.
- Decoding the packs of an export gives every object back exactly when each object alone fits the
  decoder's pack limit, which the builder does not check (`PackPrograms.BuiltHolds`).
- Listing causal parents before children is equivalent to the history having no cycle
  (`History.HeadClosure`), and every run of the workflow keeps it so (`Workflow.EveryRun`).
- A finish takes its snapshot before it takes the lock, so its commit can consume a pending record that was
  opened later, with the older snapshot as its result (`Workflow.Overtaken`). It does so exactly when another
  finish of the same workspace went through in between (`Workflow.SnapshotServes`).

## Model

| member | source | states |
|---|---|---|
| MiddleSnake.MyersDiff | src/content.rs:1180-1204 | for every two line lists the result is an edit script between them with the fewest possible deleted and inserted lines, and has no empty run and no two adjacent runs of one kind |
| MiddleSnake.DiffRec | src/content.rs:1206-1233 | on trimmed lists the pushed edits are an optimal script with no empty run; every recursive call is on smaller trimmed lists and all indices are in range |
| MiddleSnake.FindMiddleSnake | src/content.rs:1303-1377 | on trimmed non-empty lists it returns a run on the grid through which an optimal path passes, at half the distance rounded up, and never reaches its fallback |
| MiddleSnake.SearchDepth | src/content.rs:1316-1341 | one depth of either search fills the next layer of the frontier, or stops at the first overlap, where the two depths add up to the distance |
| MiddleSnake.Overlap | src/content.rs:1314-1374 | once both searches have passed a point that splits the distance between their depths, an overlap is visible to the check |
| MiddleSnake.NotMet | src/content.rs:1333-1339 | while no overlap is visible the two depths do not add up to the distance |
| MiddleSnake.MeetingRun | src/content.rs:1330-1371 | the maximal equal run through a point that splits the distance lies on the grid and leaves two strictly smaller trimmed sides whose distances add up |
| MiddleSnake.Halves | src/content.rs:1222-1232 | both sides of a maximal equal run are again trimmed, and a side that is everything has the whole distance |
| MiddleSnake.SnakeStart | src/content.rs:1380-1386 | walking back finds the start of the equal run that ends at a point |
| MiddleSnake.SnakeStartRev | src/content.rs:1390-1398 | the same in reversed coordinates |
| Myers.MyersTrace | src/content.rs:1236-1299 | the trace search returns a coalesced script of least cost |
| Myers.SearchTrace | src/content.rs:1236-1266 | the corner is reached at depth equal to the distance, and the trace holds the furthest-reaching frontier of every depth before |
| Myers.UndoDepth | src/content.rs:1271-1296 | undoing one depth of the trace steps to a furthest-reaching point of the depth before, by one edit and a run of equal lines |
| Myers.Coalesce | src/content.rs:1400-1411 | coalescing keeps what a script does and its cost, and leaves no two adjacent runs of one kind |
| Frontier.AdvanceDiagonal | src/content.rs:1248-1259 | one step of the inner loop stores the furthest point of its diagonal at this depth, also off the grid |
| Frontier.Blocked | src/content.rs:1249-1259 | no point beyond the first mismatch on a diagonal is within this depth |
| EditDistance.TrimmedApart | src/content.rs:1182-1198 | trimmed non-empty lists differ by at least two edits |
| EditDistance.Split | src/content.rs:1222-1232 | the distance splits at some point into any two parts that add up to it |
| EditDistance.OptimalIsMinimal | src/content.rs:1178-1180 | a script whose cost is the distance is a script of least cost |
| Hunks.Expand | src/content.rs:1425-1451 | the per-line operations of a script replay it: their old lines are one list, their new lines the other, and as many lines change as the script says |
| Hunks.HunkEnd | src/content.rs:1468-1491 | the hunk ends the context after its first changes, or the context from the start of the last change it takes in, or at the end; it takes in a change exactly when at most twice the context lies between |
| Hunks.ToHunks | src/content.rs:1453-1508 | every hunk starts the context before the first change not yet shown and ends as above; the hunks are ordered, separate, cover every change, and have the right counts and starts |
| Hunks.SpansUnique | src/content.rs:1453-1508 | these rules leave no choice: no other division of the operations keeps them |
| Hunks.ChangedOnce | src/content.rs:1453-1508 | every changed line is in exactly one hunk |
| Hunks.AllShown | src/content.rs:1453-1508 | the hunks show every deleted and inserted line once, whatever the context |
| Hunks.PatchTheorem | src/content.rs:1492-1505 | applying the hunks to the old lines gives the new ones exactly when there is context or every block of changes, but one that starts the file, both deletes and inserts |
| Hunks.ScriptToHunks | src/content.rs:1424-1509 | whatever the context the hunks are the exact spans of the operations that replay the script, and show as many changed lines; they patch one list into the other exactly when there is context or every block of changes in the script, but one that starts it, both deletes and inserts |
| Hunks.ShortTail | src/content.rs:1475-1491 | two changes one line apart, with one line of context: the exact hunk ends at the second change |
| Hunks.LosesItsPlace | src/content.rs:1492-1505 | without context, the hunk that inserts a line after a kept one does not apply |
| Varint.WriteU64 | src/varint.rs:45-57 | appends the base-128 encoding |
| Varint.ReadU64 | src/varint.rs:67-99 | reads what the recursive reading of the encoding says, with the same errors |
| Varint.DecodesExactly | src/varint.rs:67-99 | a value below 2^64 is read at a position exactly when its encoding stands there |
| Varint.PrefixFree | src/varint.rs:45-57 | no encoding is a proper prefix of another |
| Varint.AtMostTen | src/varint.rs:45-57 | encodings have at most ten bytes |
| Varint.GroupAt | src/varint.rs:45-57 | each byte holds seven bits of the number, the lowest first, and all but the last carry the continuation bit; no byte of zeros is appended |
| Varint.ReadErrors | src/varint.rs:67-99 | which error is reported after any number of continued bytes: the end of the buffer, a superfluous zero byte, more than one bit in the tenth byte, an eleventh byte |
| Varint.ZigZagBijection | src/varint.rs:60-105 | the two zigzag maps are inverse to each other |
| Varint.ZigZagCodes | src/varint.rs:60-64 | the lowest bit of a code is the sign and the rest the distance from 0 or from -1 |
| Characters.AcceptedStrings | src/decode.rs:204-240 | a string is accepted exactly when it encodes a sequence of Unicode scalar values as section 3 of RFC 3629 says |
| Rules.CanonicalPath | src/validate.rs:16-32 | a path is canonical exactly when it has no backslash and no zero byte and no part between separators is empty, "." or ".." |
| CodecPrograms.WriteObject | src/encode.rs:16-67 | the encoder appends what the encoding function says, or fails with its error |
| CodecPrograms.WriteFields | src/encode.rs:70-148 | the same for a field sequence, with tag order, extensions and required fields |
| CodecPrograms.WriteValue | src/encode.rs:152-230 | the same for one value of every type |
| CodecPrograms.TakeObject | src/decode.rs:20-85 | the decoder returns what the decoding function says, with the same first error |
| CodecPrograms.TakeFields | src/decode.rs:88-171 | the same for a field sequence and the cursor after it |
| CodecPrograms.TakeValue | src/decode.rs:176-312 | the same for one value of every type |
| CodecLaws.GidBytes | src/decode.rs:315-340 | an identity that is read is written as exactly the bytes read |
| CodecLaws.ReadsGid | src/decode.rs:315-340 | an identity that is written is read back wherever it stands, under a string limit of at least 33 |
| Validate.ValidateTree | src/validate.rs:70-145 | the loop reports the first entry with a bad name, mode, target or order |
| Validate.ValidateFamily | src/validate.rs:48-68 | the pass that encoder and decoder run reports the first error of the family's rules, then too many references |
| Rules.Validates | src/validate.rs:48-235 | an object passes exactly when it keeps the rules of its family and names no more identities than the limit; too many are reported only when the rules are kept |
| Rules.EntriesChecked | src/validate.rs:70-145 | tree entries pass exactly when each has a good name, a known mode and a target of the family its mode calls for, and names strictly rise; the error is that of the first entry with which they stop passing |
| Rules.OperationChecked | src/validate.rs:147-173 | an operation passes exactly when it has a kind and no parameter of another kind |
| Rules.KindTags | src/validate.rs:147-173 | which kinds have which parameters, and that all other kinds may have any |
| Rules.MappingChecked | src/validate.rs:187-203 | a mapping is refused exactly when its record of losses lists something as fabricated |
| CodecLaws.CanonicalValue | src/decode.rs:176-312 | whatever value is decoded encodes to exactly the bytes between the two cursor positions |
| CodecLaws.CanonicalFields | src/decode.rs:88-171 | the same for a whole field sequence |
| CodecLaws.Canonicality | src/decode.rs:20-85 | encoding an accepted object gives back exactly the accepted bytes, unless the envelope exceeds the encoder's size limit |
| CodecLaws.DecodeInjective | src/decode.rs:20-85 | no two byte strings decode to one object |
| CodecLaws.ReadsValue | src/encode.rs:152-230 | the encoding of a value, wherever it stands, is read back as that value |
| CodecLaws.ReadsFields | src/encode.rs:70-148 | the same for a field sequence with nested records, arrays and raw extensions |
| CodecLaws.RoundTrip | src/encode.rs:16-67 | for every schema, whatever encodes decodes to the same object exactly when the string limit lets identities through or there are none, and every boolean ends its field |
| CodecLaws.EncodeInjective | src/encode.rs:16-67 | distinct encodable objects have distinct encodings, for all schemas and limits |
| CodecLaws.BoolArrayReads | src/decode.rs:188-203 | an array of booleans that is a whole field is read back exactly when it holds at most one |
| Conformance.FieldsEncode | src/encode.rs:70-148 | a field sequence is encoded exactly when it conforms: rising tags, declared fields of their types, raw extensions where allowed, and a field for every declaration that requires one; it is refused as missing a field exactly when such a one lacks |
| Conformance.FieldsDecode | src/decode.rs:88-171 | whatever is decoded conforms, and a sequence that is read is refused as missing a field exactly when some required declaration has none |
| Conformance.ValueEncodes | src/encode.rs:152-230 | a value is encoded exactly when it is of its type and everything in it is within the limits |
| Conformance.ValueWritten | src/encode.rs:152-230 | the bytes of an encoded value do not depend on schema and limits: integers in groups of seven bits, booleans as one byte, strings, identities and records after their length, arrays after their count |
| Conformance.FieldsWritten | src/encode.rs:70-148 | the same for fields: tag, length, content |
| Conformance.ObjectEncodes | src/encode.rs:16-67 | an object is encoded exactly when it passes validation, its body is of its kind and conforms, and leaves 17 bytes of room; the bytes are the magic, version, family, schema version, flags, length and body |
| Conformance.ObjectDecodes | src/decode.rs:20-85 | whatever is decoded is such an object in such an envelope |
| Conformance.EnvelopeErrors | src/decode.rs:20-75 | the first thing wrong with an envelope, in the order of the checks |
| States.DiffStates | src/content.rs:695-790 | the deltas are the plain ones paired by content and sorted by path; they tell the truth about both states and name every differing path exactly once, as path or as rename source; renames keep mode and blob |
| States.DescribedOverlay | src/reconcile.rs:377-399 | applying such deltas to any file map gives the output state on the named paths and leaves the others alone; applied to the input state they give the output state |
| States.PairKeeps | src/content.rs:744-787 | replacing a deletion and a creation of one content by a rename keeps the description |
| States.MoveFound | src/content.rs:722-787 | when exactly one path is gone and one is new and they hold the same mode and blob, the deltas report the rename |
| Moves.MovesFound | src/content.rs:733-787 | when contents come in the order of paths on both sides, no path stays deleted while another stays created with its content |
| Moves.NeverCross | src/content.rs:759-787 | of two renames, the one whose source comes first in path order has the target that does |
| Moves.MoveMissed | src/content.rs:733-787 | a family of states in which a file moves unchanged and is reported as deleted and created |
| Reconcile.OperationsCover | src/content.rs:808-862 | the operations synthesized from deltas touch every path the deltas name |
| Reconcile.ChangePaths | src/reconcile.rs:106-138 | the paths a change touches are the subjects of its operations and both paths of their renames |
| Reconcile.Owners | src/reconcile.rs:186-201 | the owner of a path is the first input trajectory that touches it |
| Reconcile.Adopt | src/reconcile.rs:203-237 | occurrences are adopted and rejected by ownership, in input order |
| Reconcile.AdoptionRule | src/reconcile.rs:203-237 | an occurrence is rejected exactly when it touches a path that an earlier trajectory touches |
| Reconcile.AdoptedDisjoint | src/reconcile.rs:203-237 | adopted changes of different trajectories touch disjoint paths |
| Reconcile.MergeAll | src/reconcile.rs:361-400 | the fold of all adopted deltas is the fold of overlays |
| Reconcile.MergedAt | src/reconcile.rs:361-400 | a merged path has the output entry of the last adopted change whose delta touches it, else the base entry |
| Reconcile.InterleavingsAgree | src/reconcile.rs:361-400 | when operations cover the deltas, every interleaving that keeps each trajectory's order merges to the same map |
| Reconcile.SynthesizedCovered | src/content.rs:808-862 | changes with synthesized operations are covered |
| Reconcile.SharedBase | src/reconcile.rs:166-178 | the inputs are accepted exactly when no input contradicts the base of an earlier one |
| Reconcile.Analyze | src/reconcile.rs:158-403 | there is a plan exactly for two or more inputs that agree on a base and whose adopted changes merge to a map that has a state, and its result is the identity of that state; adopted and rejected are, in input order and once each, the changes that touch no path of an earlier input and those that do; at every path the merged map holds what the last adopted change that moves it put there, and the entry of the base where none does |
| Reconcile.AllListed | src/reconcile.rs:180-237 | every change of every input stands in exactly one of the two lists, by that rule and in input order |
| Reconcile.PlannedExactly | src/reconcile.rs:361-403 | for inputs read from stored states, the merge has a state exactly when no file and no file inside it come from different changes, or from a change and the base, and everything is within the limits |
| Reconcile.MergeClashes | src/reconcile.rs:361-400 | a merge of well-formed states has a file inside a file exactly when two different origins put them there |
| Reconcile.NestedHasNoPlan | src/reconcile.rs:361-403 | two trajectories that touch disjoint paths, are both adopted, and merge to a map without a state |
| Store.Repo.InsertObject | src/store/mod.rs:357-374 | storing keeps everything stored, adds the canonical bytes under their digest, and refuses other bytes under a digest in use |
| Store.InsertIdentified | src/store/mod.rs:357-374 | an object that is stored has the identity computed for it without storing; where encodings can be read back only other bytes under its digest can be in the way |
| Store.LoadsBack | src/store/mod.rs:377-416 | loading an identity under which an object's encoding is stored gives that object |
| Store.LoadsExactly | src/store/mod.rs:377-416 | an identity loads exactly the object whose encoding it names; only an object within 8 bytes of the size limit may load without being encoded again |
| TreePrograms.BuildTreeObject | src/content.rs:377-399 | a tree object is made exactly of entries in strict name order |
| TreePrograms.BuildTreeFromFilesLimits | src/content.rs:223-276 | the in-memory builder computes the planned tree of a prefix and ends because keys are longer than prefixes |
| TreePrograms.BuildTreeFromFilesInsert | src/content.rs:172-218 | an identity from the publishing builder is that of the in-memory one, and every tree below it is stored; where encodings can be read back it fails only as the in-memory one does or on a collision |
| TreePrograms.StateIdentityFromFiles | src/content.rs:147-156 | the planned identities of root tree and state |
| TreePrograms.BuildStateFromFiles | src/content.rs:161-168 | the published state has the planned identity, and it and all its trees are stored |
| TreePrograms.StateBuildsExactly | src/content.rs:147-156 | a state of canonical paths to regular files has an identity exactly when no path is a directory prefix of another and every tree and the state object are within the limits |
| TreeLaws.BuildsExactly | src/content.rs:172-276 | for canonical paths to regular files, building succeeds exactly when no path is a directory prefix of another and every tree, measured by its names and modes, is within the limits; without such a prefix only a limit refuses |
| TreeLaws.BuildsWhenFits | src/content.rs:172-276 | the same for the tree of any prefix, all trees below it included |
| Trees.NeverEnds | src/content.rs:172-276 | the builders call themselves on their own arguments, and before anything else, exactly when some key starts with a separator and the empty string is no key |
| TreeLaws.ConflictFails | src/content.rs:193-204 | a file inside a file defeats every tree above it |
| TreeLaws.TreeEncodes | src/validate.rs:70-145 | the encoder takes a tree of good entries in order exactly when entry count, reference count, name lengths, nesting and total size are within the limits |
| TreeLaws.FlattenPublished | src/content.rs:883-924 | flattening a published tree adds exactly the files under its prefix |
| TreePrograms.FlattenTreeRec | src/content.rs:883-924 | the recursion computes the flattening function, with its errors |
| TreePrograms.StateRoundTrip | src/content.rs:403-412 | reading a published state gives back the file map it was built from, also after more objects are stored |
| StateLaws.StateWellFormed | src/content.rs:403-412 | the files of every state that can be read are canonical paths to regular files, none inside another |
| StateLaws.FlattenAdds | src/content.rs:883-924 | flattening any stored tree adds such files under its prefix |
| StateLaws.StateBytes | src/content.rs:147-168 | a state is 45 bytes: the envelope of its family around the identity of its root tree |
| StateLaws.EntryBytes | src/content.rs:377-399 | a tree entry is its name, mode and target in fields 1, 2 and 3 |
| Packs.PackRoundTrip | src/exchange/mod.rs:133-257 | an encoded pack decodes to its objects exactly when it is within the limits and every object is genuine |
| Packs.PackCanonical | src/exchange/mod.rs:170-257 | encoding what an accepted pack decodes to gives back its bytes exactly when no object is longer than a 32-bit length |
| Packs.EncodesWhen | src/exchange/mod.rs:133-151 | a pack is encoded exactly for strictly ascending objects of 32-bit length |
| PackLayout.PackBytes | src/exchange/mod.rs:133-165 | a pack is encoded exactly for rising identities and 32-bit lengths; its magic, version, count, trailer and every object stand where the sizes before them put them, with lengths in eight little-endian bytes |
| PackLayout.GidBelowExactly | src/exchange/mod.rs:133-151 | identities are ordered by family code, then by the first byte in which the digests differ |
| PackPrograms.EncodeObjects | src/exchange/mod.rs:133-165 | the encoder's checks and its buffer compute the pack bytes |
| PackPrograms.DecodeObjects | src/exchange/mod.rs:170-257 | the decoder's checks and its cursor compute the objects or the first error |
| PackPrograms.BuildPacks | src/exchange/export.rs:113-143 | the loop with its open pack and its flushes computes the greedy cut, encoded, and returns the packs in the order of their identities |
| PackLayout.SortedPacks | src/exchange/export.rs:141-142 | sorting puts the packs in the order of their identities, keeps each, and keeps the order of equal ones |
| PackPrograms.BuiltHolds | src/exchange/export.rs:113-143 | packs of ascending genuine objects are always built; they hold every object exactly once exactly when each object alone is within the decoder's limit; no order-preserving cut has fewer |
| PackBuilder.CutPartitions | src/exchange/export.rs:128-141 | the cut keeps every object in order, and every pack is within the target or holds one object |
| PackBuilder.CutIsShortest | src/exchange/export.rs:128-141 | no order-preserving cut into such packs is shorter |
| PackLayout.CutWhenFull | src/exchange/export.rs:128-141 | every pack but the last was closed because the next object would have taken it past 262144 bytes |
| Export.CollectExportObjects | src/exchange/export.rs:54-105 | what is collected is ascending, genuine and exactly what the seeds reach, less the blobs of a profile without them; it fails exactly when something reached cannot be loaded |
| PackPrograms.BuiltWhen | src/exchange/export.rs:113-143 | packs of strictly ascending objects are built exactly when no object is longer than a 32-bit length |
| Export.ExportPacks | src/exchange/export.rs:54-143 | from the store to the packs: the export fails exactly when something reached cannot be loaded or an exported object is too long for a pack; the packs are in the order of their hashes, and every exported object comes back exactly once when they are decoded under the receiver's limits, exactly when each fits |
| Quarantine.ValidateClosure | src/exchange/ingest.rs:70-147 | the stack walk ends; it accepts only frontiers all of whose chains of parents are within the depth limit and sound, refuses only others or those whose unread packs exceed the byte budget, and gathers the objects of all packs not read before |
| Quarantine.ReadPacks | src/exchange/ingest.rs:115-146 | every pack of a frontier is marked, read at most once in a pass, checked, and counted against the byte budget |
| Quarantine.ChainWalked | src/exchange/ingest.rs:85-147 | when the stack is empty every chain of parents from the root has been walked to its end |
| Quarantine.StepWeight | src/exchange/ingest.rs:85-114 | a frame outweighs all the parents it pushes, which is why a walk that remembers nothing ends |
| Quarantine.SoundExactly | src/exchange/ingest.rs:92-138 | a frontier is sound exactly when it asks for schema version 1 only and every parent and pack it names is on disk, hashes to the name, and can be read |
| Quarantine.ReadsParent | src/exchange/ingest.rs:93-113 | a parent is read exactly when its name is an identity, the file is there, hashes to it and describes a frontier |
| Quarantine.ReadsPack | src/exchange/ingest.rs:117-138 | a pack is read exactly when its name is an identity, the file is there, hashes to it and decodes |
| Ingest.Local.Promote | src/exchange/ingest.rs:148-188 | promotion stores every validated object and only those, and reports the first configuration; only the store can stop it, and where its limits are those of the pack check only by a collision or an oversized envelope |
| Ingest.Local.IngestFrontier | src/exchange/ingest.rs:70-189 | an error before promotion leaves the store as it was; success stores every object of the closure and reports a configuration exactly when the packs newly read hold one; whatever is added is from a closure that is sound throughout |
| Ingest.Local.Activate | src/exchange/ingest.rs:276-332 | a repository without a head takes the first frontier that describes the source: its change is the head, and the stored change has field 0x05 with the new state head; it fails exactly when that change cannot be loaded or has no such field; trajectory and configuration follow, and no other ref changes |
| Ingest.Local.Ingest | src/exchange/ingest.rs:199-335 | every pass keeps the closures of imported frontiers stored, loses nothing, counts exactly the objects of the packs it read, sets the ref of every frontier it imports, and settles; it activates exactly when there was no head and a frontier describes the source, with the configuration of the packs that frontier brought, and changes no other ref; a pass over settled records changes nothing, and so does one that can only fail |
| Ingest.ResultsExactly | src/exchange/ingest.rs:283-287 | the state taken from a stored change is the one its field 0x05 refers to |
| Ingest.Local.IngestTwice | src/exchange/ingest.rs:199-335 | a second pass over the same disk and source promotes nothing and changes no ref; after a failed pass the second fails and changes nothing too, unless the byte budget or the store stopped the first |
| History.VisitClosure | src/git_interop.rs:281-297 | one visit finishes a change with all it reaches, parents first where there is no cycle, or finds something that cannot be loaded |
| History.HeadClosure | src/git_interop.rs:271-279 | the closure lists exactly what the head reaches, once each, the head last; it fails exactly when something reached cannot be loaded; it lists parents first exactly when there is no cycle |
| History.OrderedAcyclic | src/git_interop.rs:267-270 | an order with parents first rules cycles out |
| History.ExportCommits | src/git_interop.rs:321-358 | the commits are made exactly when every change of the chain can be described; every commit's parents are exactly the sorted commits of all its causal parents when the chain lists parents first, and a parent is dropped exactly when it does not |
| History.ExportHistory | src/git_interop.rs:302-358 | from the head to the commits: one commit for every change the head reaches, failing exactly when one cannot be loaded or cannot be described, as without a resulting state; no parent is dropped exactly when the history has no cycle |
| History.SortRises | src/git_interop.rs:331-335 | the parent list is in order and holds every image once |
| History.ParentImages | src/git_interop.rs:325-335 | where every parent has a commit, the images are those commits in order, and the sorted list holds them all |
| History.ReachedChildren | src/query.rs:281-297 | the first worklist reverses the parent relation over exactly what the head reaches |
| History.ResidualPersistence | src/query.rs:277-312 | the count is the number of head-reachable changes with an affected change as strict ancestor; both worklists end |
| Graph.WalkDone | src/query.rs:284-297 | a worklist that has run empty has visited exactly what its roots reach |
| Chains.ChainLatestFast | src/query.rs:576-605 | following the index finds the end of a chain of at most 4095 hops and gives up on longer ones |
| Chains.ChainLatestSlow | src/query.rs:611-632 | following one scan finds the end of a chain of at most 4096 hops and gives up on longer ones |
| Chains.ChainLatest | src/query.rs:557-607 | with or without a fresh index the answer is the scan's, also where the two guards differ |
| Chains.LatestExactly | src/query.rs:557-632 | without second successors, the latest version is the one within reach that nothing follows |
| Chains.Versions.Resolve | src/workflow.rs:941-1005 | resolving by any version puts one new version on top of the latest, keeps every residual with at most one successor, and changes nothing when it fails |
| Chains.Versions.Publish | src/workflow.rs:440-499 | a finish stores residuals without a previous version, which gives no version a successor |
| Chains.StaysSingle | src/workflow.rs:993-999 | a new version above a latest one leaves no version with two successors |
| Chains.ChainsExtended | src/workflow.rs:941-1005 | every chain that ended at the old latest version ends at the new one, and no other chain changes |
| Workflow.Repository.BeginChange | src/workflow.rs:214-275 | a pending record is opened once per workspace, with the state asked for, else the workspace's own, else the state head as input; nothing else changes |
| Workflow.Repository.TakeSnapshot | src/workflow.rs:348-369 | the part of a finish before the lock changes no shared record |
| Workflow.Repository.CommitChange | src/workflow.rs:371-682 | the part under the lock reads the pending record again, and does exactly the commit step |
| Workflow.CommitEffects | src/workflow.rs:371-682 | a finish that goes through makes one change from the recorded input to the snapshot, with the old head as parent exactly when the input is the state head; it becomes the head, its result the state head and the workspace's state, and the record is consumed |
| Workflow.CommitContinues | src/workflow.rs:523-660 | the current trajectory version adds that change alone; it continues the open version of the same intent or starts afresh from the recorded input under the next number |
| Workflow.CommitFails | src/workflow.rs:371-682 | a finish that does not go through can leave its change behind unpublished, and changes nothing else |
| Workflow.BackToBack | src/workflow.rs:214-682 | the next change begun and finished in the same workspace with the same intent starts from the result of the first, has it as causal parent and adds to the same trajectory |
| Workflow.FinishedFrom | src/workflow.rs:214-682 | a change begun and finished at once has the state asked for, else the workspace's own, else the state head as input, and the head as parent exactly when that input is the state head |
| Workflow.Repository.CloseTrajectory | src/workflow.rs:867-915 | a close that goes through adds one version with that outcome, whose previous is the closed one, and makes the first name of the closed one mean it; no other name and no other record changes |
| Workflow.StartsAfresh | src/workflow.rs:541-573 | after the latest trajectory was closed, whatever is begun, snapshot or reconciled in between, the next finish with its intent opens the next trajectory with a first version, and the closed one's name keeps the version with the outcome |
| Workflow.CloseEnds | src/workflow.rs:541-573 | a finish starts afresh after a close exactly when the latest trajectory's name is the first name of the version it means |
| Workflow.CurrentStays | src/workflow.rs:904-908 | "current" stays at the version that was closed when a trajectory's name means it too |
| Workflow.NamesDiffer | src/workflow.rs:636-660 | a trajectory's name is "T" and its number in decimal, and no two share one |
| Workflow.Repository.PublishReconciliation | src/reconcile.rs:457-668 | the published change leads from the base to the result and has exactly the adopted changes as causal parents; head, state head and default workspace follow it exactly when it is applied, and nothing else changes; it is refused when an adopted change is unknown |
| Workflow.RunKeeps | src/workflow.rs:214-915 | every step of every interleaving keeps all invariants of the records |
| Workflow.ChainShares | src/workflow.rs:523-633 | all versions of a trajectory share intent and base state, and after an outcome no version adds a change |
| Workflow.EveryRun | src/workflow.rs:214-915 | over every run each pending record is consumed at most once and none is lost, the state head is the resulting state of the head change, and the history of the head has no cycle |
| Workflow.SnapshotServes | src/workflow.rs:348-682 | a commit that goes through consumes the record that was pending at its snapshot exactly when no finish of the workspace went through in between |
| Workflow.RecordStays | src/workflow.rs:348-682 | over every run a pending record stays its workspace's until a finish of that workspace goes through, and then is consumed for good |
| Workflow.Overtaken | src/workflow.rs:348-682 | a run in which a commit consumes a record opened after its snapshot, whenever its two changes and its two versions have different identities |
| Workflow.OvertakenHappens | src/workflow.rs:348-682 | such identities exist |
| Workflow.Repository.ExportHead | src/git_interop.rs:302-358 | exporting the records of any run succeeds exactly when every change the head reaches can be described, and then no commit lacks the commit of a causal parent |
| Workflow.RunGrows | src/workflow.rs:214-915 | no run loses or changes a stored change or version |

## Left out

- Line diff: indices are unbounded integers, not `i64` and `usize`; the backward search is modelled as a forward search on the reversed lists; `Frontier.AdvanceDiagonal` and `MiddleSnake.SearchDepth` are the loop bodies the source writes out for each search.
- Rendering of hunks as text, splitting content into lines and the size threshold messages.
- Codec: the bit operations of the varints are written arithmetically; the 24 schema tables are a parameter, of which only those of trees and states are spelled out, so that none declares an array of booleans is not proved here; the details inside error values are not modelled, only which error is first.
- Moves.MovesFound: contents in path order are enough for every move to be found, and not necessary; which moves are found otherwise depends on how the two path orders interleave.
- Operations of a change other than the paths they touch.
- Reconcile.Analyze: does not model the conflict lists, interactions, claims, evidence and residuals of a plan, which are reports on the adoption and the merge; the states of the inputs are given as files that were read.
- TreePrograms.FlattenTreeRec: takes the recursion depth the stack allows as a parameter, because trees in an arbitrary store may refer to each other in a circle; the round trip holds for every depth above the longest path.
- Materializing states into directories, capturing working trees, Git trees and Git import.
- Store: reading published states back is proved where every encoding can be read back (`Store.Supported`: string limits of at least 33, object limits up to 2^57 bytes, no array of booleans in a schema); tombstones, atomic file publication, locks and the index are not modelled; an atomic ref transaction is one assignment, and the write lock makes every step atomic.
- JSON, hexadecimal and directory walking of the exchange: the disk is a map from identities to bytes with parsing as a function, and the list of descriptors found is an input.
- Ingest.Local.Activate: does not set the semantic index refs of the activated frontier, which are derived from the imported objects.
- Ingest.Local.IngestTwice: does not say what a second pass does after the byte budget or the store stopped the first: with its budget anew it can promote more.
- Ingest.Local.Ingest: does not model the human names and the semantic index refs restored for imported objects, because they are local labels; a change without a resulting state, on which the source stops, is an error here.
- The verification of packs without import, which walks the same stack without a byte budget.
- Export: what a commit says apart from its parents (its Git tree, author and message) is an input, absent where the change has no resulting state or something it needs cannot be read; a commit identity is any function of that and the parents; mapping objects are not modelled.
- Chains.Versions.Resolve: does not cover versions that arrive by exchange from another repository, which can give a residual two successors.
- Workflow.Repository.BeginChange: does not create an intent from a summary or record a producer; the intent is given.
- Workflow.Repository.CommitChange: does not model the operations, claims, evidence and residuals a finish stores or human names other than those of trajectories; the working-tree snapshot is an input.
- Workflow.Repository.PublishReconciliation: does not store the reconciliation object, its operations and its names.
- Workflow: checkpoints.
- The agent protocol, the command line, the semantic scanner, retention and the court.
