# APMX, verified

APMX runs "factories": contracts linked by the files they need and produce, each carried out by a
supervised agent process, checked, and sealed into a receipt that a pull-request gate later binds.
This project models the parts that decide whether such a receipt can be trusted, and proves what they
promise, over every input, every run and every failing write.

- **Receipt codec** (`Json`, `JsonProofs`, `Base64`, `Bundle`): canonical JSON, base64 and one envelope
  a line. Reading undoes writing, exactly for the statements that can be written.
- **Patches and delivery** (`Patches`, `PatchLoops`, `PatchGrammar`, `Paths`, `Delivery`,
  `DeliveryProofs`): the accepted language of the parser, exactly; patches combine exactly when they
  are disjoint and each applies; `git apply` may do anything at all.
- **Receipt, verifier and gate** (`Receipts`, `VsaPrefix`, `Binding`, `BindingProofs`): writer and
  verifier are separate programs that agree, and an accepted pull request changes nothing but
  delivered bytes and recorded deletions.
- **Git trees** (`GitTree`, `GitTreeProofs`): one tree id, one map of files.
- **Contract graph and chain** (`Resolution`, `ResolveGraph`, `Chain`, `ChainProofs`): the resolved
  order is a true closure, and each leaf is handed its own producers' records.
- **Streams** (`Lines`, `Messages`): framing that does not depend on chunks; private text never
  leaves and public text leaves once.
- **Supervision** (`Process`, `ProcessProofs`): a polling loop with a deadline and an escalation, over
  every monotone clock and every behaviour of the child.
- **Outcomes** (`Assess`, `Attempt`, `AttemptProofs`, `Repair`, `RepairProofs`): COMPLETE is earned
  even when any write may fail before or after replacing the file.
- **Policy** (`Policy`, `PolicyProofs`): merging levels, and what an added level can and cannot change.
- **Captures** (`Captures`, `CapturesProofs`): collision checks, copying and inspection of a directory.

Code that changes things step by step is a method or a class, proved equal to a specification
function over values; the lemmas are about those functions. What the world decides (clocks, children,
writes, `git apply`, retained files) is an argument, and every result holds for all of its values.

Some promises do not hold as they stand. For each a lemma names an input that breaks it, and another
says when it holds: the JSON encoding of split surrogate pairs (`SplitSurrogatesCollide`,
`CanonicalRoundTrip`), the placing prefix among copies of one file (`CopiesAreRefused`,
`FindPrefix`), tightening by an added policy level (`BothPinsRestore`, `AddedLevelWidensExactly`;
`MismatchCanSoften`, `IdentityStaysExactly`), acceptance by every level (`PinsOfTwoKindsMeetInNothing`,
`AcceptedExactly`), and an exact inspection on a case-sensitive file system (`CaseVariantPasses`,
`InspectedIsRecorded`). `git_tree` as a function of any file map also fails or loses a file where paths
contain each other (`OrderMatters`, `OrderMattersExactly`, `BuildIsExact`); the program itself calls it
only on files captured from a directory, whose paths never do.

`dafny verify dfyconfig.toml` checks the whole project.

## Model

| member | source | states |
|---|---|---|
| Json.CollectFields | src/apmx/audit/verifier.py:180-185 | The loop of `unique` refuses or builds what `Json.Unique` specifies; `UniqueExactly` says what that is |
| Json.UniqueExactly | src/apmx/audit/verifier.py:180-185 | A list of pairs becomes an object exactly when no name repeats, and the object then holds every pair and nothing else |
| JsonProofs.StringRoundTrip | src/apmx/audit/verifier.py:117-121 | Reading back an escaped string gives the string and the rest of the text, for strings without a split surrogate pair (RFC 8259, section 7) |
| JsonProofs.ValueRoundTrip | src/apmx/audit/verifier.py:117-121 | A printed value followed by a separator or the end is read back as itself, whatever it nests |
| JsonProofs.ReadIsPaired | src/apmx/audit/verifier.py:188-193 | Whatever the reader accepts is a value whose strings hold no split surrogate pair |
| JsonProofs.CanonicalRoundTrip | src/apmx/audit/verifier.py:117-193 | `document(canonical(v))` is `v` if and only if no string of `v` has a high surrogate directly before a low one |
| JsonProofs.CanonicalInjective | src/apmx/audit/verifier.py:117-121 | Two such values with one canonical encoding are equal |
| JsonProofs.SplitSurrogatesCollide | src/apmx/audit/verifier.py:117-121 | Without that condition the encoding is not injective: one emoji and its two halves print alike |
| JsonProofs.EscapeIsShortest | src/apmx/audit/verifier.py:117-121 | No printable text that reads as one character is shorter than what is printed for it |
| JsonProofs.StandardEscapes | src/apmx/audit/verifier.py:117-121 | The tokens, white space, two-character escapes and hexadecimal digits are those of RFC 8259, sections 2 and 7; printed digits are lower-case |
| Base64.DecodeEncode | src/apmx/audit/verifier.py:152-152 | Decoding inverts encoding on every byte string (RFC 4648, section 4) |
| Base64.EncodeDecode | src/apmx/audit/verifier.py:379-379 | A text the decoder accepts is the encoding of its bytes exactly when its pad bits are zero (RFC 4648, section 3.5), so a payload fixes its text only up to those bits |
| Base64.StandardAlphabet | src/apmx/audit/verifier.py:152-152 | The alphabet and the order of the bits are those of RFC 4648, section 4 |
| Bundle.PrintIsGraphic | src/apmx/audit/verifier.py:117-121 | A printed document has only printable ASCII, hence no newline |
| Bundle.LoadWritten | src/apmx/audit/verifier.py:875-884 | Loading the bytes of a nonempty list of statements gives one line a statement, or the size refusal exactly above 16 MiB |
| Bundle.LoadsExactly | src/apmx/audit/verifier.py:875-884 | What loads: one or more nonempty lines, each ended by a newline, of at most 16 MiB in all; anything else is refused as too large, not ended, or holding an empty line |
| Bundle.LineText | src/apmx/audit/verifier.py:150-153 | A written line is its three fields in sorted order, compactly, with the statement in base64 and no signature |
| Bundle.WrittenLineParses | src/apmx/audit/verifier.py:150-153 | An envelope line is taken back as its own unsigned statement if and only if the statement is an object free of split surrogate pairs |
| Bundle.AcceptedLine | src/apmx/audit/verifier.py:367-394 | An accepted line is a canonical envelope whose payload decodes to the canonical encoding of its statement; it is that statement's own unsigned line exactly when it has no signatures and zero pad bits |
| Bundle.BundleRoundTrip | src/apmx/audit/verifier.py:367-394 | Within the limits, loading and parsing a written bundle returns exactly the statements written, unsigned, if and only if all are writable, and each digest is the digest of its own line |
| Bundle.Receipt.ParseLines | src/apmx/audit/verifier.py:367-394 | The loop accepts exactly 1 to the line limit of parsing lines, collecting every statement, digest and signature count in order; otherwise it names the first refused line, with the statements before it collected |
| Lines.Framer.constructor | src/apmx/contracts/stream.py:53-63 | A new framer has fed and released nothing; its limit is at least one byte |
| Lines.Framer.Feed | src/apmx/contracts/stream.py:65-83 | After any chunk the callbacks are those of the specification for all bytes fed, however they were cut; pending bytes never exceed the limit |
| Lines.Framer.Clear | src/apmx/contracts/stream.py:438-441 | Clearing the pending bytes withdraws an unfinished line that fits and changes no callback made so far |
| Lines.Framer.Finish | src/apmx/contracts/stream.py:85-89 | Finishing emits exactly the nonempty unfinished tail that has not overflowed, and starts over |
| Lines.SplitSegment | src/apmx/contracts/stream.py:65-83 | Feeding bytes without a line feed extends only the last part of the split text |
| Lines.WithdrawnReleases | src/apmx/contracts/stream.py:438-441 | Cutting the unfinished line off a text leaves its released callbacks as they were |
| Lines.FrameChunks | src/apmx/contracts/stream.py:65-89 | Any sequence of chunks, then `finish`, gives exactly the callbacks specified for their concatenation: lines split on LF, one CR stripped from terminated lines, one overflow a line above the limit, the tail last |
| Lines.FirstLine | src/apmx/contracts/stream.py:65-89 | The specified callbacks, line by line: an ended line within the limit is shown without one final CR, a longer one only as an overflow, and then the rest of the stream |
| Lines.LastLine | src/apmx/contracts/stream.py:85-89 | A last line that is not ended is shown as it stands, or as an overflow, and not at all when it is empty |
| Messages.Message.UpdatePhase | src/apmx/contracts/stream.py:424-441 | The phase update as specified by `SetPhase`, with the held-back line withdrawn once the message is private |
| Messages.Message.OnStart | src/apmx/contracts/stream.py:443-447 | A start event takes the message to the specified next state, and nothing once it is complete |
| Messages.Message.OnDelta | src/apmx/contracts/stream.py:449-460 | A delta feeds its bytes only while the phase is public and nothing was withheld before, and takes the message to the specified next state |
| Messages.Message.OnFinal | src/apmx/contracts/stream.py:462-503 | A final message feeds all of its content, the missing suffix, or nothing, takes the message to the specified next state, and makes exactly the callbacks of that state |
| Messages.Message.Finish | src/apmx/contracts/stream.py:225-236 | Closing the decoder releases the last line of a message only while it is public |
| Messages.RunConsistent | src/apmx/contracts/stream.py:424-503 | Over every event sequence: nothing streamed without a known phase, nothing fed once withdrawn, and a streamed public message has fed exactly its deltas |
| Messages.SealedForever | src/apmx/contracts/stream.py:424-503 | Once complete, or withdrawn as known not to be public, no later event feeds or releases anything |
| Messages.PrivateNeverLeaves | src/apmx/contracts/stream.py:424-503 | If the first phase a message is given is not a public one, nothing of it is ever visible, whatever comes before it without a phase or after it |
| Messages.NothingAfterSuppression | src/apmx/contracts/stream.py:424-441 | From the moment a message is known not to be public or is suppressed, what is visible stays exactly the lines already released |
| Messages.PublicLeavesOnce | src/apmx/contracts/stream.py:462-503 | A message that may be shown and completes with content that extends what was streamed has fed exactly that content once and shows exactly its lines; otherwise the streamed deltas' complete lines stand alone; only a digest collision on the one prefix is excluded |
| Messages.StreamsExactly | src/apmx/contracts/stream.py:424-460 | Until its final message, a message with a public phase has fed exactly its deltas, from the event that gave the phase on, unless text came before that: then nothing |
| Messages.StreamedIsShown | src/apmx/contracts/stream.py:225-236 | Closing the decoder then shows exactly the lines of what was fed, the unfinished last one included |
| Messages.UnphasedIsHidden | src/apmx/contracts/stream.py:449-460 | A message that is given no phase shows nothing before its final message |
| Messages.PhaseHistory | src/apmx/contracts/stream.py:424-441 | Over every event sequence, the phases heard up to and with the first final message decide the state: suppressed exactly when they are not all one valid phase, public exactly when they are, with a public name, and complete exactly when a final message has come |
| Resolution.Visitor.Visit | src/apmx/contracts/resolution.py:195-218 | The recursive visit keeps the order topological, adds exactly the edges owed, reaches nothing it was not asked for, and a refusal blames a contract the visited one needs: a cycle, a spelling or a missing input; it terminates on the number of contracts not active |
| ResolveGraph.BuildProducers | src/apmx/contracts/resolution.py:168-178 | The index maps each folded output to its one contract, or reports that two contracts declare it |
| ResolveGraph.OverlapIsPrefix | src/apmx/contracts/resolution.py:105-107 | Two folded names overlap exactly when the components of one are a prefix of the other's |
| ResolveGraph.Targets | src/apmx/contracts/resolution.py:179-189 | The targets are the selection, or exactly the contracts that feed no other |
| ResolveGraph.SinksReachAll | src/apmx/contracts/resolution.py:220-225 | In every catalog, cyclic or not, a contract is needed by one that feeds no other or by one on a cycle, so visiting the catalog after the sinks adds only contracts behind a cycle |
| ResolveGraph.SinklessIsRefused | src/apmx/contracts/resolution.py:222-225 | A contract that no sink needs does not disappear: the whole catalog then has no admissible graph, so resolving refuses it |
| ResolveGraph.NoCycleInOrder | src/apmx/contracts/resolution.py:195-218 | No contract of a topological order lies on a cycle |
| ResolveGraph.Resolve | src/apmx/contracts/resolution.py:157-237 | A returned graph is a duplicate-free topological closure of its targets whose edges are exactly the produced needs, the whole catalog in whole-factory mode, without collisions and over unambiguous producers; a refusal names a real fault of the catalog |
| ResolveGraph.OutputsCollideAnyOrder | src/apmx/contracts/resolution.py:231-232 | Whether outputs overlap does not depend on the order they are compared in |
| ResolveGraph.RefusedHasNoGraph | src/apmx/contracts/resolution.py:157-237 | The two results exclude each other: where any refusal's reason holds, an ambiguous producer included, no graph is admissible, so resolving succeeds exactly when one is |
| PatchLoops.Body | src/apmx/contracts/patches.py:83-97 | The counting loop stops in bounds exactly where the specification's body ends |
| PatchLoops.Hunks | src/apmx/contracts/patches.py:73-101 | The index loop over hunks gives the next index exactly where the specification continues, or refuses with it |
| PatchLoops.Section | src/apmx/contracts/patches.py:116-163 | One turn of the file loop reads the section the specification reads and the index after it |
| PatchLoops.ParsePatch | src/apmx/contracts/patches.py:104-164 | The whole index-driven parser equals the specification on every decoded text and refuses text that is not UTF-8 |
| PatchGrammar.HeaderPathExact | src/apmx/contracts/patches.py:65-70 | `_header_path` returns P exactly for the nonempty P of `a/P b/P`, so at most one |
| PatchGrammar.HunkReads | src/apmx/contracts/patches.py:73-101 | A rendered hunk is consumed whole by its counts, even when its lines look like headers |
| PatchGrammar.CountedExact | src/apmx/contracts/patches.py:83-97 | A body is counted exactly when the announced old and new lines are all consumed and none before its end |
| PatchGrammar.HeaderReads | src/apmx/contracts/patches.py:77-81 | A rendered `@@` header reads back as its two counts |
| PatchGrammar.CountLeftOut | src/apmx/contracts/patches.py:80-81 | A count left out of a header reads as one |
| PatchGrammar.SectionReads | src/apmx/contracts/patches.py:116-163 | A rendered section is read as what it declares, and the rest of the text is left to the next |
| PatchGrammar.SectionExact | src/apmx/contracts/patches.py:116-163 | Every section the parser reads is a rendering of a well-formed section |
| PatchGrammar.CreationReads | src/apmx/contracts/patches.py:116-163 | The text Git writes for a created file reads as that path, id and mode, with no pre-image |
| PatchGrammar.DeletionReads | src/apmx/contracts/patches.py:116-163 | So does the text of a deleted one, with no post-image |
| PatchGrammar.ModificationReads | src/apmx/contracts/patches.py:116-163 | And that of a changed one, with both ids |
| PatchGrammar.DeclaresOnly | src/apmx/contracts/patches.py:116-163 | Any section that is read has a file mode, differing ids of forty lower-case hexadecimal digits, never the null id, and names its path on both sides; it creates a file exactly under a new-file line |
| PatchGrammar.ParseInvertsRender | src/apmx/contracts/patches.py:104-164 | Parsing the rendering of any well-formed sections with distinct paths, up to the file limit, returns exactly their paths, ids and modes |
| PatchGrammar.ParseAcceptsOnlyRenderings | src/apmx/contracts/patches.py:104-164 | Every text the parser accepts is such a rendering, so the accepted language is exactly the sections' own grammar; that contains what Git exports and more, such as a mode line `new file mode x 100644` |
| Paths.SafeIsNotUnsafe | src/apmx/audit/verifier.py:196-208 | The verifier takes a path exactly when the writer does not call it unsafe and it has at most 4096 characters |
| Paths.UnsafeExactly | src/apmx/contracts/patches.py:166-190 | A path is applied exactly when it is plain components joined by slashes, none of them Git's own, without control characters, backslashes, colons or quotes, and outside `.apm` |
| Delivery.PatchOutput | src/apmx/contracts/evidence.py:381-395 | An output counts as a patch exactly when it parses, has sections, names only applicable paths, and every pre-image is the attempt's baseline |
| Delivery.PatchOutputExactly | src/apmx/contracts/evidence.py:381-395 | A patch output changes safe, distinct paths, each from the file, mode and bytes that the baseline has there, or from none |
| Delivery.ParsedIsProper | src/apmx/contracts/patches.py:104-164 | Every parsed section changes its path, and no path is named twice |
| Delivery.Apply | src/apmx/contracts/patches.py:242-290 | Replaying succeeds exactly when all checks hold of whatever files and directories `git apply` left: pre-images, post-images, nothing at a deleted path, no other file and no more entries than the walk takes; the result is each touched path's recorded mode and bytes |
| Delivery.AppliesExactly | src/apmx/contracts/patches.py:242-290 | A patch applies exactly when each section finds its pre-image on a safe path and leaves its post-image or nothing, a regular file of at most 16 MiB, no other file comes out, and at most 40,000 entries |
| Delivery.DeletedIsGone | src/apmx/contracts/patches.py:276-279 | After a successful replay no file stands at a deleted path or below it, for a directory there is refused like a file |
| Delivery.DeliverPatches | src/apmx/contracts/evidence.py:412-432 | The loop over patches leaves exactly the specified delivered files and before-images, or stops at the first that does not apply |
| Delivery.DeliverFiles | src/apmx/contracts/evidence.py:433-449 | A delivery of whole files succeeds exactly when each name is safe and equal names have equal bytes; it delivers every output, with the digest of what stood in the base |
| DeliveryProofs.SharedPathRefused | src/apmx/contracts/evidence.py:415-425 | A second patch on a path that another has changed does not apply, whatever `git apply` does |
| DeliveryProofs.CombinesExactly | src/apmx/contracts/evidence.py:412-432 | Patches over agreeing baselines combine exactly when they touch pairwise disjoint paths and each applies alone; the delivery is then the union of what each does alone |
| DeliveryProofs.DeliversExactly | src/apmx/contracts/evidence.py:412-432 | What a combined delivery then says of every section of every patch: its before-image, and its file as replayed under its mode, or none; and it says nothing of any other path |
| DeliveryProofs.OrderDoesNotMatter | src/apmx/contracts/evidence.py:412-432 | Two successful replays of the same patches, in any orders and with any behaviours of `git apply`, deliver the same files and before-images unless a blob id collides |
| DeliveryProofs.SuccessAnyOrder | src/apmx/contracts/evidence.py:412-432 | Whether the patches combine does not depend on their order |
| Receipts.ReadTable | src/apmx/audit/verifier.py:263-271 | Reading a statement's subjects gives the specified table; an accepted list has distinct names |
| Receipts.TableExactly | src/apmx/audit/verifier.py:263-271 | Subjects make a table if and only if their names are safe and distinct, and it holds each digest under its name and nothing else |
| Receipts.ReadImages | src/apmx/audit/verifier.py:825-829 | The loop over dependencies gives the specified before-image table or refuses |
| Receipts.ImagesExactly | src/apmx/audit/verifier.py:825-829 | So do the before-images among the dependencies, whatever the others are |
| Receipts.ReadCreated | src/apmx/audit/verifier.py:830-832 | The loop over created paths adds each as absent before, or refuses |
| Receipts.CreatedExactly | src/apmx/audit/verifier.py:830-832 | Created paths are entered if and only if they are safe, distinct and without a before-image |
| Receipts.ReadRemoved | src/apmx/audit/verifier.py:833-847 | The loop over deletions gives the specified table or refuses |
| Receipts.RemovedExactly | src/apmx/audit/verifier.py:833-847 | Deletions are read if and only if each is of a safe, undelivered path with its before-image's digest, and no path is deleted twice |
| Receipts.BasesExactly | src/apmx/audit/verifier.py:811-813 | The base descriptors are exactly the dependencies that are one; there is one exactly where a single dependency is |
| Receipts.CheckOutputs | src/apmx/audit/verifier.py:804-852 | `_outputs` accepts exactly the receipts for which consistent tables and a placing prefix exist, and returns those |
| Receipts.ConsistentExactly | src/apmx/audit/verifier.py:804-852 | The receipts that are consistent, said of their own lists: provenance, every test and the bill of materials have the same safe, distinct subjects; the one base descriptor completes the before-images; and these cover exactly the delivered and the deleted files |
| Receipts.WriteImages | src/apmx/contracts/evidence.py:856-883 | The writer's loop emits one before-image row for each path that had one |
| Receipts.ExportIsConsistent | src/apmx/contracts/evidence.py:727-747 | The receipt written for any sound nonempty delivery with paths of at most 4096 characters is accepted, and the verifier rebuilds exactly its subjects, before-images, deletions and base commit |
| VsaPrefix.FindPrefix | src/apmx/audit/verifier.py:782-801 | A returned prefix is the root or a directory and maps the subjects exactly onto the summary's names; a refusal means that no directory does so unless, for some placed name, an earlier file of the same digest can stand for it |
| VsaPrefix.PrefixIsUnique | src/apmx/audit/verifier.py:782-801 | At most one prefix places the delivered files |
| VsaPrefix.CopiesAreRefused | src/apmx/audit/verifier.py:787-799 | The exclusion is real: two copies of a file, one path a suffix of the other, are placed exactly under a directory and yet refused |
| Binding.MovedAt | src/apmx/audit/change.py:220-222 | A table moved below a prefix holds exactly the prefixed paths, with their values |
| Binding.Bind | src/apmx/audit/change.py:213-309 | The loops of `bind` give the specified verdict with its reasons in the order of the changed paths |
| Binding.AcceptedExactly | src/apmx/audit/change.py:213-309 | That verdict is acceptance exactly when 1 to 10,000 paths change, none has a fault at head or base, and a recorded base commit is an ancestor |
| Binding.HeadFaultsFound | src/apmx/audit/change.py:238-251 | The unbound reasons are exactly the faults of the changed paths at head |
| Binding.BaseFaultsFound | src/apmx/audit/change.py:262-271 | The stale reasons of paths are exactly their faults at base |
| Binding.HeadReasons | src/apmx/audit/change.py:238-251 | Each unbound reason at a path is given exactly where it holds of the status, the file at head and the receipt's own tables |
| Binding.BaseReasons | src/apmx/audit/change.py:262-271 | And each stale reason, of the before-image and the file at base |
| Binding.ReasonsInOrder | src/apmx/audit/change.py:238-271 | The reasons stand in the order of the changed paths |
| Binding.VerdictsExactly | src/apmx/audit/change.py:231-291 | Every other verdict, exactly: no files, unbound, unavailable, stale; faults at head come before an unreadable history, and that before what is stale |
| BindingProofs.FinishedIsSound | src/apmx/contracts/evidence.py:426-432 | Whatever `git apply` did, a combined delivery has only safe paths and a before-image for every path it touched |
| BindingProofs.WholeFilesAreSound | src/apmx/contracts/evidence.py:433-449 | So has a delivery of whole files |
| BindingProofs.VerifiedTables | src/apmx/audit/verifier.py:843-851 | In an accepted receipt deliveries and deletions are disjoint, together cover the before-images, and a deletion's digest is the one it had |
| BindingProofs.BoundIsUnique | src/apmx/audit/verifier.py:804-852 | The receipt decides its tables and its prefix |
| BindingProofs.GateIsExact | src/apmx/audit/change.py:237-271 | For an accepted receipt, a changed path is free of faults exactly when head holds the delivered bytes' digest (or the deletion was recorded) and base holds exactly the before-image |
| BindingProofs.AcceptedIsDelivered | src/apmx/audit/change.py:213-309 | End to end: against the receipt of a delivery, every path of an accepted change is the delivery's own: the delivered bytes unless that digest collides, or a recorded deletion, over exactly what was replaced |
| GitTree.BuildTree | src/apmx/contracts/evidence.py:321-327 | The loop over the files builds the specified trie, or fails where a parent of a path is a file |
| GitTreeProofs.InsertLookup | src/apmx/contracts/evidence.py:323-327 | Inserting a file makes it found, removes what lay below its path and moves nothing else |
| GitTreeProofs.InsertAccepts | src/apmx/contracts/evidence.py:325-326 | Inserting fails exactly where a proper parent of the path is a file |
| GitTreeProofs.SameFilesSameTrie | src/apmx/contracts/evidence.py:319-327 | Two tries with the same file at every path are the same trie |
| GitTreeProofs.BuildIsExact | src/apmx/contracts/evidence.py:319-327 | For distinct paths, building succeeds and holds exactly the given files if and only if no path is a parent of another |
| GitTreeProofs.OrderDoesNotMatter | src/apmx/contracts/evidence.py:319-339 | For such paths the trie, hence the id, does not depend on insertion order |
| GitTreeProofs.OrderMatters | src/apmx/contracts/evidence.py:323-327 | For any distinct paths of which one is another's parent, one order of the same files fails to build, and another builds but loses a file |
| GitTreeProofs.OrderMattersExactly | src/apmx/contracts/evidence.py:319-327 | For distinct paths, all orders build the same if and only if no path is a parent of another |
| GitTreeProofs.BodyInjective | src/apmx/contracts/evidence.py:333-337 | A tree object's body determines its rows: mode, name and id of each |
| GitTreeProofs.HeaderBytes | src/apmx/contracts/evidence.py:310-339 | The object headers and entry modes are Git's: blob, tree, 40000, 100644 and 100755 |
| GitTreeProofs.ObjectBytes | src/apmx/contracts/evidence.py:331-337 | The bytes that are hashed: a header with the length in decimal, and each entry's mode, name and id |
| GitTreeProofs.RowsInOrder | src/apmx/contracts/evidence.py:331-337 | Rows stand in Git's order, a directory comparing as its name with a slash |
| GitTreeProofs.EntryRow | src/apmx/contracts/evidence.py:329-337 | Every entry of a directory has its row and every row is an entry's |
| GitTreeProofs.TreeIdInjective | src/apmx/contracts/evidence.py:329-339 | Equal ids mean equal directories, if no two of the tree objects actually hashed collide |
| GitTreeProofs.TreeIdFixesFiles | src/apmx/contracts/evidence.py:319-339 | Two file maps with prefix-free paths have one tree id if and only if they are the same map of path to mode and bytes, if nothing that was hashed for them collides |
| Process.Supervise | src/apmx/contracts/process.py:147-304 | The polling loop, as specified by `Run` turn by turn: early refusals, cancellation, deadline, lingering children, escalation, draining and the final state |
| Process.Ask | src/apmx/contracts/process.py:184-192 | A requested interrupt becomes the stop reason, and sends SIGTERM unless a stop is under way |
| Process.Press | src/apmx/contracts/process.py:223-254 | A stop is decided by deadline or lingering children, and SIGKILL follows once, after its share of the budget |
| Process.Receive | src/apmx/contracts/process.py:259-268 | Ready pipes are drained in the selector's order, and end of file closes a pipe |
| ProcessProofs.RunKeeps | src/apmx/contracts/process.py:206-258 | Over every monotone clock and child behaviour: SIGKILL comes no earlier than half the budget after the stop, or 5/6 of it for lingering children that were not cancelled; a timeout is never early; a run ends confirmed with its pipes drained, or else after SIGKILL |
| ProcessProofs.GivingUpFollowsKill | src/apmx/contracts/process.py:244-258 | A run that gives up has sent SIGTERM and then SIGKILL, even when its last look confirms the end |
| ProcessProofs.SignalsEscalate | src/apmx/contracts/process.py:206-302 | The recorded signals are none, SIGTERM, or SIGTERM then SIGKILL; none without a stop reason; an unconfirmed end had both, is killed once more on the way out and reports the code of the final wait |
| ProcessProofs.EndsInTime | src/apmx/contracts/process.py:223-258 | With turns at most d apart, a loop still running has not passed timeout + cleanup + d, and its last turn begins before timeout + cleanup + 2d |
| ProcessProofs.EndsExactly | src/apmx/contracts/process.py:220-258 | A turn ends the loop if and only if it finds the child reaped, its group gone and all pipes closed, or the budget spent since the stop |
| ProcessProofs.KillsInTime | src/apmx/contracts/process.py:241-254 | SIGKILL has been sent by a turn if and only if it was before, or the stop has by then lasted half of the budget, or 5/6 of it for lingering children |
| ProcessProofs.RunReceives | src/apmx/contracts/process.py:259-268 | A running loop has passed on every chunk that was read, in order, and closed exactly the pipes found at their end; the turn that ends it reads nothing |
| ProcessProofs.LingeringHasTime | src/apmx/contracts/process.py:223-254 | Lingering children have a sixth of the budget, less one turn, between SIGTERM and SIGKILL, if turns are at most d apart and a gone group stays gone |
| ProcessProofs.LingeringMayHaveNone | src/apmx/contracts/process.py:223-254 | Without such a bound they may have none: a run in which both signals leave in one turn |
| ProcessProofs.BothInOneTurnExactly | src/apmx/contracts/process.py:223-254 | The turn that decides that children linger sends both signals exactly when it comes 5/6 of the budget or more after the exit |
| ProcessProofs.CancelledExactly | src/apmx/contracts/process.py:206-302 | The observation says cancelled exactly when an interrupt was seen by a running turn or after the loop |
| ProcessProofs.ReasonExactly | src/apmx/contracts/process.py:223-300 | Why a run was stopped, over its turns: timeout if and only if the first turn with a reason to stop is past the deadline, lingering children if and only if it is not but finds the group there two thirds of the budget after the exit, and neither once an interrupt was seen or came late |
| ProcessProofs.ConfirmedMeansClean | src/apmx/contracts/process.py:220-258 | A confirmation rests on the last turn: child reaped, group gone, and if only its last look saw that, after both signals; without a stop reason no signal was sent and each pipe delivered everything written to it, in order |
| Policy.EntriesHold | src/apmx/audit/policy.py:292-292 | The index of one level holds exactly the digests it lists |
| Policy.ListsHold | src/apmx/audit/policy.py:285-302 | What the loop accumulates: the digests every level that lists any allows, and everything unpinned or revoked by any level |
| Policy.Merge | src/apmx/audit/policy.py:266-330 | The loop's result, in its own order and with its own names, is the declarative merge of the documents: allowed by all levels that say, required or revoked by any, signers named by one and admitted by all, block unless all present levels say warn, off only where no level is stricter |
| Policy.EvaluateRevocation | src/apmx/audit/policy.py:682-703 | A violation exactly when some selected capability matches a revoked pair in both fields |
| PolicyProofs.FactoryExactly | src/apmx/audit/policy.py:661-679 | A definition passes exactly when no level has an allow-list or each that has one lists it; otherwise it fails exactly where the levels neither switch off nor all say warn |
| PolicyProofs.RevocationExactly | src/apmx/audit/policy.py:682-703 | Capabilities are revoked exactly when some level revokes one by both fields, and that fails exactly where the levels neither switch off nor all say warn |
| PolicyProofs.UnsignedExactly | src/apmx/audit/policy.py:706-712 | An unsigned receipt is judged exactly where some level requires signatures, and fails exactly where the levels also neither switch off nor all say warn |
| PolicyProofs.IdentityExactly | src/apmx/audit/command.py:342-387 | An attested receipt passes exactly under an entry some level lists and every level admits; it fails exactly where the policy blocks and none accepts, though a signature is required or found under one |
| PolicyProofs.AllowsExactly | src/apmx/audit/policy.py:79-86 | `allows` holds exactly when every receipt the other entry accepts, under any default repository, is accepted by this one |
| PolicyProofs.EveryLevelAccepts | src/apmx/audit/policy.py:303-310 | Whatever the merged signers accept, every level that lists signers accepts |
| PolicyProofs.AcceptedExactly | src/apmx/audit/policy.py:303-310 | The merge accepts a receipt exactly when one accepting entry of each level that lists signers can be chosen so that all of them allow one of them |
| PolicyProofs.ChainStaysAccepted | src/apmx/audit/policy.py:303-310 | So a receipt each level accepts by entries that form a chain under `allows` stays accepted |
| PolicyProofs.PinsOfTwoKindsMeetInNothing | src/apmx/audit/policy.py:303-310 | Without a chain it may be lost: a ref pin and a commit pin of one workflow merge to no signer |
| PolicyProofs.OrderDoesNotMatter | src/apmx/audit/policy.py:266-330 | The result depends only on the set of documents, up to list order and the names digests are shown under |
| PolicyProofs.NamesExactly | src/apmx/audit/policy.py:285-291 | An allowed digest is shown under the first name that a level gives it |
| PolicyProofs.BlockStays | src/apmx/audit/policy.py:311-313 | With well-formed documents, blocking is switched off by an added level exactly where it and every earlier level that sets the top-level switch say off, and turned into a warning exactly where the added level is the first with a factories section and says warn; otherwise it stays |
| PolicyProofs.FactoryStaysFailed | src/apmx/audit/policy.py:661-679 | A definition that fails the allow-list still fails after adding a level if and only if the level does not switch everything off |
| PolicyProofs.RevocationStaysFailed | src/apmx/audit/policy.py:682-703 | A failed revocation still matches after adding a level, and still fails if and only if the level does not switch everything off |
| PolicyProofs.UnsignedStaysFailed | src/apmx/audit/policy.py:706-712 | An unsigned receipt that fails still fails after adding a level if and only if the level does not switch everything off |
| PolicyProofs.SignersAfter | src/apmx/audit/policy.py:303-310 | Adding a level keeps exactly the merged entries it admits and brings exactly its own entries that every earlier level admits |
| PolicyProofs.IdentityStaysExactly | src/apmx/audit/command.py:342-387 | A failed Identity row still fails after adding a level exactly when the level does not switch everything off, brings no entry that accepts the receipt, and a signature is required or was found at a wrong commit under an entry the level keeps or brings |
| PolicyProofs.AddedLevelWidensExactly | src/apmx/audit/policy.py:303-310 | An added level makes more receipts accepted exactly when it lists an entry every earlier level admits and no merged entry allows |
| PolicyProofs.BothPinsRestore | src/apmx/audit/policy.py:303-310 | It can: a level with both pins restores a receipt the ref pin and the commit pin had merged away |
| PolicyProofs.MismatchCanSoften | src/apmx/audit/command.py:342-387 | An added level with an empty signer list turns a failed wrong-commit identity into a warning |
| Assess.NormalizedExactly | src/apmx/contracts/records.py:46-50 | A check normalizes to 0 or 1 exactly when it exited so, cleanly, with its subject intact |
| Assess.ValidateExactly | src/apmx/contracts/records.py:450-503 | The validator accepts exactly the complete deliveries: declared checks in order with clean allowed exits on this artifact and these resources, a clean producer, matching record |
| Assess.AssessedExactly | src/apmx/contracts/records.py:506-530 | An assessment passes exactly for a finished durable record of this very result whose outcome its checks bear out and whose evidence holds |
| Assess.FaultKinds | src/apmx/contracts/records.py:450-503 | Which fault the validator finds: a result cut short, or with an honest check that did not pass, is incomplete; any other disagreement is a change |
| Assess.RecordFaults | src/apmx/contracts/records.py:506-560 | A record that disagrees with its result has changed; HALTED and REJECTED results are refused under their own stop reason and outcome |
| Attempt.AttemptStore.constructor | src/apmx/contracts/records.py:1236-1237 | A new store has written its record once: memory and disk agree |
| Attempt.AttemptStore.Write | src/apmx/contracts/records.py:1239-1245 | A write replaces the record, fails before that, or fails after it, as the world decides |
| Attempt.AttemptStore.Commit | src/apmx/contracts/records.py:1247-1251 | An update changes memory first and then writes |
| Attempt.AttemptStore.FinishRun | src/apmx/contracts/records.py:1253-1276 | Finishing writes the completed record or, on any failure, the failure record and an error |
| Attempt.AttemptStore.FinalizeRun | src/apmx/contracts/records.py:1278-1310 | Finalization as specified, in every order of failing writes and validations |
| Attempt.AttemptStore.FailFinal | src/apmx/contracts/records.py:1312-1339 | The failure record is written, and the raised error says whether that failed too |
| Attempt.AttemptStore.RunChecks | src/apmx/contracts/engine.py:49-125 | The loop over the declared checks records one observation each until it stops, as specified |
| Attempt.AttemptStore.Run | src/apmx/contracts/engine.py:226-405 | The attempt as specified: production, capture, checks, caught errors, reduction and finalization |
| AttemptProofs.FinalizeTells | src/apmx/contracts/records.py:1278-1339 | Whatever the writes do: a returned result is the durable one, COMPLETE exactly for limited native assurance whose record passed the validator; an error leaves no completed record unless it says so |
| AttemptProofs.OutcomeTells | src/apmx/contracts/records.py:53-63 | A returned result is HALTED exactly with a stop reason, and REJECTED exactly without one and with a failed check; without a stop reason all declared checks have run, or none |
| AttemptProofs.StopsAtFirstObstacle | src/apmx/contracts/engine.py:226-405 | With writes that succeed, the stop reason of a returned result is the first obstacle its attempt met, in order: errors before the producer, the producer's own failure, deadline, capture, exports, then each check's errors, stop or deadline |
| AttemptProofs.HoldsExactly | src/apmx/contracts/engine.py:49-125 | It holds the captured outputs exactly where they were reached, and one observation for exactly the checks that were, each as its turn showed it |
| AttemptProofs.RaisedIsNotComplete | src/apmx/contracts/engine.py:380-405 | If an attempt raises, its durable record shows that very error and not COMPLETE, unless the error reports that persisting the failure also failed |
| AttemptProofs.LostMayShowComplete | src/apmx/contracts/records.py:1312-1339 | That case exists: the completing write fails after replacing the file and the failure record cannot be written |
| AttemptProofs.UpdateExactly | src/apmx/contracts/records.py:1239-1251 | A record write reports success exactly where it is done, and leaves the old file exactly where it failed before replacing it; memory changes in any case |
| AttemptProofs.NoWriteIsSwallowed | src/apmx/contracts/records.py:1239-1339 | No failed write is swallowed: behind a returned result without a stop reason every write has succeeded |
| AttemptProofs.CompleteIsEarned | src/apmx/contracts/engine.py:226-405 | COMPLETE is earned under any failing writes: clean producer, declared checks in order each exiting 0 on the captured artifact, resources intact before and after, and the durable record is this result and validated |
| AttemptProofs.CompletesExactly | src/apmx/contracts/engine.py:226-405 | With writes that succeed, COMPLETE is returned if and only if nothing was raised or late and everything was clean |
| AttemptProofs.CleanRunEnds | src/apmx/contracts/records.py:1278-1310 | A run that stays clean ends, with writes that succeed, as its transcript, outputs and evidence decide: COMPLETE, the refusal's own code, or a finalization failure |
| AttemptProofs.OtherRunEnds | src/apmx/contracts/records.py:1253-1276 | Any other result is returned as it is, unless the transcript cannot be closed or read |
| Repair.ControllerStore.RecordAttempt | src/apmx/contracts/records.py:1398-1406 | The last row gets the child record's digest and outcome, or the mismatch is refused |
| Repair.ControllerStore.Finish | src/apmx/contracts/records.py:1408-1424 | A finish is recorded, selecting the run only for COMPLETE, whose history must then be accepted |
| Repair.ControllerStore.Run | src/apmx/contracts/repair.py:57-111 | The bounded loop over whole attempts, as specified, with its abort |
| RepairProofs.OnlyRejectionsAreRetried | src/apmx/contracts/repair.py:57-93 | Another attempt runs only after attempts that were all validated rejections of pairwise distinct artifacts, and only within the budget |
| RepairProofs.RetriesExactly | src/apmx/contracts/repair.py:57-93 | With successful controller writes, attempt k + 1 is reached if and only if the first k were in time, admitted, diagnosable, and validated rejections of pairwise distinct artifacts |
| RepairProofs.RejectedInputsExactly | src/apmx/contracts/records.py:428-448 | `rejected_inputs` validates exactly the REJECTED results whose record is assessed without a fault |
| RepairProofs.HistoryAccepted | src/apmx/contracts/records.py:829-886 | Retried rows followed by one selected COMPLETE pass the history rules |
| RepairProofs.AcceptedHistory | src/apmx/contracts/records.py:829-886 | An accepted history holds finished runs, all different and numbered in order, each under the digest of its own record, REJECTED but for the last, which is the selected COMPLETE and the controller's result |
| RepairProofs.CompleteFinishes | src/apmx/contracts/repair.py:77-98 | With fresh run ids and successful controller writes, the first COMPLETE that only retryable rejections precede is what repair returns: rows 1..n are written and accepted, only the last selected; evidence that changes around the selection aborts instead |
| RepairProofs.OthersEndToo | src/apmx/contracts/repair.py:77-98 | Any other returned attempt that only retryable rejections precede ends the repair with its own result where it is no conclusive rejection, repeats an artifact, or is the last, each under its reason; a faulty rejection or an unreadable diagnosis aborts under its code |
| RepairProofs.HinderedAborts | src/apmx/contracts/repair.py:59-75 | An attempt that is late, refused or raises aborts the repair under that code |
| RepairProofs.EmptyBudgetAborts | src/apmx/contracts/repair.py:103-103 | A budget of no attempts aborts as invalid |
| RepairProofs.FirstToEnd | src/apmx/contracts/repair.py:57-102 | Every budget of at least one attempt has a first attempt that no other follows, so these results cover every repair whose controller writes succeed |
| RepairProofs.ReturnedHistory | src/apmx/contracts/repair.py:45-102 | A returned result is the last attempt's own, after validated rejections of distinct artifacts; only COMPLETE is selected on disk |
| RepairProofs.RepairedCompleteIsEarned | src/apmx/contracts/repair.py:45-102 | A COMPLETE from repair is earned by the attempt it selects |
| RepairProofs.AbortSelectsNothing | src/apmx/contracts/records.py:1426-1443 | An error leaves a halted controller on disk, nothing selected or finalized, unless it reports that its own record was lost |
| RepairProofs.CommitExactly | src/apmx/contracts/records.py:1239-1251 | So does a controller write |
| RepairProofs.NoWriteIsSwallowed | src/apmx/contracts/records.py:1385-1443 | No failed controller write is swallowed: behind a returned result every one has succeeded |
| Captures.Directory.Write | src/apmx/contracts/workspace.py:557-562 | Writing one file makes its parents, fails at a file among them or anything at its place, and changes nothing else |
| Captures.Directory.CopyCaptures | src/apmx/contracts/workspace.py:572-593 | The copying loop stops at the first changed source or occupied name; a full copy returns the recorded entries |
| Captures.Select | src/apmx/contracts/workspace.py:716-723 | Selecting keeps the first capture of each name, and refuses exactly when two of one name differ |
| CapturesProofs.CollideExactly | src/apmx/contracts/workspace.py:404-414 | The collision check passes exactly when no folded path equals or contains another |
| CapturesProofs.PutAllExactly | src/apmx/contracts/workspace.py:557-562 | Writing files into an empty directory succeeds exactly when no two clash, and then leaves exactly them and their parents |
| CapturesProofs.AnyOrder | src/apmx/contracts/workspace.py:572-593 | The order of writing decides neither success nor what is left |
| CapturesProofs.CopyExactly | src/apmx/contracts/workspace.py:572-593 | Copying into an empty directory succeeds exactly when the sources are as captured and no names clash, and what is there is exactly the captured files |
| CapturesProofs.CheckedCopySucceeds | src/apmx/contracts/workspace.py:759-770 | Names that pass the check can be copied on every file system that tells apart at least what folding tells apart |
| CapturesProofs.CopiedIsAccepted | src/apmx/contracts/workspace.py:656-679 | An untouched copy passes inspection |
| CapturesProofs.InspectedIsRecorded | src/apmx/contracts/workspace.py:656-679 | On every file system that tells apart what folding tells apart, an inspected view of names that passed the collision check has its recorded digest, each recorded file with its bytes and mode, and only directories above recorded names; it holds no other file if and only if no two of its files fold to one name |
| CapturesProofs.CaseVariantPasses | src/apmx/contracts/workspace.py:661-675 | On a case-sensitive file system it may: a file differing only by case from a recorded one is let through |
| Chain.VisitNode | src/apmx/contracts/chain.py:134-187 | One turn of the node loop, as specified, up to the error it meets |
| Chain.RunChain | src/apmx/contracts/chain.py:108-212 | The whole run as specified: node states, handoffs, outcome, and the stopped and blocked nodes of a fault |
| ChainProofs.InputFacts | src/apmx/contracts/resolution.py:52-53 | Each input of an ordered contract is a need of it, produced in that spelling by a contract ordered before it |
| ChainProofs.HandoffsNeverMissOrMix | src/apmx/contracts/chain.py:72-81 | On an admitted graph no lookup fails, and each leaf is handed, for exactly its produced needs, the record of the run of the one producer |
| ChainProofs.OnlyFeedersAdmitted | src/apmx/contracts/chain.py:161-176 | Only outputs of contracts that feed others are ever handed on |
| ChainProofs.StatesTellTheOutcome | src/apmx/contracts/chain.py:194-212 | Every exit has all nodes completed, or completed ones, one stopped and the rest blocked; complete, COMPLETE and nothing stopped are one |
| ChainProofs.CompleteRunsEverything | src/apmx/contracts/chain.py:134-195 | A complete run has run every contract in order, each accepted by the record authority, and without the native exception its graph has no edges |
| ChainProofs.CompletesExactly | src/apmx/contracts/chain.py:108-195 | A run is complete if and only if nothing goes wrong at either end or with any leaf, and every contract that feeds others gave a result of limited assurance that the caller allows as input; it then finalizes every contract's outputs, in order, each under that contract's run |
| ChainProofs.FirstFaultStops | src/apmx/contracts/chain.py:134-212 | The first leaf with a fault of its own ends the run there, under that fault's outcome and code; a refused handoff is UNPROVEN |
| ChainProofs.EndFaultsStop | src/apmx/contracts/chain.py:108-212 | A fault before the first node or after the last stops that node, under its outcome and code |

## Left out

- JSON numbers that are not integers, Python's digit and recursion limits, and JSON input that is not ASCII: the canonical check refuses such bundles, the reader of the model has no syntax for them.
- `plain`, `statement` and `normalized` (integral floats to integers, sorted subjects): statements are already in that form.
- Strings are code points, kept as integers; a path is its sequence of characters, or its UTF-8 bytes for a Git tree, where byte order is code-point order.
- `_checks` and the rows other than Outputs of the offline verifier, the schema checks, and error texts, facts and notes everywhere.
- Case folding is an arbitrary function on names, and SHA-1, SHA-256 and Git blob ids are arbitrary functions, injective only where a lemma says so.
- The order in which the writer and `bind` go through paths is any enumeration without repeats, not the sorted one.
- `git apply` leaves any tree of files and directories at all, or fails; how it reads a patch is not modelled, only what the code checks afterwards.
- File modes at the gate, which `bind` does not compare, and `Change.load`, `blobs` and `digests`: a pull request is its changed paths and two maps from path to digest.
- `\d` in a patch header is an ASCII digit, and decoding a patch as UTF-8 is a given success or failure.
- GitTree.BuildTree: builds the trie by value, where the source updates nested dictionaries in place; the source never shares one of them.
- The contents of needs and outputs: a contract's needs are a set of names, a missing caller file is a name outside a given set, and paths of contracts are distinct.
- JSON events of the native stream other than the phase and content of one message, tool calls, the limit on correlated messages, and the verbose line that repeats a corrected response.
- Process.Supervise: leaves out heartbeats, native logs, the bytes of one read, errors raised by callbacks and the listing of residual processes; a turn's observations are given, with an interrupt seen only at its head.
- Attempt.AttemptStore.Run: starts once the record has been created; admission, the deadline clock and what capture or a check's workspace does are given results, and a fault names only the code it leads to.
- Assess.AssessedExactly: takes the identities a record copies from its plan as equal, and the verdict on retained files as given, after the record's own checks.
- Repair.ControllerStore.Run: takes each attempt's admission, deadline, transcript and retained-evidence verdicts as given, and the children's source and baseline identities as equal.
- Chain.RunChain: ends at the outcome; the chain's own durable record, which goes through the same writer as an attempt's, and the aggregate view are given as succeeding or failing.
- Captures.Directory.CopyCaptures: symbolic links, size limits and files changing during a read are one given fact, that a source is as captured.
- PolicyProofs.MismatchCanSoften: one attestation with its certificate stands for the lookup of `identity.verify`, which is not part of this model.
- Parsing of policies, contracts and YAML, the resolution of an `extends` chain, and the notes of a verdict: documents are already validated.
- Windows job objects, symbolic-link and inode races, the network, Sigstore, GitHub and the command line.
