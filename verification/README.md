# Verified models for DEASLDEV

This project models five components of the DEASLDEV repository in Dafny and proves what they promise.

**Descriptor pool** (`descriptor.cc`). A pool holds symbols, files and extension numbers in tables whose keys point to
strings the pool owns. A file is built inside a transaction: declarations are entered one by one, errors are only
recorded, fields are linked against what is visible, and at the end the tables are committed or rolled back. With a
fallback database the imports of a file are loaded first, recursively, under a stack of pending files. `PoolTables`,
`FileBuilder` and `PoolLoader` follow the source as classes; `PoolState` says which files a pool accepts and what it
then contains; `BuildLoaded` is proved to decide exactly that. `PoolHistory`, `ScopeClosure`, `PoolNumbers`, `PoolContents`
and `PoolExtensions` derive what holds of every pool, over all histories of accepted files: no import cycle through two
files, closed scopes, one owner for every field number, a symbol table that is the union of what the files declare, and
extension numbers that belong to whoever took them first. A pool with a database remembers the files it could not build
and does not try them again. `PoolRefusal` shows why it may: a refused file stays refused in every larger pool in which
no further import of it is accepted; `PoolMemory` shows that on-demand loading keeps to that condition, and that the
files remembered as bad although they are in the pool are exactly those that import themselves.

**Symbol index** (`descriptor_database.cc`). An ordered map probed at the last key not above a name. The probe is an
exhaustive search exactly when no key is a sub-symbol of another. The insertion does not always keep it so: when every
key sorts above the new name, the iterator is at the first key already and is advanced past the one neighbour that
matters. `AddIsRightIffNoGap` and `RunAgreesIff` give the exact condition, `GapExample` the smallest run that fails.

**Camera exchange** (`CamDataInterface.cpp`). One writer and any number of readers share an image behind two doors, a
signal mutex and a semaphore of ten permits. It is a step system with one step for each wait, release and copied cell;
`CamDataInterface` shows that the two entry points take exactly their steps, with any steps of other threads in between.
The statements of `CamProtocol` hold for every interleaving in which no timeout of the writer has had an effect.
`CamTimeout` and `CamSignalTimeout` say what the timeouts do. A call that gives up on a permit hands back ten permits in
a step of its own: it creates permits if none is available at that moment. If a reader has finished in between, that
release fails, those it had taken are lost, and a second release of an accidental number is attempted. A torn image can
follow exactly if the call has handed back more than it had taken; over runs with any number of timeouts, exactly from
the first state with more than ten permits on. A call that gives up on the mutex stops all traffic until the next call
gives up in turn; then all permits are back, but a frame can be returned twice until a write is completed. Readers may
give up on a permit at any time. The mutex is not owned at first, so statements on the order of frames start at the
first frame written.

**JPEG coder** (`simplejpeg.cpp`, `simplejpeg.h`). From the pixels to the end marker: color conversion and sampling, the
two-pass integer transform, quantization, canonical Huffman tables, magnitude categories, run-length coding, DC
prediction, bit packing and stuffing, as methods that follow the loops of the source, against the decoding procedures of
ITU-T T.81 (sections B.1.1.5, F.2.2.1 to F.2.2.3 and Annex C). For every image the coefficients are small enough for the
coder's assertions, so `WriteImage` asks nothing of the image, and the decoder gets back the quantized blocks. The flush
pads with 1 to 32 zero bits, unlike T.81 section F.1.2.3, and does not clear its buffer; the statements say what becomes
of a second image on the same stream. `JpegReading` proves the converse of decoding, that whatever bits are read as given
blocks are a code of those blocks, and with it the exact condition under which such an image is read back.

**Generated messages** (`example.pb.cc`, `example.pb.h`). `Person` and `Person.PhoneNumber` as objects with presence
bits, cached sizes and a parser that jumps into the case of the field expected next, over the wire primitives of the
Protocol Buffers encoding. The jumping parser is proved equal to the plain read-a-tag-and-dispatch loop on every byte
string, whichever shortcuts hit, also when it fails; round trip, concatenation as merging, the role of the cached sizes,
and a bound on the growth of a message that is parsed and written again follow.

## Model

| member | source | states |
|---|---|---|
| PoolTables.Tables.Checkpoint | DEASLDEV/Resources/Google/Protobuf/descriptor.cc:501-510 | the state a later rollback returns to is the current one, strings included |
| PoolTables.Tables.Rollback | DEASLDEV/Resources/Google/Protobuf/descriptor.cc:512-541 | symbol, file and extension tables and the list of owned strings are exactly those of the last checkpoint, whatever inserts succeeded or failed in between, and every remaining key points to a string still owned |
| PoolTables.Tables.AddSymbol | DEASLDEV/Resources/Google/Protobuf/descriptor.cc:636-644 | insert if absent, with a key owned by the pool; the result tells which; logged for rollback |
| PoolTables.Tables.AddFile | DEASLDEV/Resources/Google/Protobuf/descriptor.cc:652-659 | the same for files |
| PoolTables.Tables.AddExtension | DEASLDEV/Resources/Google/Protobuf/descriptor.cc:692-700 | the same for extension numbers |
| PoolTables.EraseRestores | DEASLDEV/Resources/Google/Protobuf/descriptor.cc:513-518 | erasing the keys the log points to gives back the table of the checkpoint, and no key is left that points behind it |
| ScopedLookup.FindSymbolInPool | DEASLDEV/Resources/Google/Protobuf/descriptor.cc:2277-2314 | the loops over the imports compute visibility: own symbols, those of direct imports, and packages the file or a direct import lies in |
| ScopedLookup.LookupSymbolNoPlaceholder | DEASLDEV/Resources/Google/Protobuf/descriptor.cc:2316-2383 | the loop that edits one scope string ends, and its result is that of the search from the innermost scope outwards |
| ScopedLookup.LookupIsInnermost | DEASLDEV/Resources/Google/Protobuf/descriptor.cc:2325-2383 | a relative name denotes the name inside the innermost enclosing scope whose first part qualifies (an aggregate for compound names, a type when types are asked for), also when the rest is missing there; the root is used exactly when no scope qualifies |
| FieldNumbers.CheckFields | DEASLDEV/Resources/Google/Protobuf/descriptor.cc:2892-2906 | the nested loops report an error exactly if some field number lies in an extension range |
| FieldNumbers.CheckRanges | DEASLDEV/Resources/Google/Protobuf/descriptor.cc:2908-2922 | the nested loops report an error exactly if two ranges overlap |
| FieldNumbers.IsExtensionNumberLoop | DEASLDEV/Resources/Google/Protobuf/descriptor.cc:1210-1220 | the linear search finds a range exactly if one contains the number |
| FieldNumbers.CheckedIffOneOwner | DEASLDEV/Resources/Google/Protobuf/descriptor.cc:2892-2922 | passing all number checks is equivalent to: numbers in 1..2^29-1, fields outside the reserved block, ranges not empty, and every number owned by at most one field or range |
| FieldNumbers.ExtensionIsNoField | DEASLDEV/Resources/Google/Protobuf/descriptor.cc:3392-3398 | a number accepted for an extension is the number of no declared field of the extendee |
| FileBuilder.DescriptorBuilder.ValidateSymbolName | DEASLDEV/Resources/Google/Protobuf/descriptor.cc:2578-2595 | reports an error exactly for names that are empty or contain a character outside letters, digits and underscore |
| FileBuilder.DescriptorBuilder.AddPackage | DEASLDEV/Resources/Google/Protobuf/descriptor.cc:2551-2576 | adds the package and the new ones around it, stops at an existing package, reports an error exactly if a name is taken by something else or invalid |
| FileBuilder.DescriptorBuilder.BuildFieldOrExtension | DEASLDEV/Resources/Google/Protobuf/descriptor.cc:2925-3131 | one declaration is added; default values apart, an error exactly for an invalid or taken name, a number outside the allowed ones, or an extendee where none belongs (or none where one does) |
| FileBuilder.DescriptorBuilder.BuildEnum | DEASLDEV/Resources/Google/Protobuf/descriptor.cc:3159-3264 | values are declared beside the enum, then the enum; an error exactly if a name is invalid or taken or there is no value |
| FileBuilder.DescriptorBuilder.BuildService | DEASLDEV/Resources/Google/Protobuf/descriptor.cc:3266-3318 | methods inside the service, then the service |
| FileBuilder.DescriptorBuilder.BuildMessage | DEASLDEV/Resources/Google/Protobuf/descriptor.cc:2858-2923 | all declarations of the message tree are added in order; default values apart, an error exactly if a name is invalid or taken or a number check fails anywhere in the tree |
| FileBuilder.DescriptorBuilder.CheckImports | DEASLDEV/Resources/Google/Protobuf/descriptor.cc:2775-2811 | an error exactly if an import is listed twice or is not in the pool (the file itself counts as present) |
| FileBuilder.DescriptorBuilder.CrossLinkField | DEASLDEV/Resources/Google/Protobuf/descriptor.cc:3370-3533 | links one field: extendee and type are looked up and checked, the number is taken within the file, the extension registered; default values apart, an error exactly if one of these fails |
| FileBuilder.DescriptorBuilder.CrossLinkMessage | DEASLDEV/Resources/Google/Protobuf/descriptor.cc:3347-3368 | the same for the whole message tree |
| FileBuilder.DescriptorBuilder.CrossLinkServices | DEASLDEV/Resources/Google/Protobuf/descriptor.cc:3553-3595 | an error exactly if an input or output type does not resolve to a message |
| FileBuilder.DescriptorBuilder.BuildLoaded | DEASLDEV/Resources/Google/Protobuf/descriptor.cc:2736-2856 | all or nothing: the file is accepted exactly if, options and default values apart, it is clean in the current state; then the pool holds all it declares, otherwise tables and strings are those before |
| PoolRefusal.CleanBefore | DEASLDEV/Resources/Google/Protobuf/descriptor.cc:2736-2856 | a file accepted right after another one, which it does not import, would have been accepted before it as well: declarations, imports, numbers, extendees, field, input and output types all fare the same |
| PoolRefusal.RefusedStays | DEASLDEV/Resources/Google/Protobuf/descriptor.cc:1224-1237 | a file once refused is refused in every larger pool in which no further import of it has been accepted |
| PoolMemory.Accepted | DEASLDEV/Resources/Google/Protobuf/descriptor.cc:2718-2856 | accepting a file after its imports have been loaded leaves the memory of known bad files justified: each of them is missing from the database, or refused as the pool stands with nothing left to load for it, or in the pool and importing itself |
| PoolMemory.Refused | DEASLDEV/Resources/Google/Protobuf/descriptor.cc:2718-2856 | and so does refusing it, with or without its own name in the memory |
| PoolMemory.BothIffSelfImport | DEASLDEV/Resources/Google/Protobuf/descriptor.cc:1224-1237 | a file of the pool is known bad exactly if it imports itself |
| PoolLoader.DescriptorPool.FindFileByName | DEASLDEV/Resources/Google/Protobuf/descriptor.cc:867-880 | finds a file exactly if it is in the pool afterwards, and then the database's file of that name; a file not found is missing from the database, or refused as the pool now stands with every import in the pool or known bad; a file in the pool or known bad is answered without loading anything |
| PoolLoader.DescriptorPool.TryFindFile | DEASLDEV/Resources/Google/Protobuf/descriptor.cc:1224-1237 | terminates; a name not found becomes known bad, a name found brings no new known bad name that is not in the pool; the memory only grows and stays justified; everything accepted or remembered meanwhile is reachable along imports, was neither pending nor known bad, and is the database's file; nothing is loaded for a name that is known bad, pending or not in the database |
| PoolLoader.DescriptorPool.LoadImports | DEASLDEV/Resources/Google/Protobuf/descriptor.cc:2725-2732 | afterwards each import is in the pool or known bad, and nothing happens if that was so before |
| PoolLoader.DescriptorPool.BuildFile | DEASLDEV/Resources/Google/Protobuf/descriptor.cc:2674-2856 | on-demand loading terminates (database files not pending decrease), restores the pending stack on every exit, and leaves a pool that holds exactly the accepted files; a file neither known nor pending is accepted exactly if it is clean in the pool left by loading its imports, each of which is then in that pool or known bad; if it is refused, that pool is what is left |
| PoolHistory.ImportsCommitted | DEASLDEV/Resources/Google/Protobuf/descriptor.cc:2763-2811 | every import of an accepted file was accepted before it, unless it is the file itself |
| PoolHistory.NoImportCycle | DEASLDEV/Resources/Google/Protobuf/descriptor.cc:2705-2734 | in no pool does an import cycle pass through two different files |
| PoolHistory.SelfImportAccepted | DEASLDEV/Resources/Google/Protobuf/descriptor.cc:2763-2787 | a file that imports itself is accepted: the one cycle that is not excluded |
| PoolHistory.FilesOfHistory | DEASLDEV/Resources/Google/Protobuf/descriptor.cc:652-659 | the file table lists exactly the accepted files |
| ScopeClosure.PackagesClosed | DEASLDEV/Resources/Google/Protobuf/descriptor.cc:2551-2576 | stopping at an existing package loses nothing: the scopes of a new package are all there afterwards |
| ScopeClosure.FilePlaced | DEASLDEV/Resources/Google/Protobuf/descriptor.cc:2858-3318 | each declaration of a file lies in its package or directly in an aggregate the same file declares |
| ScopeClosure.ScopesClosed | DEASLDEV/Resources/Google/Protobuf/descriptor.cc:2513-2595 | in every pool each proper dotted prefix of a symbol is itself a symbol, and an aggregate |
| PoolNumbers.MessagesOwnNumbers | DEASLDEV/Resources/Google/Protobuf/descriptor.cc:3499-3523 | in every pool each message stands under its own name and its numbers have passed every check |
| PoolNumbers.ExtensionsMissFields | DEASLDEV/Resources/Google/Protobuf/descriptor.cc:3392-3398 | in every pool the message of a registered extension exists, its numbers have one owner each, and none of its fields has the number of the extension, whichever file declared it |
| PoolContents.SymbolsAreTheUnion | DEASLDEV/Resources/Google/Protobuf/descriptor.cc:2513-2576 | a name is in the symbol table exactly if an accepted file declares it or lies in that package |
| PoolContents.DeclarationsStay | DEASLDEV/Resources/Google/Protobuf/descriptor.cc:2513-2549 | a declaration of an accepted file stands under its full name with its own symbol for good |
| PoolExtensions.TableIsTheUnion | DEASLDEV/Resources/Google/Protobuf/descriptor.cc:692-700 | a number of a message is in the extension table exactly if an accepted file declares an extension with it |
| PoolExtensions.FirstIsFound | DEASLDEV/Resources/Google/Protobuf/descriptor.cc:3525-3529 | the table names the extension of the first accepted file that registers the number, for good |
| PoolExtensions.FoundIffFirst | DEASLDEV/Resources/Google/Protobuf/descriptor.cc:3525-3529 | an extension of an accepted file is the one found under its number if and only if no file accepted earlier registered that number |
| PoolExtensions.SecondIsLost | DEASLDEV/Resources/Google/Protobuf/descriptor.cc:3525-3529 | it happens: two files give the same number of the same message to different extensions, both are accepted, and the second extension is not the one found |
| SymbolOrder.SubtreeIsContiguous | DEASLDEV/Resources/Google/Protobuf/descriptor_database.cc:89-91 | because the dot sorts below every other symbol character, whatever sorts between a symbol and one of its sub-symbols is itself a sub-symbol |
| DescriptorIndex.ProbeFindsEncloser | DEASLDEV/Resources/Google/Protobuf/descriptor_database.cc:178-185 | without sub-symbol pairs, the key enclosing a name is the one the probe stops at |
| DescriptorIndex.AgreesIffAntichain | DEASLDEV/Resources/Google/Protobuf/descriptor_database.cc:178-231 | the probe agrees with an exhaustive search on every name exactly if no key is a sub-symbol of another |
| DescriptorIndex.AddDecidesConflicts | DEASLDEV/Resources/Google/Protobuf/descriptor_database.cc:97-126 | the two neighbours inspected decide the conflict with the whole map, except when every key sorts above the new name and the first is inside it |
| DescriptorIndex.AddIsRightIffNoGap | DEASLDEV/Resources/Google/Protobuf/descriptor_database.cc:84-133 | one insertion keeps the keys free of sub-symbol pairs and rejects exactly the names that would create one, if and only if it does not fall into that gap |
| DescriptorIndex.RunAgreesIff | DEASLDEV/Resources/Google/Protobuf/descriptor_database.cc:84-185 | after any series of insertions lookup is an exhaustive search on every name if and only if no insertion fell into the gap |
| DescriptorIndex.GapExample | DEASLDEV/Resources/Google/Protobuf/descriptor_database.cc:213-223 | foo.bar then foo are both accepted, and foo.baz is then not found although foo encloses it |
| DescriptorIndex.Index.FindLastLessOrEqual | DEASLDEV/Resources/Google/Protobuf/descriptor_database.cc:213-223 | the last key not above the name, or the first key if there is none |
| DescriptorIndex.Index.ValidateSymbolName | DEASLDEV/Resources/Google/Protobuf/descriptor_database.cc:233-246 | accepts exactly letters, digits, underscore and dot |
| DescriptorIndex.Index.FindSymbol | DEASLDEV/Resources/Google/Protobuf/descriptor_database.cc:178-185 | the value found by the probe; without sub-symbol pairs, one is found exactly if some key encloses the name |
| DescriptorIndex.Index.AddSymbol | DEASLDEV/Resources/Google/Protobuf/descriptor_database.cc:84-133 | the new index and the result are those of the insertion function; off the gap the antichain is kept and exactly the conflicts are rejected |
| CamProtocol.StepBase | DEASLDEV/Sensors/Camera/CamDataInterface.cpp:80-201 | every step keeps what the second door alone guarantees: the number of permits, exclusion, untorn images, frame numbers that never fall |
| CamProtocol.StepInv | DEASLDEV/Sensors/Camera/CamDataInterface.cpp:80-201 | every step of the writer and of any reader keeps the whole invariant |
| CamProtocol.NoTearing | DEASLDEV/Sensors/Camera/CamDataInterface.cpp:84-124 | every image a reader has returned is cell for cell one frame given to the writer, or the initial contents |
| CamProtocol.FramesIncrease | DEASLDEV/Sensors/Camera/CamDataInterface.h:82-87 | frame numbers of one reader never fall, and rise strictly from frame 1 on, in every interleaving |
| CamProtocol.PermitsConserved | DEASLDEV/Sensors/Camera/CamDataInterface.cpp:6-28 | available, reader-held and writer-held permits always make ten, and no reader copies while the writer does |
| CamProtocol.NotStuck | DEASLDEV/Sensors/Camera/CamDataInterface.cpp:84-124 | in every state that satisfies the invariant some thread can move without a timeout, and while a write is under way by a step other than a new write |
| CamProtocol.WriteEnds | DEASLDEV/Sensors/Camera/CamDataInterface.cpp:178-201 | once frame 1 exists, a write under way ends within a number of steps linear in image size and number of readers, plus three for each time a reader gives up on a permit, under any scheduler |
| CamRuns.WriteCallWrites | DEASLDEV/Sensors/Camera/CamDataInterface.cpp:178-201 | one uninterrupted call of the writer leaves exactly its frame in the mapping |
| CamRuns.ReadCallReads | DEASLDEV/Sensors/Camera/CamDataInterface.cpp:80-128 | one uninterrupted call of a reader returns the contents of the mapping |
| CamTimeout.StepXInv | DEASLDEV/Sensors/Camera/CamDataInterface.cpp:8-16 | giving up on a permit breaks nothing yet, nor does anything the readers do before the release |
| CamTimeout.EndedTotal | DEASLDEV/Sensors/Camera/CamDataInterface.cpp:20-28 | the permits after the failed call: those the writer had taken are gone, and ten are created if none was available at the release, otherwise an accidental number by the second attempt, or none |
| CamTimeout.HarmlessIff | DEASLDEV/Sensors/Camera/CamDataInterface.cpp:180-184 | the timeout does no harm if and only if the call hands back exactly what it had taken |
| CamTimeout.TearsIff | DEASLDEV/Sensors/Camera/CamDataInterface.cpp:180-184 | after the failed call some run without a second timeout returns an image that is none of the frames if and only if the call handed back more than it had taken |
| CamTimeout.WritesIff | DEASLDEV/Sensors/Camera/CamDataInterface.cpp:180-184 | after the failed call some run without a second timeout writes a further frame if and only if the call handed back no less than it had taken |
| CamTimeout.UntornWithinTen | DEASLDEV/Sensors/Camera/CamDataInterface.cpp:80-201 | whatever waits of the writer time out, and however often: in every run without more than ten permits each image is one of the frames and no reader goes back |
| CamTimeout.FirstExcessTears | DEASLDEV/Sensors/Camera/CamDataInterface.cpp:20-28 | and the step that first leaves more than ten permits is exactly the first after which a torn image can follow |
| CamTimeout.WritesIffEnough | DEASLDEV/Sensors/Camera/CamDataInterface.cpp:20-28 | however many waits have timed out before, a further frame can be written after a failed call if and only if no permit is missing |
| CamTimeout.TornRun | DEASLDEV/Sensors/Camera/CamDataInterface.cpp:180-184 | from the start, one copying reader is enough: the writer gives up on its tenth permit, and a torn image can follow |
| CamTimeout.LostRun | DEASLDEV/Sensors/Camera/CamDataInterface.cpp:20-28 | the same with the reader finishing before the release: nine permits are lost and no further frame is written |
| CamSignalTimeout.SignalTimeoutStops | DEASLDEV/Sensors/Camera/CamDataInterface.cpp:191-196 | after the writer gives up on the mutex no frame is written or returned, in any run, until a call of the writer has given up on its permits |
| CamSignalTimeout.NextCallGivesUp | DEASLDEV/Sensors/Camera/CamDataInterface.cpp:8-16 | the next call can give up, on its first permit |
| CamSignalTimeout.SignalTimeoutRecovers | DEASLDEV/Sensors/Camera/CamDataInterface.cpp:180-184 | the release of that call restores all permits, whatever happened in between, but not the whole invariant: the first door stays open |
| CamSignalTimeout.RecoveredWrites | DEASLDEV/Sensors/Camera/CamDataInterface.cpp:178-201 | from then on every frame can be written again |
| CamSignalTimeout.RecoveredStaysUntorn | DEASLDEV/Sensors/Camera/CamDataInterface.cpp:84-124 | and no image is torn and no reader goes back, in every run without another timeout of the writer |
| CamSignalTimeout.RecoveredRepeats | DEASLDEV/Sensors/Camera/CamDataInterface.h:82-87 | what stays broken: any reader can be given the newest frame twice |
| CamSignalTimeout.OrderReturns | DEASLDEV/Sensors/Camera/CamDataInterface.cpp:191-198 | from the end of the next write on no reader is given a frame twice |
| CamDataInterface.Shared.AcquireSemaphores | DEASLDEV/Sensors/Camera/CamDataInterface.cpp:6-18 | with any steps of the other threads in between: takes permits one by one until it has all ten, or gives up at the first wait that times out and keeps what it has |
| CamDataInterface.Shared.ReleaseAfterTimeout | DEASLDEV/Sensors/Camera/CamDataInterface.cpp:20-28 | one release of ten, and if it fails one more of an unset number |
| CamDataInterface.Shared.WriteNextImage | DEASLDEV/Sensors/Camera/CamDataInterface.cpp:178-201 | among any steps of the other threads the call takes exactly the steps of its program: a complete write, one that lost the mutex, or one that gave up after some permits; the result tells which |
| CamDataInterface.Shared.ReadNextImage | DEASLDEV/Sensors/Camera/CamDataInterface.cpp:80-128 | among any steps of the other threads the call takes exactly the steps of its program and reports whether both doors opened; as long as no timeout of the writer has had an effect, what it delivers is one of the frames |
| BitStream.WorstStreamEver.SetBit | DEASLDEV/Sensors/Camera/simplejpeg.h:83-90 | exactly the addressed bit of the 32-bit buffer is set |
| BitStream.WorstStreamEver.Put | DEASLDEV/Sensors/Camera/simplejpeg.h:93-118 | the low bits of the value, most significant first, are appended to the bit string; whole words are stored stuffed |
| BitStream.WorstStreamEver.PutByte | DEASLDEV/Sensors/Camera/simplejpeg.h:72-81 | the stored bytes stay the requested ones, cut at the capacity |
| BitStream.WorstStreamEver.FlushLastBits | DEASLDEV/Sensors/Camera/simplejpeg.h:119-127 | the rest of the buffer is stored, padded with zero bits to 32, and stays in the buffer |
| BitStream.WorstStreamEver.GetBuffer | DEASLDEV/Sensors/Camera/simplejpeg.h:50-53 | the requested bytes, cut at the capacity |
| BitStream.FlushStoresSegment | DEASLDEV/Sensors/Camera/simplejpeg.h:93-127 | any series of writes and a flush store the bits, padded with 1 to 32 zero bits, packed and stuffed, as one segment |
| BitStream.SegmentRecovered | DEASLDEV/Sensors/Camera/simplejpeg.h:93-127 | un-stuffing and unpacking the segment up to the next marker gives back the bits and only zero bits behind them |
| BitStream.LeftOverBitsHarmlessIff | DEASLDEV/Sensors/Camera/simplejpeg.h:119-127 | bits left over from an earlier image leave the segment of the next one unchanged if and only if there are none, or all bits are zero and fill no further word |
| Bits.NoMarker | DEASLDEV/Sensors/Camera/simplejpeg.h:105-110 | in stuffed data every 0xFF is followed by 0x00 |
| Bits.UnstuffStuff | DEASLDEV/Sensors/Camera/simplejpeg.h:105-110 | un-stuffing undoes stuffing up to the next marker |
| Huffman.PrefixFreeIffKraft | DEASLDEV/Sensors/Camera/simplejpeg.cpp:533-553 | the canonical assignment is prefix-free if and only if the counts satisfy the Kraft inequality |
| Huffman.DecodeWord | DEASLDEV/Sensors/Camera/simplejpeg.cpp:533-553 | the decoding procedure of T.81 section F.2.2.3 reads back the symbol of every code word and stops right behind it |
| HuffmanTables.CreateSourceHuffmanTable | DEASLDEV/Sensors/Camera/simplejpeg.cpp:533-553 | for any counts whose codes stay below the symbol bits, the table holds, row by row, the counts, the symbols and their canonical codes |
| HuffmanTables.CreateEncodeHuffmanTable | DEASLDEV/Sensors/Camera/simplejpeg.cpp:555-602 | refuses exactly the tables whose symbols span too many slots; otherwise each symbol has its own slot with the code and length of its last occurrence, and all other slots are zero |
| HuffmanTables.PutHuff | DEASLDEV/Sensors/Camera/simplejpeg.h:128-139 | the code word of the symbol is appended |
| StandardTables.StandardComplete | DEASLDEV/Sensors/Camera/simplejpeg.cpp:36-104 | the four standard tables satisfy the Kraft inequality, list no symbol twice, and have a code for every category and every run-size symbol |
| JpegTables.ZigzagVisits | DEASLDEV/Sensors/Camera/simplejpeg.cpp:108-115 | the zig-zag table visits every index of a block |
| JpegTables.VisitedZigzag | DEASLDEV/Sensors/Camera/simplejpeg.cpp:108-115 | and none twice |
| JpegTables.ZigzagWalks | DEASLDEV/Sensors/Camera/simplejpeg.cpp:108-115 | and in the order of T.81 Figure A.6, walked along the anti-diagonals, with rows and columns exchanged as the transform leaves them |
| JpegBlock.ExtendMagnitude | DEASLDEV/Sensors/Camera/simplejpeg.cpp:477-485 | the additional bits of a value are undone by RECEIVE and EXTEND of T.81 section F.2.2.1 |
| JpegBlock.DecodeDcBits | DEASLDEV/Sensors/Camera/simplejpeg.cpp:473-485 | the DC difference is read back |
| JpegBlock.DecodeAcBits | DEASLDEV/Sensors/Camera/simplejpeg.cpp:487-519 | run-length coding is undone: the T.81 section F.2.2.2 decoder gets back all 63 coefficients and reads exactly the bits written |
| JpegScan.DecodeScanBits | DEASLDEV/Sensors/Camera/simplejpeg.cpp:463-520 | every block of a scan is recovered in order, DC prediction resolved per component |
| JpegScan.ScanRecovered | DEASLDEV/Sensors/Camera/simplejpeg.cpp:463-527 | the same from the stored bytes up to the EOI marker, with only zero bits left over |
| JpegReading.DecodeReads | DEASLDEV/Sensors/Camera/simplejpeg.cpp:533-553 | whatever the Huffman decoder reads as a symbol begins with the code word of that symbol |
| JpegReading.AcReads | DEASLDEV/Sensors/Camera/simplejpeg.cpp:487-519 | whatever is read as given coefficients is their run-length code, the one written here or one with extra zero runs in front of the end-of-block code |
| JpegReading.ScanReads | DEASLDEV/Sensors/Camera/simplejpeg.cpp:463-520 | whatever is read as the blocks of a scan begins with a code of the scan of that kind |
| JpegReading.SecondImageIff | DEASLDEV/Sensors/Camera/simplejpeg.h:119-127 | behind left-over bits an image is read back if and only if these bits, its code and the padding together begin with a code of the image |
| SimpleJpeg.WriteAc | DEASLDEV/Sensors/Camera/simplejpeg.cpp:487-519 | the loop with its run counter writes the run-length coding of the block |
| SimpleJpeg.WriteBlock | DEASLDEV/Sensors/Camera/simplejpeg.cpp:463-520 | DC difference and AC coefficients of one block are written, and the prediction of its component updated |
| SimpleJpeg.ImageCodable | DEASLDEV/Sensors/Camera/simplejpeg.cpp:473-512 | the assertions on DC and AC categories never fail, whatever the image, color or gray |
| SimpleJpeg.WriteScan | DEASLDEV/Sensors/Camera/simplejpeg.cpp:410-527 | the loops over the image sample, transform and code every MCU, then flush and append EOI: one segment on top of what was stored before |
| SimpleJpeg.BuildTable | DEASLDEV/Sensors/Camera/simplejpeg.cpp:356-373 | the two table builders in a row give the encode table |
| SimpleJpeg.WriteImage | DEASLDEV/Sensors/Camera/simplejpeg.cpp:292-527 | from the pixels of any image: what is appended is one segment and EOI, and on a stream without left-over bits the T.81 decoder reads back exactly the quantized blocks of the image, and behind left-over bits exactly if these and the scan begin with a code of the image; if everything fits the capacity, that is what the stream holds |
| SimpleJpeg.LeftOverShowsFirst | DEASLDEV/Sensors/Camera/simplejpeg.h:119-127 | a scan too short to fill a word is what the decoder finds in place of the next image |
| SimpleJpeg.SecondOfTwoIff | DEASLDEV/Sensors/Camera/simplejpeg.h:119-127 | of two images of the same shape, the first too short to fill a word, the second is read back if and only if its blocks are those of the first |
| Fdct.Row | DEASLDEV/Sensors/Camera/simplejpeg.cpp:185-228 | one row in place: the one-dimensional transform of its eight samples |
| Fdct.Column | DEASLDEV/Sensors/Camera/simplejpeg.cpp:231-280 | one column, with the column itself as scratch space: transformed, scaled and rounded |
| Fdct.Transform | DEASLDEV/Sensors/Camera/simplejpeg.cpp:178-281 | the block is transformed row by row and then column by column, all 64 outputs |
| FdctBounds.PassBounds | DEASLDEV/Sensors/Camera/simplejpeg.cpp:185-228 | one pass: the first output is the sum, and every other one is at most four times its scale times the spread of the samples, roundings included |
| FdctBounds.QuantizedBounded | DEASLDEV/Sensors/Camera/simplejpeg.cpp:178-281 | both passes and the quantization, for luma samples and for sums of four chroma samples: the DC coefficient lies in [-1024, 1020], each AC coefficient in [-1023, 1023] |
| FdctBounds.BoundedScanCodable | DEASLDEV/Sensors/Camera/simplejpeg.cpp:473-512 | hence no assertion on categories fails, for the first block of a component or any later one |
| FdctBounds.TransformFits | DEASLDEV/Sensors/Camera/simplejpeg.cpp:178-281 | no operation of the transform leaves 32 bits |
| FdctBounds.DcIsSum | DEASLDEV/Sensors/Camera/simplejpeg.cpp:178-281 | the DC coefficient is the scaled and rounded sum of the 64 samples |
| JpegQuant.QuantTable | DEASLDEV/Sensors/Camera/simplejpeg.cpp:341-354 | the loop over the zig-zag sequence sets every post-scale factor, and lists the quantizers in zig-zag order |
| JpegQuant.FactorBound | DEASLDEV/Sensors/Camera/simplejpeg.cpp:344-352 | each factor times chroma scale and prescale entry is at most 2^23 |
| JpegQuant.DcFactors | DEASLDEV/Sensors/Camera/simplejpeg.cpp:341-353 | at the fixed quality the DC quantizers are 1 and their factors 512 and 128 |
| JpegQuant.DcIsMean | DEASLDEV/Sensors/Camera/simplejpeg.cpp:178-281 | with these factors the DC coefficient is the sum of the samples over 32, for chroma over 128, rounded |
| JpegColor.ConversionBounds | DEASLDEV/Sensors/Camera/simplejpeg.cpp:433-439 | for every pixel luma lies in [-512, 508] and both chroma values in [-510, 510] |
| JpegColor.FillColor | DEASLDEV/Sensors/Camera/simplejpeg.cpp:425-452 | the loops over a color MCU leave each luma sample and, in each chroma cell, the sum over its square of pixels, with zeros outside the image |
| JpegColor.FillGray | DEASLDEV/Sensors/Camera/simplejpeg.cpp:453-460 | the same for grayscale |
| JpegColor.BlockInRange | DEASLDEV/Sensors/Camera/simplejpeg.cpp:463-471 | the samples of a block are luma samples, or chroma sums of four pixels |
| WireFormat.ReadVarint32Written | DEASLDEV/Resources/Google/Protobuf/io/coded_stream.cc:343-476 | a 32-bit varint is read back, and nothing more is consumed |
| WireFormat.ReadSigned32 | DEASLDEV/Resources/Google/Protobuf/io/coded_stream.h:661-676 | an int32 written as its 64-bit sign extension is read back through 32 bits |
| WireFormat.VarintSizeIsLength | DEASLDEV/Resources/Google/Protobuf/io/coded_stream.cc:803-843 | the size table is the number of bytes written, for all 64-bit values |
| WireFormat.SkipWritten | DEASLDEV/Resources/Google/Protobuf/wire_format.cc:82-160 | skipping a written field, groups included, stores exactly that field |
| WireFormat.UnknownSizeIsLength | DEASLDEV/Resources/Google/Protobuf/wire_format.cc:298-344 | the computed size of an unknown field is the number of bytes written |
| PersonCodec.PersonOnto | DEASLDEV/Resources/ProtoBuff/example.pb.cc:478-549 | parsing an encoding on top of any message merges it into the message |
| PersonCodec.RoundTrip | DEASLDEV/Resources/ProtoBuff/example.pb.cc:478-612 | every message the parser can store is recovered from its encoding, with nothing left |
| PersonCodec.ConcatenationMerges | DEASLDEV/Resources/ProtoBuff/example.pb.cc:667-682 | parsing two encodings in a row gives the merged message: presence, last value wins, phones and unknown fields appended |
| PersonCodec.PersonLength | DEASLDEV/Resources/ProtoBuff/example.pb.cc:614-653 | the computed size is the number of bytes written |
| PersonCodec.CachedSizesDecide | DEASLDEV/Resources/ProtoBuff/example.pb.cc:585-612 | the output is the encoding if and only if every cached size is that of its body |
| Growth.SkipCompact | DEASLDEV/Resources/Google/Protobuf/wire_format.cc:82-160 | an unknown field, groups included, is written in no more bytes than it was read from |
| Growth.PersonGrowth | DEASLDEV/Resources/ProtoBuff/example.pb.cc:478-612 | on every input: what was parsed is written in at most twice the bytes it was read from |
| StoredShape.ParsePersonStores | DEASLDEV/Resources/ProtoBuff/example.pb.cc:478-549 | whatever bytes are parsed, fewer than 2^30, the message delivered satisfies everything the round trip asks for |
| StoredShape.ReencodingKeeps | DEASLDEV/Resources/ProtoBuff/example.pb.cc:478-612 | for every accepted input of fewer than 2^30 bytes: writing the message takes at most twice as many bytes, and parsing those gives the same message again |
| CodedStream.CodedInputStream.RawVarint | DEASLDEV/Resources/Google/Protobuf/io/coded_stream.cc:417-476 | the loop reads a varint of up to ten bytes, or fails |
| CodedStream.CodedInputStream.TakeTag | DEASLDEV/Resources/Google/Protobuf/io/coded_stream.h:580-595 | the tag, or 0 with the end-of-message flag set exactly at the end of the data |
| CodedStream.CodedInputStream.ExpectTag | DEASLDEV/Resources/Google/Protobuf/io/coded_stream.h:605-626 | a hit, possible for tags of one or two bytes, consumes exactly that tag; a miss changes nothing |
| CodedStream.CodedInputStream.ExpectAtEnd | DEASLDEV/Resources/Google/Protobuf/io/coded_stream.h:628-639 | a hit means the limit is reached, and resets the last tag; it is free to miss, and then changes nothing |
| CodedStream.CodedInputStream.PushLimit | DEASLDEV/Resources/Google/Protobuf/io/coded_stream.cc:139-163 | the new limit never reaches beyond the one in force; a negative length leaves it |
| CodedStream.CodedInputStream.SkipUnknown | DEASLDEV/Resources/Google/Protobuf/wire_format.cc:82-140 | reads and hands back exactly the unknown field |
| CodedStream.CodedInputStream.SkipMembers | DEASLDEV/Resources/Google/Protobuf/wire_format.cc:142-160 | reads fields up to an end-group tag or to where no tag can be read |
| PhoneMessage.PhoneNumber.Clear | DEASLDEV/Resources/ProtoBuff/example.pb.cc:202-213 | the message is empty and every field back at its default |
| PhoneMessage.PhoneNumber.MergeFrom | DEASLDEV/Resources/ProtoBuff/example.pb.cc:347-358 | the merged value; the other message is not changed |
| PhoneMessage.PhoneNumber.ByteSize | DEASLDEV/Resources/ProtoBuff/example.pb.cc:309-333 | the size, also cached |
| PhoneMessage.PhoneNumber.Serialize | DEASLDEV/Resources/ProtoBuff/example.pb.cc:290-307 | the encoding is appended |
| PhoneMessage.PhoneNumber.SetNumber | DEASLDEV/Resources/ProtoBuff/example.pb.h:324-330 | sets the field and its bit, nothing else |
| PhoneMessage.PhoneNumber.ClearNumber | DEASLDEV/Resources/ProtoBuff/example.pb.h:315-320 | resets the field to its default and clears its bit, nothing else |
| PhoneMessage.PhoneNumber.ClearType | DEASLDEV/Resources/ProtoBuff/example.pb.h:357-360 | resets the field to its default and clears its bit, nothing else |
| PhoneMessage.PhoneNumber.ParseNumber | DEASLDEV/Resources/ProtoBuff/example.pb.cc:223-232 | behind the number, a hit on tag 16 goes on inside the case of the type, without dispatch, and has the outcome of the plain parser |
| PhoneMessage.PhoneNumber.MergePartialFromCodedStream | DEASLDEV/Resources/ProtoBuff/example.pb.cc:215-264 | the parser with its jumps computes message, success and end flag of the plain loop on every input, whichever shortcuts hit |
| PersonMessage.PersonRecord.Clear | DEASLDEV/Resources/ProtoBuff/example.pb.cc:459-476 | the message is empty and every field back at its default |
| PersonMessage.PersonRecord.MergeFrom | DEASLDEV/Resources/ProtoBuff/example.pb.cc:667-682 | the merged value; phone numbers are copied |
| PersonMessage.PersonRecord.ByteSize | DEASLDEV/Resources/ProtoBuff/example.pb.cc:614-653 | the size; every nested size is cached as well |
| PersonMessage.PersonRecord.SerializeWithCachedSizes | DEASLDEV/Resources/ProtoBuff/example.pb.cc:585-612 | the encoding with whatever sizes are cached in front of the phone numbers |
| PersonMessage.PersonRecord.SerializePartial | DEASLDEV/Resources/Google/Protobuf/message_lite.cc:240-248 | size first, then the bytes: exactly the encoding, of exactly that size |
| PersonMessage.PersonRecord.ReadPhone | DEASLDEV/Resources/Google/Protobuf/wire_format_lite_inl.h:180-207 | length, depth, limit, nested parser and end check, as the plain parser does them |
| PersonMessage.PersonRecord.ParseName | DEASLDEV/Resources/ProtoBuff/example.pb.cc:486-494 | behind the name, a hit on tag 16 goes on inside the case of the id, without dispatch |
| PersonMessage.PersonRecord.ParseId | DEASLDEV/Resources/ProtoBuff/example.pb.cc:497-508 | behind the id, a hit on tag 26 goes on inside the case of the email |
| PersonMessage.PersonRecord.ParseEmail | DEASLDEV/Resources/ProtoBuff/example.pb.cc:511-520 | behind the email, a hit on tag 34 goes on inside the case of the phone numbers |
| PersonMessage.PersonRecord.ParsePhoneField | DEASLDEV/Resources/ProtoBuff/example.pb.cc:523-534 | behind a phone number, a hit on tag 34 reads the next one at once; each of these has the outcome of the plain parser |
| PersonMessage.PersonRecord.MergePartialFromCodedStream | DEASLDEV/Resources/ProtoBuff/example.pb.cc:478-549 | the parser with its jumps computes message, success and end flag of the plain loop on every input, whichever shortcuts hit |
| PersonMessage.PersonRecord.ParsePartialFromArray | DEASLDEV/Resources/Google/Protobuf/message_lite.cc:130-135 | succeeds exactly if the plain parser does and ends at the end of the array |

## Left out

- FileBuilder.DescriptorBuilder.AddSymbol: the per-parent alias table is not modelled; it is filled beside the symbol table and never decides acceptance.
- FileBuilder.DescriptorBuilder.BuildFieldOrExtension: default values, labels, camel-case names and options are not modelled.
- FileBuilder.DescriptorBuilder.BuildMessage: default values of the fields in the tree are not modelled.
- FileBuilder.DescriptorBuilder.CrossLinkMessage: default values of the fields in the tree are not modelled.
- FileBuilder.DescriptorBuilder.CrossLinkField: default values are not modelled, and a descriptor is identified by its full name instead of its address, which differs only in files that are refused for a duplicate name.
- FileBuilder.DescriptorBuilder.BuildLoaded: option interpretation and validation, placeholders for unknown imports, and underlay pools are not modelled; messages and tables allocated beside the strings are freed with them and not listed.
- PoolLoader.DescriptorPool.FindFileByName: underlay pools are not modelled.
- PoolLoader.DescriptorPool.BuildFile: an existing file is compared with the new one as a description, which is the source's comparison of serialized forms for canonical input; the database is keyed by the names of its files; searching the database for a symbol or an extension is left out.
- Error texts, mutexes and strings with embedded zero bytes in the descriptor code.
- The file and extension tables of the symbol index, which are plain maps.
- CamProtocol.WriteEnds: counts steps of all threads, not time; real waiting times are not modelled.
- CamProtocol.StepInv: a reader's timeout at the first door changes nothing and is no step; what the writer's timeouts do is in CamTimeout and CamSignalTimeout.
- CamDataInterface.Shared.WriteNextImage: a wait ends by acquiring or by timing out; abandoned mutexes and views that could not be mapped are not modelled.
- Creation, opening and closing of the shared objects in CamDataInterface.cpp.
- SimpleJpeg.WriteImage: the header segments, which only append bytes, are not modelled.
- Fdct.Transform: how close the integer transform comes to the cosine transform is not stated.
- JpegQuant.QuantTable: quantizers are computed over the reals instead of doubles.
- JpegBlock.ExtendMagnitude: the category is the bit length of the magnitude; that the source reads it from the exponent of a float is not modelled.
- StoredShape.ReencodingKeeps: nothing is stated for inputs of 2^30 bytes and more, whose encodings need not fit a buffer.
- CodedStream.CodedInputStream.RawVarint: one buffer of less than 2^31 bytes; refilling from a stream, the total-bytes limit of 64 MB and the unrolled fast paths, which read the same bytes, are not modelled.
- PersonMessage.PersonRecord.ParsePartialFromArray: the check for required fields that the full parser adds is not modelled.
- PersonMessage.PersonRecord.Clear: cleared phone numbers are dropped instead of kept for reuse.
- PersonMessage.PersonRecord.ByteSize: sizes are unbounded, messages of 2^31 bytes and more would overflow in the source.
- messageExample.pb.cc, reflection, descriptors of the generated messages, UTF-8 checks, sockets, camera drivers, display code and the pose library.
