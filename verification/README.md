# Verified models of libdap

This project models the parts of libdap whose correctness rests on several functions at once,
and proves what they are for.  It is written against the C++ sources and cites them by file and
line.

**The DMR reader against the DMR printer.**  `D4ParserSax2` is a pushdown machine with four
stacks that libxml2 calls back; the `print_dap4` methods write the document it reads.
Documents are trees of elements and character data (`XmlStream`), the printer is a function
from a DMR to such a tree (`DmrPrinter`), the callbacks are steps of a state machine over arenas
of objects (`D4Heap`, `D4Parser`), and the class in `D4ParserSax2` is proved to take those steps.
`DmrDocument` says which documents describe a DMR: the printed one, and those that name
dimensions and enumerations from the current group on.  `DmrRoundTrip` proves that reading such a
document rebuilds the DMR, `StreamNoise` what the reader does not see, `DmrErrors` what it
refuses, `DmrLimits` where the round trip ends, `DmrLateAttrs` (over `DmrTableOrder`) where
attributes go that follow a child group, and `DmrMemberOrder` what becomes of members that follow
extents.

**The shared cache.** `CacheProtocol` is `DAPCache3` as step machines over `fcntl()` locks, one
step for each open, lock, unlink and close. Safety holds for all callers; `CacheRecords` and
`CacheProgress` state the rules under which the recorded locks are true and nobody waits for
ever; `CacheOutcomes` is what a call leaves behind. `CacheRecordRules` and `CacheWaitRules` show
for all states in which nobody is inside an operation that the rules are exact: after each call
that they forbid, processes that keep to them can make a record false or come to wait for each
other; get_read_lock is the one call that takes another of its kind for that. `CacheTraps` has
such runs from the empty start. `DAPCache3` is the bookkeeping: the purge loop and the recorded
size.

**The binary codec.** `D4Data` has the byte stream of `serialize()` and `deserialize()` as
functions, the classes in `D4StreamMarshaller` and `D4StreamUnMarshaller` follow them, and
`CodecRoundTrip`, `CodecGroups` and `CodecLimits` relate the two sides; `CodecPieces` says when
the marshaller stops. `CodecByteOrder` has the exact condition under which values arrive between
hosts of different byte orders, `CodecNesting` the one for sequences inside sequences.
`D4Sequence` reads rows through filter clauses, `D4Enum` is the 64-bit buffer behind eight
integer types.

**Names, flattening, attributes, shapes.**  `Names` finds variables by fully qualified name,
`D4Dimensions` does the same for dimensions, `Flattening` turns groups into DAP2 variables and
`GroupTables` into attribute tables, `AttrTranslation` takes attribute tables to DAP4 and back,
`SpaceEncoding` has the two "%20" loops, and `ArrayShape` constraints and row-major printing.

## Where code and comments differ

The model follows the code.

- `DAPCache3.cc:71-73` calls 2^44 megabytes the largest size; multiplying by 2^20 in 64 bits
  turns it, and every larger value that is clamped to it, into zero, which the constructor
  rejects (`SizeAccepted`).
- `D4Group.cc:368-374` finds variables by fully qualified name; a member that bears the name of
  the array of structures it is in is answered with the prototype (`FindVarByFqn`,
  `MemberNamedAfterArray`).
- `D4StreamMarshaller.h:150-151` lets the reader make the byte order right; lengths and counts
  are read as they come, so data with one that is not a palindrome of eight bytes do not arrive
  at a host of the other order (`ArrivesExact`).
- `D4Sequence.cc:391-405` reads every row into the same column variables without emptying a
  sequence among them, which keeps the rows it was given before (`NestingExact`).
- `D4Group.cc:341-366` takes any path for an enumeration, but goes down only one group
  (`EnumResolves`, `RelativeEnum`).
- `D4ParserSax2.cc:1084-1085` asks why the end of a structure does not look for an array as the
  end of a simple variable does; because it does not, a structure or sequence that follows the
  extents of a structure takes the place of that structure (`ExtentsFirst`).
- `D4StreamMarshaller.cc:194-199` says that data is written only on request; sequence counts are
  always written (`SilentWithoutSequences`).
- `Array.cc:633-647` promises an exception for bad constraints; a stop below the start is
  accepted, and the size that is computed then is usually wrong (`CountExact`).
- `AttrTable.cc:425-429` promises an exception for a second container of the same name; the
  lookup uses the name as it is and the table stores it decoded, so a second container is refused
  exactly if the name has no "%20" (`SecondContainer`, `RefusedExactly`), and "a%20b" can be added
  twice (`CodedNameTwice`).

## Model

| member | source | states |
|---|---|---|
| DmrRoundTrip.ReadsDescribed | D4ParserSax2.cc:642-1133 | For every DMR (nested groups, shared and anonymous dimensions, enumerations, structures and sequences, arrays of both, attribute containers) and every document that describes it, with each shared dimension named in full or from the current group on, each enumeration in full or, at any depth, by its own name in its own group, up to foreign subtrees, text between elements and the chunking of text: the reader ends in its end state with empty variable and group stacks, holds that DMR and no other, and its attribute stack has one forgotten entry for each named group |
| DmrRoundTrip.RoundTrip | D4Group.cc:573-660 | In particular what print_dap4 writes of a well-formed DMR is read as that DMR and no other |
| DmrDocument.PrintedDescribes | D4Group.cc:573-660 | The printed form of every well-formed DMR describes it |
| DmrRoundTrip.ReadGroup | D4Group.cc:573-615 | One group element read anywhere adds exactly one child that stands for it, touches no older group, variable or table, and makes the dimensions and enumerations it declares resolvable |
| DmrReadVars.ReadVar | D4ParserSax2.cc:515-588 | The element of a variable read inside a group or structure, whatever way it names its dimensions and its enumeration, adds exactly one member that stands for it and restores all stacks |
| DmrReadVars.CloseVar | D4ParserSax2.cc:1017-1090 | The end of a variable takes it off the variable and attribute stacks and adds it, as what it stands for, to the parent it was started in |
| DmrRoundTrip.StartGroup | D4ParserSax2.cc:349-387 | The start of a group adds one empty child, reachable by its path, to the current group and makes it current |
| DmrReadVars.ReadDims | D4ParserSax2.cc:233-289 | Dim elements turn the current variable into an array whose prototype it becomes and whose extents stand for what they say: a number, a dimension named from the root, or one named from the current group |
| DmrLimits.RelativeDimElement | D4ParserSax2.cc:272-285 | In any group a Dim that names a dimension from the group on does exactly what one does that names it in full, and both stop the parse if and only if there is no such dimension |
| DmrLookup.RelativeDim | D4Group.cc:276-301 | From a group, a name below it leads to the same dimension as the fully qualified name from the root |
| DmrLimits.RelativeEnum | D4Group.cc:341-366 | From a group, however deep, an enumeration is found by its relative name if and only if it belongs to that group or to one of its children |
| DmrLimits.ArrayNameDecoded | D4ParserSax2.cc:249-262 | The first extent decodes the name of a variable, which stays as it was exactly when it has no percent sign |
| DmrMemberOrder.ExtentsFirst | D4ParserSax2.cc:1017-1090 | A structure or sequence whose extents come before its members is read as an array that stands for it if and only if all its members are simple |
| DmrMemberOrder.ArrayIntoArray | Array.cc:491-509 | An array that is given to an array passes on its prototype, and its extents go behind the other's as plain numbers |
| DmrMemberOrder.OneName | Vector.cc:2000-2030 | An array and what it takes for its prototype bear one name: that of the prototype, decoded, or else that of the array if it has no percent sign |
| DmrErrors.GroupTagExact | D4ParserSax2.cc:700-718 | Between the tags of a group a start tag is an error if and only if it is not an Enumeration with a name and an integer type, a Dimension with a name and a size that reads as a number, a Group or variable with a name, an Enum also with its enumeration, or an Attribute with a name and a type |
| DmrErrors.SimpleTagExact | D4ParserSax2.cc:813-822 | Inside a simple variable exactly attributes with a name and a type, and a Dim with either a size or a name, are taken |
| DmrErrors.ConstructorTagExact | D4ParserSax2.cc:824-837 | Inside a structure or sequence the tags taken are exactly members with a name, attributes with a name and a type, and a Dim with either a size or a name |
| DmrErrors.OtherTagExact | D4ParserSax2.cc:720-791 | The root has to be a named Dataset; an attribute takes values and attributes, a container attributes only, and an enumeration exactly constants with a name and a number that fits its type |
| DmrErrors.NeverAccepted | D4ParserSax2.cc:608-627 | Once such an error has been met, no matter what follows, the reader never comes to its end state |
| DmrLimits.EnumConstExact | D4ParserSax2.cc:482-513 | A constant is taken if and only if its number is an int64_t that fits the type of the enumeration; otherwise the reader is in the error state for good with nothing changed |
| DmrReadAttrs.ReadAttrs | D4ParserSax2.cc:394-444 | A printed attribute list adds to the current table exactly those attributes, containers included, and changes no other table that existed |
| DmrRoundTrip.ReadEnum | D4ParserSax2.cc:446-513 | A printed enumeration with all its constants is appended to its group and nothing else changes |
| DmrRep.GroupUnique | D4ParserSax2.h:125-156 | A heap of reader objects stands for at most one tree |
| DmrRep.VarStable | D4ParserSax2.cc:545-588 | What a variable stands for survives every change outside its own objects |
| DmrLookup.FindDimWalks | D4Group.cc:276-301 | A slash-separated path is followed group by group by first-match names, to any depth |
| DmrLookup.FoundWhereNamed | D4Group.cc:276-301 | A dimension that is found is in the group that the names between the slashes lead to, and bears the last of them |
| StreamNoise.StripInvisible | D4ParserSax2.cc:839-1133 | From any state with a sound stack, removing foreign subtrees and text outside values and joining up text changes nothing in the reader at the end of any document |
| StreamNoise.ForeignExactlyIgnored | D4ParserSax2.cc:652-664 | An element is invisible in every state if and only if no element of its subtree is in the DAP4 namespace |
| StreamNoise.NodeQuiet | D4ParserSax2.cc:915-919 | Whole elements keep the start and end states at the bottom of the state stack and never leave the text of a value open |
| DmrLimits.LeafReadsBack | D4ParserSax2.cc:915-935 | A leaf attribute survives if and only if it has a value, its type is neither Enum nor Opaque, and it has one value only or a name that get() does not take apart |
| DmrLimits.EnumResolves | D4Group.cc:341-366 | An enumeration is found by its fully qualified name if and only if its group is the root or a child of the root |
| DmrLimits.DeepEnumStops | D4ParserSax2.cc:545-588 | A variable that uses an enumeration from two or more groups down stops the parse at a null pointer |
| DmrLateAttrs.LateAttributes | D4ParserSax2.cc:887-898 | Attributes that stand after any child groups are added to the table of the group entered last in preorder, however deep it is; the group they are written in gets them if and only if it has no child groups before them |
| DmrLateAttrs.LateAttributesLost | D4ParserSax2.cc:383-384 | Whatever their names, values and nesting, OtherXML aside, and even when they clash with what that last group holds, every table that was there before the child groups, that of the group they are written in among them, stays as it was |
| DmrTableOrder.MadeSince | D4ParserSax2.cc:394-444 | Whatever is read from whatever state: the containers of a table made since lead to tables made since |
| DmrReadAttrs.GetMirrors | D4Attributes.cc:442-476 | get() finds something under a dotted name in a table if and only if the attributes that the table stands for have it |
| DmrTree.AttrTypeReads | D4Attributes.cc:44-148 | An attribute type reads back from its printed name if and only if it is neither Enum nor Opaque; those two become null |
| DmrTree.TypeNameReads | util.cc:594-647 | Every type but Group reads back from its DAP4 name |
| Text.ReadersInvertShow | D4Dimensions.cc:38-49 | Each integer reader inverts decimal output exactly on the numbers its type holds |
| Text.ScanExact | D4Dimensions.cc:38-49 | What the integer readers make of any text: white space, one sign, as many digits as there are, and the rest |
| Text.ReadersExact | D4Dimensions.cc:38-49 | A size has to be a number below 2^64 with nothing behind it, and a minus sign makes it its complement; the value of a constant is a number of 64 bits with anything behind it; a Dim is read without a check |
| Text.EscapesReturn | escaping.cc:152-233 | www2id undoes id2www for every name and every set of allowed characters without the percent sign |
| Text.ShieldedByZero | escaping.cc:220-233 | An escape that names no character vanishes, and the character behind it stays, even if it begins an escape |
| DmrTree.AttrTypeExact | D4Attributes.cc:95-148 | A text is read as a type if and only if it is the name of the type up to the case of letters |
| DmrTree.CaseExact | D4Attributes.cc:95-148 | Two type names are taken alike when they differ only in the case of letters |
| D4ParserSax2.DmrReader.Intern | D4ParserSax2.cc:1281-1356 | The callbacks of a whole event stream leave the fields in the state of the run |
| D4ParserSax2.DmrReader.InternDmr | D4ParserSax2.cc:1281-1356 | The object that reads a document that describes a DMR holds it |
| D4Dimensions.FullyQualifiedName | D4Dimensions.cc:55-74 | The upward loop builds the name from the root's slash through all group names |
| D4Dimensions.DimFoundByFqn | D4Group.cc:276-301 | find_dim from the root on a dimension's fully qualified name returns that dimension, at any depth |
| CacheProtocol.NeverUnlinkedWhileLocked | DAPCache3.cc:854-984 | In every interleaving a step that removes a name is made by a process that holds the info file and the inode exclusively, and no other process has a lock on that inode |
| CacheProtocol.LocksExclude | DAPCache3.cc:221-380 | In every reachable state an exclusive holder is the only holder, and a lock is on a file still in the directory unless its holder unlinked it |
| CacheProtocol.StepInv | DAPCache3.cc:562-632 | Every single step of every process keeps the protocol invariant |
| CacheOutcomes.CallOutcome | DAPCache3.cc:562-632 | When get_read_lock or create_and_lock comes back, whatever other processes did meanwhile, the process is as it was, or has the file open under a new descriptor, locked shared or exclusively, and on record under its name |
| CacheOutcomes.PurgePrefix | DAPCache3.cc:879-906 | update_and_purge can come back after any number of the names it has scanned: exactly the files among them that no other process has locked are gone, and the process has lost its own locks on all it looked at |
| CacheOutcomes.PurgeFileAlone | DAPCache3.cc:944-984 | purge_file of a file that is not there changes nothing; of one that nobody else has locked it can go on to the end, and the file is gone with the lock the process itself may have had on it |
| CacheOutcomes.ReadersLetIn | DAPCache3.cc:772-784 | While purge_file asks for the size, processes that wait to read from the cache can go on, which they could not before |
| CacheRecords.RecordsAreTrue | DAPCache3.cc:181-192 | In every run that follows the caller's rules each recorded file is in the directory, under a descriptor of its own inode, and locked by the recorder |
| CacheRecordRules.CarefulExact | DAPCache3.cc:304-341 | From any state with true records in which nobody is inside an operation, a call keeps to the rules if and only if, as long as all keep to them afterwards, every record of every process stays true |
| CacheProgress.SomeoneCanStep | DAPCache3.cc:562-754 | When creators downgrade before their next cache-wide call, other than get_cache_size and reading a file they have locked, and purge_file is not used, every reachable state with an unfinished process has an unfinished process that can step |
| CacheProgress.WaitsAreShort | DAPCache3.cc:562-632 | Under the same rules nobody waits in a circle: waiting goes at most two deep, although get_read_lock blocks on a file while it holds the info file |
| CacheWaitRules.ConsiderateExact | DAPCache3.cc:562-754 | From any state in which nobody is inside an operation, a call by the rules never leads to two processes that wait for each other; a call against them can, with all others keeping to the rules, and for get_read_lock with one more such call |
| CacheTraps.DeadlockWithoutDowngrade | DAPCache3.cc:605-632 | A creator that does not downgrade and a reader of its file reach a state where nobody can step |
| CacheTraps.DeadlockWithPurgeFile | DAPCache3.cc:944-984 | purge_file and a reader of the file reach a state where nobody can step |
| CacheTraps.PurgingWhileReading | DAPCache3.cc:304-341 | A process that purges while it reads a file loses its lock by closing a second descriptor; another process can then remove the file it still has on record |
| DAPCache3.PurgeIsMinimal | DAPCache3.cc:854-931 | Nothing is purged within the maximum; otherwise exactly the shortest prefix of the oldest-first evictable files that reaches the target goes, or all of them; the new file and locked files stay |
| DAPCache3.PurgeFrees | DAPCache3.cc:432-441 | The same in terms of the maximum alone: above it, the shortest oldest-first evictable prefix goes that leaves at most four fifths of it, or all of them |
| DAPCache3.Cache.UpdateAndPurge | DAPCache3.cc:854-931 | The loop removes exactly those files, down to four fifths of the maximum, and records the size of the rest |
| DAPCache3.Cache.CollectDirInfo | DAPCache3.cc:799-841 | The scan finds the cached files and their total, and sorts by access time |
| CacheFiles.CutIsShortest | DAPCache3.cc:879-906 | The loop stops at the shortest prefix that reaches the target, and no subtraction goes below zero |
| CacheFiles.SortedKeeps | DAPCache3.cc:786-841 | The sort orders by access time, keeps every entry, and keeps the scan order of equal times |
| DAPCache3.Cache.Insertion | DAPCache3.cc:590-770 | Creating, filling, accounting and purging keep the recorded size equal to the size of the cached files; nothing goes within the maximum, and above it exactly the shortest oldest-first prefix of unlocked older files that leaves four fifths of it |
| DAPCache3.Cache.Removal | DAPCache3.cc:944-984 | A serial purge_file keeps the recorded size exact, and while the sizes fit a 64-bit word it subtracts nothing that is not in it |
| DAPCache3.Cache.Serial | DAPCache3.cc:719-984 | So does any serial sequence of insertions and removals; if what is there and what is added fit a word together, the recorded size is the true one, without wrapping |
| DAPCache3.Cache.Open | DAPCache3.cc:387-468 | Exactly when construction throws, when the directory is made, that the target is the largest whole number within four fifths of the maximum, and that only a new info file is set to zero |
| DAPCache3.SizeAccepted | DAPCache3.cc:432-440 | A size is accepted if and only if it is positive and below 2^44 megabytes, and then kept exactly |
| CodecGroups.GroupRoundTrip | D4Group.cc:506-571 | Deserializing a closed data set followed by anything into a fresh receiver of the projected schema gives exactly the sent values with their checksums and leaves exactly the rest |
| CodecRoundTrip.Reads | D4StreamUnMarshaller.cc:118-297 | The same for one variable, for every host pair whose length prefixes agree |
| CodecByteOrder.ArrivesExact | D4StreamUnMarshaller.cc:101-297 | A value that fits a fresh variable arrives in it if and only if every length and every sequence count that is sent, at any depth, reads the same in both byte orders |
| CodecByteOrder.GroupArrivesExact | D4Group.cc:506-571 | A closed data set arrives at a fresh receiver if and only if that is so for all its sent variables; then the rest of the stream is untouched |
| CodecGroups.ClosureExact | D4Group.cc:506-543 | The stream is that of the projected data set if and only if no unsent group has a sent variable in it; otherwise it is longer |
| CodecGroups.GroupStream | D4Group.cc:526-543 | The stream is the sent top-level variables in order, each followed by the checksum of its own values, with writing on or off |
| CodecGroups.EmitProject | Constructor.cc:577-604 | Dropping unsent members changes neither stream nor checksum |
| Bytes.OneByteDetected | D4StreamMarshaller.cc:216-283 | Data with one byte changed, wherever it is and however much follows, has another checksum |
| Bytes.ChecksumReads | D4StreamUnMarshaller.cc:101-116 | A host of the writer's byte order reads the checksum itself, another one its bytes reversed |
| D4Data.CountIsInt64 | D4StreamUnMarshaller.cc:263-269 | A count is the int64_t with the bits of the first eight bytes |
| CodecLimits.EmittedSize | D4StreamMarshaller.cc:489-540 | A variable takes its checksummed bytes and eight bytes for every length or count: no count is checksummed |
| CodecLimits.SilentWithoutSequences | D4StreamMarshaller.cc:489-495 | With writing off a variable leaves nothing on the stream if and only if it sends no sequence |
| CodecLimits.TextAcrossByteOrders | D4StreamUnMarshaller.cc:239-247 | Between byte orders a string arrives if and only if the eight bytes of its length are a palindrome |
| CodecLimits.NumbersArrive | D4StreamUnMarshaller.cc:118-236 | Numbers arrive with the same value whatever the byte orders |
| CodecNesting.NestingExact | D4Sequence.cc:391-405 | Sequences inside sequences, at any depth and beside any columns: the value is always read to its end, and arrives as sent if and only if in every sequence no row but the last has, outside a vector, a sequence with rows |
| CodecNesting.GroupNestingExact | D4Group.cc:506-571 | The same for a whole closed data set, whose groups and later variables are not disturbed |
| CodecLimits.NestedRowsPileUp | D4Sequence.cc:391-405 | When it is not so for a sequence of sequences, each inner sequence arrives with the rows of all earlier ones in front |
| D4StreamMarshaller.MasksExact | D4StreamMarshaller.cc:568-597 | The masks admit exactly the element counts whose byte count is an int64_t |
| CodecPieces.PiecesExact | D4StreamMarshaller.cc:516-620 | A value of any shape is serialized exactly when no opaque that is sent is empty and no block of numbers has 2^63 bytes or more, and the checksum is over the bytes of what is sent, in order |
| D4StreamMarshaller.Marshaller.PutVector | D4StreamMarshaller.cc:568-620 | A vector is checksummed and written, or stopped by an assertion, exactly by that bound |
| D4StreamMarshaller.Marshaller.PutOpaque | D4StreamMarshaller.cc:516-540 | An opaque is written with its length, unless it is empty |
| D4StreamMarshaller.Marshaller.SerializeData | Constructor.cc:577-604 | serialize() of any variable emits its stream and adds its values to the checksum, or stops exactly when the value is not sendable |
| D4StreamMarshaller.Marshaller.SerializeGroup | D4Group.cc:506-543 | serialize() of a group emits its child groups and then its sent variables with checksums |
| D4StreamMarshaller.BufferIs | Vector.cc:964-994 | A block of numbers is what its elements would emit one by one |
| D4StreamUnMarshaller.TwiddleVectorElements | D4StreamUnMarshaller.cc:331-361 | The in-place loop reverses every element by itself, and throws for other word sizes |
| D4StreamUnMarshaller.SwapTwice | D4StreamUnMarshaller.cc:331-361 | The swap is its own inverse |
| D4StreamUnMarshaller.SwapAt | D4StreamUnMarshaller.cc:331-361 | Element k of the result is the reversed element k |
| D4StreamUnMarshaller.BlockIsCopies | D4StreamUnMarshaller.cc:363-401 | Reading a block and swapping it is reading its elements one by one |
| D4StreamUnMarshaller.UnMarshaller.GetVector | D4StreamUnMarshaller.cc:363-401 | get_vector reads its bytes, repairs them, and leaves the rest |
| D4StreamUnMarshaller.UnMarshaller.Deserialize | D4Sequence.cc:391-405 | deserialize() of any variable consumes and yields what the stream function says |
| D4StreamUnMarshaller.UnMarshaller.DeserializeGroup | D4Group.cc:545-571 | The same for groups, with a checksum for each variable |
| DataTransfer.Transfer | D4Group.cc:506-571 | Between any two hosts, what the unmarshaller makes of the marshaller's stream of a closed data set is what was sent if and only if its lengths and counts read the same in both byte orders, always when the orders are the same |
| DataTransfer.ChecksumsOnly | D4StreamMarshaller.cc:233-283 | Turning writing off leaves the same checksums in the same order |
| D4Sequence.Sequence.ReadSequenceValues | D4Sequence.cc:306-348 | The loop ends and stores, in source order, for exactly the rows of which every comparison of the filter is true, the values of exactly the columns whose flag is set, with the length equal to the number of rows, or throws |
| D4Sequence.Sequence.ReadNextInstance | D4Sequence.cc:231-258 | The next row that counts, or the end of the source |
| D4Sequence.KeptExact | D4Sequence.cc:306-348 | Exactly the rows that count are kept, in source order, each once, and it fails exactly when some clause cannot be evaluated |
| D4Sequence.SentExact | D4Sequence.cc:316-335 | A row goes out as the values of exactly its sent columns, in column order |
| D4Sequence.SentAll | D4Sequence.cc:316-335 | All of it when every flag is set, nothing when none is |
| D4Sequence.ListExact | D4FilterClause.cc:177-200 | A row passes a list of clauses if and only if the comparison of each first operand with the second is true of it |
| D4Sequence.ListTrue | D4FilterClause.cc:94-103 | The short-circuiting list is true if and only if every clause is |
| D4Sequence.Sequence.Serialize | D4Sequence.cc:369-389 | A sequence goes out as the number of its rows and the rows: those it holds and, unless marked as read, those of the source |
| D4Enum.EnumReturns | D4Enum.cc:398-493 | For each element type, an in-range number passes the check and survives buffer, wire and byte order repair |
| D4Enum.ChecksAgree | D4EnumDefs.cc:42-66 | The definition's check admits exactly the numbers of the element type; the variable's check agrees on every int64_t except exactly the negative numbers of a uint64 enumeration |
| D4Enum.RoundTrip | D4Enum.h:140-158 | Checked set_value, serialize, deserialize and value give the number back |
| Names.FindVarByFqn | D4Group.cc:375-400 | find_var on a variable's fully qualified name returns that variable at any depth, if and only if the name does not end at a member that bears the name of its array |
| Names.MemberNamedAfterArray | Constructor.cc:320-352 | Such a name exists: in an array of structures "a" with a member "a" the member is not found |
| Names.DottedLookup | Constructor.cc:320-352 | The same for a dotted name inside one group |
| Names.ThrowsExact | D4Group.cc:375-400 | find_var throws exactly for a path in which a slash follows the slash behind the name of a group that is there, and below the root also for one that starts with a slash |
| Names.TrailingDot | Vector.cc:433-442 | A dot behind the name of an array leads to its prototype, behind any other name nowhere |
| Flattening.FlatteningFaithful | D4Group.cc:662-757 | Flattening throws if and only if, by the names and types of attributes, groups and dropped variables alone, an attribute cannot go into its table or a container's name is taken; otherwise the results are the converted variables, each once, in preorder, with different names, find_var on a result's name gives back its source, and the table has all other variables and groups |
| Flattening.TransformToDap2 | D4Group.cc:662-757 | The loops compute those results and fill the table with attributes, dropped members and child tables, or throw |
| GroupTables.TablesExact | D4Group.cc:662-757 | For every tree, by names and types alone: exactly when an attribute or a container clashes (two dropped members, two child groups, a child group and an attribute, the reserved name and an attribute or child group), and what the table is when none does |
| GroupTables.DroppedListed | Constructor.cc:858-901 | The dropped-members table has a container for exactly each variable that does not convert, under its decoded name, with its extents in order, if any, and the name of its type, for an array that of its elements |
| Flattening.ReservedName | D4Group.cc:732-737 | A child group with the reserved name beside a dropped variable makes it throw |
| AttrTranslation.ThereAndBackExact | D4Attributes.cc:195-348 | A DAP2 attribute tree comes back from DAP4 unchanged if and only if at every depth its names are different and free of "%20", its types known and its value lists not empty |
| AttrTranslation.SecondContainer | AttrTable.cc:439-465 | A container that was added is refused the second time if and only if its name has no "%20" |
| AttrTranslation.RefusedExactly | AttrTable.cc:425-465 | The promised exception comes, and names stay different, if and only if the name has no "%20" or its decoded form is not taken |
| AttrTranslation.AllStored | D4Attributes.cc:322-348 | In any table filled from DAP4, names are decoded, and only a container can share a name with an earlier entry |
| AttrTranslation.LeafGoes | D4Attributes.cc:273-348 | A leaf with values in an empty table throws if and only if its type is null, Int64, UInt64, Enum or Opaque; otherwise its values stand under its decoded name and its own type name, or Byte for Int8 and UInt8 |
| AttrTranslation.TakesExact | D4Attributes.cc:322-348 | transform_attrs_to_dap2 throws if and only if, in order, a leaf has one of these types or meets first, under its decoded name, something other than a leaf of its type, or a container's name as it is is a decoded name already there, or this happens inside a container |
| AttrTranslation.TypesReturn | AttrTable.cc:97-156 | DAP2 type names read back, and every value type goes to the DAP4 type of that name and back |
| AttrTranslation.ListAtOnce | AttrTable.cc:362-397 | append_attr takes a list of values as it takes them one by one, refusals included |
| AttrTranslation.AttrTable.AppendOne | AttrTable.cc:307-342 | append_attr extends an attribute, adds one, or throws |
| AttrTranslation.AttrTable.AppendTable | AttrTable.cc:439-465 | append_container adds a container under its decoded name, or throws exactly when an entry has the name as it is |
| AttrTranslation.AttrTable.Load | D4Attributes.cc:322-348 | transform_attrs_to_dap2 fills the table |
| AttrTranslation.TransformToDap4 | D4Attributes.cc:195-271 | transform_to_dap4 translates the table or throws for an unknown type |
| SpaceEncoding.RemoveSpaceEncoding | AttrTable.cc:61-76 | The loop ends and replaces every "%20" from left to right |
| SpaceEncoding.AddSpaceEncoding | AttrTable.cc:78-92 | The loop ends and replaces every space |
| SpaceEncoding.RoundTripExact | AttrTable.cc:61-92 | Removing what was added gives the string back if and only if it had no "%20" |
| SpaceEncoding.RemovalIdempotent | AttrTable.cc:61-76 | Removing twice is removing once: a replacement never makes a new "%20" |
| ArrayShape.Shape.AddConstraint | Array.cc:647-674 | A constraint is accepted if and only if the stride is in 1..size, both bounds are below the size, and no more indices are selected than there are, which a start of zero or more implies; what it sets; and sizes stay counts if and only if the formula counts its selection |
| ArrayShape.RunInside | Array.cc:522-674 | Through any sequence of calls whose constraints start at zero or above and are counted by the formula, every selected index is one of its dimension |
| ArrayShape.CountExact | Array.cc:666 | The computed size is the number of selected indices if and only if the stop is not below the start, or is at least one and less than two strides below it |
| ArrayShape.Shape.EditAll | Array.cc:522-674 | After any sequence of append, prepend, reset and constraint calls, each size is what the formula gives and the length their product; the sizes are counts if and only if the formula counts every selection in force |
| ArrayShape.RunKeeps | Array.cc:522-674 | Accepted constraints that the formula counts keep every size a count through any sequence of calls |
| ArrayShape.Shape.UpdateLength | Array.cc:103-116 | The length is the product of the constrained sizes as a 32-bit int |
| ArrayShape.Shape.AppendDim | Array.cc:522-536 | Appending a dimension, which is selected whole, keeps sizes and length right |
| ArrayShape.Shape.PrependDim | Array.cc:543-559 | Prepending a dimension, which is selected whole, keeps sizes and length right |
| ArrayShape.Shape.ResetConstraint | Array.cc:593-605 | Every dimension is selected in full again, and sizes are counts whatever they were |
| ArrayShape.Int32Times | Array.cc:103-116 | Multiplying step by step in wrapped ints is wrapping the product |
| ArrayPrinting.PrintVal | Array.cc:1275-1297 | The braces follow the constrained sizes, elements 0 to length - 1 are written exactly once and in order, and a multi-index shows the element at its row-major position |
| ArrayPrinting.VolumeIsProduct | Array.cc:103-116 | The number of printed elements is the product that update_length computes |
| ArrayPrinting.PrintArray | Array.cc:1218-1265 | The recursive loops write the nested form of the shape and return the next index |
| ArrayPrinting.RowMajor | Array.cc:1218-1265 | Following the braces to a multi-index leads to the element at its row-major position |
| ArrayPrinting.EachElementOnce | Array.cc:1218-1265 | Elements 0 to length - 1 are written exactly once, in order |

## Left out

DMR documents

- OtherXML attributes and Maps: the model of the reader stops at them.
- CDATA, entities, libxml2's own error callbacks, the other attributes of Dataset (versions, base, namespaces) and XML escaping.
- Dimensions that are neither a number nor a shared dimension, constrained printing, and the printing of values.
- DmrRoundTrip.ReadsDescribed: takes the children of an element in the printer's order, members before extents before attributes (`ExtentsFirst` has another), and attributes as print_dap4 writes them.
- DmrRoundTrip.RoundTrip: asks for leaf attributes with values, types that read back, names under which get() finds nothing earlier and, with several values, itself, enumerations at most one group down, and array names without escapes; `LeafReadsBack`, `EnumResolves` and `DeepEnumStops` say exactly why.
- atoi beyond the range of int, which C leaves undefined: extents are non-negative ints.
- A null pointer, an empty stack that is popped and a thrown exception all end the run in the same stopped state.

Cache

- Signals, I/O errors, EDEADLK from fcntl(), and locks of processes that end: a step that would block waits.
- CacheWaitRules.ConsiderateExact: starts from states in which nobody is inside an operation, exclusive locks are on files in the directory, and a second process has created nothing.
- CacheRecordRules.CarefulExact: starts from states in which nobody is inside an operation.
- Opening a fresh cache over files that are already there: the recorded size is zero until the next purge.
- A prefix that the name of the info file starts with, which would make the info file an entry of the cache.
- The 80 per cent target is four fifths rounded down; the rounding of a double product is not modelled.
- In `DAPCache3` other processes appear only as the set of files they have locked; their interleaving is `CacheProtocol`.

Codec

- put_vector_part, the XDR branches, the marshaller's threads and `intern_data`.
- The checksum is taken to be the usual reflected CRC-32; Crc32.h is not part of this model, and of the polynomial the proofs use no more than that its highest bit is set.
- Receiving variables are values that a read returns, not objects updated in place; stored checksums are numbers, not attributes with hexadecimal text.
- Assertions stop the program; an empty opaque is taken to trip the one on its pointer.
- Reading nested sequences from a data source, and unsigned counts beyond int64_t.
- How two operands of a filter clause compare: it is a parameter.

Names, attributes, shapes

- Leaf matches of var(), the stacks that record a path, and del_var.
- Flattening.TransformToDap2: the members' own transforms are a parameter that says which convert to one variable of the same name; so are the sizes of extents; what variables add to the tables by themselves is not there.
- GroupTables.TablesExact: is about trees in which no group but the root is called "/".
- Aliases, find and scoped lookups in AttrTable.
- clear_all_dims, which leaves the length as it was, and slicing by shared dimensions.
- Array.print_val's declaration text.
- ArrayShape.Shape.AddConstraint: stop - start is an unbounded number; in C++ the int overflows, which is undefined, when start is far below zero.
- ArrayPrinting.PrintVal: asks for a number of elements that an int holds and for sizes that are counts.
