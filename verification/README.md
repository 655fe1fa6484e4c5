# db8: models and proofs of the object database's core

db8 stores JSON objects by id, indexes them by an order-preserving byte encoding, and serves them through filters,
queries and paged backups. This project models the self-contained parts of that code in Dafny and proves what the rest
of the database relies on.

| module | what it models |
|---|---|
| `Bytes`, `Numbers`, `Values` | byte strings in unsigned order; numbers in text; object values, their order and the visitor's events |
| `Encoding`, `ObjectWriters`, `ObjectBuilders`, `ObjectReaders`, `BinaryReader`, `BinaryAccepts` | the binary form: writer, reader with its explicit state stack, builder, and the format the reader accepts |
| `JsonParsers`, `JsonWriters`, `JsonRoundTrips`, `JsonFiles` | the resumable JSON parser, the writer, and loading a file of records |
| `JsonGrammars`, `JsonReadings`, `JsonAccepts`, `JsonRefusals` | the grammar of the texts the parser accepts, written down without the parser; that it accepts just these, and where it refuses others with which error |
| `FilterTries`, `FilterLeaves`, `FilterLosses`, `FilterOrders`, `Filters` | the select trie and the filter that projects an event stream in one pass |
| `RbNodes`, `RbInsert`, `RbDelete`, `RbTrees`, `RbWalk` | the top-down red-black tree with parent links, on heap nodes |
| `HashTables` | the chained hash table whose nodes also sit on an iteration list with back references |
| `Dispatch`, `Dispatcher` | the message dispatcher: the protocol as a state machine, and the class that carries it out |
| `Backups` | paged backup: the two passes of a page, the incremental key, all pages together |
| `ObjectStores`, `Restores` | merging, the put rules, and the additive restore |
| `DbKeys`, `Base64` | prefix ranges, raw key comparison, multi-valued keys; base64 in both alphabets |

Code that changes things in place is modelled as classes and loops (`RbTree`, `HashTable`, `ObjectWriter`,
`ObjectReader`, `ObjectBuilder`, `JsonWriter`, `JsonParser`, `ObjectFilter`, `MessageDispatcher`, `BackupFile`,
`BackupResponse`, `ObjectDb`, `KeyBuilder`), each proved against a function of its old state; the theorems are lemmas
about those functions.

## Model

| member | source | states |
|---|---|---|
| Encoding.OrderEmbedding | inc/core/MojObjectSerialization.h:29-51 | for any two values, whatever follows them, the bytes compare as the values do, and only equal values leave the decision to what follows |
| Encoding.EncodingOrder | src/core/MojObject.cpp:134-141 | the sign of the byte comparison of two encodings is the sign of the object comparison |
| Encoding.EncodingPrefixFree | src/core/MojObjectSerialization.cpp:87-189 | no encoding is a proper prefix of another |
| Encoding.KeyTupleOrder | inc/core/internal/MojVectorInternal.h:138-155 | concatenated encodings of equally many values order as the tuples do |
| ObjectWriters.ObjectWriter.VisitValue | src/core/MojObjectSerialization.cpp:27-189 | writing appends exactly the encoding of the value to the buffer |
| ObjectBuilders.BuildVisit | src/core/MojObjectBuilder.cpp:112-150 | the events of a value, sent to a builder in any state, add exactly that value to what is under construction |
| ObjectBuilders.BuildSettles | src/core/MojObjectBuilder.cpp:112-150 | so do the events of any other value, with names unordered or repeated, for the value it settles to |
| ObjectBuilders.LastValueBuilt | src/core/MojObjectBuilder.cpp:112-150 | that value has its names in order at every level, and looking a name up in it gives, at every level, the last value sent under it |
| ObjectBuilders.BuildKeepsOrder | src/core/MojObjectBuilder.cpp:112-150 | every accepted run of events leaves all objects, open or finished, with their names in ascending order at every level |
| ObjectBuilders.ObjectBuilder.Handle | src/core/MojObjectBuilder.cpp:32-150 | each visitor call moves the builder object as the specification the rows above are about |
| ObjectReaders.ReadsValue | src/core/MojObjectSerialization.cpp:230-384 | from any stack that waits for a value, the bytes of a value send its events, use up just those bytes and leave the stack without the wait |
| ObjectReaders.OneValueRoundTrip | src/core/MojObjectSerialization.cpp:220-228 | `nextObject` reads one value, stops after its last byte with an empty stack, and leaves what follows |
| ObjectReaders.SkipBeginRoundTrip | src/core/MojObjectSerialization.cpp:230-384 | with the begin event suppressed an object's events come without their first |
| ObjectReaders.BinaryRoundTrip | src/core/MojObjectSerialization.cpp:386-393 | reading the encoding of a value drives the builder to that value, uses all bytes, and ends with an empty stack |
| BinaryAccepts.AcceptsIff | src/core/MojObjectSerialization.cpp:220-384 | `nextObject` accepts exactly the bytes that begin with a value of the format, written down marker by marker, hears exactly that value, and leaves exactly the rest |
| BinaryAccepts.CutShortIff | src/core/MojObjectSerialization.cpp:220-451 | bytes are refused as ended too early exactly if more bytes could complete them, and for their marker otherwise |
| BinaryAccepts.ReadsWholeIff | src/core/MojObjectSerialization.cpp:453-461 | read to their end, bytes give these events and leave no container open exactly if they are whole values one after the other, and these are their events |
| BinaryAccepts.UnclosedRead | src/core/MojObjectSerialization.cpp:453-461 | if they are read without an error they are whole values once the containers they leave open are closed |
| BinaryAccepts.OpenArrayRead | src/core/MojObjectSerialization.cpp:453-461 | that containers are left open is no error: the first byte of an array alone is read |
| BinaryAccepts.ShortestForm | src/core/MojObjectSerialization.cpp:87-189 | a value without parts is written in the fewest bytes that are read as it |
| BinaryReader.ObjectReader.Next | src/core/MojObjectSerialization.cpp:230-451 | one step of the reader object: events, position and stack, or the error, are those of the specification step |
| BinaryReader.FromBytes | src/core/MojObjectSerialization.cpp:453-461 | reader and builder run together over any bytes give the specified value or the specified error, and never end a container that is not open |
| BinaryReader.WriteThenRead | src/core/MojObjectSerialization.cpp:20-461 | the writer object's bytes read back by the reader and builder objects are the value |
| JsonParsers.OnceKeeps | src/core/MojJson.cpp:272-631 | every pass of the switch keeps the stack within its depth and every state's counters within their bounds |
| JsonParsers.RedoEnds | src/core/MojJson.cpp:288-631 | every `goto Redo` lowers a rank, so each character takes a bounded number of passes |
| JsonParsers.FeedConcat | src/core/MojJson.cpp:272-631 | parsing two pieces one after the other is parsing their concatenation, events, state, error and stopping place included |
| JsonParsers.ChunkIndependence | src/core/MojJson.cpp:272-631 | parsing any number of pieces is parsing the whole text at once |
| JsonParsers.RestIsTail | src/core/MojJson.cpp:272-631 | where the parser stops, what it leaves is the non-empty tail of its input |
| JsonParsers.JsonParser.OneChar | src/core/MojJson.cpp:288-631 | the loop around the switch on one character computes the fate the theorems on whole texts are about |
| JsonParsers.JsonParser.ParseChunk | src/core/MojJson.cpp:272-631 | the parser object consumes a chunk as specified, says where it stopped, and makes exactly the specified visitor calls |
| JsonAccepts.SpelledParses | src/core/MojJson.cpp:251-631 | any text of the grammar, with white space, comments of both kinds and every escape, \u in either case and above 127 included, is heard as the value it means if that nests at most 31 levels below the root, and fails with the depth error if it is deeper |
| JsonAccepts.AcceptedIsSpelled | src/core/MojJson.cpp:251-631 | whatever the parser accepts begins with a document of the grammar, and was heard as its value |
| JsonAccepts.ParsesIff | src/core/MojJson.cpp:251-631 | so the parser hears these events exactly if the text begins with a document that means them |
| JsonGrammars.Utf8IsRight | src/core/MojJson.cpp:447-472 | a code unit comes in the one, two or three bytes of section 3 of RFC 3629 |
| JsonRefusals.RefusedWith | src/core/MojJson.cpp:288-631 | wherever in a document, inside whatever containers, a value, word, number, string, escape, comment, name, colon or comma goes wrong, the parser fails with the error that belongs to it, whatever follows |
| JsonRefusals.UnfinishedText | src/core/MojJson.cpp:251-270 | a text that ends where a value may begin, in whatever containers, fails with the end-of-file error |
| JsonWriters.WriteVisit | src/core/MojJson.cpp:58-211 | the events of a value write its JSON text, with the comma it needs before it |
| JsonWriters.JsonWriter.WriteString | src/core/MojJson.cpp:158-200 | the run-copying loop writes the quoted text with every escape in place |
| JsonWriters.JsonWriter.Handle | src/core/MojJson.cpp:58-211 | each visitor call moves the writer object as its specification does |
| JsonWriters.JsonWriter.WriteValue | src/core/MojJson.cpp:58-211 | a value sent to the writer object comes out as its JSON text |
| JsonRoundTrips.TextBack | src/core/MojJson.cpp:158-200 | the escaped form of any NUL-free text, \u forms included, is read back as that text |
| JsonRoundTrips.WriterConforms | src/core/MojJson.cpp:158-200 | the escaped form of a text is a string as section 7 of RFC 8259 allows it, control characters escaped, that stands for the text |
| JsonRoundTrips.ShortestText | src/core/MojJson.cpp:158-200 | and no such string for the text is shorter |
| JsonRoundTrips.IntBack | src/core/MojJson.cpp:128-135 | the decimal text of every 64-bit integer is read back as that integer, and taken for an integer |
| Numbers.ReadAsDecimalIff | inc/core/internal/MojOsInternal.h:251-255 | digits, behind a minus sign or not, are read to their end as their decimal value exactly if that fits 64 bits and either they do not begin with zero or all are zero but a last one below eight |
| Numbers.LeadingZero | inc/core/internal/MojOsInternal.h:251-255 | `010` is read as eight, and of `08` only the zero is read |
| Numbers.ReadsByPlaces | inc/core/internal/MojOsInternal.h:251-255 | digits behind white space and a sign, octal behind `0`, hexadecimal behind `0x`, decimal otherwise, are read by their places up to the first that is none, and cut to 64 bits |
| Numbers.DigitIsPlace | inc/core/internal/MojOsInternal.h:251-255 | a digit's value is its place in `0123456789abcdef`, in either case |
| JsonRoundTrips.IntegerParsed | src/core/MojJson.cpp:515-530 | a document of digits alone is heard as what they are read as, and refused with the integer error if they are not read to their end |
| JsonRoundTrips.IntegerReadIff | src/core/MojJson.cpp:515-530 | it is heard as its decimal value exactly under the condition above |
| JsonRoundTrips.DocumentBack | src/core/MojJson.cpp:272-631 | a document followed by a delimiter is finished exactly at the delimiter, having sent its events |
| JsonRoundTrips.JsonRoundTrip | src/core/MojJson.cpp:251-270 | parsing the written text sends the value's events if it nests at most 31 levels below the root, and fails with the depth error for every deeper one |
| JsonRoundTrips.JsonRebuilds | src/core/MojJson.cpp:58-631 | writer, parser and builder in a row give back the value |
| JsonRoundTrips.AcceptedBuilds | src/core/MojJson.cpp:251-631 | whatever text the parser accepts, the builder makes the value it spells, with the last of each repeated name, in order |
| JsonFiles.LoadConcat | src/db/MojDbAdmin.cpp:709-774 | two buffers read one after the other load as one buffer |
| JsonFiles.ReadBoundariesDoNotMatter | src/db/MojDbAdmin.cpp:709-774 | records do not depend on where the reads were cut |
| JsonFiles.FileSplits | src/db/MojDbAdmin.cpp:709-787 | a file of records, with white space, comments and escapes of any kind in and around them, is split into exactly those records |
| JsonFiles.BadRecord | src/db/MojDbAdmin.cpp:714-773 | a record that goes wrong ends the load with its error, and exactly the records before it are stored |
| JsonFiles.LoadedAsDumped | src/db/MojDbAdmin.cpp:1033-1056 | what a dump wrote, an object a line, is loaded as the objects dumped, however it is read |
| JsonFiles.CutOffRecord | src/db/MojDbAdmin.cpp:776-787 | the end-of-file error is never raised, and a file ends in silence with nothing more stored exactly if the closing NUL is taken for one more character |
| JsonFiles.SilentLoss | src/db/MojDbAdmin.cpp:785-787 | a file that ends inside a string loads nothing and reports nothing |
| JsonFiles.ParseBuffer | src/db/MojDbAdmin.cpp:714-773 | the inner loop parses, stores and resets as specified |
| JsonFiles.LoadFile | src/db/MojDbAdmin.cpp:709-787 | the whole record loop gives the specified records and error |
| FilterTries.BuildReflects | src/core/MojObjectFilter.cpp:30-63 | the trie says exactly what the paths say if all paths land: of the earlier paths that begin a path or go on from it, the first begins it |
| FilterLosses.InitReflects | src/core/MojObjectFilter.cpp:30-63 | any strings, split and inserted in any order, build a trie that says exactly what their paths say, exactly if all paths land |
| FilterLosses.LostPath | src/core/MojObjectFilter.cpp:40-59 | if not all land, there is a selected path of which the scan of the trie finds nothing in an object that holds only it |
| FilterTries.SplitParted | src/core/MojString.cpp:65-91 | the parts of any NUL-free string are not empty and have no dot |
| FilterTries.SplitJoin | src/core/MojString.cpp:65-91 | splitting the string of a path gives the path |
| FilterTries.SplitAtDot | src/core/MojString.cpp:65-91 | a dot parts any string into the parts before it and those behind it |
| FilterTries.DotlessIsPart | src/core/MojString.cpp:65-91 | text without a dot is one part, and none if it is empty |
| FilterLeaves.ProjectLeaves | src/core/MojObjectFilter.cpp:101-303 | the projection to a set of paths keeps exactly the leaves of a value on whose way a selected path ends, in their order, and makes no others |
| FilterTries.KeepIsProject | src/core/MojObjectFilter.cpp:101-148 | looking names up in the trie keeps exactly the projection to the paths |
| FilterTries.ScanIsKeepIff | src/core/MojObjectFilter.cpp:120-134 | the forward-only child iterator finds what looking up finds, on every object with sorted names, exactly if children are sorted at every node |
| FilterOrders.InOrderIff | src/core/MojObjectFilter.cpp:30-63 | once all paths land, whatever their order, the trie is sorted at every node exactly if at no place, that no path ends at or above, a greater name is given before a smaller one |
| FilterOrders.ClashIff | src/core/MojObjectFilter.cpp:30-63 | for ascending strings without empty parts, where all paths land, that is so exactly if, where one string has a dot, no other goes on with a character below the dot, unless a selected path ends there or before |
| Filters.KeepsWhole | src/core/MojObjectFilter.cpp:210-261 | below a leaf of the trie the filter hands on every event of the value |
| Filters.SkipsWhole | src/core/MojObjectFilter.cpp:210-261 | outside the trie it hands on nothing and comes back to the same state |
| Filters.FindsInside | src/core/MojObjectFilter.cpp:263-303 | inside the trie it hands on the scan of the value, parents first, each opened once, and nothing if nothing matched |
| Filters.ScansRoot | src/core/MojObjectFilter.cpp:101-303 | one pass over any value gives the root container with the scan of its content |
| Filters.FilterIsProjectionIff | src/core/MojObjectFilter.cpp:30-303 | for any NUL-free select strings in any order, the filter's output is the projection of every valid value to their paths exactly if all paths land and no names are misordered |
| Filters.ClashDecides | src/core/MojObjectFilter.cpp:30-303 | for ascending strings without empty parts, exactly if no two strings clash as above |
| Filters.FilterIsProjection | src/core/MojObjectFilter.cpp:30-303 | so it is for ascending strings without empty parts whose characters sort above the dot |
| Filters.FilterMisses | src/core/MojObjectFilter.cpp:101-148 | for any other select strings there is a valid object of which something is selected and the filter lets through nothing |
| Filters.LongBeforeShort | src/core/MojObjectFilter.cpp:40-59 | selecting `.a.b` and `a`, strings that do not clash, the filter drops property `c` of property `a` |
| Filters.DashBeforeDot | src/core/MojObjectFilter.cpp:101-148 | selecting `a-b` and `a.c`, the filter drops property `c` of property `a` |
| Filters.ObjectFilter.IncludeAll | src/core/MojObjectFilter.cpp:263-303 | `includeParents` hands on names and openings of just the containers not handed on yet, outermost first |
| Filters.ObjectFilter.OnName | src/core/MojObjectFilter.cpp:101-148 | `propName` moves the iterator, matches, and hands on as specified |
| Filters.ObjectFilter.Handle | src/core/MojObjectFilter.cpp:81-261 | each visitor call moves the filter object as its specification does |
| RbInsert.RotateUp | src/core/MojRbTreeBase.cpp:60-74 | the single or double rotation above a red pair relinks the heap nodes into the rotated tree, parent links included |
| RbDelete.Push | src/core/MojRbTreeBase.cpp:345-384 | one round of pushing a red node down: color flip, or one of the rotations at the parent, on the heap |
| RbDelete.RemovedOrder | src/core/MojRbTreeBase.cpp:386-401 | taking out the last node visited, and putting it in the place of the found one, removes just the found entry from the order |
| RbTrees.RbTree.Put | src/core/MojRbTreeBase.cpp:247-317 | keeps order, colors, black heights and parent links; the map gets the entry; size grows exactly if the key is new |
| RbTrees.RbTree.Del | src/core/MojRbTreeBase.cpp:328-405 | keeps order, colors, black heights and parent links; the map loses exactly the key; `found` says if it was there; size drops only then |
| RbNodes.HeightIsLogarithmic | src/core/MojRbTreeBase.cpp:554-586 | what `validate` asks makes two to half the height at most the size plus one |
| RbWalk.Begin | src/core/MojRbTreeBase.cpp:93-101 | the first entry, or none |
| RbWalk.Next | src/core/MojRbTreeBase.cpp:43-58 | the next or previous entry in order over the parent links, or none at the end |
| RbWalk.Search | src/core/MojRbTreeBase.cpp:418-437 | the node with the key, or a node that no entry lies between it and the key |
| RbWalk.Find | src/core/MojRbTreeBase.cpp:162-172 | finds a node exactly if the key is in the map, and the map's value with it |
| RbWalk.LowerBound | src/core/MojRbTreeBase.cpp:184-194 | all entries before the result are below the key, it and those after are not |
| RbWalk.UpperBound | src/core/MojRbTreeBase.cpp:206-216 | it and all entries after are above the key, those before are not |
| RbWalk.Compare | src/core/MojRbTreeBase.cpp:134-153 | where the entry lists first differ, the smaller key makes the smaller tree, and with equal keys the comparison of the values; a proper beginning is smaller; the walk agrees with the order of the next row |
| RbWalk.FirstDifferenceDecides | src/core/MojRbTreeBase.cpp:134-153 | the order of entry lists says just that, at every place where they first differ |
| RbWalk.EqualOrdersEqualMaps | src/core/MojRbTreeBase.cpp:134-161 | that order is zero exactly for equal maps |
| RbWalk.Equals | src/core/MojRbTreeBase.cpp:155-160 | true exactly for equal maps |
| RbWalk.LackingIsDifference | src/core/MojRbTreeBase.cpp:228-245 | the entries the walk keeps are the map difference |
| RbWalk.Diff | src/core/MojRbTreeBase.cpp:228-245 | a valid tree of exactly the entries the other tree lacks or has with another value |
| RbWalk.SameShapeSameMap | src/core/MojRbTreeBase.cpp:469-490 | a tree of the same shape, keys, values and colors has the same map and is as balanced |
| RbWalk.Clone | src/core/MojRbTreeBase.cpp:449-490 | the copy is a valid tree of fresh nodes with the same shape and map |
| HashTables.PlacedInsert | src/core/MojHashBase.cpp:34-40 | a node put at the head of its bucket leaves every node in its own bucket once |
| HashTables.PlacedRemove | src/core/MojHashBase.cpp:42-56 | so does taking one out |
| HashTables.SubmapOfSameSize | src/core/MojHashBase.cpp:180-194 | with equal sizes, having all entries of the other table is having the same map |
| HashTables.HashTable.Find | src/core/MojHashBase.cpp:110-126 | the search of one bucket finds a node exactly if the key is in the map |
| HashTables.HashTable.Insert | src/core/MojHashBase.cpp:66-77 | the node is first on its chain and on the iteration list, back references right, and the map has its entry |
| HashTables.HashTable.Realloc | src/core/MojHashBase.cpp:237-261 | every node of the iteration list is in its bucket of the new array, once |
| HashTables.HashTable.Put | src/core/MojHashBase.cpp:137-152 | the map gets the new entry, the load stays at most two a bucket, and nodes are old or fresh |
| HashTables.HashTable.Set | inc/core/internal/MojHashMapInternal.h:32-48 | `MojHashMap::put`: a present key's value is replaced in its node, an absent one is put |
| HashTables.HashTable.Del | src/core/MojHashBase.cpp:154-178 | the map loses exactly the key; chains, list and back references stay right |
| HashTables.HashTable.Clone | src/core/MojHashBase.cpp:207-235 | a table of fresh nodes with as many buckets and the same map |
| HashTables.HashTable.Equals | src/core/MojHashBase.cpp:180-194 | true exactly for equal maps |
| HashTables.Run | src/core/MojHashBase.cpp:66-261 | after any run of puts, deletions and clones on a new table, growing as it goes, it is sound and holds what a map would hold |
| Dispatch.Keeps | src/core/MojMessageDispatcher.cpp:33-166 | every step of any producer or worker keeps: one queue a name, in one list; scheduled queues not empty; the log serial and in order; a worker awake for every scheduled queue while any sleeps |
| Dispatch.RunKeeps | src/core/MojMessageDispatcher.cpp:33-166 | so does every run |
| Dispatch.Serialises | src/core/MojMessageDispatcher.cpp:33-143 | in every run at most one worker runs a queue's messages, in the order they were sent, each once |
| Dispatch.TakenInTurn | src/core/MojMessageDispatcher.cpp:33-143 | no queue is passed over: in every run a queue scheduled behind k others moves up one place with each message begun on any queue, and its own turn is the k + 1st at the latest |
| Dispatch.NoWakeupLost | src/core/MojMessageDispatcher.cpp:53-56 | while someone sleeps, awake workers are at least as many as scheduled queues, and one of them takes a queue when it looks |
| Dispatch.AfterLastExit | src/core/MojMessageDispatcher.cpp:154-166 | once all workers have exited, both lists are empty and every message was dispatched exactly if none was scheduled after the last exit |
| Dispatch.SomeoneGoesOn | src/core/MojMessageDispatcher.cpp:77-86 | after `stop`, while a worker is left, some worker can take a step |
| Dispatch.StopStep | src/core/MojMessageDispatcher.cpp:104-143 | after `stop` every worker step brings the end one closer |
| Dispatch.StopDrains | src/core/MojMessageDispatcher.cpp:77-143 | after `stop` the workers' steps are bounded in number, and when none is left all have exited and everything was dispatched |
| Dispatcher.FindQueue | src/core/MojMessageDispatcher.cpp:145-152 | the first queue of the name, or none |
| Dispatcher.MessageDispatcher.Schedule | src/core/MojMessageDispatcher.cpp:33-62 | on the queue objects, what the protocol's schedule step does |
| Dispatcher.MessageDispatcher.Take | src/core/MojMessageDispatcher.cpp:104-125 | the first half of `dispatch`: waits, stops, or moves the first queue to the pending list and pops its first message |
| Dispatcher.MessageDispatcher.GiveBack | src/core/MojMessageDispatcher.cpp:126-143 | the second half: the queue leaves the pending list, and is scheduled again exactly if it has messages |
| Dispatcher.MessageDispatcher.Stop | src/core/MojMessageDispatcher.cpp:77-86 | the flag is set and all sleepers are woken |
| Dispatcher.Run | src/core/MojMessageDispatcher.cpp:20-166 | the dispatcher object can take every run of the protocol, and ends in the protocol's state |
| Backups.PageAdvances | src/db/MojDbAdmin.cpp:226-376 | a page with more to come dumps at least one record, and its key resumes each pass exactly after what was dumped |
| Backups.PageWithinLimit | src/db/MojDbAdmin.cpp:226-376 | the lines of a page are together no longer than the limit; a page that announces more stopped at a record whose line would have gone over; any other has all that was asked for |
| Backups.HeadKindsAre | src/db/MojDbAdmin.cpp:270-330 | the kinds at its head are those that take part in backup and are newer than the key's revision for live or deleted records |
| Backups.HeadKindsConcat | src/db/MojDbAdmin.cpp:270-330 | they come in the order in which the query gives them |
| Backups.PagesCoverOnce | src/db/MojDbAdmin.cpp:226-376 | pages resumed from each other's keys come to an end and together dump, pass by pass, the records after the first key, in order, once |
| Backups.FullBackup | src/db/MojDbAdmin.cpp:939-1031 | of the records whose kind takes part in backup, a full backup has every live one but kinds, and every tombstone, once, in increasing revision |
| Backups.NextIncremental | src/db/MojDbAdmin.cpp:1058-1117 | the last page's key leaves out a pass's dumped records exactly if the last page itself dumped one of them |
| Backups.NothingNew | src/db/MojDbAdmin.cpp:1015-1031 | an incremental backup that finds nothing new in a pass leaves a key from which the next dumps all of it again |
| Backups.KeyForgetsRev | src/db/MojDbAdmin.cpp:1096-1117 | two records on two pages after which the next incremental backup dumps the first again |
| Backups.BackupFile.DumpObj | src/db/MojDbAdmin.cpp:1033-1056 | a line is refused, and nothing written, exactly if it would go over the limit |
| Backups.BackupResponse.InsertIncrementalKey | src/db/MojDbAdmin.cpp:1096-1117 | a revision below one is left out of the key |
| Backups.BackupResponse.HandleBackupFull | src/db/MojDbAdmin.cpp:1058-1094 | more is announced, and the other pass's revision carried over unless it is there |
| Backups.DumpPass | src/db/MojDbAdmin.cpp:939-1031 | the cursor loop dumps what fits and leaves the response as specified |
| Backups.DumpKinds | src/db/MojDbAdmin.cpp:270-330 | the kinds changed since the key's revisions head the page, or the backup fails |
| Backups.DumpPage | src/db/MojDbAdmin.cpp:226-376 | one call writes the specified page and fills in the specified response |
| ObjectStores.MergeLooksUp | src/db/MojDb.cpp:837-883 | a merge keeps names in order and holds, name by name, what both sides say, merging objects inside |
| ObjectStores.MergeFuses | src/db/MojDb.cpp:837-883 | at every level: where both sides have an object it is merged, where the update has anything else it wins, and where it is silent the old value stays |
| ObjectStores.MergeAgain | src/db/MojDb.cpp:837-883 | merging the same change once more changes nothing |
| ObjectStores.MergeInto | src/db/MojDb.cpp:837-883 | the two-iterator loop computes the merge |
| ObjectStores.TruthIff | inc/core/MojObject.h:165-300 | a value reads as false exactly if it is null, empty, `false` or zero |
| ObjectStores.WholePart | inc/core/MojDecimal.h:44 | a decimal read as an integer loses less than one, towards zero |
| Restores.PutKeeps | src/db/MojDb.cpp:1240-1318 | every put keeps objects under their ids with revisions given out before, removes none, and gives what changed a newer revision |
| Restores.PutStores | src/db/MojDb.cpp:885-973 | what a put leaves: one object under its id with a new revision, all others as they were; merged into an existing object it holds, name by name, the update's value, the merged object where both are objects, and the old value where the update is silent; otherwise exactly the given object's properties |
| Restores.PutFails | src/db/MojDb.cpp:1240-1318 | exactly when each error comes: no revision for a live object, another revision, no revisions left, no kind, a kind not registered |
| Restores.UpdateNamesRev | src/db/MojDb.cpp:1290-1310 | without force or merge, updating a live object takes its current revision |
| Restores.NoLostUpdate | src/db/MojDb.cpp:1303-1311 | of two updates from the same revision the second is refused, unless the first changed nothing |
| Restores.RestoreWrites | src/db/MojDbAdmin.cpp:1163-1261 | the put of a restored record is never refused for its revision, and writes one user object, at most over a tombstone of its kind; its contents are in the next row |
| Restores.RestoredContents | src/db/MojDbAdmin.cpp:1163-1261 | a restored record is stored under its id with, for every name besides the id and the revision, exactly the record's value; all other objects stay |
| Restores.RestoreCounts | src/db/MojDbAdmin.cpp:1163-1261 | which of the eight counters a record goes into, one condition on kind, deletion mark, id and stored object for each, and when it ends in an error |
| Restores.RestoreConcat | src/db/MojDbAdmin.cpp:714-773 | two lists of records one after the other are restored as one list |
| Restores.RestoreBalances | src/db/MojDbAdmin.cpp:1163-1261 | over any error-free records `records` is the sum of the eight outcome counters |
| Restores.RestoreOnlyAdds | src/db/MojDbAdmin.cpp:1163-1261 | no live object changes, nothing is removed, and what comes is user objects |
| Restores.SchemaUntouched | src/db/MojDbAdmin.cpp:1163-1261 | kind and permission records stay exactly as they were |
| Restores.SecondPass | src/db/MojDbAdmin.cpp:1163-1261 | the same records once more: if all have an id there is no error and the store stays as it is; an error-free pass restores just those without one, all of them again |
| Restores.ObjectDb.Store | src/db/MojDb.cpp:885-973 | the stored object is the given one with the next revision and an id; unchanged objects are not stored |
| Restores.ObjectDb.Put | src/db/MojDb.cpp:1240-1318 | the put rules on the store object, with the result or error the rows on puts are about |
| Restores.ObjectDb.LoadRestore | src/db/MojDbAdmin.cpp:1163-1261 | one record on the store object: the counter, store and error the rows above are about |
| Restores.ObjectDb.LoadRecords | src/db/MojDbAdmin.cpp:714-773 | the records of a backup one after the other, up to the first error |
| DbKeys.IncrementLoop | src/db/MojDbKey.cpp:40-55 | the in-place loop computes the increment |
| DbKeys.PrefixRange | src/db/MojDbKey.cpp:40-99 | the range from a key up to its increment, unbounded if that is empty, holds exactly the keys it is a prefix of |
| DbKeys.TuplePrefix | src/db/MojDbKey.cpp:67-72 | an encoded tuple is a byte prefix of another exactly if the tuple is a prefix of the other tuple |
| DbKeys.TupleScan | src/db/MojDbKey.cpp:89-99 | so the range of a tuple's key holds exactly the keys of the tuples it begins |
| DbKeys.LexicalCompare | src/core/MojUtil.cpp:249-275 | the comparison loop: by the first difference, else by the difference of the sizes cut to 32 bits |
| DbKeys.CompareIsRight | src/core/MojUtil.cpp:249-275 | that result has the sign of the lexicographic order exactly if the keys differ or the cut-off difference keeps its sign |
| DbKeys.CompareGoesWrong | src/core/MojUtil.cpp:272-275 | two to the 31 bytes against none come out smaller |
| DbKeys.KeysAreChoices | src/db/MojDbKey.cpp:134-184 | the product is exactly the concatenations of one value from each set, and empty if some set is empty |
| DbKeys.KeyBuilder.Keys | src/db/MojDbKey.cpp:134-184 | the backtracking loop ends and yields that product; with nothing pushed it yields no key |
| Base64.EncodedLength | inc/core/MojUtil.h:67-68 | the encoding with its padding has the announced length |
| Base64.CharsAreAlphabet | src/core/MojUtil.cpp:105-152 | the character of each of the 64 values is the one at its place in the alphabet, written as one string of 64 characters (section 4 of RFC 4648 for the MIME one) |
| Base64.ValsAreAlphabet | src/core/MojUtil.cpp:154-186 | a character has a value exactly if it is in the alphabet, and it is its place there |
| Base64.RoundTrip | src/core/MojUtil.cpp:105-247 | decoding an encoding, padded or not, in either alphabet (section 4 of RFC 4648 for the MIME one), gives the bytes and their exact number |
| Base64.DecodesIff | src/core/MojUtil.cpp:188-247 | data is accepted exactly if it is text in the alphabet, no character of it left over alone, and at most two paddings behind it |
| Base64.DecodedReencodes | src/core/MojUtil.cpp:105-247 | what any accepted text decodes to is encoded as that text again, but for the bits of its last character that stand for no byte |
| Base64.EncodingKeepsOrder | src/core/MojUtil.cpp:105-152 | with the file-name alphabet and no padding, encodings order as the bytes do, across all lengths |
| Base64.SizeIsExact | src/core/MojUtil.cpp:188-247 | the reported size is the size written exactly if the padding that was cut off did not open another chunk |
| Base64.PaddingMiscounted | src/core/MojUtil.cpp:188-247 | four characters and one padding character give three bytes, reported as six |
| Base64.EncodeInto | src/core/MojUtil.cpp:105-152 | the loops over the buffer write the encoding, or nothing if the buffer is too small |
| Base64.DecodeInto | src/core/MojUtil.cpp:188-247 | a buffer below the announced size is refused and left alone; else the loops write the decoded bytes and report the specified size, or refuse the data |

## Findings

What the code does not do although its names, comments or callers suggest it, each with its input and its exact
condition.

- The filter misses selected properties, for one of two reasons, and on some object exactly if one of them is there
  (`Filters.FilterIsProjectionIff`, `Filters.FilterMisses`). Children of the trie are in the order of the select
  strings, where `a-b` comes before `a.c`; as names `a` comes before `a-b`, and the forward-only iterator passes it
  (`Filters.DashBeforeDot`): a greater name is given before a smaller one at the same place of the trie. And a path
  given after one that goes on from it is lost, unless a path given before both begins it: `.a.b` sorts before `a`, and
  splitting leaves out the empty part (`Filters.LongBeforeShort`). For ascending strings without empty parts only the
  first happens, exactly if two strings clash as `a-b` and `a.c` do (`Filters.ClashDecides`).
- The key of the last page of a backup has no revision for a pass that dumped nothing on that page, so the next
  incremental backup starts that pass over (`Backups.KeyForgetsRev`, `Backups.NextIncremental`, `Backups.NothingNew`).
- A backup file cut off inside a record loads without an error, unless the NUL given at the end is refused where the
  record was cut, as after `{"a":1`: `bytesRead` is always 0 after the loop, so the end-of-file error at
  src/db/MojDbAdmin.cpp:785-787 is never raised (`JsonFiles.SilentLoss`, `JsonFiles.CutOffRecord`).
- `MojLexicalCompare` cuts the difference of two sizes down to 32 bits (`DbKeys.CompareGoesWrong`,
  `DbKeys.CompareIsRight`).
- Base64 decoding counts padding beyond the chunk as if it were data (`Base64.PaddingMiscounted`, `Base64.SizeIsExact`).
- JSON integers are read with base 0: `010` is eight and `08` an error (`Numbers.LeadingZero`). Digits are read as
  their decimal value exactly if that fits 64 bits and they do not begin with zero, or are all zero but a last one below
  eight (`Numbers.ReadAsDecimalIff`, `JsonRoundTrips.IntegerReadIff`). The writer writes no leading zeros, and the round
  trip holds (`JsonRoundTrips.IntBack`).

- `read`, and `fromBytes` with it, takes bytes that leave a container open, as long as they end between its parts, without
  an error (`BinaryAccepts.OpenArrayRead`, `BinaryAccepts.UnclosedRead`); nothing is open at the end exactly if they are
  whole values (`BinaryAccepts.ReadsWholeIff`). `nextObject` refuses them (`BinaryAccepts.CutShortIff`).
- The parser accepts more than section 2 of RFC 8259 does: a comma before a closing bracket or brace, comments, vertical
  tabs and form feeds between tokens, NULs right before a value, and any character but the quote and the backslash in a
  string; and it ignores what follows a document. It accepts exactly the texts of `JsonGrammars`
  (`JsonAccepts.ParsesIff`). Of a name given twice the builder keeps the last value (`ObjectBuilders.LastValueBuilt`).

## Left out

- Storage engines, transactions, indexes, cursors and locks: the store is a finite map and a query returns records in
  increasing revision.
- Allocation failures, reference counts and clone-on-write: shared implementations are values, and every container is
  writable.
- The token set of the binary writer: as in `toBytes`, strings are written in full.
- `TypeUndefined` values, and strings with NUL: object order and the parser both exclude them.
- Decimal text: reading and writing it is a parameter, and the JSON round trip holds for the decimals that parameter
  reads back; the decimal's lexer and parser are not part of this model.
- Keys of trees and hash tables are integers: only the outcome of their comparison and a hash function are used.
- `Node::release`, `clear`, `swap` and deleting or putting all entries of another tree: calls of the modelled ones.
- JsonFiles.LoadFile: a read that returns bytes returns at least one, as the loop's own end condition says.
- JsonParsers.JsonParser.ParseChunk: line and column counts are unbounded, and the mode for text of unknown length that
  ends at a NUL is left out.
- JsonParsers, FilterTries: the parser's stack of records and the nodes of the trie are values, not heap objects.
- Dispatch.Keeps: errors of the condition variable and of a message's own dispatch are left out; the lock makes each
  stretch under it one step.
- Backups.FullBackup: as the response protocol assumes, the database does not change between pages and each page has
  room for the kinds and one record; kinds are written again at the head of each page.
- The variant of `dumpImpl` over a list of kinds: it has no revision to resume from.
- Restores.PutKeeps: ids of sub-objects in arrays, shard ids, kind schemas, permissions and quotas are left out, and a
  kind that is not a string is never registered.
- Restores.ObjectDb.Store: ids of sub-objects in arrays, shard ids, kind schemas and quotas are left out here too.
- Restores.ObjectDb.Put: shard ids, kind schemas, permissions and quotas are left out here too.
- Restores.RestoreOnlyAdds: ids from the generator are strings not in use yet, as the generator promises.
- ICU collation, tokenizing, schema patterns, sockets, the service layer, files and logging.
