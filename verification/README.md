# lighttpd and lemon, modelled and proved in Dafny

A Dafny project about the parts of lighttpd in which much state is kept for a simple purpose.

* **The parser generator and its parsers.** lemon turns a grammar into packed tables; a driver with a stack of 100
  entries reads them. The model follows the actions of a state through sorting (`MergeSort`, `StableMerge`), conflict
  resolution (`Conflicts`), default reductions (`CompressTables`) and packing (`ActionTable`, `ReportTables`), joins
  the steps (`TableGenerator`, `GeneratorRun`), and proves that the driver (`LrParser`, specified in `LrMachine`)
  reads back what the actions mean (`GeneratedDriver`). `FirstSets` and `FollowSets` are the fixpoints that come
  before. `LrCertificate` says what tables must satisfy so that the driver ends and is sound (`LrSoundness`) and
  complete (`LrCompleteness`), and what overflow does to it (`LrOverflow`) and how many brackets may be open before it
  comes to that (`LrNesting`). `ConfigTables`, `ConfigGrammars`, `ConfigChecks`, `ConfigProof`, `ConfigOverflow` and
  `ConfigDepth` do all this for the configuration parser that is shipped: 63 states, 40 rules.
* **Conditional configuration.** `ConditionCache` is the cache of conditions with its else-chains, whose plain meaning
  is in `ConditionMeaning`; `ConditionRuns` is a request, in which the fields that conditions look at become known one
  by one.
* **Ordered arrays.** `CaselessOrder`, `SortedPositions` and `OrderedIndex` are the key order, the search with halving
  strides and the array itself; `AliasMatch` is the module that relies on its order.
* **Byte streams.** `ChunkQueues`, `RequestReader` and `HttpChunked` are chunk queues, the reading of a request and
  chunked sending; `PathSimplify` is the path normaliser, with its laws in `PathLaws`, and
  `Md5Stream` is MD5 over a message in pieces, with what it adds to the message in `Md5Padding`.

Code that changes things step by step is a class or a method with loops here too, tied by its contract to a function on
values; what the code is for is proved about that function. `dafny verify dfyconfig.toml` checks the project.

Some inputs of the modelled code appear as parameters: the outcome of every comparison of a condition, whether a
temporary file can be opened and written, whether the peer has closed, what a packet holds, the length of the body that
a header announces, the order `qsort` leaves equal elements in, what merging or resetting does to an array element's
value, and what MD5 does with one block.

## Model

| member | source | states |
|---|---|---|
| `ActionTable.ActTab.Insert` | src/lemon.c:510-585 | the transaction set just collected is packed at the returned offset, every set packed before stays as it was, and an offset is used twice only for equal sets |
| `ActionTable.ActTab.Add` | src/lemon.c:477-508 | one more entry joins the set being collected; nothing packed changes |
| `ActionTable.PackNew` | src/lemon.c:566-585 | writing a set into free slots at an offset no slot answers to keeps every packed set readable, and the offset is new |
| `ActionTable.LookupExact` | src/lempar.c:326-390 | reading slot offset + lookahead and comparing the lookahead stored there finds exactly the entries of the set packed at that offset, and their actions |
| `Actions.ActionRead` | src/lemon.c:2793-2806 | the number of an action is the one from which the parser reads that action: a state to enter, a rule to reduce by, failing, accepting |
| `ReportTables.EntriesMean` | src/lemon.c:3346-3415 | the entries collected for a state are its live actions on terminals (or nonterminals), and the number of each reads back as its action |
| `ReportTables.FindDefault` | src/lemon.c:3397-3415 | the number in the default column reads back as the live action on {default}, or as failing |
| `ReportTables.PackSets` | src/lemon.c:3372-3396 | after packing in the order of size, the sets of all states are held at their offsets |
| `ReportTables.ReportTable` | src/lemon.c:3346-3466 | the emitted arrays, read as the parser reads them, ask in every state and on every symbol for what the action list of the state says |
| `ReportTables.EmittedFaithful` | src/lemon.c:3416-3466 | any arrays emitted from such a packing have that meaning |
| `Conflicts.ResolveConflict` | src/lemon.c:1002-1057 | what one comparison does to the two actions and to the conflict count; actions already struck out are left alone |
| `Conflicts.ChampionIsStrongest` | src/lemon.c:1002-1057 | comparing rivals one after the other leaves the earliest of the strongest whose precedence is known, or the first if its own is not |
| `Conflicts.ResolveConflicts` | src/lemon.c:958-972 | the nested loops leave every action with the verdict it gets among all its rivals, and count the unresolved ones |
| `Conflicts.SettlesFound` | src/lemon.c:958-972 | a symbol that had any action has, after resolution, the strongest of them as its live action |
| `Conflicts.ConflictIff` | src/lemon.c:1002-1057 | an action ends up in conflict exactly if precedence and associativity do not decide it against the strongest of those before it |
| `Conflicts.ConflictCount` | src/lemon.c:958-972 | the conflicts counted are the actions of that kind |
| `Conflicts.OneSurvivor` | src/lemon.c:958-972 | no two actions on one symbol stay alive |
| `Conflicts.SettlesNothingNew` | src/lemon.c:958-972 | a symbol that had no action gets none |
| `CompressTables.FindBest` | src/lemon.c:3637-3655 | the rule found is one reduced by as many actions as any, and of those the first, though counting skips the best rule so far |
| `CompressTables.CompressState` | src/lemon.c:3628-3675 | with at least two reductions by the best rule the first becomes the default and the others are dropped; otherwise nothing changes |
| `CompressTables.CompressedMeaning` | src/lemon.c:3628-3675 | a symbol with a live action keeps its meaning; one without gets the default reduction |
| `TableGenerator.CompressedBest` | src/lemon.c:3628-3675 | the default reduction compression picks: no rule wins more symbols, of the rules that win as many it wins the first one, and there is none unless some rule wins two |
| `TableGenerator.GeneratedMeaning` | src/lemon.c:958-972 | what a state finally does on a symbol is the strongest of the actions found for it; without any, the default reduction or an error |
| `TableGenerator.GeneratedParserActs` | src/lemon.c:3628-3675 | the same, read back through the packed tables |
| `GeneratorRun.ActionSort` | src/lemon.c:396-402 | sorting an action list of fewer than 2^30 elements by its nodes gives a sorted permutation of it |
| `GeneratorRun.GenerateState` | src/lemon.c:958-972 | one state from the actions found, in any order, to the list that is packed, with its conflicts counted and the default reduction chosen if compression is on |
| `GeneratorRun.GenerateTables` | src/lemon.c:1450-1461 | one run over all states: found actions are sorted, resolved, compressed, sorted again and packed; what the parser then reads is the strongest action found, the best default reduction, or an error; conflicts are counted over all states |
| `GeneratedDriver.TurnByDeed` | src/lempar.c:595-690 | one turn of the driver enters, reduces, accepts or recovers as the table entry asks |
| `GeneratedDriver.GotoByDeed` | src/lempar.c:480-488 | the end of a reduction enters a state or accepts as the entry for the left-hand side asks |
| `GeneratedDriver.DriverFollows` | src/lempar.c:595-690 | on generated tables the driver shifts, reduces or accepts on a lookahead as the strongest action found says, and without any takes the default reduction or recovers |
| `GeneratedDriver.GotoFollows` | src/lempar.c:480-488 | and after a reduction it enters the state, or accepts, as the strongest action found for the left-hand side says |
| `MergeSort.Merge` | src/lemon.c:1523-1559 | re-links two lists into their merge and touches no other node |
| `MergeSort.MSort` | src/lemon.c:1575-1599 | the re-linked list is ascending and stable, and holds all nodes if and only if there are fewer than 2^30 |
| `StableMerge.MergeAscending` | src/lemon.c:1523-1559 | merging a later run with an earlier one keeps the stable order |
| `StableMerge.CarryStore` | src/lemon.c:1583-1594 | a run carried up to an empty bin leaves the bins of a counter that is one higher |
| `BitSets.SetUnion` | src/lemon.c:3723-3737 | the union in place, and whether it changed anything |
| `FirstSets.FindLambdas` | src/lemon.c:642-664 | marked are exactly the symbols that derive the empty string |
| `FirstSets.FindFirstSets` | src/lemon.c:636-686 | the fixpoint loops end, and the first set of a nonterminal holds exactly the terminals some derived sentential form begins with |
| `FirstSets.ProductiveBegins` | src/lemon.c:636-686 | where every nonterminal derives a string of terminals, that is what derived strings begin with |
| `FirstSets.StringsBeginTrimmed` | src/lemon.c:636-686 | in any grammar, what derived strings begin with are the first sets of the grammar without its unproductive rules |
| `FirstSets.ExactIffTrimmingKeeps` | src/lemon.c:636-686 | first sets are exact for strings if and only if dropping the unproductive rules changes none of them |
| `FirstSets.DerivesIffVanishes` | src/lemon.c:642-664 | a nonterminal derives a string of terminals exactly if it can vanish once terminals are erased, so the first loop of the same code finds the rules to drop |
| `FirstSets.UnproductiveFirst` | src/lemon.c:666-686 | a grammar whose first sets hold a terminal that no derived string begins with |
| `FollowSets.FindFollowSets` | src/lemon.c:881-912 | the worklist ends, and a terminal is in the set of a configuration exactly if some configuration that held it at first reaches that one along the links |
| `LrParser.Parser.FindShiftAction` | src/lempar.c:326-361 | the table read is the shift action the specification names |
| `LrParser.Parser.Reduce` | src/lempar.c:450-489 | pops as many entries as the rule says and takes the goto |
| `LrParser.Parser.Parse` | src/lempar.c:564-693 | one call of the driver ends, and leaves the stack machine in the state the specification names |
| `LrParser.ParseAll` | src/lempar.c:564-693 | the driver fed with all tokens and the end of input |
| `LrRecovery.PopsToCatch` | src/lempar.c:641-651 | error recovery pops down to the topmost state that can shift the error symbol, and no further |
| `LrRecovery.Recovers` | src/lempar.c:636-668 | for any tables: the first error of a call fails the parse if no state on the stack can shift the error symbol or the input is at its end; otherwise the topmost such state shifts it |
| `LrRecovery.DropsLookahead` | src/lempar.c:636-646 | further errors of the call drop the lookahead |
| `LrSoundness.ErrorFails` | src/lempar.c:618-676 | with tables that pass the certificate a syntax error clears ok for good |
| `LrSoundness.Soundness` | src/lempar.c:395-489 | under a certificate for the tables: accepting without overflow means that the start symbol derives the input |
| `LrCompleteness.Completeness` | src/lempar.c:564-693 | under a certificate: an input with a parse tree is accepted if the tree fits the stack, and overflows it if not |
| `LrOverflow.OverflowForgets` | src/configparser.c:689-709 | after an overflow what follows is parsed as if it were all |
| `LrOverflow.RepeatOverflows` | src/configparser.c:689-709 | a token that a state shifts into itself overflows the stack once repeated often enough |
| `LrOverflow.FewTokensFit` | src/configparser.c:689-709 | a budget of tokens within which no input, derivable or not, overflows |
| `ConfigProof.ConfigCertified` | src/configparser.c:233-291 | the shipped 63 states satisfy the soundness certificate for the 40 rules |
| `ConfigProof.ConfigClosed` | src/configparser.c:233-291 | and the completeness certificate |
| `ConfigProof.ShippedParserDecides` | src/configparser.c:1487-1616 | without overflow, the shipped parser keeps ok exactly for the token strings its grammar derives |
| `ConfigProof.ShippedParserAccepts` | src/configparser.c:1487-1616 | a configuration with a parse tree is accepted if the tree fits 100 stack entries, and overflows otherwise |
| `ConfigProof.AcceptedIffFits` | src/configparser.c:1487-1616 | it ends as a fresh parser exactly for the inputs with a parse tree that fits |
| `ConfigProof.ParseConfig` | src/configparser.c:1487-1616 | the run of the driver over the shipped tables has that outcome |
| `ConfigProof.EmptyInput` | src/configparser.c:396-437 | the empty configuration is in the grammar |
| `ConfigOverflow.NestedNotDerived` | src/configparser.c:396-437 | include followed by opening brackets only is not in the grammar |
| `ConfigOverflow.OverflowAccepts` | src/configparser.c:697-709 | with 98 brackets it is nevertheless accepted: the overflow empties the stack and leaves ok set |
| `ConfigOverflow.ShortInputs` | src/configparser.c:697-709 | no input of fewer than 16 tokens overflows, so the verdict on it is right |
| `LrNesting.ShallowFits` | src/configparser.c:689-709 | under claims about the automaton checked move by move: while few brackets are open at a time no input overflows, however long it is and derivable or not |
| `ConfigDepth.ShallowInputs` | src/configparser.c:697-709 | so the shipped parser is right about every input with at most twelve brackets open at a time |
| `ConfigDepth.DeepOverflows` | src/configparser.c:697-709 | for every larger number there is a configuration that opens no more at a time and overflows |
| `ConfigDepth.RoomIffTwelve` | src/configparser.c:697-709 | the stack has room for all inputs with at most k brackets open at a time if and only if k is at most 12 |
| `ConfigOverflow.VerdictAfterOverflow` | src/configparser.c:697-709 | after an overflow the verdict is that on the remaining tokens alone |
| `ConditionCache.Connection.CheckCached` | src/configfile-glue.c:515-548 | the recursive check writes the cache and answers as specified |
| `ConditionCache.RunExclusive` | src/configfile-glue.c:518-529 | in every run of marks, checks and resets, whatever becomes decidable meanwhile, behind a TRUE section of a chain all are FALSE |
| `ConditionCache.OneOfChain` | src/configfile-glue.c:248-269 | no two sections of a chain are ever TRUE together |
| `ConditionMeaning.ValueMeans` | src/configfile-glue.c:223-280 | the plain meaning: a section is in use exactly if the one it is nested in is, none before it in its chain is, its field is known and its comparison holds; and when it is undecided |
| `ConditionCache.CheckAnswersPlainly` | src/configfile-glue.c:223-280 | after a reset, with fixed valid fields and comparisons, every check in any order answers with the plain recursive meaning |
| `ConditionCache.Connection.Patch` | src/configfile.c:341-352 | which sections one call applies, in ascending order, and the cache it leaves |
| `ConditionCache.NestedGoesStale` | src/configfile-glue.c:515-548 | a run in which a field becomes known between checks and a nested section is answered wrongly |
| `ConditionRuns.PlainIffNotOvertaken` | src/response.c:237-282 | for a reset and one call per field: whatever the comparisons yield every call applies the plain sections, if and only if no section can be decided before the field of an earlier member of an enclosing chain is known |
| `ConditionRuns.PatchAll` | src/response.c:237-282 | the run itself: what each call applies, in ascending order, and that it is plain unless a section is overtaken |
| `ConditionRuns.UrlOvertakes` | src/response.c:237-368 | in the order of the server a section nested in the else branch of a condition on the URL is overtaken |
| `CaselessOrder.CaselessCompare` | src/buffer.c:541-588 | comparing word by word first gives the comparison by the first different byte |
| `CaselessOrder.EqualIffSame` | src/buffer.c:571-588 | keys compare equal exactly if they are the same but for the case of letters |
| `CaselessOrder.TransitiveIff` | src/buffer.c:571-576 | the order is transitive on keys over a set of bytes if and only if no byte of it between Z and a separates an upper case letter from a smaller lower case one |
| `SortedPositions.RankSplits` | src/array.c:84-117 | keys below the rank are smaller, from the rank on greater or equal |
| `SortedPositions.SearchEnds` | src/array.c:91-114 | where the strides end without a match, the position is the rank or one less, and the key is absent |
| `SortedPositions.FixUp` | src/array.c:233-237 | the comparison before the insertion tells these two apart |
| `SortedPositions.SearchExact` | src/array.c:84-117 | on an index in order the halving strides find a key exactly if an equal one is there |
| `SortedPositions.IndexedInsert` | src/array.c:239-245 | inserting at the rank keeps the index a sorted permutation |
| `SortedPositions.BuiltIndexed` | src/array.c:181-250 | every array built by insertions has its index in order, if the comparison is an order on its keys |
| `OrderedIndex.Array.GetIndex` | src/array.c:84-117 | for keys of any bytes: the search ends, its positions may leave the range on both sides, and what it finds is an equal key; if the bytes can be ordered it finds a key exactly when it is there |
| `OrderedIndex.Array.InsertUnique` | src/array.c:181-250 | for keys of any bytes: an element without a key gets the next number and the counter goes on; then it is merged into the element found or appended, with the index the specified insertion gives; refused at INT_MAX |
| `OrderedIndex.PrintLong` | src/buffer.c:287-317 | the digits written from the last one on and turned round are those of the number |
| `OrderedIndex.DigitsRead` | src/buffer.c:287-317 | the digits stand for the number, without leading zeros |
| `OrderedIndex.DecimalsDiffer` | src/array.c:185-188 | different numbers make keys that compare different |
| `OrderedIndex.ListElements` | src/configparser.y:290-316 | elements without keys inserted into a new array one after the other all stay, in order, as in a list of the configuration |
| `OrderedIndex.Array.Replace` | src/array.c:168-179 | puts the element, of whatever kind, in the place of the one found, or inserts it; a full array loses it |
| `OrderedIndex.BuildArray` | src/array.c:181-250 | inserting elements one after the other into a new array gives the specified array |
| `OrderedIndex.KeyLost` | src/array.c:84-117 | with three bytes u, m, l that compare in a circle, after inserting uu, m and l the key uu is not found |
| `OrderedIndex.FindsIffOrderable` | src/array.c:84-117 | every array built over a set of bytes finds exactly its keys if and only if the bytes can be ordered |
| `OrderedIndex.Array.GetUnusedElement` | src/array.c:131-148 | takes a spare element of the kind and leaves an empty slot; the index is untouched |
| `OrderedIndex.Array.Reset` | src/array.c:59-70 | empties the array and keeps the elements for reuse |
| `AliasMatch.CheckAliases` | src/mod_alias.c:89-111 | which pairs the start-up check looks at, for aliases of any bytes |
| `AliasMatch.SetDefaults` | src/mod_alias.c:64-115 | aliases are inserted into an array and checked; if the bytes are tidy and can be ordered, the start succeeds exactly if no alias is hidden, and exactly if every request gets its longest alias |
| `AliasMatch.CheckRightIff` | src/mod_alias.c:89-111 | the check finds exactly the hidden aliases in every array built over a set of bytes if and only if no byte is negative as a char, no letter occurs in both cases and the bytes can be ordered |
| `AliasMatch.NegativeUnseen` | src/mod_alias.c:89-111 | a key and the key followed by a byte from 128 on: the check never looks at the pair |
| `AliasMatch.TwinsUnseen` | src/mod_alias.c:89-111 | with a letter in both cases another key can stand between a key and one that extends it, where the check stops |
| `AliasMatch.CircleUnseen` | src/mod_alias.c:89-111 | with three bytes that compare in a circle the insertion puts a key that extends another where the check does not look |
| `AliasMatch.NoneHiddenIffLongest` | src/mod_alias.c:163-182 | of distinct aliases in any order none is hidden exactly if every request gets the longest alias that matches |
| `AliasMatch.AcceptedIffLongest` | src/mod_alias.c:163-182 | aliases of tidy bytes that can be ordered, once inserted, are accepted exactly if every request gets the longest alias that matches |
| `AliasMatch.SameLettersIff` | src/mod_alias.c:163-182 | the comparison used when file names are forced to lower case disregards the case of letters and nothing else |
| `AliasMatch.PhysicalHandler` | src/mod_alias.c:152-186 | the first alias that fits decides, and how it rewrites the two paths |
| `ChunkQueues.ChunkQueue.RemoveFinished` | src/chunk.c:365-400 | drops the chunks in front that have no unread bytes, all of them and no others; the unread bytes stay |
| `ChunkQueues.ChunkQueue.Length` | src/chunk.c:323-345 | the bytes of all chunks, used up or not |
| `RequestReader.FindEnd` | src/connections.c:949-990 | finds the first CR LF CR LF wherever the chunks are cut |
| `RequestReader.RemoveEmpty` | src/connections.c:908-944 | the unread bytes stay, and no empty chunk is left where no two stood in a row |
| `RequestReader.Connection.ReadHeader` | src/connections.c:949-1041 | the request is the stream up to the first blank line and the rest stays queued; without one nothing moves, and a header over the limit is refused |
| `RequestReader.WithPieceGrows` | src/connections.c:1056-1137 | a piece added to the body is unread there, behind what was there |
| `RequestReader.Connection.ReadBody` | src/connections.c:1042-1175 | body bytes move in order, none lost, unread where they arrive, never more than content_length; HANDLE_REQUEST exactly when all are there; small bodies in memory, large ones in temporary files filled one after the other; a failing temporary file gives 413 |
| `RequestReader.Connection.HandleReadState` | src/connections.c:887-1193 | one call in either state, with the next state, status and keep-alive in every case |
| `RequestReader.FeedPacket` | src/connections.c:949-1041 | a packet that completes a header ends the reading; one that does not is kept, and refused with 414 exactly if the queue is then too long |
| `RequestReader.ReceiveHeader` | src/connections.c:949-1041 | over any packets: the header is taken with the first packet that completes it, and is that of the packets joined; it is refused exactly if the queue becomes too long before |
| `RequestReader.CutStays` | src/connections.c:949-1041 | what arrives later changes neither the header nor where it ends |
| `RequestReader.ReceiveBody` | src/connections.c:1042-1175 | over what came with the header and any packets: what can be read from the body queue is the first content_length bytes of them joined, the later ones stay queued, and temporary files stay bounded |
| `RequestReader.ReceiveRequest` | src/connections.c:949-1175 | both in one run: the bytes that came in are the header, what can be read of the body, and what stays queued, and the body is complete exactly if enough came in |
| `RequestReader.PipelinedRefused` | src/connections.c:1028-1041 | a header that has only begun is refused when a request before it in the same packet was long enough |
| `HttpChunked.AppendLen` | src/http_chunk.c:23-51 | the digits written are the length in hexadecimal |
| `HttpChunked.SizeLineReads` | src/http_chunk.c:23-51 | a reader gets the length back exactly if it is below 2^32 |
| `HttpChunked.AppendBuffer` | src/http_chunk.c:74-92 | a filled buffer is framed; one never filled sends the size line of SIZE_MAX and no chunk |
| `HttpChunked.AppendFile` | src/http_chunk.c:54-72 | a part of a file is framed; an empty one sends the line that ends the body |
| `HttpChunked.UnfilledReads` | src/http_chunk.c:74-92 | a reader takes the next 2^32 - 1 bytes for the data of a buffer never filled |
| `HttpChunked.OddNeverReads` | src/http_chunk.c:54-92 | a body with an odd number of pieces sent as a size line alone never decodes to the pieces joined |
| `HttpChunked.RoundTrip` | src/http_chunk.c:54-121 | pieces below 2^32 bytes and the end decode, by section 3.6.1 of RFC 2616, to the pieces joined if and only if none is empty, be it memory, a buffer, a buffer never filled or a part of a file; one case of the other direction is left open |
| `HttpChunked.SendBody` | src/http_chunk.c:54-121 | the same about the queue after a run of the append functions |
| `PathSimplify.PathSimplify` | src/buffer.c:941-1029 | writes the simplified path, also in place; used is its length and the zero, but one more for a blank path |
| `PathLaws.ParentSimplified` | src/buffer.c:990-1005 | in a path, a name and the two dots behind it cancel out |
| `PathLaws.RootSimplified` | src/buffer.c:990-1005 | two dots at the root change nothing |
| `PathLaws.StaySimplified` | src/buffer.c:1006-1010 | two slashes, or a dot between slashes, can be one slash |
| `PathLaws.StayAtEnd` | src/buffer.c:1006-1010 | at the end of a path they leave a slash |
| `PathLaws.AboveRoot` | src/buffer.c:990-1005 | "/.." becomes "/" |
| `PathLaws.UpAndDown` | src/buffer.c:927-935 | "/name/../last" becomes "/last" |
| `PathLaws.TargetLeads` | src/buffer.c:976-1024 | names stay, a name and two dots cancel, empty segments and dots vanish, the root is its own parent |
| `PathLaws.LawsDecide` | src/buffer.c:976-1024 | only one way of resolving paths obeys these laws |
| `PathLaws.FrontSupplied` | src/buffer.c:963-974 | spaces in front do not count and a missing first slash is supplied |
| `PathSimplify.UnchangedIffClean` | src/buffer.c:941-1029 | left unchanged are exactly the paths from the root without empty, dot and dot-dot segments, but for an empty one at the end |
| `PathSimplify.SimplifiedTwice` | src/buffer.c:941-1029 | every result is such a path; simplifying twice is simplifying once |
| `PathSimplify.SplitJoin` | src/buffer.c:976-1024 | splitting at the slashes undoes joining |
| `Md5Stream.Context.Update` | src/md5.c:129-168 | afterwards state, buffer and count are those of the message so far and the input as one piece |
| `Md5Stream.CountOn` | src/md5.c:141-146 | the two words count bits modulo 2^64, with the carry found by comparing |
| `Md5Stream.LoopEndsIff` | src/md5.c:156-157 | the block loop ends exactly if the last block begins below 2^32 - 63, which the caller can tell |
| `Md5Stream.Context.Final` | src/md5.c:173-198 | the digest is that of the padded message, and the context is wiped |
| `Md5Stream.DigestOf` | src/md5.c:113-198 | however a message is cut, its digest is that of sections 3.1 to 3.5 of RFC 1321 |
| `Md5Padding.StartBytes` | src/md5.c:119-124 | the state begins with the bytes section 3.3 of RFC 1321 gives |
| `Md5Padding.PaddingBits` | src/md5.c:186-190 | the padding is a one bit and the fewest zero bits that leave 64 bits missing to a whole block |
| `Md5Padding.LengthRead` | src/md5.c:183-193 | the eight bytes behind it are the length in bits modulo 2^64, least significant byte first |
| `Md5Stream.OneThenMost` | src/md5.c:156-157 | after one byte, a piece of 2^32 - 1 bytes is taken in forever |
| `Md5Stream.ShortAcceptable` | src/md5.c:156-157 | pieces of at most 2^32 - 64 bytes can always be taken |
| `Md5Stream.PaddedTells` | src/md5.c:183-190 | different messages of fewer than 2^64 bits are never the same once padded |
| `Md5Stream.DecodeEncode` | src/md5.c:297-325 | reading the four bytes of a word gives it back |

## Findings

What the proofs showed to be false of the code, with the input and the condition under which it holds.

* **Stack overflow keeps the verdict.** An overflow empties the stack and does not clear `ok`
  (src/configparser.c:697-709). `include` followed by 98 opening brackets and the end of input is accepted
  (`ConfigOverflow.OverflowAccepts`). A derivable input overflows exactly if its parse tree does not fit
  (`ConfigProof.ShippedParserAccepts`). No input with at most twelve brackets open at a time overflows, and twelve is
  the limit (`ConfigDepth.RoomIffTwelve`).
* **Nested sections go stale.** When a field becomes known that decides an earlier branch of a chain, the branch that
  was TRUE is silenced, but sections nested in it keep their cached TRUE (`ConditionCache.NestedGoesStale`). A request
  is safe exactly if no section is overtaken (`ConditionRuns.PlainIffNotOvertaken`); in the server's own order
  `if url { } else if host { if scheme { } }` is not (`ConditionRuns.UrlOvertakes`).
* **First sets are about sentential forms.** With `1 ::= 0 1` only, the first set of 1 holds 0, though 1 derives no
  string (`FirstSets.UnproductiveFirst`); `FirstSets.ExactIffTrimmingKeeps` says when they are exact.
* **Sorting drops elements from 2^30 on.** The top bin is overwritten (src/lemon.c:1590-1594; `MergeSort.MSort`).
* **The key order is not an order on all bytes, and arrays lose keys.** B < _ < a < B (src/buffer.c:571-576;
  `CaselessOrder.TransitiveIff`). After inserting BB, _ and a, the search for BB fails (`OrderedIndex.KeyLost`); arrays
  find exactly their keys if and only if the bytes can be ordered (`OrderedIndex.FindsIffOrderable`).
* **The alias check misses pairs.** A hidden alias can pass with a byte from 128 on (`/` and `/` followed by byte 195,
  `AliasMatch.NegativeUnseen`), with a letter in both cases (`AliasMatch.TwinsUnseen`), and with bytes that compare in a
  circle (B, _, a and BB in this order, `AliasMatch.CircleUnseen`); without these never (`AliasMatch.CheckRightIff`).
* **An empty piece spoils the body.** An empty piece of memory, an empty buffer or an empty part of a file sends the
  line that ends the body, and a buffer that was never filled sends the size line `ffffffff` with no data
  (src/http_chunk.c:54-92). What is sent decodes to the body if and only if no piece is empty (`HttpChunked.RoundTrip`,
  which leaves one direction open for bodies of 2^32 bytes and more behind a buffer never filled).
* **The header limit counts bytes already used up.** The length compared with 64 KiB includes what earlier requests on
  the connection have taken from the first chunk (src/chunk.c:323-345): a short header is refused behind a long request
  (`RequestReader.PipelinedRefused`); `RequestReader.Connection.ReadHeader` has the exact condition.
* **A full array loses what array_replace inserts.** The result of the insertion is not looked at
  (src/array.c:171-173; `OrderedIndex.Array.Replace`).
* **A blank path is one byte too long.** `used` is 3 for the path `/` (src/buffer.c:985-988;
  `PathSimplify.PathSimplify`).
* **MD5_Update may never end.** In 32 bits `i + 63` wraps when the last block of the input begins above 2^32 - 64, as
  with 2^32 - 1 bytes after one byte (`Md5Stream.OneThenMost`); `Md5Stream.LoopEndsIff` gives the exact condition, which
  every piece of at most 2^32 - 64 bytes meets.

## Left out

- ConfigProof.ShippedParserDecides: `ok` here is what the driver does to it. Semantic actions of the configuration
  parser clear it as well (src/configparser.c:843-1429), so the program may refuse more.
- LrCertificate.Certified: tables with fallback tokens, and states that shift the error symbol, are not covered; the
  shipped parser has neither, and `LrRecovery.Recovers` says what the driver does in such a state. The error counter
  `yyerrcnt` only paces messages in it.
- GeneratorRun.GenerateTables: lists of 2^30 actions and more, which sorting would cut short, and what `qsort` leaves
  open beyond the order by size.
- ConditionRuns.PlainIffNotOvertaken: comparisons are fixed for the run; a URL rewritten between two calls is another
  run.
- ConditionCache.Connection.Reset: the reset of the cache for one field only (src/configfile-glue.c:558-565).
- OrderedIndex.Array.InsertUnique: an equal key of an element of another kind, on which the program stops, is excluded.
  Key lengths whose difference does not fit an int are not modelled.
- RequestReader.Connection.HandleReadState: the reading from the socket before it, and more than one empty chunk in a
  row in the read queue. Reopening a temporary file that was closed meanwhile counts as opening it.
- HttpChunked.RoundTrip: that an empty piece spoils the body is left open where the first empty piece is a buffer never
  filled, 2^32 + 1 bytes or more follow it, which a reader takes for its data, and an even number of pieces is sent as
  a size line alone. No such body that decodes is known.
- HttpChunked.SendBody: leaves open the same.
- RequestReader.ReceiveRequest: what the parse of the header does is one parameter, the announced length, and temporary
  files succeed in it; `RequestReader.Connection.ReadBody` has the failures.
- ChunkQueues.ChunkQueue.RemoveFinished: queues are sequences of chunks; the links between chunks, the cache of unused
  chunks and its counts are not modelled.
- AliasMatch.AcceptedIffLongest: case-sensitive file names; with lower-cased ones only `PhysicalHandler` says which
  alias is used.
- Md5Stream.Context.Update: an input on which the loop never ends is excluded, by the exact condition. MD5Transform is
  any function to four words.
- PathSimplify.PathSimplify: the byte that is read behind the zero of a blank path and not used, and the replacement of
  backslashes on Windows.
- Stack depths other than 100, and stacks that grow.
- The building of the state machine itself, from closure to propagation links; its result enters as lists of actions
  and links.
- lemon's text front end, the code it writes around the tables, and the choice of the smallest integer type for them.
- The semantic actions of the configuration parser and the values on its stack.
- Action lists between the steps of the generator are arrays; only sorting works on linked nodes.
- `array_pop`, which does not keep the index (src/array.c:72-82).
- Sockets, files, processes, logging, memory allocation, and all plug-ins but mod_alias.
