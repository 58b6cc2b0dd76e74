# Verified models of the message server and the libraries it carries

The server speaks JSON documents in framed packets with a CRC, keeps users, tokens and timers in
memory, and carries its own copies of jansson, a hash map, and a collection of ciphers and hashes.
This project models the logic of these parts in Dafny and proves what they are for:

- **JSON** (`JsonDump`, `JsonFormat`, `JsonCycles`, `JsonLoad`, `JsonLexer`, `JsonGrammar`,
  `JsonSpelling`, `JsonSoundness`, `JsonLiterals`, `JsonRoundTrip`, `JsonReload`, `JsonSorting`, `Utf8`):
  the loader accepts exactly the texts of the grammar of RFC 8259 within its limits and gives what they
  spell; the dumper writes exactly the white space of its flags; loading the dumped text of a value graph
  gives back the value, for every mix of flags, and dumping what was loaded and loading that gives it
  again; dumping fails exactly on cycles; UTF-8 is RFC 3629. The dumper is a class that appends to a
  sink, the loader a class with its stream, saved text, token and depth; both are proved against
  functions on values.
- **The object hashtable** (`IntrusiveList`, `Segments`, `Hashtable`, `Assoc`): linked nodes and bucket
  ends in memory, relinked in place by a rehash, agree with an insertion-ordered map.
- **Its hash** (`Lookup3`, `Lookup3Example`): three ways to read a key, one hash; the mixing is
  reversible.
- **Reference counts** (`Refcounts`, `RefReach`): counts are conserved, deletion terminates, and on every
  graph it frees exactly what can be reached no more and does not hang from a cycle.
- **Packets** (`Crc32`, `Framing`, `Connection`, `Messages`): what is dispatched does not depend on how
  the stream is cut into reads; documents that are sent arrive.
- **Users, tokens, timers** (`Timers`, `Users`, `UserTokens`, `UserTimes`, `UserServer`, `UserHistory`):
  the timer list stays sorted and fires what is due; a use count is the number of references in every
  state between requests, if and only if no two users in the database have one token; a user stays in
  memory for two minutes from the last request that found the user.
- **The open-addressing map** (`ProbingMap`, `HashMaps`): a finite map, through rehashes inside rehashes.
- **Ciphers** (`AesTables`, `AesSbox`, `Aes`, `AesExample`, `BlockModes`, `Ccm`, `AesModes`, `Des`,
  `DesSymmetry`, `DesExample`, `Blowfish`): decryption inverts encryption and is inverted by it, block by
  block and in the modes; the S-box of AES and the key schedule of DES are what the standards say, DES has
  its complementation property, and AES and DES give the known answers, round by round.
- **SHA-256** (`Sha256`, `Sha256Bits`, `Sha256Constants`, `Sha256Example`): any sequence of updates gives
  the hash of the padded message; its functions are those of FIPS 180-2, bit by bit, and so is the digest
  of the example there.

`Bytes`, `Octets`, `Words`, `Numbers`, `Tables`, `Permutations` and `Arithmetic` hold what these share. Class methods are
proved against functions of the state (`Now()`, `Contents()`, `State()`), and what the source promises is
proved about these functions. `dafny verify dfyconfig.toml` checks everything.

Facts about the code that the proofs brought out are theorems here, each with its exact condition:

- a frame with a payload over 4080 bytes can be sent but never received (`Connection.FrameArrivesIffShort`);
- CCM formats as SP 800-38C does only under a condition (`Ccm.FormatIsStandard`), its payload counter is
  the standard's only for MACs of less than 16 bytes (`Ccm.PayloadCounterIsOneIff`,
  `Ccm.SharedKeystream`), the buffer of the encryption can be one byte short
  (`Ccm.EncryptBufferShortIff`), and what it makes of an empty payload it refuses to decrypt
  (`Ccm.OpenInvertsSeal`);
- AES encryption and decryption make the same number of rounds for the three key sizes, but not for all
  others (`Aes.RoundsAgree`);
- a put of a key that is there spoils the size of the open-addressing map, and can bring back an old
  value (`ProbingMap.SoundAfterPutIffNew`, `ProbingMap.RemoveAfterPutAgain`);
- making a token effective twice counts a reference that nobody holds (`Users.EffectBalancedIff`). The
  repository's own database gets there: `mysql_db.sql` makes four users without a token, a NULL token is
  read as the empty one (`users.c:97-99`), and only the letters NULL are left unmapped (`tokens.c:94`). So
  finding a second of these users takes the mapping of the first, whose record keeps a count for it
  (`UserTokens.SharedTokenUnbalances`, `UserServer.SharedTokens`); counts stay exact over every run if and
  only if no two users in the database have one token other than those letters
  (`UserTokens.CountsStayExactIff`, `UserServer.Server.constructor`, `UserServer.Server.Serve`);
- the loader gives a NUL behind a number back to its stream, which keeps NULs for its end, so that it is
  lost and the text loads as if it were not there (`JsonSoundness.NulIsLost`); for texts without NULs it
  accepts exactly what the grammar does (`JsonSoundness.LoadsExactly`);
- values that hang from a cycle are never freed (`RefReach.FreesExactly`, `RefReach.LeakTwoArrays`).

## Model

| member | source | states |
|---|---|---|
| `Utf8.EncodeTo` | jansson/utf.c:11-45 | writes exactly the 1 to 4 bytes of RFC 3629 for a code point up to 10FFFF and leaves the rest of the buffer alone; fails on every other number |
| `Utf8.FrontOfEncode` | jansson/utf.c:139-163 | the character at the front of an encoded scalar and any text is that scalar with its length |
| `Utf8.EncodeOfFront` | jansson/utf.c:83-137 | what is accepted at the front is a scalar value, and its bytes are its encoding: no overlong forms, no surrogates |
| `Utf8.CheckFull` | jansson/utf.c:83-137 | the loop that checks a multi-byte character computes its value, or refuses it |
| `Utf8.Iterate` | jansson/utf.c:139-163 | takes one character off the front of any nonempty string, or says that there is none |
| `Utf8.CheckString` | jansson/utf.c:165-187 | the loop accepts exactly the valid strings |
| `Utf8.ValidIffEncoded` | jansson/utf.c:165-187 | a byte string is valid if and only if it is a concatenation of encodings of scalar values |
| `Utf8.EncodeAllInjective` | jansson/utf.c:139-163 | that decomposition is unique |
| `Utf8.ScalarsOfEncodeAll` | jansson/utf.c:139-163 | iterating over an encoded sequence of scalars gives back the sequence |
| `JsonDump.Dumper.DumpIndent` | jansson/dump.c:75-99 | the chunks of whitespace add up to a newline and depth times the indentation, or one space, or nothing |
| `JsonDump.Dumper.ScanRun` | jansson/dump.c:110-137 | the inner loop ends at the first character that needs an escape, at the end, or at invalid UTF-8, and skips nothing |
| `JsonDump.Dumper.DumpString` | jansson/dump.c:101-192 | appends the quoted, escaped literal under any flags; fails exactly where the text is not valid |
| `JsonLiterals.StringIsItsCharacters` | jansson/dump.c:101-192 | between its quotes a dumped string is the Unicode characters of the text, one after the other, each as its escape or in its own encoding, according to the flags |
| `JsonDump.Dumper.DoDump` | jansson/dump.c:208-433 | terminates on every finite graph; appends the text of the value unfolded from the graph, and leaves the set of parents as it was |
| `JsonDump.DumpToBuffer` | jansson/dump.c:452-460 | returns the length of the whole text, which is in the buffer if it fits, and zero on failure |
| `JsonDump.Sink.Put` | jansson/dump.c:43-52 | copies a chunk only if all of it fits, and counts it in any case |
| `JsonCycles.UnfoldIffNoCycle` | jansson/dump.c:199-206 | a value unfolds to a finite tree exactly if no container that it reaches reaches itself; shared subtrees are fine |
| `JsonCycles.DumpTreeIffValid` | jansson/dump.c:225-427 | a tree has a text exactly if its string values are valid; whether keys are is not looked at, as in the code |
| `JsonCycles.DumpFailsIffCycle` | jansson/dump.c:199-433 | with valid strings, dumping a container fails if and only if a container on a cycle can be reached from it |
| `JsonFormat.TextIsSpread` | jansson/dump.c:75-99 | the text under any flags is the text without white space, which has none outside of strings, with exactly this put in: one space behind each colon and comma without flags, none behind colons if compact, a newline and depth times the indentation in front of each element and closing bracket with an indent |
| `JsonFormat.DumpIsSpread` | jansson/dump.c:208-433 | the same of the dump of a value graph |
| `JsonFormat.EmbeddedIsInner` | jansson/dump.c:272-427 | an embedded array or object is its text without the brackets around it |
| `JsonFormat.CharTextIs` | jansson/dump.c:139-183 | what each Unicode character is written as, under each flag: the short escapes, the escapes by upper-case hex digits, the surrogate pairs |
| `JsonFormat.DecimalIs` | jansson/dump.c:228-240 | an integer is written as its digits without leading zeros, behind a minus exactly if it is negative |
| `JsonLexer.Stream.Fill` | jansson/load.c:180-205 | a character of one to four bytes is fetched whole, and an ill-formed one sets the error state |
| `JsonLexer.Stream.Get` | jansson/load.c:162-223 | gives the bytes of the input one by one, checked as UTF-8, then the end or the error for ever; counts lines, columns and positions |
| `JsonLexer.Stream.Unget` | jansson/load.c:225-241 | undoes one get, with its position, line and column, except that a NUL is not given back |
| `JsonLexer.Lexer.TakeLiteral` | jansson/load.c:338-397 | the first pass saves the literal up to its closing quote, or refuses it |
| `JsonLexer.Lexer.UnescapeUnicode` | jansson/load.c:424-459 | decodes one escape or a surrogate pair and goes on behind it; refuses lone surrogates |
| `JsonLexer.Lexer.DecodeSaved` | jansson/load.c:399-470 | the second pass gives the text of the saved literal |
| `JsonLexer.Lexer.ScanString` | jansson/load.c:327-480 | both passes together scan a string token or an invalid one |
| `JsonLexer.Lexer.ScanNumber` | jansson/load.c:494-589 | scans an integer in the range of 64 bits or a real with fraction or exponent, and gives back what follows |
| `JsonLexer.Lexer.SkipSpace` | jansson/load.c:597-599 | goes to the first character that is not whitespace |
| `JsonLexer.Lexer.Scan` | jansson/load.c:591-657 | the token at the front of the input and the input behind it |
| `JsonLexer.Lexer.ParseValue` | jansson/load.c:809-881 | parses what the grammar function says, with the depth as it was before, if it succeeds |
| `JsonLexer.Lexer.ParseArray` | jansson/load.c:771-807 | parses the elements of an array, in order |
| `JsonLexer.Lexer.ParseObject` | jansson/load.c:694-769 | parses the members of an object; of equal keys the last wins, or with the flag the second is refused |
| `JsonLexer.Lexer.ParseJson` | jansson/load.c:883-916 | a whole document, with nothing behind it unless a flag allows that |
| `JsonLexer.LoadBuffer` | jansson/load.c:982-1006 | the loader on a buffer is the parsing function, for every input and every flag |
| `JsonSpelling.UnitIsHexValue` | jansson/load.c:304-325 | four hex digits, each of either case, are read as the number that they spell |
| `JsonSpelling.PieceDecoded` | jansson/load.c:399-470 | every way to spell a character, raw, by a short escape, by one unit or by a pair of them, is decoded to that character |
| `JsonSpelling.IntegerScans` | jansson/load.c:494-560 | the numeral of an integer is scanned to its value, or refused if it does not fit 64 bits |
| `JsonSpelling.SpellingLoads` | jansson/load.c:982-1006 | every text of the grammar of RFC 8259, with any white space and any spelling of its strings and numbers, loads to the value that it spells, the last of equal keys included, if and only if it is within the limits of depth, range, NULs and keys and is a container or any value may be decoded |
| `JsonSoundness.LoadedIsSpelled` | jansson/load.c:883-916 | what is loaded was a text of that grammar within these limits, for every input without NUL bytes |
| `JsonSoundness.LoadsExactly` | jansson/load.c:982-1006 | both directions: the loader gives a value if and only if the input spells it within the limits |
| `JsonSoundness.NulIsLost` | jansson/load.c:225-241 | with a NUL byte behind a number it is otherwise: it is lost, and the rest loads as if it were not there |
| `JsonLoad.LiteralWellEscaped` | jansson/load.c:351-396 | what the first pass lets through has well-formed escapes, so that the second pass finds what it expects and stops at the same quote |
| `JsonLoad.Decode` | jansson/load.c:399-413 | decoded text is shorter than the saved source text that sizes its buffer |
| `JsonLiterals.HexRoundTrip` | jansson/load.c:304-325 | the four hex digits of an escape are read back as the number they were written for |
| `JsonLiterals.CharRoundTrip` | jansson/dump.c:139-183 | each character that is written, escaped or not and surrogate pairs included, is scanned and decoded back |
| `JsonLiterals.LiteralRoundTrip` | jansson/dump.c:101-192 | the dumped literal of any valid text is scanned up to its own quote and decodes to the text, under every flag |
| `JsonLiterals.ScanDecimal` | jansson/load.c:494-560 | a printed 64-bit integer is scanned back to its value |
| `JsonLiterals.ScanRealNumeral` | jansson/load.c:562-583 | a numeral of a real is scanned as one token |
| `JsonRoundTrip.ValueRoundTrip` | jansson/load.c:809-881 | the text of a value in front of a delimiter parses back to the value at any depth, exactly if depth and height fit 2048 and NUL in strings is absent or allowed |
| `JsonRoundTrip.TreeRoundTrip` | jansson/load.c:883-916 | loading the text of a tree gives the tree, with its key order, if and only if its height is at most 2048, it is a container or any value may be decoded, and its strings have no NUL or may have it; with the flag for it, its integers come back as reals |
| `JsonRoundTrip.AsReadIsSame` | jansson/load.c:520-560 | the value read is the value written if and only if integers are read as integers or there are none |
| `JsonReload.DecodeIsText` | jansson/load.c:399-470 | the second pass makes valid UTF-8 of valid UTF-8: every escape that it accepts stands for a scalar value |
| `JsonReload.LoadedIsGood` | jansson/load.c:883-916 | whatever the input, what the loader gives is well formed: integers of 64 bits, numerals of reals, valid UTF-8, keys without NUL and each once, no more than 2048 deep |
| `JsonReload.LoadDumpLoad` | jansson/load.c:982-1006 | dumping what was loaded from any input, under any flags, and loading that gives the same value again |
| `JsonSorting.KeyTotal` | jansson/dump.c:194-197 | of two different keys exactly one comes before the other |
| `JsonSorting.KeyTransitive` | jansson/dump.c:194-197 | the order of keys is transitive |
| `JsonSorting.KeyBeforeIff` | jansson/dump.c:194-197 | a key comes before another if and only if it is the beginning of it or has the smaller byte where they first differ |
| `JsonSorting.SortPairsSorted` | jansson/dump.c:343-390 | distinct keys are written in strictly increasing order |
| `JsonSorting.SortDeepEqual` | jansson/value.c:276-292 | sorting the keys of all objects gives an equal value |
| `JsonSorting.UnfoldSorted` | jansson/dump.c:343-390 | dumping with sorted keys is dumping the value with its keys sorted |
| `JsonSorting.GraphRoundTrip` | jansson/dump.c:208-433 | loading the dump of a value graph gives the value, with sorted keys if the flag says so, and it is equal to what was dumped; under every mix of flags, exactly if depth, root and NULs are such as the loader's flags admit |
| `IntrusiveList.Init` | list/gnu_list.h:38-42 | an empty ring |
| `IntrusiveList.InsertBefore` | list/gnu_list.h:51-91 | the ring with the node at the given place; no other node but its neighbours is written |
| `IntrusiveList.Unlink` | list/gnu_list.h:100-123 | the ring without the node; only its neighbours are written |
| `Segments.InsertSegment` | jansson/hashtable.c:65-78 | a node put in front of its bucket's segment grows that segment and no other |
| `Segments.InsertGrouped` | jansson/hashtable.c:65-78 | buckets stay contiguous under insertion |
| `Segments.DeleteSegment` | jansson/hashtable.c:106-130 | taking a node out shrinks its segment by the first, the last, an inner or the only node, and leaves all others |
| `Hashtable.Hashtable.constructor` | jansson/hashtable.c:191-211 | an empty, valid table of fresh nodes |
| `Hashtable.Hashtable.InsertToBucket` | jansson/hashtable.c:65-78 | every bucket is again exactly the segment of the list with its pairs |
| `Hashtable.Hashtable.FindPair` | jansson/hashtable.c:80-103 | finds the pair with hash and key if the table has one, and only such a pair |
| `Hashtable.Hashtable.Get` | jansson/hashtable.c:270-284 | the lookup of the ordered map |
| `Hashtable.Hashtable.Del` | jansson/hashtable.c:106-137 | the map without the key, in order; whether there was one; its value's reference is dropped once |
| `Hashtable.Hashtable.Move` | jansson/hashtable.c:175-185 | one step of relinking: the list walked is not disturbed behind the node that moves |
| `Hashtable.Hashtable.Relink` | jansson/hashtable.c:175-185 | relinking the walked list in place ends, with every pair in its new bucket |
| `Hashtable.Hashtable.Rehash` | jansson/hashtable.c:153-188 | twice the buckets, the same pairs in the same insertion order |
| `Hashtable.Hashtable.Set` | jansson/hashtable.c:219-268 | the map with the key set, in its old place or at the end; the old value's reference is dropped; the table is valid and no fuller than its buckets |
| `Hashtable.Hashtable.Replace` | jansson/hashtable.c:350-356 | the value of one pair changes and nothing else |
| `Hashtable.Hashtable.DoClear` | jansson/hashtable.c:139-151 | drops the reference of every value exactly once |
| `Hashtable.Hashtable.Clear` | jansson/hashtable.c:292-307 | the empty map, all references dropped |
| `Hashtable.Hashtable.IterNext` | jansson/hashtable.c:309-336 | the next pair in insertion order, or the end after the last |
| `Hashtable.Hashtable.ForEach` | jansson/hashtable.c:309-336 | iterating gives the pairs in insertion order |
| `Assoc.GetAfterPut` | jansson/hashtable.c:219-268 | setting a key changes what that key gives and nothing else |
| `Assoc.GetAfterRemove` | jansson/hashtable.c:106-137 | deleting a key removes that key and nothing else, and keys stay unique |
| `Lookup3.MixIsReversible` | jansson/lookup3.h:123-131 | mix is a bijection on triples of words, with its inverse on both sides |
| `Lookup3.FinalIsReversible` | jansson/lookup3.h:158-167 | final is a bijection on triples of words |
| `Lookup3.HashWords` | jansson/lookup3.h:206-262 | reading aligned words and masking the last is the hash of the key alone, whatever follows it in memory |
| `Lookup3.HashHalves` | jansson/lookup3.h:290-336 | reading half words, with the fall-through of the switch, is the same hash |
| `Lookup3.HashBytes` | jansson/lookup3.h:338-377 | reading bytes is the same hash |
| `Lookup3.HashLittle` | jansson/lookup3.h:196-381 | the hash does not depend on the address of the key or on the bytes behind it |
| `Lookup3.ReadWords` | jansson/lookup3.h:229-262 | the masked words of the last block are the key's bytes, filled up with zeros |
| `Lookup3.ShortKeysDiffer` | jansson/lookup3.h:158-167 | keys of one block and one length are told apart by the final state of the mixer |
| `Lookup3Example.RotIs` | jansson/lookup3.h:77 | a word turned by k bits is its upper k bits behind the others |
| `Lookup3Example.HashOfSentence` | jansson/lookup3.h:196-381 | the hash of the thirty letters that the author of the hash gives as an example, through two mixes and a final |
| `Refcounts.Memory.Incref` | jansson/jansson.h:120-126 | one more reference for the caller; counts stay balanced |
| `Refcounts.Memory.Decref` | jansson/jansson.h:131-136 | the caller's reference goes and counts stay balanced through the whole cascade, which terminates; containers that stay do not change, and values that hold each other stay |
| `Refcounts.Memory.Delete` | jansson/value.c:962-988 | a value without references gives up its slots and is freed, and values that hold each other stay |
| `Refcounts.Memory.DecrefAll` | jansson/value.c:358-367 | a loop of decrefs over slots, each of which may free other values, but none that hold each other |
| `Refcounts.Memory.New` | jansson/value.c:40-44 | a new value with one reference, the caller's |
| `Refcounts.Memory.NewImmortal` | jansson/value.c:939-957 | true, false and null, which are counted by nobody |
| `Refcounts.Memory.ArrayAppendNew` | jansson/value.c:458-481 | the reference is used up on success and on failure; on success the value is last |
| `Refcounts.Memory.ArrayInsertNew` | jansson/value.c:483-521 | the same, with the value at the index |
| `Refcounts.Memory.ArraySetNew` | jansson/value.c:390-414 | the same, and the value that was there is let go of; the array is not freed by that |
| `Refcounts.Memory.ArrayRemove` | jansson/value.c:523-543 | the slot goes and its value is let go of; the array stays |
| `Refcounts.Memory.ArrayClear` | jansson/value.c:545-559 | all slots go and their values are let go of; the array stays |
| `Refcounts.Memory.ArrayExtend` | jansson/value.c:561-581 | the values of the other array, which may be the same one, get one more holder each |
| `Refcounts.Memory.ObjectSetNew` | jansson/value.c:101-133 | the reference is used up on success and on failure, also for invalid keys and for an object set in itself; a value that had the key is let go of, which does not free the object |
| `Refcounts.Memory.ObjectDel` | jansson/value.c:135-144 | the key's value is let go of; the object stays |
| `Refcounts.Memory.ObjectClear` | jansson/value.c:146-157 | all values are let go of; the object stays |
| `Refcounts.ContainerStays` | jansson/value.c:390-414 | a container that an owner can get to is not freed by what leaves its slots, so that the slots can be written after the decref |
| `Refcounts.LastKeeps` | jansson/jansson.h:131-136 | when a count reaches zero, the slots of the value become references of the deletion, and one live value fewer is left |
| `Refcounts.Rewired` | jansson/value.c:390-581 | what enters a container leaves the caller and what leaves it comes to the caller: the law of conservation for every change of slots |
| `RefReach.KeptForAReason` | jansson/jansson.h:120-136 | a value in memory can be reached by an owner or hangs from a cycle |
| `RefReach.KeptIffReachable` | jansson/jansson.h:120-136 | a value is in memory if and only if a path of slots leads to it from an owned reference or it hangs from a cycle |
| `RefReach.FreesExactly` | jansson/value.c:962-988 | on every graph, letting go frees exactly the values that the references left over do not lead to and that do not hang from a cycle, by the slots there were |
| `RefReach.LetGo` | jansson/jansson.h:131-136 | the same of json_decref as its callers see it |
| `RefReach.CycleIsKept` | jansson/value.c:962-988 | what hangs from a cycle is never freed |
| `RefReach.FreesTheUnreachable` | jansson/value.c:962-988 | the corollary of `RefReach.FreesExactly` for graphs without cycles: exactly the values that the references left over do not lead to are freed |
| `RefReach.ReachableIsKept` | jansson/value.c:962-988 | what can be reached is never freed, cycles or not |
| `RefReach.AcyclicStays` | jansson/value.c:962-988 | letting go makes no cycle |
| `RefReach.LeakTwoArrays` | jansson/value.c:458-481 | two arrays appended to each other and let go of stay in memory, and nobody can get to them |
| `Crc32.TableIsEightSteps` | crc32/crc32.c:7-51 | every table entry is eight steps of the reflected polynomial |
| `Crc32.TableStepIsByteStep` | crc32/crc32.c:54-62 | a step by the table is eight bit steps, section 8 of RFC 1952 |
| `Crc32.Update` | crc32/crc32.c:54-62 | the loop by the table is the CRC bit by bit |
| `Crc32.Classic` | crc32/crc32.h:10-18 | the finished CRC of a buffer |
| `Crc32.FoldConcat` | crc32/crc32.c:54-62 | a CRC can be taken in parts |
| `Crc32.FoldInjective` | crc32/crc32.c:54-62 | different accumulators stay different |
| `Crc32.DetectsWindow` | crc32/crc32.h:10-13 | buffers that differ only inside a window of four bytes have different CRCs |
| `Crc32.CrcOfDigits` | crc32/crc32.h:10-18 | the check value of this CRC, that of the nine digits, is cbf43926 |
| `Framing.ParseAppend` | server.c:115-152 | parsing a stream in two parts is parsing it at once, up to the same first bad frame |
| `Framing.FrameIsPacket` | packet.c:46-55 | the bytes of a packet are one complete, checked frame of that packet |
| `Framing.Layout` | packet.h:18-37 | where the fields of a frame stand: four bytes of CRC of all that follows them, two of length and two of kind, each with the lowest byte first, then the payload |
| `Framing.StreamParses` | server.c:115-152 | a stream of frames parses to its packets, in order |
| `Framing.DamageNoticed` | packet.c:46-55 | a frame damaged inside four bytes that follow each other is not dispatched, if these are in its CRC or behind its length field; windows that start at bytes 1 to 5, which may reach that field, are excluded |
| `Connection.Client.Shift` | server.c:141-147 | moves the rest of the buffer to its front |
| `Connection.Client.TryMakeNetPacket` | server.c:115-152 | dispatches exactly the packets that the buffer holds and keeps the incomplete rest, or reports the first bad frame |
| `Connection.Client.ClientSocket` | server.c:154-186 | one read and what it completes; the buffer offset stays within bounds |
| `Connection.Serve` | server.c:154-186 | a whole connection dispatches what the concatenated reads parse to, and is closed exactly at a bad frame |
| `Connection.RunParses` | server.c:115-186 | after every run, what was dispatched, what is pending and whether the connection is open are those of parsing the whole stream |
| `Connection.ChunkingDoesNotMatter` | server.c:169-183 | two ways to cut one stream into reads dispatch the same packets and end open or closed alike |
| `Connection.FullOnlyWhenTooLong` | server.c:172-173 | a read of zero bytes is asked for only when the pending frame declares more than 4088 bytes |
| `Connection.TooLongIsStuck` | server.c:172-173 | such a frame is never dispatched, nor anything behind it |
| `Connection.ShortFramesArrive` | server.c:115-186 | frames with payloads up to 4080 bytes are dispatched, all and in order, and there is always room to read |
| `Connection.FrameArrivesIffShort` | server.c:172-173 | a frame can be received in some cutting if and only if its payload has at most 4080 bytes |
| `Messages.RawPacket.FromJson` | packet.c:46-55 | the bytes on the wire are always one checked frame with a 16-bit length, and the frame of the document's text if that fits 4088 bytes; what is read past the packet otherwise is a parameter |
| `Messages.Pack` | packet.c:46-104 | packing a document gives a frame, and the document's if its text fits |
| `Messages.NotFoundIs` | packet.c:21-55 | the payload of the answer to an unknown method, byte by byte, for every error number |
| `Messages.NestingCosts` | packet.c:46-55 | a value's text has at least two bytes for each level of nesting, so a document in a packet is never nested too deeply for the loader |
| `Messages.MessageLoads` | packet.c:76-99 | the payload of a packed document loads to the document, unless there is a NUL in its strings, which the loader refuses |
| `Messages.DocumentsArrive` | server.c:115-186 | documents that are packed and sent, in any cutting into reads, are dispatched as packets that load to these documents, in order; those with a NUL in a string are refused |
| `Timers.TimerList.FindPlace` | timer.c:18-30 | the first place whose timer is not earlier: exactly the timers in front of it are earlier |
| `Timers.LastInFirstOut` | timer.c:18-32 | of timers with one timeout the last that was put in fires first |
| `Timers.TimerList.InsertTimer` | timer.c:18-32 | the sorted ring with the timer in its place |
| `Timers.TimerList.DelTimer` | timer.c:34-38 | the ring without the timer |
| `Timers.TimerList.AddTimer` | timer.c:63-69 | a new timer, with its timeout, in its place |
| `Timers.TimerList.KickTimer` | timer.c:48-53 | the timer moves to the place of its new timeout, in front of those with the same; all others keep their order |
| `Timers.TimerList.ModTimer` | timer.c:40-46 | the same with a new delay |
| `Timers.TimerList.HandleTimerList` | timer.c:71-87 | fires exactly the timers that are due, each once and in the order of their timeouts, and leaves the rest sorted |
| `Users.GetKeeps` | users.c:28-36 | taking a reference keeps every count equal to its references |
| `Users.PutKeeps` | users.c:38-58 | giving one back does too, and frees the record exactly with the last |
| `Users.LastPutIsSafe` | users.c:38-58 | a record that is freed is neither queued nor mapped nor held by anyone |
| `Users.EffectBalancedIff` | tokens.c:92-101 | making a token effective keeps the counts if and only if the record has no token or it is not mapped yet |
| `Users.FreeKeeps` | tokens.c:103-109 | dropping a token keeps the counts and takes one token away |
| `Users.AddedKeeps` | users.c:128-153 | a record read from the database is counted for its timer |
| `Users.ByNameKeeps` | users.c:128-153 | finding a user by name gives a counted reference to the one record with that name, or changes nothing |
| `Users.RenamedKeeps` | tokens.c:72-90 | a record that is in no token map may change its token |
| `Users.NewTokenKeeps` | tokens.c:72-90 | a new token replaces the old one in the map, and no other record changes |
| `Users.ExpireFrees` | users.c:116-126 | expiry frees the record and takes its name and token out of the maps |
| `UserTokens.SharedTokenUnbalances` | tokens.c:92-101 | of two users with one token the second to be found takes the mapping, and the counts, right until then, are wrong |
| `UserTokens.CountsStayExactIff` | users.c:128-153 | over every run of requests that find users and come to nothing, the counts stay exact if and only if no two users in the database have one token other than the letters NULL |
| `UserTokens.RunStands` | users.c:128-153 | over these runs no pointer dangles, whatever tokens users have |
| `UserServer.Server.constructor` | tokens.c:9-13 | an empty server over any database; it is ready for `Serve` if and only if no two users in the database have one token |
| `UserServer.Server.Refuse` | methods/com.login.seed.request.c:38-83 | a seed request without random bytes, in any state and over any database, finds the user and lets go of it |
| `UserServer.SharedTokens` | tokens.c:92-101 | over any database where two users have one token, two such requests make the counts wrong |
| `UserServer.Server.UserGet` | users.c:28-36 | refines `Users.Get`: one more reference, and a record with a timer is due its delay after this moment, as no other is |
| `UserServer.Server.UserPut` | users.c:38-58 | refines `Users.Put`: one reference fewer, and at zero the record and its name go |
| `UserServer.Server.LoadUser` | users.c:60-114 | a record at an unused address, in the maps and on the queue |
| `UserServer.Server.FindUser` | users.c:128-153 | refines `Users.ByName`, in every state without dangling pointers and over any database |
| `UserServer.Server.GetUserByName` | users.c:128-153 | finds a user in memory or in the database, who is due 120 seconds from now; with every invariant kept and a reference taken exactly if found |
| `UserServer.Server.GetUsrByToken` | tokens.c:111-134 | the owner of a mapped token, or the user that the database names, or none exactly if neither is there; who is due 120 seconds from now; and whether that user's token is effective then |
| `UserServer.Server.TryEffectToken` | tokens.c:92-101 | refines `Users.Effect`: a token is mapped with a reference of its own, unless there is none |
| `UserServer.Server.FreeToken` | tokens.c:103-109 | refines `Users.Free`: the token leaves the map and its reference is given back |
| `UserServer.Server.AllocNewToken` | tokens.c:72-90 | on success the new token alone leads to the user, in memory and in the database; the invariants hold on every path |
| `UserServer.Server.SendTo` | methods/com.message.sendto.request.c:64-151 | every path gives back the references it took, and the response is the one for its case, whether the token is mapped or only in the database |
| `UserServer.Server.Seed` | methods/com.login.seed.request.c:38-83 | every path gives back its reference; the response for each case; success sets the seed of that user and changes no other record |
| `UserServer.Server.Login` | methods/com.login.request.c:28-109 | every path gives back its reference; the response for each case, whether the user is in memory, only in the database or nowhere; success means online with the right password, and a stored new token leads to the user |
| `UserServer.Server.Logout` | methods/com.logout.bytoken.request.c:49-99 | every path gives back its reference; success exactly for a user whose token is effective and taken as invalid, and then that token leaves the map |
| `UserServer.Server.ExpireUser` | users.c:116-126 | the record, its name and its token are gone |
| `UserServer.Server.Tick` | timer.c:71-87 | exactly the records that are due are freed, and exactly their tokens go |
| `UserServer.SeedAndLogIn` | methods/com.login.request.c:28-109 | a user in the database who is not online and asks for a seed can log in with it, in memory before or not, and the new token leads to the record |
| `UserServer.Server.Handle` | server.c:188-272 | one request or tick: exactly the users that it finds are due 120 seconds from then, and a tick takes exactly those away who are due |
| `UserHistory.InMemoryIff` | users.c:28-36 | over every run, a user is in memory if and only if a request has found the user and every pass of the timers since the last that did came less than 120 seconds behind it |
| `UserHistory.ClockIsUsers` | users.c:128-153 | the clock has exactly the users in memory |
| `UserTimes.ByNameStamps` | users.c:128-153 | finding a user by name starts that timer again and no other |
| `UserTimes.NewTokenStamps` | tokens.c:72-101 | a new token starts the timer of its user again and no other |
| `UserTimes.TickStops` | timer.c:71-87 | a pass of the timers leaves the clock of the users who are not due |
| `UserServer.Server.Serve` | server.c:188-272 | over every sequence of seed, login, logout and message requests and ticks: counts are exact, records are mapped by name, queued and unfreed, nothing is held in between, and the clock of the users goes as it should at each event |
| `ProbingMap.GetIsLookup` | c_hashmap/hashmap.c:289-318 | looking at eight slots finds every key that is in the map, and nothing else |
| `ProbingMap.RemoveKeeps` | c_hashmap/hashmap.c:351-383 | the map without the key; the table stays sound |
| `ProbingMap.PutNewKey` | c_hashmap/hashmap.c:261-284 | a put of a new key adds it, keeps every key once within eight slots of its home, and the size exact, through any rehashes; when memory runs out the table is sound and has no pair that it should not have |
| `ProbingMap.PutInPlaceIff` | c_hashmap/hashmap.c:191-216 | a put works without a rehash, whatever the allocator has left, if and only if less than half of the table is in use and one of the eight slots is empty or has the key; then the first such slot gets the pair and no other changes |
| `ProbingMap.PutDoubles` | c_hashmap/hashmap.c:268-274 | without room the table has at least doubled before the pair is put |
| `ProbingMap.PutWithin` | c_hashmap/hashmap.c:221-284 | a put fails only if a larger table than the allocator gives was needed |
| `ProbingMap.FirstPutWorks` | c_hashmap/hashmap.c:261-284 | the first put into a new map works, whatever its hash function and its allocator |
| `ProbingMap.RehashKeeps` | c_hashmap/hashmap.c:221-256 | a rehash that works keeps the map, even if it sets off another rehash |
| `ProbingMap.PutAllAdds` | c_hashmap/hashmap.c:241-251 | putting the keys of the old slots again, one after the other, adds their pairs |
| `ProbingMap.GetAfterPut` | c_hashmap/hashmap.c:261-318 | a put is seen by later gets and hides no other key, also if the key was there before |
| `ProbingMap.SoundAfterPutIffNew` | c_hashmap/hashmap.c:281 | the size is right after a put if and only if the key is new |
| `ProbingMap.RemoveAfterPutAgain` | c_hashmap/hashmap.c:206-207 | a key put again and removed is gone if and only if the put set off a rehash or no empty slot came before the key in its chain; otherwise its old value is back |
| `ProbingMap.RehashPacks` | c_hashmap/hashmap.c:221-256 | after a rehash no empty slot comes before a key in its chain |
| `HashMaps.HashMap.constructor` | c_hashmap/hashmap.c:31-46 | an empty table of 256 slots |
| `HashMaps.HashMap.FindPlace` | c_hashmap/hashmap.c:191-216 | the first of the eight slots that is empty or has the key; none if half of the table is in use |
| `HashMaps.HashMap.Put` | c_hashmap/hashmap.c:261-284 | the loop with its rehashes refines the put of tables, in success and in failure |
| `HashMaps.HashMap.Rehash` | c_hashmap/hashmap.c:221-256 | refines the rehash of tables; the new array replaces the old one |
| `HashMaps.HashMap.Get` | c_hashmap/hashmap.c:289-318 | refines the get of tables |
| `HashMaps.HashMap.Remove` | c_hashmap/hashmap.c:351-383 | refines the removal of tables |
| `AesTables.InvSboxInverts` | crypto/aes.c:46-82 | the two S-boxes are inverse |
| `AesSbox.SboxIsAffineInverse` | crypto/aes.c:46-63 | the S-box is the affine map of the inverse in GF(2^8), section 5.1.1 of FIPS 197 |
| `AesTables.GfRight` | crypto/aes.c:90-219 | every row of the table of products is the product in GF(2^8) |
| `Aes.InvMixColumnInverts` | crypto/aes.c:745-923 | InvMixColumns undoes MixColumns, through the table |
| `Aes.MixColumns` | crypto/aes.c:745-833 | the method in place mixes each column |
| `AesExample.MixColumnIs` | crypto/aes.c:745-833 | a mixed column is its product with the polynomial of section 5.1.3 of FIPS 197, by doubling |
| `Aes.DecipherInverts` | crypto/aes.c:929-1069 | the rounds of decryption undo those of encryption for any keys and number of rounds |
| `Aes.DecryptInverts` | crypto/aes.c:929-1069 | decrypting an encrypted block gives the block, for every schedule and the three key sizes |
| `AesModes.AesInverts` | crypto/aes.c:929-1069 | decryption inverts encryption and encryption decryption, on every block |
| `Aes.RoundsAgree` | crypto/aes.c:929-1069 | for which key sizes both directions do the same number of rounds |
| `Aes.Encrypt` | crypto/aes.c:929-1000 | the steps in place on the 4 by 4 state give the encrypted block |
| `Aes.Decrypt` | crypto/aes.c:1002-1069 | the steps in place give the decrypted block |
| `Aes.KeySetup` | crypto/aes.c:555-582 | the loop computes the key expansion of section 5.2 of FIPS 197; other key sizes write nothing |
| `Aes.RconRight` | crypto/aes.c:558-560 | the round constants are the powers of x |
| `AesExample.Example128` | crypto/aes.c:555-1000 | the block and the key of 128 bits of appendix C.1 of FIPS 197 give its result |
| `AesExample.Words256_14` | crypto/aes.c:555-582 | the last words of the schedule of the key of 256 bits of appendix C.3, through both ways a word is mixed |
| `BlockModes.CbcInverts` | crypto/aes.c:234-303 | CBC decryption inverts CBC encryption for any number of blocks and any block cipher with its inverse |
| `BlockModes.InvertsBothWays` | crypto/aes.c:929-1069 | what inverts a block cipher is inverted by it, for there are finitely many blocks |
| `BlockModes.CbcInvertsBack` | crypto/aes.c:234-303 | CBC encryption gives back what was decrypted |
| `BlockModes.CbcBlockIs` | crypto/aes.c:234-255 | each block is added to the ciphertext of the one before, or the first to the IV, and encrypted, section 6.2 of SP 800-38A |
| `BlockModes.MacIsLastBlock` | crypto/aes.c:257-280 | CBC-MAC is the last block of the CBC encryption |
| `BlockModes.IncrementAddsOne` | crypto/aes.c:308-318 | the counter at the end of the IV goes up by one, modulo 256 to its size, and the rest of the IV stays |
| `BlockModes.CounterBlockIsSum` | crypto/aes.c:322-343 | counter block i is the IV plus i modulo 2^128 |
| `BlockModes.CtrInverts` | crypto/aes.c:322-349 | CTR is its own inverse at every length |
| `BlockModes.CtrKeystream` | crypto/aes.c:322-343 | byte j of the output is byte j of the input plus that of the encrypted counter block |
| `Ccm.Format` | crypto/aes.c:486-531 | the formatted length is a multiple of 16 and at most 49 more than payload and associated data |
| `Ccm.EncryptBufferShortIff` | crypto/aes.c:373 | the formatted data is longer than the buffer, and then by one byte, exactly if the associated data ends on a block boundary and the payload is one byte more than blocks |
| `Ccm.DecryptBufferShortIff` | crypto/aes.c:429 | the buffer of the decryption always suffices if there is a MAC |
| `Ccm.PayloadCounterIsOneIff` | crypto/aes.c:402-405 | the payload is encrypted with counters from one on exactly if the MAC has less than 16 bytes |
| `Ccm.SharedKeystream` | crypto/aes.c:402-408 | with a MAC of 16 bytes, the first block of the payload and the MAC have one keystream |
| `Ccm.SealedBytes` | crypto/aes.c:355-414 | every byte of a ciphertext: the payload under counter blocks from the payload's first on, then the last block of the CBC encryption of the formatted data under the block of counter zero |
| `Ccm.OpenInvertsSeal` | crypto/aes.c:355-483 | what was encrypted decrypts to the payload and is authentic; an empty payload is refused |
| `Ccm.OnlySealedIsAuthentic` | crypto/aes.c:418-483 | a ciphertext is authentic only if it is the encryption of the payload it gives |
| `Ccm.FormatIsStandard` | crypto/aes.c:493-531 | the formatting is that of appendix A.2 of SP 800-38C if and only if there is associated data that does not end on a block boundary and the payload is below 2^16 bytes |
| `AesModes.EncryptCbc` | crypto/aes.c:234-255 | block by block into the output, which may be the input; refuses other lengths and then writes nothing |
| `AesModes.DecryptCbc` | crypto/aes.c:282-303 | the same for decryption |
| `AesModes.EncryptCbcMac` | crypto/aes.c:257-280 | the chain of blocks is the CBC-MAC; other lengths than whole blocks are refused |
| `AesModes.IncrementIv` | crypto/aes.c:308-318 | the loop with its carry is the increment |
| `AesModes.EncryptCtr` | crypto/aes.c:322-343 | in place, with a last partial block |
| `AesModes.EncryptCcm` | crypto/aes.c:355-414 | exactly the accepted parameters are encrypted, to the sealed text; otherwise nothing is written |
| `AesModes.DecryptCcm` | crypto/aes.c:418-483 | the opened text and whether it is authentic, for all lengths that fit the code's buffers; the plaintext is wiped if it is not |
| `AesModes.AesCbcInverts` | crypto/aes.c:234-303 | the law of CBC in both orders, for AES with its own key setup |
| `AesModes.CcmInverts` | crypto/aes.c:355-483 | the law of CCM for AES with its own key setup |
| `Des.InvIpIp` | crypto/des.c:79-133 | the final permutation undoes the initial one |
| `Des.IpInvIp` | crypto/des.c:79-133 | and the other way round |
| `Des.ExpansionIs` | crypto/des.c:135-165 | what goes into an S-box is four bits of the half with their two neighbours, mixed with six bits of the subkey: table E of FIPS 46-3 |
| `Des.PboxInjective` | crypto/des.c:178-190 | the P-box loses no bit |
| `Des.SubkeyBitIs` | crypto/des.c:193-231 | every bit of every subkey is the one bit of the key that the two permuted choices give after the shifts so far |
| `Des.TotalIsWhole` | crypto/des.c:196 | the sixteen shifts turn the halves once round |
| `DesExample.ChosenAre` | crypto/des.c:206-210 | permuted choice 1 takes out the columns of the key: the upper bits of its bytes for one half, the lower bits backwards for the other |
| `DesExample.BlockOfExample` | crypto/des.c:79-248 | a known answer: 0123456789abcdef under the key 133457799bbcdff1 is 85e813540f0ab405 |
| `Des.RoundsBack` | crypto/des.c:233-248 | the rounds with the subkeys backwards undo the rounds, for any subkeys |
| `Des.CryptInverts` | crypto/des.c:233-248 | DES with the reversed schedule inverts DES, for every schedule and block |
| `Des.ScheduleReversed` | crypto/des.c:193-231 | the schedule of one mode is that of the other backwards |
| `Des.DesInverts` | crypto/des.c:193-248 | what is encrypted under a key is decrypted under it, and the other way round |
| `Des.TripleInverts` | crypto/des.c:250-269 | the same for triple DES |
| `Des.TripleIs` | crypto/des.c:250-269 | triple DES encrypts under the first key, decrypts under the second and encrypts under the third; where two neighbours are one key it is DES under the other, in both modes |
| `DesSymmetry.FlippedF` | crypto/des.c:135-191 | f gives the same for the complements of half and subkey |
| `DesSymmetry.FlippedSubkey` | crypto/des.c:193-231 | the complement of the key has the complements of the subkeys |
| `DesSymmetry.Complementation` | crypto/des.c:79-248 | complementing key and block complements the result, in both modes |
| `Des.KeySetup` | crypto/des.c:193-231 | the loops fill in all subkeys, from the end in the mode of decryption |
| `Des.CryptBlock` | crypto/des.c:233-248 | the loop over rounds, with the last one apart, is DES; also in place |
| `Des.TripleCryptBlock` | crypto/des.c:264-269 | three passes through one buffer |
| `Blowfish.RoundsBack` | crypto/blowfish.c:209-227 | k rounds of decryption take back the last k rounds of encryption |
| `Blowfish.BlowfishInverts` | crypto/blowfish.c:167-237 | decryption inverts encryption and encryption decryption, for every P array and all S-boxes |
| `Blowfish.FOfExample` | crypto/blowfish.c:18-21 | the bytes of a word from the highest on index the four S-boxes, whose words are added, exclusive-ored and added |
| `Blowfish.WithoutF` | crypto/blowfish.c:167-201 | where the S-boxes add nothing, each half is added to every second subkey and the halves change places |
| `Blowfish.EncryptBlock` | crypto/blowfish.c:167-201 | the sixteen rounds on the block, also in place |
| `Blowfish.DecryptBlock` | crypto/blowfish.c:203-237 | the same with the subkeys from the last to the first |
| `Sha256.Context.constructor` | crypto/sha256.c:85-97 | the context of the empty message |
| `Sha256.Context.Transform` | crypto/sha256.c:44-83 | schedule and rounds in place are the compression function of section 6.2.2 of FIPS 180-2 |
| `Sha256Bits.ChChooses` | crypto/sha256.c:24 | each bit of Ch is that of y where x has a one and that of z elsewhere |
| `Sha256Bits.MajIsMajority` | crypto/sha256.c:25 | each bit of Maj is what at least two of the three have |
| `Sha256Bits.Ep0Bit` | crypto/sha256.c:26 | each bit of the sum is the parity of bits 2, 13 and 22 places higher, cyclically, section 4.1.2 of FIPS 180-2 |
| `Sha256Bits.Ep1Bit` | crypto/sha256.c:27 | the same for 6, 11 and 25 |
| `Sha256Bits.Sig0Bit` | crypto/sha256.c:28 | the same for 7, 18 and, not cyclically, 3 |
| `Sha256Bits.Sig1Bit` | crypto/sha256.c:29 | the same for 17, 19 and, not cyclically, 10 |
| `Sha256.Context.Update` | crypto/sha256.c:99-112 | the context of the message with the data behind it, wherever updates are cut: the state is the fold over its whole blocks, the buffer their rest, and the bit count theirs |
| `Sha256.Context.Final` | crypto/sha256.c:114-158 | the digest of everything that was hashed, padded as in section 5.1.1, with the length taken modulo 2^64 |
| `Sha256Example.DigestOfExample` | crypto/sha256.c:44-158 | the digest of the letters abc is that of appendix B.1 of FIPS 180-2, through all 64 rounds |
| `Sha256Example.BytesAreWords` | crypto/sha256.c:145-157 | the bytes of a digest are those of the words of the hash, the highest first |
| `Sha256Constants.PrimesInOrder` | crypto/sha256.c:31-40 | the 64 numbers that the constants are made of are the first 64 primes, in order and with none left out |
| `Sha256Constants.ConstantsAreCubeRoots` | crypto/sha256.c:31-40 | the round constants are the fractions of the cube roots of the first 64 primes |
| `Sha256Constants.InitialIsSquareRoots` | crypto/sha256.c:85-97 | the initial hash is the fractions of the square roots of the first eight primes |
| `Sha256.PaddedIsBlocks` | crypto/sha256.c:120-143 | a padded message is whole blocks, with the shortest padding that makes it so |
| `Sha256.PaddingInjective` | crypto/sha256.c:120-143 | different messages have different padded messages |

## Left out

Parts of the repository:

- Sockets, epoll, files, MySQL and random bytes are parameters: reads, query results and tokens are arbitrary. Logging, configuration and `main`'s set-up are not modelled.
- `client.c`, `friends.c` and the handlers with a fixed response; binding of users to clients, the messages themselves, SQL strings and password hashing (whether the password is right is a parameter).
- Allocation failure, except in the open-addressing map, where an allocator that gives tables up to some size stands for it.
- `jansson/pack_unpack.c`, `jansson/memory.c`, `jansson/strbuffer.c` (a byte sequence), error texts, streams other than buffers, sinks that fail.
- The text of JSON reals: a real is its numeral, so `strtod`, `%.*g` and their range errors are not seen.
- `crypto/md5.c`, `crypto/sha1.c`, `crypto/md2.c`, `crypto/arcfour.c`, `crypto/rot-13.c`, `crypto/base64.c`, and the key setup of Blowfish: the inversion holds for all keys it could give.
- `json_equal`, the copies and updates of `jansson/value.c`: `Equal` is modelled only as far as sorting needs it.

What the models do not capture:

- JsonLoad.Decode: bytes are unsigned numbers, where the code compares signed `char`s; masks and shifts are division and remainder.
- JsonSorting.SortPairsSorted: `qsort` is an insertion sort by the order of unsigned bytes, with the same result for distinct keys.
- JsonDump.Dumper.DoDump: the hashtable of parents is a set of references, and after an invalid key, whose failure the code ignores, the text goes on as in the code.
- JsonLexer.Stream.Unget: the code keeps a NUL for the end of its buffer, so one that is given back is lost; the model does the same.
- Hashtable.Hashtable.Set: the hash function is any function, keys of a length near the largest `size_t` and freed memory are not modelled.
- Lookup3.HashWords: exclusive or is defined on the bits of numbers; a little-endian machine is assumed, and memory up to the end of the last aligned word.
- Refcounts.Memory.ArraySetNew: a slot is written before the old value is let go of, and in the code after; the container must be one that an owner can get to, and `Refcounts.ContainerStays` shows that it is there for the write. Null pointers for values, and counts that overflow `size_t`, are not modelled.
- Refcounts.Memory.NewImmortal: every call makes a cell of its own, where the code has one static value of each kind.
- JsonSpelling.SpellingLoads: nothing is said of what follows a document for the flag that does not look for its end, except for white space.
- JsonSoundness.LoadsExactly: inputs with NUL bytes, which no document has, are excluded, and the flag that does not look for the end, for which `JsonSoundness.LoadedIsSpelled` has the document at the front.
- JsonFormat.DumpIsSpread: for the embedded form `JsonFormat.EmbeddedIsInner` says what is left away.
- JsonReload.LoadDumpLoad: without the flag that reads integers as reals, whose numerals the code prints with a point.
- Framing.FrameIsPacket: fields are little-endian, as on the machines the server runs on.
- Messages.RawPacket.FromJson: for a text over 4088 bytes the code reads past the packet; the memory there is a parameter.
- Connection.Client.Shift: `memcpy` on overlapping memory is a copy from the front to the back.
- Timers.TimerList.HandleTimerList: handlers leave the list alone. Client timers, which are deleted once more after they fire, and `is_timer_effective`, which looks at poisoned pointers, are not modelled.
- UserServer.Server.Serve: no two users in the database have one token, which excludes the database of `mysql_db.sql`: over such a one the counts go wrong (`UserTokens.CountsStayExactIff` says exactly when, `UserServer.SharedTokens` shows how), and what later requests make of wrong counts is not modelled. Random tokens are unused when drawn. Records are values at addresses, the queue is a set (`Timers` has the list), and the database row has the name that was asked for.
- UserServer.Server.AllocNewToken: the write to the database is grouped with the change of the token map.
- ProbingMap.PutNewKey: the hash function is any function, so a put ends only because the allocator refuses tables above some size.
- AesModes.DecryptCcm: MACs over 16 bytes and nonces over 15, which overrun the code's blocks, are excluded.
- AesModes.EncryptCcm: the formatting buffer is a sequence, because the code's can be one byte short (`Ccm.EncryptBufferShortIff`); lengths that wrap 32 bits in its allocation are not modelled.
- AesModes.EncryptCbcMac: for no blocks at all the code returns memory that it did not set, which is a parameter.
- DesExample.BlockOfExample: the permuted choices are written out for every key; the S-boxes and the P-box are those of the code, pinned where the example looks at them.
- Lookup3Example.HashOfSentence: the seed of the hash is zero.
- Sha256.Context.Update: data of 2^32 bytes or more in one call is excluded; the code's 32-bit counter would not end.
