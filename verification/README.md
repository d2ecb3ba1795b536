# virtCCA SDK: a verified model of its core

The virtCCA SDK attests, measures and migrates confidential virtual machines. This project models the
parts of it in which a mistake would go unnoticed, and proves what they promise:

- **JSON** (`JsonTree`, `JsonEscape`, `JsonParser`, `JsonGrammar`, `JsonAccepted`, `JsonPrinter`, `JsonRoundTrip`,
  `JsonCompare`, `JsonChildList`, `JsonItems`, `JsonVocabulary`): the cJSON parser with its offset cursor and two-pass
  strings, the printer with its growing buffer, comparison, and the doubly linked child lists on the heap.
- **Boot measurement** (`BlobList`, `GenRimRef`, `RimFormat`, `BootLayout`, `MeasurePe`, `PeFormat`): the sorted blob list,
  the hash chain of the Realm Initial Measurement, the layout of a direct kernel boot, and the Authenticode
  measurement of PE images.
- **Migration integrity channel** (`ShareQueue`, `IntegrityChannel`, `IntegrityRuns`, `IntegrityClose`, `SlaveThreads`):
  queues, framing, ending and threads of two agents over a byte channel, as machines of interleaved steps.
- **Event log** (`BinaryBlob`, `EventLog`, `FirmwareState`): the entry parser, the replay into the
  measurement registers, and the extraction of the firmware state.
- **Signature re-encoding** (`Cbor`, `TokenValidate`) and **key hand-over** (`KeyHandover`, `KeySession`).

`Bytes` holds the shared vocabulary. `dafny verify dfyconfig.toml` checks everything.

What the formats, limits and answers are is stated apart from the functions that the code is proved against: PE headers
as the format writes them (`PeFormat`), the hashed bytes of the RIM (`RimFormat`), the words and records of a session
(`KeySession`), the return values that end the channel (`IntegrityClose`), JSON's characters and layout (`JsonVocabulary`).

How to read it: code that works in place is a class or an array method proved against a reference
function, and what the source promises is proved about those functions and over whole runs. SHA-256,
strtod, the text of "%1.15g", the DER parser, the TMM, the TSI, files and channels are parameters of which
nothing is assumed: a hash is any function to 32 bytes, so binding is stated with an explicit collision;
strtod is assumed to read ints only where a lemma says so (`ReadsInts`).

Where the code does not do what one would expect, the model follows the code:

- A server of the integrity channel whose call into the TMM fails while it waits for room in the receive
  queue goes on with the payload unread and loses the framing. Conservation and the prefix property
  hold up to that step (`DesyncedExactly`); there conservation is lost unless the bytes in flight happen to
  read as other frames with the same data (`ConservationAfterFailure`, `LossCanStayHidden`), and there is a
  run from the start that ends in other bytes being delivered (`DesyncedServerDeliversOtherBytes`).
- The sender accepts queues of up to 65520 bytes, the receiver frames of up to 65512, and data that begins with
  CLOSE_NOTIFY is taken for a close: exactly these frames can never be delivered (`SentDeliverableExactly`).
- The COSE splice patches one length byte, which is right exactly for signatures whose length stands in
  bytes of its own and is below 256.
- The grub.cfg search stops one position early. A grub match without digest does not count, but an event that is
  tried for grub.cfg is not looked at for the kernel.
- The pass of the replay over EV_NO_ACTION events extends nothing: for these the parser reads no digests.
- cJSON_Compare answers false for an object and its own copy exactly when a name is repeated with another
  value (`EqualsItsCopy`). A \u escape with bad digits reads as U+0000, and any byte up to 32 is whitespace.
- A name at the very end of an event is not found by the grub.cfg search (`GrubCfgAtEndMissed`).
- cJSON_PrintPreallocated asks for one byte more than the text and its NUL need.
- A kernel file longer than the size its header states is not refused: it is copied past the end of the buffer
  made for it, exactly when `LongerThanStated` says so.
- The client of the key hand-over reports success, and sets its own slot to READY, also when its request to
  send the key was cut short, when the answer was not an acknowledgement, and when it was only to dump
  the event log (`StartupSends`, `ReadyWhenCutShort`, `ReadyWhenRefused`, `ReadyWhenDumped`).
- A client that cannot read the file of its disk key announces the key and goes on: the server takes the request
  to send the migration key for the file and comes to no package. The server reads at most 4096 bytes of that
  file at once and takes the rest for requests: from 4432 bytes on a file can end in a package of its own
  (`OnlyTheClientsKey`, `LongFileOffersItself`).

## Model

| member | source | states |
|---|---|---|
| JsonEscape.ParseHex4 | attestation/rim_ref/src/cJSON.c:634-667 | Four hex digits give their value in any letter case; any other four bytes give 0. |
| JsonVocabulary.HexDigitValues | attestation/rim_ref/src/cJSON.c:634-667 | The digits 0-9, a-f and A-F have the values 0 to 15, |
| JsonVocabulary.OnlyHexDigits | attestation/rim_ref/src/cJSON.c:634-667 | and no other byte is one. |
| JsonVocabulary.FourDigits | attestation/rim_ref/src/cJSON.c:634-667 | Four of them make a number, the first the most significant. |
| JsonEscape.LiteralIsUtf16 | attestation/rim_ref/src/cJSON.c:681-732 | An escape decodes to a scalar value over a length exactly when what stands there spells the UTF-16 form of that scalar in \u groups that lie before the end of the string, so lone surrogates and truncated input are rejected and nothing else of valid digits is. |
| JsonVocabulary.SurrogatePair | attestation/rim_ref/src/cJSON.c:698-732 | The UTF-16 form of a scalar above U+FFFF is the pair that RFC 8259 section 7 gives. |
| JsonEscape.BadDigitsReadAsZero | attestation/rim_ref/src/cJSON.c:634-732 | A \u followed by four bytes that are not all hex digits is accepted as U+0000. |
| JsonEscape.Utf8RoundTrip | attestation/rim_ref/src/cJSON.c:734-783 | RFC 3629 section 3: decoding the encoding of a scalar value gives it back. |
| JsonEscape.Utf8Decodes | attestation/rim_ref/src/cJSON.c:734-783 | And only the encoding of a scalar value decodes to it: the 1 to 4 byte forms are the shortest ones. |
| JsonEscape.Utf16LiteralToUtf8 | attestation/rim_ref/src/cJSON.c:671-789 | The decoder accepts exactly the literals above, writes the RFC 3629 form of the scalar behind what was written before, and reports the length consumed. |
| JsonEscape.EncodeUtf8 | attestation/rim_ref/src/cJSON.c:734-783 | The bytes built with shifts, masks and marks are the RFC 3629 form; nothing before them changes. |
| JsonEscape.EncodeTail | attestation/rim_ref/src/cJSON.c:766-772 | The continuation bytes written from the back are those of that form, and what is left of the code point belongs to the lead byte. |
| JsonParser.ValueDepth | attestation/rim_ref/src/cJSON.c:1336-1388 | A value parsed at depth d has at most 1000 - d containers nested in it; a finished parse ends behind where it began, a failed one not before it. |
| JsonParser.NextBoundary | attestation/rim_ref/src/cJSON.c:805-835 | From any boundary of the first pass there is one at or one byte after any later position, and the bytes between count at most double. |
| JsonParser.PlainFits | attestation/rim_ref/src/cJSON.c:840-845 | A plain byte keeps the two passes of parse_string in step. |
| JsonParser.EscapeFits | attestation/rim_ref/src/cJSON.c:846-892 | So does every escape, also a malformed \u that makes the second pass jump over a boundary of the first. |
| JsonParser.ParseBuffer.DecodeString | attestation/rim_ref/src/cJSON.c:838-896 | The second pass writes the decoded string and leaves room for its NUL in the buffer the first pass sized, for every input; it fails exactly where the decoding does. |
| JsonParser.ParseBuffer.FindStringEnd | attestation/rim_ref/src/cJSON.c:805-836 | The first pass finds the closing quote, if there is one inside the buffer, and the size it allocates is the number of units it counted. |
| JsonParser.ParseBuffer.DecodeEscape | attestation/rim_ref/src/cJSON.c:846-892 | One escape: its bytes are written and its length is consumed, or the string is rejected there. |
| JsonParser.ParseBuffer.SkipWhitespace | attestation/rim_ref/src/cJSON.c:1058-1081 | Moves to the next byte above 32, and steps back onto the last byte when there is none; never past the end. |
| JsonParser.ParseBuffer.ParseNumber | attestation/rim_ref/src/cJSON.c:307-381 | Takes at most 63 number bytes, hands them to strtod and moves over what strtod consumed; nothing consumed is an error. |
| JsonParser.ParseBuffer.ParseString | attestation/rim_ref/src/cJSON.c:792-919 | The string at the offset up to a decoded NUL, the offset then behind its closing quote, or the failure position. |
| JsonParser.ParseBuffer.ParseValue | attestation/rim_ref/src/cJSON.c:1336-1388 | Ends for every buffer, reads only inside it, keeps the offset inside it, restores the depth on success, and agrees with the reference parser on value and position. |
| JsonParser.ParseBuffer.ParseArray | attestation/rim_ref/src/cJSON.c:1465-1560 | The same for arrays, including the nesting limit and the failure positions. |
| JsonParser.ParseBuffer.ParseItems | attestation/rim_ref/src/cJSON.c:1497-1537 | The comma loop gives the items in order. |
| JsonParser.ParseBuffer.ParseObject | attestation/rim_ref/src/cJSON.c:1625-1740 | The same for objects. |
| JsonParser.ParseBuffer.ParseMembers | attestation/rim_ref/src/cJSON.c:1655-1718 | The comma loop gives the members in order, repeated names kept. |
| JsonParser.ParseBuffer.ParseMember | attestation/rim_ref/src/cJSON.c:1681-1711 | Name, colon and value of one member. |
| JsonParser.ParseWithLengthOpts | attestation/rim_ref/src/cJSON.c:1115-1192 | A whole buffer: byte order mark, item, optional check for a NUL behind it, end or error position. |
| JsonGrammar.ValueParses | attestation/rim_ref/src/cJSON.c:1336-1740 | Completeness: every text of the grammar, with any escapes, any number that strtod reads whole and any whitespace, parses to its meaning and ends at its end, wherever it stands in a buffer. |
| JsonAccepted.ValueIsText | attestation/rim_ref/src/cJSON.c:1336-1740 | Soundness: whatever parse_value accepts is a text of the grammar, and the value it returns is what that text means. |
| JsonAccepted.ParsesExactly | attestation/rim_ref/src/cJSON.c:1336-1740 | Both together: a value is read exactly where the spelling of a text that means it stands and it nests at most 1000 deep. |
| JsonGrammar.StringExactly | attestation/rim_ref/src/cJSON.c:792-919 | parse_string accepts exactly the quoted texts, as what they denote, whatever stands around them. |
| JsonGrammar.StringOfPieces | attestation/rim_ref/src/cJSON.c:792-919 | A string spelt with plain bytes, short escapes and \u escapes of scalar values is such a text and denotes these. |
| JsonVocabulary.LettersRead | attestation/rim_ref/src/cJSON.c:855-880 | The letters of the one-letter escapes and the bytes they stand for, |
| JsonVocabulary.OnlyLettersRead | attestation/rim_ref/src/cJSON.c:855-892 | and no other letter is one. |
| JsonVocabulary.EscapeRefused | attestation/rim_ref/src/cJSON.c:890-919 | A string is refused at the first backslash with another letter behind it. |
| JsonVocabulary.ValueRefused | attestation/rim_ref/src/cJSON.c:1336-1388 | A value is refused at its first byte if no value begins with that, |
| JsonVocabulary.ContainerRefused | attestation/rim_ref/src/cJSON.c:1465-1475 | and if it is the 1001st container (objects at lines 1625-1635). |
| JsonGrammar.IntParses | attestation/rim_ref/src/cJSON.c:307-381 | A decimal int followed by a delimiter is read as that int. |
| JsonPrinter.PrintBuffer.Ensure | attestation/rim_ref/src/cJSON.c:458-541 | Room for the bytes and a NUL, by growing and copying, exactly when the total fits the largest size allowed; what was written is kept. |
| JsonPrinter.PrintBuffer.UpdateOffset | attestation/rim_ref/src/cJSON.c:544-554 | Searching the NUL from the old offset finds the end of the text just written. |
| JsonPrinter.PrintBuffer.PrintNumber | attestation/rim_ref/src/cJSON.c:564-631 | The text of the number, with a NUL, if it fits. |
| JsonPrinter.PrintBuffer.CountEscapes | attestation/rim_ref/src/cJSON.c:949-973 | The first pass of print_string_ptr counts exactly the bytes escaping adds. |
| JsonPrinter.PrintBuffer.PrintString | attestation/rim_ref/src/cJSON.c:922-1041 | Writes the quoted and escaped text and its NUL, inside the room reserved, exactly when it fits. |
| JsonPrinter.PrintBuffer.WriteEscaped | attestation/rim_ref/src/cJSON.c:992-1036 | The copying loop writes the escaped form of the string and nothing before it changes. |
| JsonPrinter.PrintBuffer.PrintValue | attestation/rim_ref/src/cJSON.c:1391-1462 | In-place printing refines Render: the buffer holds the old text, the text of the value and a NUL; it succeeds exactly when that and one byte fit the largest size allowed, and no byte at or past the length is written. |
| JsonPrinter.PrintBuffer.PrintArray | attestation/rim_ref/src/cJSON.c:1563-1622 | The same for arrays, with the depth restored. |
| JsonPrinter.PrintBuffer.PrintItems | attestation/rim_ref/src/cJSON.c:1586-1610 | Items and separators in order. |
| JsonPrinter.PrintBuffer.PrintObject | attestation/rim_ref/src/cJSON.c:1743-1854 | The same for objects, formatted or not. |
| JsonPrinter.PrintBuffer.PrintMembers | attestation/rim_ref/src/cJSON.c:1770-1834 | Members, indentation and separators in order. |
| JsonPrinter.Print | attestation/rim_ref/src/cJSON.c:1207-1273 | The printed block is the rendered text and its NUL, in a block of that size. |
| JsonPrinter.PrintBuffered | attestation/rim_ref/src/cJSON.c:1285-1314 | Whatever the guess of the size, the result is the same text. |
| JsonPrinter.PrintPreallocated | attestation/rim_ref/src/cJSON.c:1316-1333 | True exactly when the text, its NUL and one more byte fit the caller's buffer, and then the whole text is there. |
| JsonVocabulary.LettersPrinted | attestation/rim_ref/src/cJSON.c:1000-1030 | The bytes written as a backslash and a letter, the slash not among them; |
| JsonVocabulary.OthersPrinted | attestation/rim_ref/src/cJSON.c:992-1036 | other control characters are written as \u00 and two small hex digits, every other byte as it is. |
| JsonVocabulary.ArrayPrinted | attestation/rim_ref/src/cJSON.c:1563-1622 | An array is its printed items with commas between them, formatted with a comma and a space, in brackets. |
| JsonVocabulary.ObjectPrinted | attestation/rim_ref/src/cJSON.c:1743-1854 | An object is name, colon and value of its members with commas between them, in braces; formatted, one member a line, with a tab behind the colon and as many before the name as containers are open. |
| JsonRoundTrip.RoundTrip | attestation/rim_ref/src/cJSON.c:1336-1854 | Parsing what is printed, formatted or unformatted, gives back the very tree, with member order and repeated names, exactly when it nests at most 1000 deep. |
| JsonRoundTrip.DocumentParses | attestation/rim_ref/src/cJSON.c:1115-1192 | A text of the grammar with whitespace around it and a NUL behind parses to its meaning. |
| JsonRoundTrip.MarkedDocumentParses | attestation/rim_ref/src/cJSON.c:1084-1192 | So it does behind the byte order mark EF BB BF. |
| JsonRoundTrip.TextPrinted | attestation/rim_ref/src/cJSON.c:1391-1854 | What the printer renders for a tree is the spelling of a text, |
| JsonRoundTrip.TextMeans | attestation/rim_ref/src/cJSON.c:1391-1854 | which is one of the grammar and has that tree as its meaning. |
| JsonCompare.CaseInsensitiveStrcmp | attestation/rim_ref/src/cJSON.c:133-152 | Zero exactly for names equal after lowering. |
| JsonCompare.GetObjectItem | attestation/rim_ref/src/cJSON.c:1909-1939 | The first member with the name, or none. |
| JsonCompare.Compare | attestation/rim_ref/src/cJSON.c:3030-3153 | True for one and the same item; else ends although members are compared both ways with swapped arguments, and computes Same. |
| JsonCompare.CompareMembers | attestation/rim_ref/src/cJSON.c:3112-3148 | Every member of one object is found equal in the other. |
| JsonCompare.CompareSymmetric | attestation/rim_ref/src/cJSON.c:3030-3153 | The comparison is symmetric. |
| JsonCompare.CompareDecidesEquality | attestation/rim_ref/src/cJSON.c:3030-3153 | On integer trees it answers true exactly when the values are equal, objects as unordered maps and arrays as sequences, and neither tree repeats a name with another value. |
| JsonCompare.DistinctIsConsistent | attestation/rim_ref/src/cJSON.c:1909-1939 | Trees without repeated names repeat none with another value, so there it decides equality. |
| JsonCompare.EqualsItsCopy | attestation/rim_ref/src/cJSON.c:3112-3148 | A tree and its copy compare as equal exactly when it repeats no name with another value. |
| JsonCompare.RepeatedNamesBreakReflexivity | attestation/rim_ref/src/cJSON.c:3112-3148 | An object that is not equal to its copy. |
| JsonVocabulary.ScalarsCompared | attestation/rim_ref/src/cJSON.c:3030-3090 | Any two numbers are equal up to 2^-52 of the larger one, texts byte for byte, and values of different kinds never (compare_double at lines 557-561). |
| JsonVocabulary.CapitalsLowered | attestation/rim_ref/src/cJSON.c:133-152 | Lookups without case take capitals for small letters and nothing else. |
| JsonChildList.Item.GetArrayItem | attestation/rim_ref/src/cJSON.c:1880-1897 | The child at an index, or null. |
| JsonChildList.Item.AddItemToArray | attestation/rim_ref/src/cJSON.c:1985-2016 | Appends; the list stays linked both ways with head.prev the tail. |
| JsonChildList.Item.DetachItemViaPointer | attestation/rim_ref/src/cJSON.c:2216-2250 | Removes the item from the sequence and clears its links; all other links stay a list. |
| JsonChildList.Item.InsertItemInArray | attestation/rim_ref/src/cJSON.c:2292-2324 | Inserts before the index, or appends when there is none. |
| JsonChildList.Item.ReplaceItemViaPointer | attestation/rim_ref/src/cJSON.c:2326-2373 | Puts the replacement where the item was and clears the item's links. |
| JsonItems.ParseValueItem | attestation/rim_ref/src/cJSON.c:1336-1388 | parse_value building items: a new tree of linked items that holds exactly what the reference parser reads, or none where it fails. |
| JsonItems.ParseArrayItem | attestation/rim_ref/src/cJSON.c:1465-1560 | The same for arrays. |
| JsonItems.ParseElements | attestation/rim_ref/src/cJSON.c:1497-1537 | The comma loop hangs every parsed item behind the one before; the chain holds the items read, in order. |
| JsonItems.ParseObjectItem | attestation/rim_ref/src/cJSON.c:1625-1740 | The same for objects. |
| JsonItems.ParseMemberItems | attestation/rim_ref/src/cJSON.c:1655-1718 | Members become items with their names, repeated names kept, in order. |
| JsonItems.ParseDocument | attestation/rim_ref/src/cJSON.c:1115-1192 | The items of a whole document, all new, every child list linked both ways. |
| JsonItems.ItemsDetermine | attestation/rim_ref/src/cJSON.c:1336-1740 | The items hold all of a value: no two values, or names, have the same items. |
| JsonItems.KindBits | attestation/rim_ref/inc/cJSON.h:90-97 | The type of an item is one bit each. |
| JsonChildList.HangBehind | attestation/rim_ref/src/cJSON.c:2802-2814 | One linking step keeps the chain and every tree that hangs on it. |
| JsonChildList.Adopt | attestation/rim_ref/src/cJSON.c:2817-2820 | Setting the head's prev at the end makes the chain a child list of the copy. |
| JsonChildList.CopyChildren | attestation/rim_ref/src/cJSON.c:2790-2816 | The loop of cJSON_Duplicate_rec copies the children in order, or fails at the depth limit. |
| JsonChildList.DuplicateRec | attestation/rim_ref/src/cJSON.c:2747-2831 | A copy made of fresh items only, of the same shape, its lists linked, with the original untouched; it fails exactly when an item lies more than 10000 levels down. |
| GenRimRef.FieldReads | attestation/rim_ref/src/gen_rim_ref.c:227-351 | A field of a descriptor can be read back from its bytes. |
| GenRimRef.DescriptorInjective | attestation/rim_ref/src/gen_rim_ref.c:265-351 | Equal data or TEC descriptors have the same kind, RIM, content digest and address. |
| GenRimRef.ChainBinds | attestation/rim_ref/src/gen_rim_ref.c:227-351 | Equal chain values come from the same CVM descriptor and the same steps, or two different hashed inputs collide; chains of different length are told apart by size and type of their last input. |
| GenRimRef.CvmDescriptorBinds | attestation/rim_ref/src/gen_rim_ref.c:227-263 | The CVM descriptor determines the parameters up to the width of its fields. |
| GenRimRef.StepsSplit | attestation/rim_ref/src/gen_rim_ref.c:471-520 | Granules and vCPUs cannot be confused: the measured sequence splits in one way. |
| GenRimRef.RimBinds | attestation/rim_ref/src/gen_rim_ref.c:497-520 | Two runs with the same RIM agree on the stored parameters, the ordered granules with their addresses, the number of vCPUs and the entry point, or two different inputs hashed by them collide. |
| GenRimRef.Measurement.MeasureTmiCvmCreate | attestation/rim_ref/src/gen_rim_ref.c:227-263 | The in-place descriptor has the fields at their offsets, and the RIM becomes its digest. |
| GenRimRef.Measurement.MeasureTmiDataCreate | attestation/rim_ref/src/gen_rim_ref.c:301-352 | The RIM is extended by the descriptor of the granule. |
| GenRimRef.Measurement.MeasureTmiTecCreate | attestation/rim_ref/src/gen_rim_ref.c:265-299 | The RIM is extended by the descriptor of the vCPU. |
| GenRimRef.Measurement.MeasureCreateTecs | attestation/rim_ref/src/gen_rim_ref.c:354-368 | One extension for every vCPU, only the first with an entry point and runnable (`VcpuHashed` states the bytes). |
| GenRimRef.Measurement.MeasureRimBlobs | attestation/rim_ref/src/gen_rim_ref.c:471-495 | One extension for every whole granule of every blob, in list order. |
| GenRimRef.GenerateRimReference | attestation/rim_ref/src/gen_rim_ref.c:497-520 | The loops compute the chain over the CVM descriptor, the granules and the vCPUs, whose bytes the next four rows state. |
| RimFormat.CvmHashed | attestation/rim_ref/src/gen_rim_ref.c:370-408 | On the hashed bytes: the first input has SVE as bit 1 and the PMU as bit 2 of its flags, the width 40, the vector length in units of 128 bits and the number of counters at their offsets, zeros elsewhere, and the RIM is the chain over it and the steps (layout in gen_rim_ref.h). |
| RimFormat.VcpuHashed | attestation/rim_ref/src/gen_rim_ref.c:354-368 | There is one step for every vCPU, their number modulo 2^32: the first has the entry point, 1 GiB without firmware, behind 64 zeros and is marked runnable; every other is 80 zeros. |
| RimFormat.GranuleHashed | attestation/rim_ref/src/gen_rim_ref.c:471-495 | Before them stand the 4 KiB granules of the blobs with their addresses, in list order, nothing else. |
| RimFormat.ChainHashed | attestation/rim_ref/src/gen_rim_ref.c:265-352 | Every step's digest is that of its descriptor written out: type, length 256, the value so far, for granules address and flag, and the digest of the content. |
| BlobList.InsertKeepsOrder | attestation/rim_ref/src/gen_rim_ref.c:428-460 | Insertion keeps the list strictly ascending, adds just the new entry, and changes nothing for a taken address. |
| BlobList.InsertionOrderIrrelevant | attestation/rim_ref/src/gen_rim_ref.c:428-460 | Adding the same blobs in any order gives the same list, hence the same RIM. |
| BlobList.AscendingUnique | attestation/rim_ref/src/gen_rim_ref.c:428-460 | A strictly ascending list is determined by its elements. |
| BlobList.List.Walk | attestation/rim_ref/src/gen_rim_ref.c:444-447 | The walk stops at the first blob at or above the address. |
| BlobList.List.Splice | attestation/rim_ref/src/gen_rim_ref.c:454-456 | Overwriting one link puts the new blob in its place. |
| BlobList.List.AddRimBlob | attestation/rim_ref/src/gen_rim_ref.c:428-460 | The linked list becomes the sorted insertion; null exactly for a taken address, and then nothing changes. |
| BootLayout.OrMask | attestation/rim_ref/inc/gen_rim_ref.h:69-70 | Setting the low bits of a number, bit by bit, rounds it up to one below a multiple. |
| BootLayout.RoundUpIsLeastMultiple | attestation/rim_ref/inc/gen_rim_ref.h:69-70 | round_up in 64 bits is the least multiple that is at least the argument, except for 0 and for multiples beyond 64 bits, where it is 0. |
| BootLayout.DefaultSize | attestation/rim_ref/src/gen_rim_ref.c:86-88 | Buffers for device tree and ramdisk are whole 2 MiB blocks with room for a byte more than the file. |
| BootLayout.KernelSize | attestation/rim_ref/src/gen_rim_ref.c:72-78 | The buffer of a kernel has the image size of its header in whole pages. |
| BootLayout.OnlyKernelsOverrun | attestation/rim_ref/src/gen_rim_ref.c:71-105 | The copy leaves its buffer exactly for kernel files with the magic, a stated size from 1 to 1 GiB, and more bytes than that size in whole pages. |
| BootLayout.OverrunningKernel | attestation/rim_ref/src/gen_rim_ref.c:71-105 | Such as every file of more than a page whose header states a size of 1. |
| BootLayout.LoadFileData | attestation/rim_ref/src/gen_rim_ref.c:58-111 | What the buffer holds after the copy, the file padded with zeros or as much of it as there is room for; or a failure for unreadable, unrecognised, empty or too large files; and whether the copy went on behind the buffer. |
| BootLayout.LoaderAddresses | attestation/rim_ref/src/gen_rim_ref.c:113-140 | The two addresses the loader's instructions load are those of the device tree and of the kernel. |
| BootLayout.LoadDataToBlobs | attestation/rim_ref/src/gen_rim_ref.c:522-542 | Loads and inserts, or leaves the list as it was. |
| BootLayout.BuildKernelBlobs | attestation/rim_ref/src/gen_rim_ref.c:566-605 | The list becomes the layout of a direct kernel boot, or is emptied exactly when a file is not acceptable. |
| BootLayout.SeparateIffApart | attestation/rim_ref/src/gen_rim_ref.c:471-495 | The granules of an ascending list are at ascending, non-overlapping addresses exactly when its blobs do not overlap. |
| BootLayout.KernelLayoutSeparate | attestation/rim_ref/src/gen_rim_ref.c:566-600 | A direct kernel boot measures every granule once, at strictly increasing addresses, exactly when the rounded kernel image is at most 126 MiB. |
| BootLayout.LayoutAddresses | attestation/rim_ref/src/gen_rim_ref.c:566-600 | The loader is at 1 GiB, the kernel 2 MiB behind it, the ramdisk 128 MiB behind it, the device tree behind the ramdisk or in its place. |
| BootLayout.BufferHolds | attestation/rim_ref/src/gen_rim_ref.c:99-105 | A loaded buffer holds the file, as far as there is room, and zeros behind it. |
| BootLayout.KernelsAccepted | attestation/rim_ref/src/gen_rim_ref.c:71-98 | A kernel is accepted exactly with the arm64 magic at offset 56, a file above 60 bytes and a stated size from 1 byte to 1 GiB; |
| BootLayout.OthersAccepted | attestation/rim_ref/src/gen_rim_ref.c:79-98 | device trees and ramdisks exactly below 1 GiB, firmware up to 128 MiB. |
| BootLayout.LoaderBytes | attestation/rim_ref/src/gen_rim_ref.c:113-140 | The loader's six instructions, and zeros behind its two addresses. |
| MeasurePe.SortedHolds | cvm-image-rewriter/measure_pe.c:389-397 | The section order is ascending by file offset and keeps the order of sections at the same offset, none lost or invented. |
| MeasurePe.StableSortUnique | cvm-image-rewriter/measure_pe.c:389-397 | There is only one such order. |
| MeasurePe.SortSections | cvm-image-rewriter/measure_pe.c:389-397 | The insertion sort in place computes it. |
| MeasurePe.InsertInPlace | cvm-image-rewriter/measure_pe.c:390-396 | Its inner loop moves one section to its place. |
| MeasurePe.HashOptionalHeaderPart | cvm-image-rewriter/measure_pe.c:309-370 | Absorbs the headers without the checksum and, with more than 4 directories, without the entry of the certificate table. |
| MeasurePe.CopyAndSortSections | cvm-image-rewriter/measure_pe.c:372-401 | The sections of the table, sorted; `HeadersRead` states which fields of the table these are. |
| MeasurePe.HashSectionData | cvm-image-rewriter/measure_pe.c:403-420 | Absorbs the data of the sections in that order and adds up their sizes. |
| MeasurePe.ProcessTrailingData | cvm-image-rewriter/measure_pe.c:422-444 | Absorbs what follows, up to the certificate table. |
| MeasurePe.MeasurePeImage | cvm-image-rewriter/measure_pe.c:446-500 | The digest of the stream, or a refusal exactly for images without PE signature; `MeasuredBytes` states the stream in the terms of the format. |
| MeasurePe.SigningInvariance | cvm-image-rewriter/measure_pe.c:309-444 | Signing (new checksum, directory entry of size n, n bytes appended) leaves the hashed bytes unchanged, whatever is written, exactly when no section's data covers the rewritten fields. |
| MeasurePe.SameHeaders | cvm-image-rewriter/measure_pe.c:290-370 | The rewritten bytes decide nothing about where headers and sections are. |
| MeasurePe.ContiguousStream | cvm-image-rewriter/measure_pe.c:309-444 | For sections that follow the headers without gaps the stream is the file without checksum, directory entry and certificate table. |
| PeFormat.HeadersRead | cvm-image-rewriter/measure_pe.c:290-444 | Of an image whose headers are written as the PE format says (structures at lines 45-191), DOS header or none, PE32 or PE32+, the measurement reads what was written: the PE header's place, the size of the headers, the place of the checksum, the entry and size of the certificate table, and of section i its PointerToRawData and SizeOfRawData. |
| PeFormat.MeasuredBytes | cvm-image-rewriter/measure_pe.c:309-444 | What is hashed of such an image, gaps and overlaps between sections included: the headers without checksum and entry, the data of the sections in the one stable ascending order, and the image from the sum of these sizes up to the certificate table. |
| ShareQueue.Queue.IsRecvQueueFull | migcvm-agent/src/integrity_check/integrity_check_handler.c:144-149 | Full exactly when the data would not fit. |
| ShareQueue.Queue.EnqueueRecvData | migcvm-agent/src/integrity_check/integrity_check_handler.c:151-166 | Appends the data; -1 exactly when the queue is then full. |
| ShareQueue.Queue.SendQueueData | migcvm-agent/src/integrity_check/integrity_check_handler.c:168-197 | On success the whole frame has gone out, over any short writes, and the queue is empty and wiped; on failure a proper part has and the queue is kept; a channel that does not fail leads to success. |
| ShareQueue.ReceiveAll | migcvm-agent/src/integrity_check/integrity_check_handler.c:230-241 | Collects exactly the bytes asked for over any short reads, each of which is a step of the machine; the loop at lines 270-283 is the same. |
| ShareQueue.TransmitAll | migcvm-agent/src/integrity_check/integrity_check_handler.c:181-192 | Sends all bytes over any short writes, or a proper prefix; each write is a step of the machine. |
| IntegrityChannel.EveryRunIsSafe | migcvm-agent/src/integrity_check/integrity_check_handler.c:144-336 | Over all runs of two agents and all short reads and writes: the receive queue never exceeds its size, bytes produced are bytes consumed, the receive queue, the payload in flight and the send queue, in that order, while the receiver runs, and delivered bytes are always a prefix of those produced; the agents run the loop at lines 619-680. |
| IntegrityChannel.NextKeepsInv | migcvm-agent/src/integrity_check/integrity_check_handler.c:619-680 | Every step of either agent keeps this. |
| IntegrityChannel.SenderKeepsFlow | migcvm-agent/src/integrity_check/integrity_check_handler.c:168-197 | The sender's steps keep it, also a transmission that fails half way and a close notification cut short. |
| IntegrityChannel.ReceiverKeepsFlow | migcvm-agent/src/integrity_check/integrity_check_handler.c:220-298 | So do the receiver's. |
| IntegrityChannel.PayloadIsOldestFrame | migcvm-agent/src/integrity_check/integrity_check_handler.c:220-298 | A payload read completely is that of the oldest frame in flight, or a close notification. |
| IntegrityChannel.CloseIsNoData | migcvm-agent/src/integrity_check/integrity_check_handler.c:314-336 | The remains of a close notification are never taken for data: a length cut short is far too large. |
| IntegrityRuns.DeliveredExactly | migcvm-agent/src/integrity_check/integrity_check_handler.c:220-298 | A frame that has come to a receiver with room for it can be delivered exactly when it is at most 65512 bytes long and is no close; else nothing is delivered any more. |
| IntegrityRuns.SentDeliverableExactly | migcvm-agent/src/integrity_check/integrity_check_handler.c:168-298 | The same for what the sender sends as one frame, which may have 65520 bytes, over all runs of both agents. |
| IntegrityRuns.ConservationAfterFailure | migcvm-agent/src/integrity_check/integrity_check_handler.c:248-261 | When a server's call into the TMM fails while it waits for room, conservation is lost at once, except exactly when the rest of the frame and the frames behind it read as other frames with the same data; always when no other frame is in flight. |
| IntegrityRuns.LossCanStayHidden | migcvm-agent/src/integrity_check/integrity_check_handler.c:248-261 | There are frames for which that is so. |
| IntegrityRuns.DesyncedServerDeliversOtherBytes | migcvm-agent/src/integrity_check/integrity_check_handler.c:248-261 | A run from the start in which a server loses the framing and conservation in that way, goes on, and delivers bytes that are not a prefix of those produced; see also the test at lines 660-664. |
| IntegrityClose.LastIoctlExactly | migcvm-agent/src/integrity_check/integrity_check_handler.c:619-640 | Over all runs: an ioctl of the main loop is an agent's last exactly when it returns an input error, or at a client success or failure, or leaves more queued than a frame holds; after any other return there are runs to the next. |
| IntegrityClose.LastIoctlCloses | migcvm-agent/src/integrity_check/integrity_check_handler.c:619-629 | Such a return makes the agent put the length 12 and CLOSE_NOTIFY out, on a channel that takes it, and stop. |
| IntegrityClose.CloseCutShort | migcvm-agent/src/integrity_check/integrity_check_handler.c:314-336 | Either part of the notification may be cut short by the channel; it is not sent again. |
| IntegrityClose.LastReceiveExactly | migcvm-agent/src/integrity_check/integrity_check_handler.c:248-336 | After a message there are runs to another ioctl exactly when it is no close and does not fill the queue, and the last return while waiting for room was no error number, no input error, and at a client neither success nor failure (the test at lines 660-669). |
| IntegrityClose.LastReceiveCloses | migcvm-agent/src/integrity_check/integrity_check_handler.c:656-680 | Otherwise the agent tells its peer, unless the message was the peer's own close. |
| IntegrityClose.WaitingExactly | migcvm-agent/src/integrity_check/integrity_check_handler.c:248-261 | While it waits for room a client stops when the TMM fails; a server goes on; any other return is kept for that test. |
| IntegrityClose.WaitingSends | migcvm-agent/src/integrity_check/integrity_check_handler.c:248-256 | Before it asks for room it sends what is queued as one frame. |
| IntegrityClose.FailureExactly | migcvm-agent/src/integrity_check/integrity_check_handler.c:619-680 | A failing call ends the loop wherever it happens; the peer is told exactly if it happened while receiving and the channel can still transmit. |
| IntegrityClose.NotificationEnds | migcvm-agent/src/integrity_check/integrity_check_handler.c:285-290 | An agent before which a notification stands makes no further ioctl in any run, |
| IntegrityClose.NotificationRead | migcvm-agent/src/integrity_check/integrity_check_handler.c:285-290 | and reading it leaves it done, with nothing sent. |
| IntegrityClose.BothEnd | migcvm-agent/src/integrity_check/integrity_check_handler.c:619-680 | When a client's ioctl returns success or failure there is a run in which it tells the server and both are done. |
| SlaveThreads.EveryRunIsSafe | migcvm-agent/src/integrity_check/integrity_check_handler.c:338-454 | For any number of slaves and any interleaving, posts are the semaphore's value plus rounds begun; after the stop has posted, a waiting slave has a positive semaphore and begins at most one more round. |
| SlaveThreads.StoppedSlaveLeaves | migcvm-agent/src/integrity_check/integrity_check_handler.c:338-369 | A slave the stop has posted to is never blocked, and each step but a repeated ioctl brings it closer to leaving. |
| SlaveThreads.NotifyWakesAll | migcvm-agent/src/integrity_check/integrity_check_handler.c:440-454 | When the master is back from waking the slaves it has posted once to every one created and to no other, whatever they did meanwhile. |
| SlaveThreads.LastRound | migcvm-agent/src/integrity_check/integrity_check_handler.c:350-366 | Once the flag is set no slave begins more than one further round in any run; |
| SlaveThreads.FatalErrorStops | migcvm-agent/src/integrity_check/integrity_check_handler.c:356-362 | a fatal error at any slave sets it. |
| SlaveThreads.RoundEnds | migcvm-agent/src/integrity_check/integrity_check_handler.c:354-363 | A round lasts until success or such an error. |
| BinaryBlob.Cursor.Uint16 | attestation/samples/src/binary_blob.c:38-52 | The little-endian value and the cursor behind it, or 0 and no move at the end; likewise Uint8, Uint32 and Bytes. |
| BinaryBlob.ReadsUint | attestation/samples/src/binary_blob.c:38-75 | What was written little-endian is read back. |
| Bytes.LittleEndianDigits | attestation/samples/src/binary_blob.c:38-75 | Byte i of a little-endian field is digit i. |
| EventLog.ProcessEventLogEntry | attestation/samples/src/event_log.c:31-159 | The cursor parser computes the reference decoder and leaves the cursor behind the entry. |
| EventLog.EntryDecoded | attestation/samples/src/event_log.c:31-159 | Every well-formed Spec ID event and every event with SHA-256 digests and at most 10240 bytes of data is decoded to exactly what was written. |
| EventLog.LogDecoded | attestation/samples/src/event_log.c:31-159 | Walking a log visits exactly its events, in order, and stops at its end or at the 0xFF fill. |
| EventLog.DecodedExactly | attestation/samples/src/event_log.c:100-159 | An event of another type than 3 that can be written at all is decoded exactly when its data is at most 10240 bytes long. |
| EventLog.Log.Pass | attestation/samples/src/event_log.c:430-489 | The pass over Spec ID events changes no register; the other extends registers by the events before its cursor. |
| EventLog.Log.Replay | attestation/samples/src/event_log.c:406-510 | After both passes every register is one left fold of the hash over the first digests of its events, other registers untouched. |
| EventLog.RegistersFolded | attestation/samples/src/event_log.c:40-60 | Registers start at zero; an event with a digest extends the register of its index less one, index 0 the first, and leaves the others. |
| FirmwareState.FindSubstring | attestation/samples/src/firmware_state.c:68-80 | Finds a text exactly when it occurs. |
| FirmwareState.IsGrubCfg | attestation/samples/src/firmware_state.c:31-43 | Finds the name of the configuration file exactly when it occurs before the last byte. |
| FirmwareState.GrubCfgSearchedWithoutLastByte | attestation/samples/src/firmware_state.c:31-39 | That is searching the event without its last byte, so a name at the very end is missed, |
| FirmwareState.GrubCfgAtEndMissed | attestation/samples/src/firmware_state.c:31-43 | as in this well-formed event, which names the configuration file and is not taken for it. |
| FirmwareState.CountImages | attestation/samples/src/firmware_state.c:199-212 | The array is large enough for every image hash that is stored. |
| FirmwareState.State.Ipl | attestation/samples/src/firmware_state.c:226-263 | One EV_IPL entry keeps the state that of the first matches so far. |
| FirmwareState.State.Extract | attestation/samples/src/firmware_state.c:186-285 | Image hashes are the digests of the boot applications in log order; configuration, kernel and ramdisk are the first match, the first kernel after it and the first ramdisk after that. |
| FirmwareState.IsExactly | attestation/samples/src/firmware_state.c:31-60 | What is matched: by event type and the text grub.cfg with a byte behind it, /vmlinuz- or /initramfs- in an event without grub_cmd: (lines 226-263), always with a digest. |
| FirmwareState.FirstMatches | attestation/samples/src/firmware_state.c:226-263 | The configuration is the first match of the log, the kernel the first after it, the ramdisk the first after that. |
| TokenValidate.SignatureIsDerFormat | attestation/samples/src/token_validate.c:742-760 | Exactly the byte strings of at least 6 bytes that begin a SEQUENCE of a declared length that fits. |
| TokenValidate.LooksLikeDerExactly | attestation/samples/src/token_validate.c:742-760 | That is: 0x30, then a length below 128 in one byte, or in one byte after 0x81 or two after 0x82, that fits. |
| TokenValidate.DerSignaturesRecognised | attestation/samples/src/token_validate.c:742-760 | Every DER signature of the supported curves is recognised and is at most 141 bytes long. |
| TokenValidate.EcdsaSignatureDerToCose | attestation/samples/src/token_validate.c:667-739 | Writes r and s in fixed width, exactly when there is room, the curve is supported, the signature parses and both fit; `CurveWidths` states the width. |
| TokenValidate.RawSignatureHalves | attestation/samples/src/token_validate.c:712-731 | The two halves are r and s, big-endian (RFC 9053 section 2.1). |
| TokenValidate.CurveWidths | attestation/samples/src/token_validate.c:671-731 | A parsed signature is re-encoded exactly for P-256, P-384 and P-521 and numbers that fit the bytes of the curve, so always for numbers in its range, into r and s of ceil(bits / 8) bytes each, most significant first: 64, 96 and 132 bytes (RFC 9053 section 2.1). |
| TokenValidate.Splice | attestation/samples/src/token_validate.c:831-848 | The copies and the patched byte give the spliced message. |
| TokenValidate.ConvertSignature | attestation/samples/src/token_validate.c:805-858 | What verify_cvm_cose_sign and verify_plat_cose_sign (lines 484-537) verify instead of the message, for the signatures and widths of the rows around this. |
| TokenValidate.SpliceRoundTrip | attestation/samples/src/token_validate.c:831-848 | The rewritten message decodes to the same protected header, payload and trailing bytes with r and s as its signature, exactly when the DER signature's length stands in bytes of its own and is below 256. |
| TokenValidate.SpliceRoundTripShortest | attestation/samples/src/token_validate.c:831-848 | With shortest lengths: exactly for DER signatures of 24 to 255 bytes. |
| TokenValidate.MessageOfCurve | attestation/samples/src/token_validate.c:805-858 | So a message with a DER signature whose numbers are in the range of the curve is verified with such a signature in its place, exactly under that condition. |
| TokenValidate.LeftAlone | attestation/samples/src/token_validate.c:805-858 | A message that is not decoded, or whose signature does not look like DER or does not parse, or with a key of another curve, is verified as it is. |
| Cbor.DecodesEncoded | attestation/samples/src/token_validate.c:806-817 | The reference decoder of COSE_Sign1 with an empty unprotected map undoes encoding with lengths of any width. |
| Cbor.DecodedIsEncoded | attestation/samples/src/token_validate.c:806-817 | And nothing else is decoded: the message, in some widths, is what was read, and the signature stands where it is said to. |
| Cbor.FirstBytes | attestation/samples/src/token_validate.c:806-817 | Tag 18, an array of four, an empty map and byte strings, as RFC 8949 section 3 begins them. |
| KeyHandover.IsBound | migcvm-agent/src/rats_tls_handler/rats_tls_handler.c:274-280 | Finds the guest exactly when it is in the list of 256. |
| KeyHandover.Server.ReceiveAndSaveMsk | migcvm-agent/src/rats_tls_handler/rats_tls_handler.c:213-327 | The slot is set to READY exactly when a package of 80 bytes has come and the guest of the session is bound, with the key in it; success exactly when that is also accepted; nothing is left of the arguments. |
| KeyHandover.Server.DealClientReq | migcvm-agent/src/rats_tls_handler/rats_tls_handler.c:329-439 | Whatever requests come first, a slot is set only for the package that follows the request to send it, and at most once; what goes out and what is returned are those of Served, which the next four rows state in records. |
| KeySession.ServerAnswers | migcvm-agent/src/rats_tls_handler/rats_tls_handler.c:329-439 | All that goes out to a client's records: the table in one record, a log behind its size in eight bytes, nothing for an empty log of the IMA, and MSK_ACK in a buffer of 256 bytes; and how the session ends. |
| KeySession.OthersAnswered | migcvm-agent/src/rats_tls_handler/rats_tls_handler.c:370-438 | A passed attestation is answered and ends the session; anything that is no request is refused in words and is an error. |
| KeySession.LogInRecords | migcvm-agent/src/rats_tls_handler/rats_tls_handler.c:104-114 | On any channel the records of a log are together all of it if sending succeeds, and not all of it otherwise (the event log at lines 194-205). |
| KeySession.TableCutShort | migcvm-agent/src/rats_tls_handler/rats_tls_handler.c:146-170 | A table that does not go out whole ends the session in an error. |
| KeyHandover.OnlyTheClientsKey | migcvm-agent/src/rats_tls_handler/rats_tls_handler.c:329-439 | From a client's records, lost or cut short in any way, the only package a server comes to is the client's own; it comes to it when all arrive, and to none when the client could not read the file of the disk key it announced. |
| KeyHandover.LongFileOffersItself | migcvm-agent/src/rats_tls_handler/rats_tls_handler.c:122-143 | For every length from 4432 bytes on there is a disk key file of which the server takes the end for the migration key. |
| KeyHandover.ServeClient | migcvm-agent/src/rats_tls_handler/rats_tls_handler.c:1207-1210 | In a session with a client the slot gets the guest of the session, bound, and the key the client fetched. |
| KeyHandover.UnpackPackage | migcvm-agent/src/rats_tls_handler/rats_tls_handler.c:1549-1551 | Taking the package apart gives the key that was packed (on the server lines 289-291). |
| KeyHandover.Client.SendKey | migcvm-agent/src/rats_tls_handler/rats_tls_handler.c:1521-1558 | Sends the request and, when it is acknowledged, the package of the key it holds; a request cut short and another answer count as success. |
| KeyHandover.Client.Startup | migcvm-agent/src/rats_tls_handler/rats_tls_handler.c:1405-1558 | A client's session runs as the reference says: the IMA log, the firmware logs, the disk key, the key, with its error paths; it reports success unless it ended in a failure. |
| KeyHandover.StartupSends | migcvm-agent/src/rats_tls_handler/rats_tls_handler.c:1405-1558 | What a client sends is its requests in order, then the disk key, then the key, perhaps cut short; the package went out exactly in the sessions that ended with it, and the other sessions it reports as success are told by what they sent last. |
| KeyHandover.ReadyWhenCutShort | migcvm-agent/src/rats_tls_handler/rats_tls_handler.c:1521-1527 | A session without a package that is a success: the request cut short. |
| KeyHandover.ReadyWhenRefused | migcvm-agent/src/rats_tls_handler/rats_tls_handler.c:1529-1558 | Likewise an answer that is no acknowledgement. |
| KeyHandover.ReadyWhenDumped | migcvm-agent/src/rats_tls_handler/rats_tls_handler.c:1411-1426 | Likewise dumping the event log. |
| KeyHandover.Client.RequestAndSaveFirmwareData | migcvm-agent/src/rats_tls_handler/rats_tls_handler.c:860-944 | The requests for table and log; an empty table and a log of no or too large a size count as success. |
| KeyHandover.Client.DealFdeKey | migcvm-agent/src/rats_tls_handler/rats_tls_handler.c:821-857 | The disk key is announced, then sent; a file that cannot be read counts as success. |
| KeyHandover.Client.Handle | migcvm-agent/src/migcvm-agent.c:224-314 | A session is started exactly for a bound guest other than 0 whose key can be fetched, with that key; the client's own slot is asked to be READY exactly after such a session that did not end in a failure, once; and the arguments are cleared. |
| KeySession.SessionCompletes | migcvm-agent/src/rats_tls_handler/rats_tls_handler.c:1405-1558 | The loop closed, on channels that fail in nothing: given the server's answers to its records the client sends just these records and ends with all 80 bytes of the package sent, exactly when its checks pass; the server ends with the key, exactly when it can install it (lines 329-439). |
| KeySession.SentOnlyIfChecked | migcvm-agent/src/rats_tls_handler/rats_tls_handler.c:1405-1558 | On any channel the key goes out only to a connected server whose logs passed the checks asked for, and never when the log is only to be dumped. |
| KeySession.ImaRefused | migcvm-agent/src/rats_tls_handler/rats_tls_handler.c:647-700 | A log of the IMA announced with size 0 or above 1 GiB ends the session. |
| KeySession.LogPassedOver | migcvm-agent/src/rats_tls_handler/rats_tls_handler.c:860-944 | An event log announced with size 0 or above 2 MiB is passed over, and also after an empty table. |
| KeySession.DumpEnds | migcvm-agent/src/rats_tls_handler/rats_tls_handler.c:1411-1426 | When the logs are to be dumped the session ends there, as Dumped or in a failure. |
| KeySession.PackageLayout | migcvm-agent/src/rats_tls_handler/rats_tls_handler.c:1549-1551 | Key, vector and tag stand in the package in that order, in 32, 32 and 16 bytes. |

## Left out

- GetUint: states the getters on any blob, but log properties are stated for well-formed logs only; on a truncated log the source does not advance and may read past the blob.
- SessionCompletes: requires files of sizes the client takes; a table above 4096 bytes, of which the client receives only the front, is not followed further.
- HeadersRead: requires, as the rows of MeasurePe do, that the headers the measurement relies on lie inside the image; so does MeasuredBytes.
- Startup: verification of measurements and the saving of files are a branch per foreign result; failed allocations are left out.
- LoadFileData: what a copy that leaves its buffer overwrites there is not part of the model, which goes on as if nothing else were harmed.
- Handle: unpacking the message of the host and the test of the server address are left out.
- MeasurePeImage: requires that headers, section table and section data lie inside the image, which the source does not check.
- HashOptionalHeaderPart: likewise requires that the headers lie inside the image.
- CopyAndSortSections: likewise for the section table.
- HashSectionData: likewise for the data of the sections; a section is its offset and size, the other fields are copied by the source and never read.
- ProcessTrailingData: likewise for the headers.
- SigningInvariance: requires the section table to follow the data directories, as in the PE format; with an overlapping table signing could rewrite the table itself.
- PrintBuffered: models the growth by allocate, copy and free, not by realloc; with a prebuffer of 0 the copying in the source reads one byte past the old block.
- RoundTrip: numbers other than ints depend on strtod and "%1.15g" and are parameters.
- PrintNumber: numbers are reals; NaN and infinity, which the source prints as null, are not among them.
- CompareDecidesEquality: is stated for ints; equality up to an epsilon, which other doubles have, is no equivalence and is characterised for pairs (`ScalarsCompared`).
- ParseElements: the item is hung behind the last one after its value is parsed, in the source before; nothing reads the links in between.
- ParseValue: allocation failures and custom hooks are left out, here and in the printer; so is the release of items.
- DuplicateRec: reference items, const names and the release of a partial copy are left out.
- DetachItemViaPointer: requires that an item with a prev is one of the parent's children, as its callers look it up there.
- InsertItemInArray: requires a new item that is not in the list; an item appended keeps its next, which has to be null then.
- ReplaceItemViaPointer: requires that the item is one of the parent's children; the release of the replaced item is left out; so are cJSON_AddItemReferenceToArray and the object variants that set names.
- EveryRunIsSafe: the TMM acts on the queues only in the master's ioctl; a channel that has failed a transmission accepts no more bytes; timed joins and thread cancellation are not modelled.
- ConvertSignature: walking the message is the reference decoder, for messages with an empty unprotected map; other messages are left unchanged by the model.
- GenerateRimReference: only SHA-256, which every caller asks for, and measured data granules; the host's DATA_CREATE_UNKNOWN branch is not used.
- cJSON_Minify, SetValuestring, array constructors, and cJSON_ParseWithOpts' strlen: no harder property.
- build_firmware_blobs and build_coco_blobs: the same calls as the kernel boot with other constants, and a call into a Go library.
- Certificate chains, challenge hashes, user callbacks, IMA log verification and the rats-tls negotiation: foreign results combined by single branches.
- gen_dtb.c, ima_measure.c, platform_verify.c, verify.c, the socket payload codec, MPC, KDC, demos and scripts: easier members or bound to system().
- The virtcca-mig-agent copy of the integrity check and the migcvm-agent copies of the event log code are twins of what is modelled.
