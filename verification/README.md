# Models and proofs for the online programmer

The firmware on a K64F board programs LPC1125 targets over a serial boot loader, under the orders of a server that
speaks JSON over TCP. This project models its six components and proves what each of them is for. `dafny verify
dfyconfig.toml` checks all of it.

- **JSON** (`JsonText` to `JsonDocument`). `JsonText` gives values, the text printed for them and a parser of texts that
  works on what is left of the text; `JsonRoundTrip` and `JsonParsed` relate the two, and `JsonGrammar` gives the
  language of the parser by a grammar that contains the one of RFC 8259. `JsonNodes` is the heap: linked items with
  sibling and child pointers, each with the set of items that can be read from it, the set that goes when it is
  deleted, and the tree it stands for. The parser, both printers, the list operations, copying and deleting work on
  that heap, and their contracts lead back to the texts. `JsonPrintLayout` says which of the texts of RFC 8259 is
  printed. `JsonMinify*` is the in-place minifier; `JsonMinifyLexemes` says what it keeps of any text. Characters stand
  for the unsigned bytes of the target's `char`; the end of a string stands for its terminator.
- **Serial programming** (`UUencode`, `IspWire`, `Isp`, `FlashProgram`) against `IspTarget`, a model of the programmed
  part: a RAM, a flash in which writing only clears bits, and sectors that lose their preparation with every erase and
  write. An exchange may get lost before or after the target has acted; what is heard is right. The cells of an unsound
  part keep anything. The target notes what has been said to it and whether its reply was heard.
- **Display** (`LcdFrame`, `LcdLine`, `LcdCircle`): the packed frame, lines and circles, against the geometry.
- **Device and network** (`Device`, `Firmware`, `DeviceRuns`): every button press, tick and turn of the main loop is one
  atomic step; the board, the card, the connection and the replies of the server are arbitrary inputs of a turn.
  `DeviceRuns` proves what holds over all runs of these steps, `DeviceLog` what the device shows of what has been done
  to it, and `DeviceTurns` what exactly one turn makes of that. `Firmware.Programmer` has the handlers acting on fields
  and notes what happens: `Valid` says that the fields are those of the run of all events so far, so that the results
  about runs are results about the object. The loop is the one in `mainThread`; `main` at present stops before it
  starts it (OnlineProgram.cpp:780).
- **Checksum** (`Crc16`), **card size** (`SdCard`) and **ring buffer** (`RingBuffer`).

`Bits`, `Arithmetic`, `Decimal` and `CStrings` hold what several of them need: bitwise operations on numbers of any
width, quotients, numerals and NUL-terminated buffers.

## What the proofs turned up

- `cJSON_Duplicate` keeps the flag that says the name is constant, but gives the copy a name of its own. Deleting the
  copy leaks a name exactly when an item copied has both (`JsonDuplicate.CopyNames`, `JsonDuplicate.NameLost`).
- The texts accepted are those of RFC 8259 with int numbers and more: any control character is white space or part of a
  literal, any character but u may stand behind a backslash, a number may have one leading zero or be a lone minus
  sign, and a literal that ends the text need not be closed (`JsonGrammar.AcceptedExactly`,
  `JsonGrammar.LeadingZeroAccepted`).
- A string literal without a closing quote at the end of a text is accepted by the parser, and is the one accepted text
  that the minifier cannot handle (`JsonMinifyMeaning.MinifyDefined`, `JsonMinifyMeaning.CutOffLiteral`).
- A block comment may share the star of its start with its end: in `/*/ a */` only the first three characters are taken
  for a comment (`JsonMinifyLexemes.BlockCommentExactly`, `JsonMinifyLexemes.CommentLeft`).
- A block whose size is a multiple of 45 does not arrive, unless its last two lines are equal: the last line is refused
  by the encoder and the line before is sent again (`IspWire.SentRight`, `IspWire.LastLineLost`).
- Success of a boot loader command is read off the last digit of its result code (`Isp.OutcomeOfCode`).
- The verification after programming compares sums of bytes: it finds any single wrong byte of a block, but no two that
  have changed places (`FlashProgram.OneByteCaught`, `FlashProgram.SwapMissed`).
- `pixel` lets column 128 and row 32 through; column 128 shows in column 0, row 32 lies outside the frame
  (`LcdFrame.SafePoints`, `LcdFrame.ColumnBehind`).
- In exclusive-or mode every circle with a radius of 2 or more that fits the screen loses points: the reflections of the
  last turn of its loop, on or beside the diagonals, are drawn twice (`LcdCircle.CircleSeen`, `LcdCircle.FittingWhole`).
- A switch to UID mode forgets what has been asked for while a request is outstanding, and does so exactly when
  something but a renewed authorisation was asked for (`DeviceRuns.OutstandingStep`, `DeviceRuns.ForgetReached`).
- Deleting an item with children leaves references to it with freed children (`JsonReferences.ReferenceDangles`).
- The kind of the last reply sticks, so that a refused authorisation can end without a new attempt; the device then
  stays locked out (`DeviceRuns.LockedReached`, `DeviceRuns.LockedStep`, `DeviceRuns.LockedRun`).
- The first authorisation says that it is for a reconnection, because the flag of the first connect is cleared before it
  is sent (`DeviceTurns.RunReconnects`).
- A report that is repeated after a mode switch reports a failure, whatever it reported before
  (`DeviceTurns.ReportSpoilt`, `DeviceTurns.SpoiltReached`).
- In UID mode a board that has just been found missing does not stop programming (`DeviceRuns.RunPrograms`,
  `DeviceRuns.ProgramsWithoutBoard`).
- The comment above the CSD decoding names the fields of version 1 only; for version 2 the code takes 16 of the 22 bits
  of the size (`SdCard.Sectors2Right`, `SdCard.LargeCardCut`).

## Model

| member | source | states |
|---|---|---|
| Decimal.ValueOfNumeral | cJSON/cJSON.cpp:102 | the digit loop of parse_number reads back the number that printf wrote, whatever its size |
| JsonParsed.ValueSuffix | cJSON/cJSON.cpp:360-373 | what a value leaves unread is the end of the text it was read from |
| JsonRoundTrip.StringReadBack | cJSON/cJSON.cpp:193-252 | a printed string literal reads back as the string, whatever text follows |
| JsonRoundTrip.NumberReadBack | cJSON/cJSON.cpp:96-114 | a printed int reads back as the int when no digit, point or exponent follows |
| JsonGrammar.NumberExactly | cJSON/cJSON.cpp:96-114 | a run of digits is read as the int it spells, whatever follows, if and only if it is an int and neither `.` and a digit nor `e` nor `E` follows; otherwise it is left to the doubles |
| JsonRoundTrip.ArrayReadBack | cJSON/cJSON.cpp:409-434 | a printed array reads back, elements in order, whatever text follows |
| JsonRoundTrip.ObjectReadBack | cJSON/cJSON.cpp:517-550 | a printed object reads back, names and values in order, whatever text follows |
| JsonRoundTrip.ValueReadBack | cJSON/cJSON.cpp:360-373 | the same of every value, at every depth, formatted or not |
| JsonRoundTrip.RoundTrip | cJSON/cJSON.cpp:345-373 | for every tree of null, booleans, ints, NUL-free strings, arrays and objects, parsing the print consumes the whole text and gives an equal tree |
| JsonParsed.ParsedIsRepresentable | cJSON/cJSON.cpp:360-373 | whatever text is accepted, the value read can be printed and read again: ints in range and no NUL in any string |
| JsonParsed.PrintNormalises | cJSON/cJSON.cpp:345-373 | print after parse is a normal form: reading it gives the same value and nothing is left over |
| JsonDocument.TextRoundTrip | cJSON/cJSON.cpp:327-347 | the round trip for whole texts, with and without the demand that the text ends there |
| JsonDocument.PrintInjective | cJSON/cJSON.cpp:346-347 | two values with the same text, in any two formats, are the same value |
| JsonGrammar.ReadValue | cJSON/cJSON.cpp:360-550 | every derivation of the grammar, whatever its white space, escapes and nesting, is read as the value it means, up to its end and no further |
| JsonGrammar.FindValue | cJSON/cJSON.cpp:360-550 | and every text that is read has such a derivation, with the same value and the same rest |
| JsonGrammar.AcceptedExactly | cJSON/cJSON.cpp:327-373 | so a whole text is accepted with a value if and only if the grammar, whose numbers are ints, derives it with that value |
| JsonGrammar.StandardAccepted | cJSON/cJSON.cpp:327-373 | every text of RFC 8259 whose numbers are ints and whose escapes are neither `\u0000` nor half a surrogate pair is accepted with its value |
| JsonGrammar.LeadingZeroAccepted | cJSON/cJSON.cpp:100-102 | and others are: 01 is read as 1 and is no text of the standard |
| JsonUnicode.Utf8ReadBack | cJSON/cJSON.cpp:234-241 | a decoder written from RFC 3629, refusing overlong forms and surrogates, reads the bytes of every scalar value back |
| JsonUnicode.EscapeExact | cJSON/cJSON.cpp:219-232 | an escape is read as a code point if and only if it spells that code point, not 0, in UTF-16 code units (one, or a surrogate pair by RFC 2781) with hex digits of either case |
| JsonUnicode.EscapeMeansCodePoint | cJSON/cJSON.cpp:219-243 | in any literal the escape of a code point becomes its UTF-8 bytes, and an RFC 3629 reader gets the code point from them |
| JsonUnicode.BadEscapesRefused | cJSON/cJSON.cpp:219-232 | an escape is accepted if and only if it spells some code point but 0; any other, a lone surrogate, a digit that is none or `\u0000`, spoils the literal |
| JsonStrings.ParseHex4 | cJSON/cJSON.cpp:178-189 | the accumulating loop gives the value of four hex digits and 0 for anything else |
| JsonStrings.ReadUnicode | cJSON/cJSON.cpp:219-232 | the pointer comparisons and surrogate checks, in their order, decide what the escape means by the standard |
| JsonStrings.PutUtf8 | cJSON/cJSON.cpp:234-241 | the fall-through writing from last byte to first, with its masks, leaves exactly the UTF-8 bytes and touches nothing in front of them |
| JsonStrings.ScanLiteral | cJSON/cJSON.cpp:198 | the first scan finds the closing quote and counts an upper bound of the decoded length |
| JsonStrings.ScanUnicode | cJSON/cJSON.cpp:198-241 | the count covers the decoded bytes of every escape |
| JsonStrings.DecodeLiteral | cJSON/cJSON.cpp:205-249 | every write stays inside the len + 1 bytes counted; the buffer ends up holding the unescaped text; it fails exactly on a bad escape |
| JsonStrings.ReadString | cJSON/cJSON.cpp:193-252 | parse_string on a text and a position is the parser of string literals |
| JsonParser.ReadDigits | cJSON/cJSON.cpp:102 | the digit loop stops behind the run of digits with its value |
| JsonParser.ReadNumber | cJSON/cJSON.cpp:96-114 | position and value of an int numeral; fractions, exponents and ints out of range are told apart |
| JsonParser.ParseElement | cJSON/cJSON.cpp:419-429 | a new item linked behind the last one holds the next element; nothing already linked changes but the last link |
| JsonParser.ParseElements | cJSON/cJSON.cpp:419-434 | the loop over commas builds a well-formed chain of fresh items that stand for exactly the elements of the text |
| JsonParser.ParseMembersInto | cJSON/cJSON.cpp:525-549 | the same for members: names are moved out of the string value, every item keeps its own, and the buffer of a name that fails stays with its item |
| JsonParser.ParseArrayInto | cJSON/cJSON.cpp:409-434 | the item becomes the array of the text and owns all that was made, on failure too |
| JsonParser.ParseObjectInto | cJSON/cJSON.cpp:517-550 | the item becomes the object of the text and owns all that was made, on failure too |
| JsonParser.ParseInto | cJSON/cJSON.cpp:360-373 | the linked items stand for the value the text spells, the position is behind it, and only fresh items are below the item |
| JsonTree.ProperUnique | cJSON/cJSON.cpp:360-373 | the items below a parsed root are determined in every field by the value and the name: no flags, 1 as the integer of a true, the int of a number, 0 in any other item, a string in strings only, and names below objects only |
| JsonDocument.ParseWithOpts | cJSON/cJSON.cpp:327-343 | a root that stands for the value of the text, in every field as `ProperUnique` has it, or null with every block of what had been made handed back exactly once |
| JsonPrint.StringSize | cJSON/cJSON.cpp:268-285 | the two sizing loops reserve exactly the literal and its terminator; without flagged characters escaping changes nothing |
| JsonPrint.WriteString | cJSON/cJSON.cpp:275-310 | the literal is written inside the memory reserved and everything in front of it stays |
| JsonPrint.NumberFits | cJSON/cJSON.cpp:159-161 | every int fits the 21 characters reserved for it |
| JsonPrintTree.Compose | cJSON/cJSON.cpp:476-513 | the sum of lengths computed beforehand is enough memory for the joined text and its terminator |
| JsonPrintTree.ArrayText | cJSON/cJSON.cpp:437-514 | unbuffered printing of an array gives the text of its value, or null exactly when an item in it has no type |
| JsonPrintTree.ObjectText | cJSON/cJSON.cpp:665-773 | the same for an object, with the white space of its active version |
| JsonPrintTree.ValueText | cJSON/cJSON.cpp:375-406 | unbuffered printing of linked items is the print of the value they stand for, formatted or not |
| JsonPrintLayout.PrintLayout | cJSON/cJSON.cpp:375-773 | every representable value is printed as a text of RFC 8259 that means it, and as this one of them: a blank behind each comma of a formatted array, an indented line in a formatted object without members, no other white space, numbers without a zero in front, and each character as it is unless it is a quote, a backslash or a control character |
| JsonPrintLayout.PiecesOf | cJSON/cJSON.cpp:257-310 | the literal of any string: short escapes where there are some, else four digits in lower case, and no escape where none is needed |
| Bits.Pow2gtIsLeast | cJSON/cJSON.cpp:117 | smearing the bits of x - 1 to the right and adding 1 gives the least power of two that is not below x, in 32-bit arithmetic |
| Bits.Pow2gtFits | cJSON/cJSON.cpp:117 | which fits the signed int of the source if and only if x is at most 2^30 |
| JsonPrintBuffered.PrintBuffer.Ensure | cJSON/cJSON.cpp:121-136 | room for what is needed, every byte of the old buffer kept, and growth to the least power of two that fits |
| JsonPrintBuffered.PrintBuffer.Update | cJSON/cJSON.cpp:138-144 | offset moves to the end of the text just written |
| JsonPrintBuffered.PutArray | cJSON/cJSON.cpp:456-471 | printing in place, with growth in between, leaves what was written before and the text of the array behind it |
| JsonPrintBuffered.PutObject | cJSON/cJSON.cpp:685-722 | the same for an object |
| JsonPrintBuffered.PrintBuffered | cJSON/cJSON.cpp:349-356 | for every positive size of the first buffer the unformatted text is the print of the value |
| JsonPrintBuffered.PrintBothWays | cJSON/cJSON.cpp:345-356 | buffered and unbuffered unformatted printing give the same text for every tree and every first buffer |
| JsonMinify.MinifyOfPrint | cJSON/cJSON.cpp:854-869 | minifying the print of any value, formatted or not, gives exactly its unformatted print |
| JsonMinifyLexemes.MinifyExactly | cJSON/cJSON.cpp:854-869 | any text becomes m if and only if it can be cut into blanks, line comments up to a line feed, block comments up to their first end, string literals and other characters so that the literals and the other characters in their order are m |
| JsonMinifyLexemes.MinifyLexed | cJSON/cJSON.cpp:854-869 | a text that is put together of such lexemes, in any order they can stand in, minifies to those that are kept |
| JsonMinifyLexemes.FindLexemes | cJSON/cJSON.cpp:854-869 | and every text that can be minified is put together of such lexemes |
| JsonMinifyLexemes.CommentsGone | cJSON/cJSON.cpp:863-864 | a text with comments put between its tokens minifies as the text without them |
| JsonMinifyLexemes.CommentedValue | cJSON/cJSON.cpp:854-869 | so a value with comments between its tokens, which the parser does not read, is read when it has been minified |
| JsonMinifyLexemes.LineCommentGone | cJSON/cJSON.cpp:863 | for every c without a line feed and every rest, `//`, c, a line feed and rest minify as rest |
| JsonMinifyLexemes.BlockCommentGone | cJSON/cJSON.cpp:864 | for every c such that c and `*/` hold no earlier end, `/*`, c, `*/` and rest minify as rest, or, when c starts with a slash, as the rest of c, `*/` and rest |
| JsonMinifyLexemes.BlockCommentExactly | cJSON/cJSON.cpp:864 | such a comment leaves no trace in front of any text if and only if c does not start with a slash or what stands behind that slash vanishes by itself |
| JsonMinifyLexemes.VanishesExactly | cJSON/cJSON.cpp:854-869 | a text leaves no trace in front of any text if and only if minifying it gives nothing, and minifying it with a 0 behind it gives the 0 |
| JsonMinifyLexemes.CommentLeft | cJSON/cJSON.cpp:864 | a comment that leaves its second half behind |
| JsonMinifyInPlace.Minify | cJSON/cJSON.cpp:854-869 | in place, with the writing position never ahead of the reading position, the array ends up holding the minified text, which `MinifyExactly` describes, and nothing behind the old terminator changes |
| JsonMinifyMeaning.MinifyKeepsMeaning | cJSON/cJSON.cpp:854-869 | any text that parses as one value parses as the same value when minified, unless it is a literal cut off by the end of the text |
| JsonMinifyMeaning.MinifyDefined | cJSON/cJSON.cpp:854-869 | and that exception is exact: for such a literal, and for no other text that parses, minifying runs past the terminator |
| JsonMinifyMeaning.CutOffLiteral | cJSON/cJSON.cpp:854-869 | the shortest such text: a quote and one letter, which reads as a string and cannot be minified |
| JsonLists.Nth | cJSON/cJSON.cpp:780 | walking next links and counting down reaches the child at the index, the first for a negative one, null past the end |
| JsonLists.AddItemToArray | cJSON/cJSON.cpp:790 | the chain stays mutually linked with null ends and becomes the old sequence with the item behind it |
| JsonLists.InsertItemInArray | cJSON/cJSON.cpp:803-804 | the chain becomes the sequence with the item inserted, appended when the index is past the end |
| JsonLists.DetachItemFromArray | cJSON/cJSON.cpp:796-797 | the chain becomes the sequence without the child, which comes out unlinked and lies aside of the rest; the list may hold references to its own items |
| JsonDelete.ReplaceItemInArray | cJSON/cJSON.cpp:805-807 | the chain becomes the sequence with that child exchanged, and the old child is freed with all it owns, nothing twice; nothing freed can still be read from the list if and only if nothing else in it shows what the child owned |
| JsonDelete.DeleteItemFromArray | cJSON/cJSON.cpp:798 | the chain becomes the sequence without the child, whose blocks are freed once each, with the same condition for what the list still shows |
| JsonDelete.Delete | cJSON/cJSON.cpp:81-93 | deleting a chain frees every item it owns, its strings and its names, each exactly once, and nothing that belongs to a reference |
| JsonReferences.CreateReference | cJSON/cJSON.cpp:787 | a reference shows the children of the original and owns only itself |
| JsonReferences.AddItemReferenceToArray | cJSON/cJSON.cpp:793 | appending a reference keeps the list well formed and the original in its place, also when the original is in that list |
| JsonReferences.DeleteReference | cJSON/cJSON.cpp:81-93 | deleting a reference frees the reference alone, so the original survives |
| JsonReferences.ReferenceDangles | cJSON/cJSON.cpp:81-93 | deleting an original leaves a reference to it whole if and only if the original is itself a reference or has no children; otherwise children that the reference shows are freed |
| JsonDuplicate.Duplicate | cJSON/cJSON.cpp:827-852 | a copy made of fresh items only, outside any chain, equal but for the reference flags, which are all off, and a recursive copy stands for the value of the original; the original is not modified |
| JsonDuplicate.CleanIsReferenceFree | cJSON/cJSON.cpp:834 | no item of a recursive copy carries the reference flag |
| JsonDuplicate.CleanStandsFor | cJSON/cJSON.cpp:827-852 | clearing the flags at every depth does not change the value, so a recursive copy prints as the original |
| JsonDuplicate.CleanCopiesAll | cJSON/cJSON.cpp:827-852 | what is free of references is copied as it is, field by field |
| JsonDuplicate.DeleteCopy | cJSON/cJSON.cpp:81-93 | deleting a copy frees each of its items exactly once, and all of their names if and only if none is marked constant |
| JsonDuplicate.CopyNames | cJSON/cJSON.cpp:834-836 | deleting a copy hands back every name block in it if and only if no item of what was copied (the whole tree, or the top of it for a shallow copy) has both a name and the constant-name flag |
| JsonDuplicate.NameLost | cJSON/cJSON.cpp:834-836 | the smallest tree whose copy loses a name |
| UUencode.EncodeMasks | UUencode/UUencode.cpp:18-21 | the masks and shifts of the encoder are the four sextets of three bytes |
| UUencode.GroupRoundTrip | UUencode/UUencode.cpp:16-31 | for all three bytes decoding the four characters gives them back, although zero is sent as 0x60, and all four are printing characters |
| UUencode.GroupIsNumber | UUencode/UUencode.cpp:16-22 | the four characters are the digits to base 64 of the three bytes read as one number, v sent as 0x20 + v and 0 as 0x60 |
| UUencode.LineShape | UUencode/UUencode.cpp:37-68 | a line of 45 bytes takes 63 characters and no line holds a NUL or a CR before its end |
| UUencode.UUencodeLine | UUencode/UUencode.cpp:37-68 | the loop over groups writes exactly the line; a length of 0 or above 45 is refused and leaves the buffer alone |
| UUencode.UUdecodeLine | UUencode/UUencode.cpp:74-86 | the decoded bytes follow what was decoded before; the length character decides what is valid |
| IspWire.LinesRead | Program/program.cpp:209-217 | read line by line, the lines of a block are the block, whatever bytes filled up the last group |
| IspWire.LineOffsets | Program/program.cpp:284-286 | line i starts at offset 63 * i |
| IspWire.LineClean | UUencode/UUencode.cpp:64-66 | no NUL, and no CR before the end, in any line, the last and shorter one included |
| IspWire.SentIsLines | Program/program.cpp:211-217 | for a size that is no multiple of 45 the lines sent are the lines of the block |
| IspWire.SentTwice | Program/program.cpp:211-217 | for a multiple of 45 the line before the last is sent twice and the last 45 bytes are not sent |
| IspWire.SentRight | Program/program.cpp:203-217 | the target receives the block if and only if the size is no multiple of 45 or the last two lines are equal |
| IspWire.LastLineLost | Program/program.cpp:203-217 | a block of 180 bytes that does not arrive |
| Isp.OutcomeOfCode | Program/program.cpp:159-160 | the search for `0\r\n` accepts exactly the result codes that end in the digit 0 |
| Isp.PrepareSectors | Program/program.cpp:148-162 | illegal exactly for ranges that are not within 0 to 15, and then nothing is said; otherwise the command is said once, the result is a timeout exactly when no reply is heard and an error exactly when the target is locked, and success means that it has prepared the sectors |
| Isp.EraseRange | Program/program.cpp:180-189 | prepare and then erase are said, up to the first of them that is not heard or refused; success means that the sectors are erased and none is prepared any more |
| Isp.SendLines | Program/program.cpp:203-217 | the encoding loop, with its buffer that is left stale by a refused line, sends exactly the text described in IspWire |
| Isp.WriteToRam | Program/program.cpp:191-239 | illegal exactly for addresses, alignments and sizes outside the stated ones; otherwise the announcement and then the lines with the sum are said; a timeout means that the last of them has not been heard, an error that the target is locked, the address out of its RAM or the size a multiple of 45; success means that the bytes are in RAM, for a multiple of 45 it says what is there instead |
| Isp.CopyToFlash | Program/program.cpp:241-264 | illegal exactly for the stated arguments; otherwise every sector is prepared and the copy is said, with the same meaning of a timeout and an error; success means, on a sound part, that the flash has been written from RAM, and that no sector is prepared any more |
| Isp.DecodeLines | Program/program.cpp:284-286 | decoding at offsets 63 * i into 45 * i gives the memory that was read |
| Isp.SumSent | Program/program.cpp:290-291 | the search for the line end from the last line on finds the sum behind it |
| Isp.ReadMemory | Program/program.cpp:266-307 | illegal exactly for the stated arguments; otherwise the read is said once, a timeout means that the reply has not been heard, an error that the target has no such memory, and success that the bytes are those of the target, whatever padding it used |
| Isp.ReplyLength | Program/program.cpp:266-307 | a reply fits the receive buffer of 1024 bytes if and only if at most 720 bytes are asked for |
| FlashProgram.FixVector | OnlineProgram.cpp:225-234 | the 32-bit loop over 28 bytes and the two byte-wise loops put in the complement of the sum of seven words |
| FlashProgram.VectorsSumToZero | OnlineProgram.cpp:225-234 | then the first eight little-endian words sum to 0 modulo 2^32 |
| FlashProgram.ImageColumns | OnlineProgram.cpp:225-234 | the same byte by byte, with the lowest byte of each vector first |
| FlashProgram.LoadImageBlock | OnlineProgram.cpp:211-234 | the block loaded is that of the padded image, the short last block filled with 0xFF |
| FlashProgram.BlockFlashed | OnlineProgram.cpp:235-242 | writing, which can only clear bits, sets a block of erased flash to the data |
| FlashProgram.WriteBlock | OnlineProgram.cpp:235-242 | one more block of the image is in flash and the flash behind it is still erased; what has been said is the four commands of the block, for -7 up to a lost reply of the first two, for -8 of the last two |
| FlashProgram.WriteBlocks | OnlineProgram.cpp:208-253 | all blocks have been said in order, or all up to a card fault or a lost reply; after 0 all of the image is in flash and the sums noted are those of its blocks |
| FlashProgram.VerifyBlocks | OnlineProgram.cpp:256-269 | 0: every block has been read back in order, every reply heard and every sum is the one noted; -9: the reads up to one whose reply was lost, with right sums before it; -10: the reads up to a block with another sum; nothing else is said, and the flash is not touched |
| FlashProgram.ImageOf | OnlineProgram.cpp:216-234 | the image is the file filled up with 0xFF but for bytes 28 to 31 |
| FlashProgram.ProgramBinFileV1 | OnlineProgram.cpp:153-282 | -1 to -3 come exactly from the path, the file and its size, with nothing said; any other result is the one that what has been said to the target stands for: unlock, erase, unlock, the blocks, the reads, whole or up to a lost reply, a card fault or a wrong sum; on a sound part the flash holds the image after 0 and after -9, whole blocks of it after -6 and -7, and -10 does not occur; on a line that loses nothing and with a steady card the result of a sound part is 0 |
| FlashProgram.OneResult | OnlineProgram.cpp:153-282 | what has been said and found stands for one result only, so that each result is returned if and only if that has happened which it stands for |
| FlashProgram.OneByteCaught | OnlineProgram.cpp:262-268 | equal sums leave no block with exactly one wrong byte |
| FlashProgram.SwapMissed | OnlineProgram.cpp:262-268 | two bytes that have changed places have the same sum |
| FlashProgram.ProgrammedFile | OnlineProgram.cpp:153-282 | byte by byte: flash is the file, padded with 0xFF, but for bytes 28 to 31, and its first eight words sum to 0 modulo 2^32 |
| LcdFrame.SafePoints | C12832/C12832.cpp:143 | of the points that are not turned away, the ones whose byte is outside the frame are exactly row 32 and the end of column 128 |
| LcdFrame.ColumnBehind | C12832/C12832.cpp:143-153 | a pixel in column 128 is the pixel of column 0 eight rows further down |
| LcdFrame.DrawnAsShown | C12832/C12832.cpp:140-154 | any drawing that stays in the frame is the same drawing on the screen, with column 128 moved to column 0 eight rows down |
| LcdFrame.PixelLit | C12832/C12832.cpp:140-154 | on the screen a pixel changes its own bit, as the mode says, and no other; a point that is turned away changes nothing |
| LcdFrame.OnePixel | C12832/C12832.cpp:140-154 | in an empty frame a pixel sets bit y mod 8 of byte 128 * (y / 8) + x, and no other bit |
| LcdFrame.Screen.Pixel | C12832/C12832.cpp:140-154 | the masks and shifts on the packed byte have that effect on the frame |
| LcdFrame.NormalLit | C12832/C12832.cpp:145-149 | after drawing any points, on the screen or turned away, the lit ones among them are decided by the colour and all others are as before |
| LcdFrame.XorLit | C12832/C12832.cpp:150-152 | in exclusive-or mode a bit is flipped once for every time its point is drawn |
| LcdFrame.XorOther | C12832/C12832.cpp:150-152 | and with any colour but 1 nothing is drawn |
| LcdFrame.XorTwice | C12832/C12832.cpp:150-152 | so drawing any sequence of points that stays in the frame twice restores the whole frame |
| LcdLine.Line | C12832/C12832.cpp:211-279 | the decision loop plots the points of the closed form, in order, for all ends that leave the drawing in the frame, on the screen or off it; no sum leaves a 32-bit int when the doubled spans, which the source computes first, do not |
| LcdLine.LineEnds | C12832/C12832.cpp:250-277 | the line starts at its first end and ends exactly at its second |
| LcdLine.LineNear | C12832/C12832.cpp:250-277 | after i steps along the major axis the point is the one nearest to the true line, on the right side of its first end, and of two that are equally near the one further on |
| LcdLine.LineDistinct | C12832/C12832.cpp:250-277 | no point is plotted twice |
| LcdLine.LineConnected | C12832/C12832.cpp:250-277 | neighbouring points touch: one step on the major axis and at most one on the minor axis |
| LcdLine.SteppedNext | C12832/C12832.cpp:251-262 | what the decision variable keeps from step to step |
| LcdLine.SteppedFits | C12832/C12832.cpp:251-277 | the decision variable stays within the doubled spans at every step, and the minor coordinate between the ends |
| LcdLine.LineOnScreen | C12832/C12832.cpp:211-279 | a line between on-screen ends stays on the screen |
| LcdLine.LineSeen | C12832/C12832.cpp:140-154 | a line shows its points and disturbs no other; in exclusive-or mode it flips exactly its points |
| LcdLine.LineTwice | C12832/C12832.cpp:150-152 | drawing a line that stays in the frame twice in exclusive-or mode leaves no trace |
| LcdCircle.TracksStep | C12832/C12832.cpp:375-389 | the loop keeps di = 2(xx+1)^2 + yy^2 + (yy-1)^2 - 2r^2 and is off the circle by no more than yy: xx^2 + yy^2 - r^2 lies between -yy and yy |
| LcdCircle.TracksFits | C12832/C12832.cpp:375-389 | di lies between 4(xx - yy) + 3 and 4xx + 3, and neither coordinate passes the radius |
| LcdCircle.TurnsTrack | C12832/C12832.cpp:370-428 | for every radius from 1 on the loop ends, xx counts the columns, and up to the diagonal yy is the nearest integer to the root of r^2 - xx^2 |
| LcdCircle.NearestRootUnique | C12832/C12832.cpp:370-428 | there is only one such integer, so that describes the octant completely |
| LcdCircle.EightOnCircle | C12832/C12832.cpp:389-427 | the eight points of a turn are reflections: all are as far from the centre as (xx, yy) |
| LcdCircle.CircleOnScreen | C12832/C12832.cpp:342-427 | a circle that fits the screen is never plotted outside it |
| LcdCircle.Arcs | C12832/C12832.cpp:370-428 | the running coordinates are the reflections at every turn, and every guarded pixel is plotted, those off the screen without effect |
| LcdCircle.Circle | C12832/C12832.cpp:324-430 | the frame is the old one with the points of the circle drawn, whole or clipped by the screen, with every variable and coordinate in a 32-bit int |
| LcdCircle.CircleTwice | C12832/C12832.cpp:324-430 | in exclusive-or mode a circle that stays in the frame and is drawn twice is gone |
| LcdCircle.LastTurn | C12832/C12832.cpp:370-428 | for every radius from 2 on the last turn has xx = yy or is the turn before it with the coordinates swapped |
| LcdCircle.AxesCount | C12832/C12832.cpp:342-368 | each of the four points at the distance r on an axis is drawn once if it is on its side of the screen, and not at all otherwise; no other point is drawn |
| LcdCircle.AxesExactly | C12832/C12832.cpp:342-368 | around a centre on the screen exactly those of the four that are on the screen are drawn |
| LcdCircle.CircleExactly | C12832/C12832.cpp:342-428 | the points drawn, on the screen or not, are those on the axes and, off the axes, exactly the points whose greater distance from the centre is the integer nearest to the root of r^2 minus the square of the smaller one |
| LcdCircle.CircleCount | C12832/C12832.cpp:342-427 | a point, on the screen or not, is drawn twice if and only if it is one of the eight reflections of the last turn, and once if it is any other point of the circle |
| LcdCircle.CircleSeen | C12832/C12832.cpp:324-430 | so exclusive-or drawing flips exactly the points of the circle that are no reflections of the last turn |
| LcdCircle.WholeWhen | C12832/C12832.cpp:324-430 | a circle is seen whole in that mode if and only if its radius is below 2 or the screen clips all points of its last turn |
| LcdCircle.FittingWhole | C12832/C12832.cpp:324-430 | a circle that fits the screen is seen whole if and only if its radius is below 2 |
| LcdCircle.RadiusTwo | C12832/C12832.cpp:324-430 | the smallest circle that is not: the point one to the right and two below its centre is drawn and does not show |
| Firmware.Programmer.Sw2Release | OnlineProgram.cpp:69-85 | the fields go on being those of the run of all events so far; a bounce sets nothing; a press sets the request for a program or for an id, by the mode, when a board is connected, and the request to put a result away when one is shown, and nothing else |
| Firmware.Programmer.Sw3Release | OnlineProgram.cpp:88-100 | the same for the mode button, which leaves a switch to be seen to whatever was going on |
| Firmware.Programmer.SysTick | OnlineProgram.cpp:58-66 | the same for the tick; after any run the counter is the number of seconds modulo 2^32; every thirty seconds of it a heartbeat is due in UID mode, while there is a connection |
| Firmware.Programmer.MainLoop | OnlineProgram.cpp:701-748 | the same for a turn of the main loop, which after any run does exactly what is stated for `TurnRight`; after any run: no more calls of programUID than replies with an id, no more exits than acknowledgements, never authorised while offline, on ids the device status moves only when authorised since the last connect, an outstanding request is the only one tried, and a result shown is that of the last program |
| DeviceRuns.CheckInv | network.cpp:53-81 | connecting and the heartbeat keep offline exclusive of authorised, and authorised a matter of the present connection |
| DeviceRuns.RepeatInv | network.cpp:83-106 | a send, accepted or refused, keeps the distance of five seconds between accepted sends of one request |
| DeviceRuns.HeedFlags | network.cpp:116-149 | hearing a reply of any kind and code keeps the account of ids and acknowledgements and what it is to be authorised |
| DeviceRuns.NetworkInv | network.cpp:172-198 | one round of sending and receiving keeps the invariant and no reply touches a mode switch that is due |
| DeviceRuns.UpdateInv | OnlineProgram.cpp:586-697 | every device state and its exits keep the account of ids and acknowledgements; which state comes next is stated by `TurnRight` |
| DeviceTurns.TurnRight | OnlineProgram.cpp:701-748 | one turn from any state that a run reaches, in terms of what was pressed, shown and programmed before and of what the world does: what is sent, first or again, with its bit of news; every network flag, event flag and the outstanding request afterwards; and the next status, in both modes |
| DeviceTurns.RunTurn | OnlineProgram.cpp:701-748 | this holds of every turn of every run |
| DeviceTurns.RunStarts | network.cpp:172-198 | in every run, a turn of an online device with nothing outstanding and neither a switch nor a heartbeat to see to starts exactly the request of the highest flag, authorisation before id before report, clears that flag only, and sends nothing when no flag is set |
| DeviceTurns.RunCaused | network.cpp:172-198 | in every run authorisations are started at most as often as connections are made, id requests at most as often as the start button is pressed on a connected board, reports at most as often as ids are programmed |
| DeviceTurns.RunPressed | OnlineProgram.cpp:586-697 | in every run programs on code are at most as many as such presses in that mode, and heartbeats at most as many as were due |
| DeviceTurns.RunShown | OnlineProgram.cpp:627-697 | in every run success is shown only if the last program was a success, and failure only if it failed |
| DeviceLog.RunLogged | OnlineProgram.cpp:586-697 | in every run, besides: the outcome to be reported is that of the last program on an id unless a mode switch has come since, the flag of the start button is a press that no turn has answered yet, and a request to put a result away is a press since that result has been shown |
| DeviceTurns.RunReconnects | network.cpp:53-90 | in every run every authorisation says that it is for a reconnection, the first one too |
| DeviceTurns.ReportSpoilt | network.cpp:93-105 | in every run, a report that is repeated in a turn that sees to a switch to ids is repeated as the report of a failure, whatever the outcome was |
| DeviceTurns.SpoiltReached | network.cpp:93-105 | a run of twelve events to such a turn, in which a success has been reported and is taken back |
| DeviceRuns.RealWait | network.cpp:176 | the 32-bit difference of the timer is never more than the real time that has passed, however often it wraps |
| DeviceRuns.TurnInv | OnlineProgram.cpp:701-748 | every turn of the main loop keeps the invariant |
| DeviceRuns.RunInv | OnlineProgram.cpp:699-749 | the invariant holds after every run of button presses, ticks and turns, whatever the server, the line and the board do |
| DeviceRuns.RunCounts | OnlineProgram.cpp:586-697 | in every run programUID is called at most once per GET_UID reply with an id, and success or failure is left at most once per NOTIFY reply |
| DeviceRuns.RunAuthorised | network.cpp:42-81 | in every run offline excludes authorised, and authorised means a successful AUTH reply since the last connect |
| DeviceRuns.RunWorks | OnlineProgram.cpp:735-746 | in UID mode the device status is updated only while online and authorised |
| DeviceRuns.RunSpaced | network.cpp:172-198 | in every run a repeated request is the one tried before it and comes at least five ticks of real time after the last accepted send |
| DeviceRuns.OutstandingStep | network.cpp:172-198 | while a request is outstanding no event whatever starts or sends another one, and every flag that asks for one stays set, if and only if the event is not a turn that sees to a switch to UID mode and forgets it |
| DeviceRuns.OutstandingRun | network.cpp:172-198 | the same from the moment a request is made until it ends, over any run |
| DeviceRuns.ForgetReached | OnlineProgram.cpp:701-748 | a run of six events that gets a device to such a turn, which drops a second request for an id |
| DeviceRuns.EndedWasAnswered | network.cpp:150-154 | in every run a request ends only if a reply of its kind has arrived since the last one ended |
| DeviceRuns.EndingReplyAnswers | network.cpp:119-154 | the reply that ends a request is an answer to it if and only if its kind is one the device knows |
| DeviceRuns.LockedReached | network.cpp:119-154 | a run of two turns, a refused authorisation and then the reply to a heartbeat, ends the authorisation request without authorising and with nothing left to ask for it |
| DeviceRuns.EndedAuthorisation | network.cpp:119-154 | an authorisation request that ends leaves the device authorised if and only if it was so before or the ending reply is about authorisation |
| DeviceRuns.LockedStep | network.cpp:172-198 | such a device gets out of that if and only if the mode button is pressed, a heartbeat cannot be sent, or an authorisation arrives unasked |
| DeviceRuns.LockedRun | network.cpp:172-198 | over any run without those it asks for no authorisation and its work makes no progress |
| DeviceRuns.RunPrograms | OnlineProgram.cpp:595-616 | in every run, a connected device in UID mode starts programming if and only if it is authorised and an id is there, whether or not the board has just been found missing |
| DeviceRuns.ProgramsWithoutBoard | OnlineProgram.cpp:595-616 | a run of three events that ends in programming with no board connected |
| Crc16.TableIsShifts | CRC16/lib_crc16.cpp:3-37 | each of the 256 entries is what eight shifts of the register make of its index |
| Crc16.UpdateReflected | CRC16/lib_crc16.cpp:39-53 | one step by table is the bit-serial step of the standard |
| Crc16.CalculateCrc16 | CRC16/lib_crc16.cpp:55-67 | over any message the table form is the bit-serial register started at 0 |
| Crc16.CalculateCrc16Modbus | CRC16/lib_crc16.cpp:69-80 | over any message the table form is the bit-serial register started at 0xFFFF |
| Crc16.CheckValues | CRC16/lib_crc16.cpp:39-80 | the digits 1 to 9 give 0xBB3D from 0 and 0x4B37 from 0xFFFF, the values these checksums are known by |
| Crc16.OneByteDetected | CRC16/lib_crc16.cpp:55-80 | messages of one length that differ in exactly one byte never have the same checksum |
| Crc16.SerialIsBits | CRC16/lib_crc16.cpp:39-80 | byte by byte or bit by bit, lowest bit first, the register is the same |
| Crc16.BitBurst | CRC16/lib_crc16.cpp:39-53 | a change of up to sixteen neighbouring bits, with anything in front and behind, changes the register |
| Crc16.BurstDetected | CRC16/lib_crc16.cpp:55-80 | nor do messages that differ only within sixteen neighbouring bits, wherever these start |
| Crc16.SeventeenMissed | CRC16/lib_crc16.cpp:55-67 | sixteen is the most there is: two messages that differ within seventeen bits and have the same checksum |
| Crc16.Residue | CRC16/lib_crc16.cpp:55-80 | a message followed by its checksum, low byte first, leaves the register at 0 |
| SdCard.BigEndianBit | SDFileSystem/SDFileSystem.cpp:438-440 | bit p of the register is bit p mod 8 of byte 15 - p / 8 |
| SdCard.ExtBits | SDFileSystem/SDFileSystem.cpp:433-444 | the bit loop gives (N / 2^lsb) mod 2^(msb-lsb+1) of the register read as one number |
| SdCard.Sectors1Right | SDFileSystem/SDFileSystem.cpp:478-482 | in version 1 the number of sectors is the capacity over 512 if and only if the capacity is below 2^32 |
| SdCard.Sectors1Exact | SDFileSystem/SDFileSystem.cpp:472-484 | which it always is for READ_BL_LEN up to 10 |
| SdCard.FourGigabytesVanish | SDFileSystem/SDFileSystem.cpp:478-482 | a register of version 1 whose 4 GB come out as no sectors |
| SdCard.Sectors2Right | SDFileSystem/SDFileSystem.cpp:486-489 | in version 2 the number of sectors is right if and only if the upper six bits of the 22-bit C_SIZE are zero: the code reads only 16 |
| SdCard.LargeCardCut | SDFileSystem/SDFileSystem.cpp:486-489 | a register of version 2 whose 32 GB and more come out as half a megabyte |
| SdCard.Card.SdSectors | SDFileSystem/SDFileSystem.cpp:446-498 | the three error paths give 0 and leave cdv alone; the others give the sectors and the address unit of the version |
| RingBuffer.HoldsWindow | mbed/CircularBuffer.h:41-104 | over any sequence of push, pop and reset the contents are the pushes since the last reset, in order, that have neither been popped nor overwritten, and never more than the size |
| RingBuffer.LatestPushes | mbed/CircularBuffer.h:41-53 | without a pop exactly the last pushes are held, as many as fit |
| RingBuffer.NothingLost | mbed/CircularBuffer.h:41-104 | what has been pushed has been given out or is still there, in order, if and only if no push met a full buffer and no reset met an element |
| RingBuffer.Play | mbed/CircularBuffer.h:41-104 | the buffer itself, put through any sequence of operations, holds that window and has given out those elements |
| RingBuffer.CircularBuffer.Items | mbed/CircularBuffer.h:106-111 | head, tail and the full flag determine how many elements are held |
| RingBuffer.CircularBuffer.PushItem | mbed/CircularBuffer.h:41-53 | the contents become those of the bounded queue, for every width of the counters that holds the indices |
| RingBuffer.CircularBuffer.PopItem | mbed/CircularBuffer.h:60-71 | the oldest element comes out, and nothing when there is none |
| RingBuffer.CircularBuffer.Empty | mbed/CircularBuffer.h:77-82 | empty means that nothing is held |
| RingBuffer.CircularBuffer.Full | mbed/CircularBuffer.h:88-93 | full means that as many elements as the size are held |
| RingBuffer.CircularBuffer.ResetAll | mbed/CircularBuffer.h:98-104 | nothing is held afterwards |

## Left out

- Numbers with a fraction, an exponent or a value outside int: the code depends on the doubles of the C library; the
  parser of the model tells such numbers apart and stops (`Unmodelled`, `OutOfModel`). A lone minus sign is read as 0,
  as the source does. printf's `%d` and atoi are taken at their word as numerals.
- String literals that end in a backslash at the end of the text: the source then reads beyond its terminator.
- Failing memory allocation, allocation hooks and error pointers.
- Formatted printing into a buffer: the source advances its offset over characters it no longer writes
  (cJSON/cJSON.cpp:689-690).
- JsonPrintBuffered.PrintBuffered: requires the text and 21 characters more to fit 2^30 bytes, because pow2gt rounds up
  in an int; and items without a type are excluded, because the source then measures memory it has not written.
- JsonMinifyInPlace.Minify: requires the text to be free of unterminated literals and comments, where the source reads
  and writes beyond the terminator; `JsonMinifyMeaning.MinifyDefined` says which texts that parse these are.
- The strings of items are values, not blocks of their own; freeing is the list of blocks handed back. A list is edited
  on its own: the descriptions of arrays that contain it are not carried along.
- Look-up by name, creation of single items and arrays of numbers: easy members.
- UUencode.UUencodeLine: the branch for the last group at UUencode/UUencode.cpp:48-62 is never taken, so the last group
  is filled from the memory behind the data; arrays have room for it. UUencode.UUdecodeLine leaves the decoded length to
  its caller, since the source returns no value on success.
- FlashProgram.ProgramBinFileV1: the block has three bytes to spare, because encoding and decoding its last line pass
  its 512 bytes by one; the source allocates exactly 512.
- Isp.ReadMemory: requires at most 720 bytes of the sizes it accepts; for more the source receives beyond its buffer
  (`Isp.ReplyLength`).
- JsonParser.ReadNumber: tells numbers that are no int numerals apart and ends there.
- programUID: a call that succeeds or fails. programBinFileV2: the body of the first version again.
- Baud rate synchronisation, time-outs and the text of commands: an exchange is a command and a reply.
- LcdFrame.Screen.Pixel: excludes row 32 and the end of column 128, where the source writes outside its frame.
- LcdLine.Line: may leave the screen but not the frame through those points, and its spans are below 2^30: the source
  doubles them in an int before it draws.
- LcdCircle.Circle: the same of the frame; its radius is below 2^29 and its outermost points are ints. The display is
  used in landscape, as the constructor sets it up.
- LcdLine.LineSeen and LcdCircle.CircleSeen: speak of drawings without points in column 128; `LcdFrame.DrawnAsShown`
  says what such points do.
- JsonReferences.AddItemReferenceToArray: excludes an original below which the list itself lies, since the list would
  then contain itself.
- Rectangles, discs, bitmaps, fonts and the copying of the frame to the display.
- Interrupts in the middle of a turn of the main loop; lights, logging and the file system.
- TCP and the text of requests and replies: a turn receives nothing, a text that is no reply, or a reply with its kind,
  its code and perhaps an id.
- The SPI commands of the card: the register is read or it is not. RingBuffer leaves out the critical sections.
