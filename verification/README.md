# A model of the network radio's parsing, decoding and buffering code

This project models the parts of an STM32 internet radio that carry unbounded state, and
proves what they promise on all inputs, all runs and all interleavings.

- **JSON** (`JsonTable`, `JsonMachine`, `JsonInvariant`, `JsonNesting`, `JsonText`, `JsonSteps`,
  `JsonLexemes`, `JsonCompleteness`, `JsonSoundness`, `JsonErrors`, `JsonComments`, `JsonInstances`,
  `JsonParser`). The table-driven parser is a function on values, one function per function of the
  program, and a class over the program's arrays whose every method is proved against it. `JsonText`
  is the recursive grammar as trees that keep their blanks, escapes and number spellings; it
  mentions no automaton. The parser accepts exactly that grammar, reports exactly the events of the
  tree, and says of a refused character what was wrong at its place.
- **Bits and codes** (`Bits`, `BitStream`, `VlcTable`, `VlcBuilder`). The bit writer and reader over
  byte buffers, the recursive construction of multi-level Huffman tables in one array, and the
  look-up that walks them. Meaning is given by bit strings: writing appends bits, a look-up is
  prefix-code matching.
- **WMA** (`WmaOverlap`, `WmaDecoder`, `BitReservoir`, `WmaLayout`, `WmaBands`, `WmaCoefs`,
  `FixSqrt`). Variable block lengths, windowing and overlap-add across frame shifts; the bit
  reservoir between superframes; the band layout and coefficient loops under noise coding; the
  bit-by-bit square root.
- **Ring buffer** (`NetBuffer`, `NetBufferRuns`). One reader, one worker and whoever starts and
  stops jobs, as interleaved steps. A step is one access to a shared field, one byte copied, or one
  region with interrupts off.
- **DMA queue** (`CodecQueue`). Writer, interrupt and close over the five-slot list.
- **ASF** (`UtfCodec`, `AsfText`, `AsfPacket`, `AsfSpelling`). The file cache and the chunked
  UTF-16LE decoder over it; the in-place compaction of a packet's payloads, which gives back what was
  spelled field by field.

Where the code departs from what it or its standards say, the model follows the code, and the
departure is stated:

- The number syntax is the table's: `1.` and `0.e1` are numbers and `0e1` is not, unlike section 2
  of RFC 4627 (`JsonInstances.NumberDepartures`); a blank text is accepted
  (`JsonCompleteness.BlankIsAccepted`).
- A comment is not like a space everywhere. After an exponent and after a bare point it is refused
  (`[1e5/**/]`, `[1./**/]`), and before the last letter of a literal name it completes the name:
  `tru/**/` is true. Everywhere else outside strings the two are alike
  (`JsonComments.CommentIsASpaceExactly`, an equivalence; `JsonInstances.CommentAfterNumber` and
  `JsonInstances.CommentInTrue` are the instances).
- The error a refused character leaves is not always the fitting one: right behind a decimal point a
  misfit is called an invalid character, at the beginning of an array it is called unbalanced, and a
  slash where a comment could begin leaves none (`JsonErrors.RefusalIsExplained`).
- The look-up follows three table levels, so code words longer than three times the bits of the
  first level do not decode (`VlcTable.ThreeLevelsSuffice`, an equivalence).
- What the output buffer holds before the first block stays audible until that block's rising window
  is over; nothing clears it between two streams (`WmaOverlap.SilenceAtFirst`, an equivalence, and
  `WmaDecoder.StaleIsHeard`).
- In version 1 the bands of every block length are stored in the first row, so shorter blocks take
  their high bands from rows that were never filled (`WmaBands.Bands.Init`). With an empty row such
  a block is never exact, while every block of version 2 is (`WmaCoefs.ExactBlocks`, and
  `WmaCoefs.ShortBlockOfVersionOne`, an instance).
- Also in version 1, above 43690 Hz but for 44100 Hz, and from 0.8 bits a sample on, the frequency
  at which the high bands start overflows 32 bits and wraps around, and the first block length
  writes three coefficients too many (`WmaBands.HighBandsInside`, an equivalence, and
  `WmaCoefs.LongBlockOfVersionOne`, an instance).
- A superframe without a carry-over whose header counts at most one frame loses all that follows its
  start (`BitReservoir.SuperframeDecoder.DecodeSuperframe`, an equivalence, and
  `BitReservoir.TailIsLost`, an instance).
- A resumed worker has room in every run if the gap above the resume mark covers a block
  (`NetBuffer.NetBuffer.RunJob`), and in a ring of any size where it does not, some run overfills the
  ring (`NetBufferRuns.ResumeOverfills`). Stopping a suspended worker lets it store the block it
  holds: the stream stays right if and only if the block fits (`NetBufferRuns.StopStores`, and
  `NetBufferRuns.StopOverfills`, a run).
- A read that took its index before the job reset it returns bytes from the wrong place if there are
  data when it goes on (`NetBuffer.NetBuffer.GetDataLength`, and `NetBufferRuns.StaleRead`, a run).
  A stream is misread only if a read was in its copy, or held an index other than the new one, at
  the reset of its job (`NetBuffer.NetBuffer.Run`).
- Closing the codec completes five buffers too many if the last interrupt comes between its test and
  its stopping of the DMA (`CodecQueue.Codec.CloseDrain`, an equivalence, and
  `CodecQueue.CloseRace`, a run).
- A sample rate is set with interrupts on. If the last interrupt comes between the load and the
  store of the clock register the MS bit comes back, and the next close completes five buffers too
  many (`CodecQueue.Codec.StoreRate`, an equivalence, and `CodecQueue.RateRace`, a run).
- The extra byte of a compressed payload is not counted as read, so that a single compressed payload
  takes one byte of the padding (`AsfPacket.SinglePayloadEnds`, an equivalence, and
  `AsfPacket.CompressedTakesPadding`, an instance).

The project is checked with `dafny verify dfyconfig.toml`.

## Model

| member | source | states |
|---|---|---|
| JsonSoundness.AcceptsExactlyTheGrammar | stm32radio_svn66/JSON_parser.c:270-315 | with comments off, for every depth limit, a text is accepted exactly when it is blank or spells one array or object of the recursive grammar nested no deeper than the limit |
| JsonSoundness.AcceptedIsGrammar | stm32radio_svn66/JSON_parser.c:774-1107 | an accepted text is parsed back into its tree, and the events reported are exactly those of that tree |
| JsonSoundness.RunIsImage | stm32radio_svn66/JSON_parser.c:774-1094 | every text accepted so far is the text of a partial parse (open containers, items read, a cursor in the innermost one) whose image is the state the automaton is in |
| JsonSoundness.CursorLeads | stm32radio_svn66/JSON_parser.c:774-1094 | one accepted character takes a partial parse to a partial parse whose text is one character longer and whose image is the next state |
| JsonCompleteness.GrammarIsAccepted | stm32radio_svn66/JSON_parser.c:774-1107 | every tree within the depth limit is accepted, whatever its blanks and escapes, and its events are reported in pre-order |
| JsonCompleteness.BlankIsAccepted | stm32radio_svn66/JSON_parser.c:1096-1107 | a blank text is accepted and reports nothing |
| JsonCompleteness.FeedNumber | stm32radio_svn66/JSON_parser.c:284-291 | every number of the grammar is accepted character by character and stands in the token buffer as spelled |
| JsonLexemes.FeedPieces | stm32radio_svn66/JSON_parser.c:700-743 | the characters of a string literal leave in the token buffer the bytes that its characters and escapes stand for, as section 2.5 of RFC 4627 gives them |
| JsonLexemes.UnescapeIsMeaning | stm32radio_svn66/JSON_parser.c:702-743 | what replaces a two-character escape is what the escape stands for in section 2.5 of RFC 4627, and no other character is admitted |
| JsonLexemes.CodeUnitIs | stm32radio_svn66/JSON_parser.c:633-660 | the value of four hexadecimal digits, of either case, is the number they spell |
| JsonLexemes.StringSteps | stm32radio_svn66/JSON_parser.c:633-764 | inside a string, whatever part of a piece has been read, a character is accepted exactly when the grammar allows it there |
| JsonLexemes.EscapesDecode | stm32radio_svn66/JSON_parser.c:628-693 | a four-digit escape, or a pair of surrogate escapes, is reported as UTF-8 that decodes to exactly the code point written |
| JsonLexemes.UnicodeDecoded | stm32radio_svn66/JSON_parser.c:633-695 | decode_unicode_char outside a pair: writes the code point, saves a high surrogate, refuses a low one |
| JsonLexemes.PairDecoded | stm32radio_svn66/JSON_parser.c:633-695 | decode_unicode_char with a saved high surrogate: writes the pair as one code point, refuses anything but a low surrogate |
| JsonLexemes.NumberStep | stm32radio_svn66/JSON_parser.c:284-312 | inside a number a character is accepted exactly when it continues the number, or is a blank after a complete one |
| JsonErrors.RefusalIsExplained | stm32radio_svn66/JSON_parser.c:328-370 | with comments off, every refused character leaves the error of the place of the partial parse where it comes: nesting depth at an opening bracket, a missing key or colon, a wrong keyword, number, escape or code unit, a bracket that does not match; none at a slash where a comment could begin or at a comma behind the text |
| UtfCodec.Utf8RoundTrip | stm32radio_svn66/JSON_parser.c:631-695 | the UTF-8 form of every scalar value decodes to it |
| JsonInvariant.StepKeepsLink | stm32radio_svn66/JSON_parser.c:774-1094 | every accepted character, comments on or off, keeps automaton state, pending type, top mode, escape flag, comment flag, saved surrogate and token buffer linked |
| JsonInvariant.AssertsAlwaysHold | stm32radio_svn66/JSON_parser.c:704-1082 | in every linked state every assertion on the path of the next character holds |
| JsonNesting.EveryPrefixIsLinkedAndNested | stm32radio_svn66/JSON_parser.c:587-626 | after every error-free prefix the events are well nested, keys and values alternate, and the open levels are the ones on the mode stack |
| JsonNesting.StepKeepsNesting | stm32radio_svn66/JSON_parser.c:947-1091 | one accepted character keeps that |
| JsonComments.CommentIsASpaceExactly | stm32radio_svn66/JSON_parser.c:279-312 | with comments on, after any accepted text that stops outside strings and comments, a comment and one space admit the same continuations with the same events up to the blanks after a number if and only if the state is not after an exponent (E3), after a point (FX), or one letter short of a literal name (T3, F4, N3) |
| JsonComments.CommentLikeBlankExactly | stm32radio_svn66/JSON_parser.c:279-312 | the same for one comment and one space in every linked state |
| JsonComments.SlashRefused | stm32radio_svn66/JSON_parser.c:298-312 | in the other states the slash is refused; after an exponent or a point a space is not |
| JsonComments.CommentIsASpace | stm32radio_svn66/JSON_parser.c:906-945 | in the ten states GO, OK, OB, KE, CO, VA, AR, ZE, IT and FR a comment and one space accept the same continuations and give the same events up to the blanks after a number |
| JsonInstances.NumberDepartures | stm32radio_svn66/JSON_parser.c:293-312 | [1.] and [0.e1] are accepted and [0e1] is refused |
| JsonInstances.CommentAfterNumber | stm32radio_svn66/JSON_parser.c:298-312 | [1e5 ] and [1. ] are accepted and refused with a comment in place of the space |
| JsonInstances.CommentInTrue | stm32radio_svn66/JSON_parser.c:301 | [tru/**/] is accepted with comments on, and its events are those of [true] |
| JsonComments.RunAlike | stm32radio_svn66/JSON_parser.c:745-771 | two states that differ only in the blanks after a number accept the same continuations and go on differing only so |
| JsonComments.CommentCompletesWord | stm32radio_svn66/JSON_parser.c:300-307 | before the last letter of true, false or null a comment is accepted where a space is not, and the value is reported as if complete |
| JsonParser.Parser.constructor | stm32radio_svn66/JSON_parser.c:450-527 | a new parser with a limit below 128 is linked, its buffer terminated and its stack large enough; a limit of 0 counts as 1 |
| JsonParser.Parser.PushMode | stm32radio_svn66/JSON_parser.c:371-404 | push on the array is push on the modes; it refuses exactly at the depth limit |
| JsonParser.Parser.PopMode | stm32radio_svn66/JSON_parser.c:407-419 | pop on the array is pop on the modes; it refuses an empty stack or another mode |
| JsonParser.Parser.Grow | stm32radio_svn66/JSON_parser.c:530-553 | the buffer doubles and keeps its text |
| JsonParser.Parser.ReserveFor | stm32radio_svn66/JSON_parser.c:555-566 | afterwards there is room for n more characters and the terminator, and the text is what it was |
| JsonParser.Parser.PushBackChar | stm32radio_svn66/JSON_parser.c:571-577 | appends one character; the text stays terminated |
| JsonParser.Parser.PopBackChar | stm32radio_svn66/JSON_parser.c:428-433 | removes one character; the text stays terminated |
| JsonParser.Parser.ParseParseBuffer | stm32radio_svn66/JSON_parser.c:587-626 | reports the pending value with its text and empties the buffer |
| JsonParser.Parser.HexOfTail | stm32radio_svn66/JSON_parser.c:633-660 | the value of the last four hexadecimal digits of the buffer |
| JsonParser.Parser.WriteUtf8 | stm32radio_svn66/JSON_parser.c:660-695 | the bytes appended are the lead byte and trailing bytes of the code point |
| JsonParser.Parser.DecodeUnicodeChar | stm32radio_svn66/JSON_parser.c:633-695 | the in-place decoding of an escape is the decoding on values, under the length the assertion demands |
| JsonParser.Parser.AddEscapedChar | stm32radio_svn66/JSON_parser.c:702-743 | replaces the backslash by the escaped character, or fails and leaves the program's error |
| JsonParser.Parser.AddCharToParseBuffer | stm32radio_svn66/JSON_parser.c:745-771 | appends unless blank outside a token or inside a comment; there is always room for the terminator |
| JsonParser.Parser.Perform | stm32radio_svn66/JSON_parser.c:823-1084 | each action on the arrays is the action on values, whenever its assertions hold |
| JsonParser.Parser.JsonParserChar | stm32radio_svn66/JSON_parser.c:774-1094 | one character on the object is one step of the automaton, all its assertions hold, and the link is kept |
| JsonParser.Parser.JsonParserDone | stm32radio_svn66/JSON_parser.c:1096-1107 | accepts exactly a finished or blank text |
| BitStream.ShowIsBits | stm32radio_svn66/libwma/wmabitstream.h:472-507 | the word loaded at any bit position, shifted left and right, shows exactly the next 1 to 25 bits of the stream |
| BitStream.GetBitContext.Init | stm32radio_svn66/libwma/wmabitstream.h:804-827 | reading starts at the first bit |
| BitStream.GetBitContext.GetBits | stm32radio_svn66/libwma/wmabitstream.h:700-708 | returns the next n bits of the stream and advances by n |
| BitStream.GetBitContext.GetBitsLong | stm32radio_svn66/libwma/wmabitstream.h:762-776 | the same for widths up to 31, read in two parts above 17 |
| BitStream.PutBitContext.constructor | stm32radio_svn66/libwma/wmabitstream.h:117-136 | nothing is written yet |
| BitStream.PutBitContext.PutBits | stm32radio_svn66/libwma/wmabitstream.h:238-274 | appends exactly the n bits of the value to what is written, across word boundaries, whatever stale bits the register holds |
| BitStream.PutBitContext.Count | stm32radio_svn66/libwma/wmabitstream.h:138-146 | counts exactly the bits written so far |
| BitStream.PutBitContext.StoreWord | stm32radio_svn66/libwma/wmabitstream.h:255-268 | a full word is stored most significant byte first |
| BitStream.PutBitContext.FlushPutBits | stm32radio_svn66/libwma/wmabitstream.h:148-163 | all pending bits reach the buffer, padded with fewer than eight zero bits |
| BitStream.WriteFields | stm32radio_svn66/libwma/wmabitstream.h:238-274 | any list of fields is written as the concatenation of their bits |
| BitStream.RoundTrip | stm32radio_svn66/libwma/wmabitstream.h:700-776 | any list of (width, value) fields written and flushed is read back unchanged, each field by get_bits (width 1 to 25) or get_bits_long (width 1 to 31) as the caller chooses |
| VlcBuilder.Vlc.AllocTable | stm32radio_svn66/libwma/wmabitstream.c:104-117 | hands out the next entries of the table |
| VlcBuilder.Vlc.BuildTable | stm32radio_svn66/libwma/wmabitstream.c:119-218 | for every prefix-free code the part of the table from the returned index on resolves exactly the code words extending the given prefix, and the rest of the table is untouched |
| VlcBuilder.Vlc.FirstPassOver | stm32radio_svn66/libwma/wmabitstream.c:144-190 | after the first pass each slot holds its short code word, or the length still to resolve below it, or nothing |
| VlcBuilder.Vlc.FillShort | stm32radio_svn66/libwma/wmabitstream.c:158-180 | a short code word fills exactly its run of slots, all of them still free |
| VlcBuilder.Vlc.SecondPassOver | stm32radio_svn66/libwma/wmabitstream.c:195-216 | after the second pass every slot is final and linked to a finished subtable |
| VlcBuilder.Vlc.DoSlot | stm32radio_svn66/libwma/wmabitstream.c:197-215 | one slot of the second pass: its subtable is built behind everything built so far |
| VlcBuilder.Vlc.InitVlc | stm32radio_svn66/libwma/wmabitstream.c:245-269 | the table built for a whole prefix-free code |
| VlcBuilder.LookUp | stm32radio_svn66/libwma/wmabitstream.h:853-855 | one look-up of the walk: the bits shown select the entry |
| VlcBuilder.GetVlc2 | stm32radio_svn66/libwma/wmabitstream.h:849-925 | the reader is moved and the code returned exactly as the walk over the table says, for a walk that looks at no more bits than the buffer is padded behind |
| VlcBuilder.BuildAndDecode | stm32radio_svn66/libwma/wmabitstream.c:245-269 | build and decode together: for every prefix-free code with lengths up to 3 * bits, on every padded buffer, the one matching code word is returned and exactly its bits are consumed, or -1 when none matches |
| VlcTable.DecodesByMatching | stm32radio_svn66/libwma/wmabitstream.h:849-878 | walking a finished table at depth 3 is prefix-code matching |
| VlcTable.WalkDecodes | stm32radio_svn66/libwma/wmabitstream.h:857-876 | walking to any depth that covers the longest code word is prefix-code matching |
| VlcTable.OneMatch | stm32radio_svn66/libwma/wmabitstream.h:913-925 | with a prefix-free code at most one code word stands at a position |
| VlcTable.ThreeLevelsSuffice | stm32radio_svn66/libwma/wmabitstream.h:849-878 | depth 3 decodes every bit string correctly if and only if no code word is longer than three times the bits of the first level |
| VlcTable.BuiltFrame | stm32radio_svn66/libwma/wmabitstream.c:203-214 | a finished table depends only on its own part of the array |
| WmaDecoder.VectorFmulAddAdd | stm32radio_svn66/libwma/wmadeci.c:193-197 | adds to each sample of a stretch the product of an input sample and the window value of the same index, and changes nothing else |
| WmaDecoder.VectorFmulReverse | stm32radio_svn66/libwma/wmadeci.c:199-204 | overwrites each sample of a stretch with the product of an input sample and the window value counted from the end, and changes nothing else |
| WmaDecoder.Decoder.constructor | stm32radio_svn66/libwma/wmadeci.c:305-330 | a decoder over any buffer contents, before its first block |
| WmaDecoder.Decoder.BlockLengths | stm32radio_svn66/libwma/wmadeci.c:911-963 | the three lengths of the next block, each from the header or carried on, and the program's error code for each bad header |
| WmaDecoder.Decoder.NextBlock | stm32radio_svn66/libwma/wmadeci.c:911-963 | the next block is the one its header announces, and there is none exactly if the header is bad or the block does not fit in what is left of the frame |
| WmaDecoder.Decoder.WmaWindow | stm32radio_svn66/libwma/wmadeci.c:217-266 | the add, copy, overwrite and zero steps leave the block's windowed samples added over its rising overlap, in place of stale data after it, and nothing else changed |
| WmaDecoder.Decoder.WindowLeft | stm32radio_svn66/libwma/wmadeci.c:222-247 | the left part of that |
| WmaDecoder.Decoder.WindowRight | stm32radio_svn66/libwma/wmadeci.c:248-265 | the right part of that |
| WmaDecoder.Decoder.DecodeBlock | stm32radio_svn66/libwma/wmadeci.c:902-1408 | every write lies within the two frames of the buffer; if the block fits its neighbours the buffer is right up to the end of its transform; fit is automatic where lengths are not reread; it fails exactly at a bad header |
| WmaDecoder.Decoder.DecodeFrame | stm32radio_svn66/libwma/wmadeci.c:1411-1455 | the blocks tile the frame exactly, its samples are the sum expected of all blocks, and the shifted buffer is right for the next frame; it fails only at a bad header |
| WmaDecoder.Decoder.PutFrame | stm32radio_svn66/libwma/wmadeci.c:1436-1452 | the first half of the buffer is put out, as expected of all blocks, and the second half takes its place |
| WmaDecoder.Decoder.DecodeFrames | stm32radio_svn66/libwma/wmadeci.c:1411-1455 | over every run of frames whose blocks agree, the output is exactly the overlap-added sum of all windowed blocks, also of the later ones; the blocks have the lengths their headers announce, and the run ends early only at a bad header |
| WmaOverlap.ZonesMeet | stm32radio_svn66/libwma/wmadeci.c:225-265 | the overlap zones of adjacent blocks that agree on sizes coincide |
| WmaOverlap.Crossfade | stm32radio_svn66/libwma/wmadeci.c:217-266 | in the common zone of two adjacent blocks the earlier one falls with the window the later one rises with, read backwards: at every time one is multiplied by entry j and the other by the entry as far from the end |
| WmaOverlap.OneIsHeard | stm32radio_svn66/libwma/wmadeci.c:217-266 | before that zone nothing is heard of the later block, behind it nothing of the earlier one |
| WmaOverlap.ExpectedStep | stm32radio_svn66/libwma/wmadeci.c:217-266 | at each sample, what was expected before and what the block does make what is expected after |
| WmaOverlap.RightStep | stm32radio_svn66/libwma/wmadeci.c:217-266 | a block that fits its neighbours keeps the buffer right, further than before |
| WmaOverlap.RightShift | stm32radio_svn66/libwma/wmadeci.c:1450-1451 | moving the second half of the buffer to the front keeps it right for the next frame |
| WmaOverlap.Settled | stm32radio_svn66/libwma/wmadeci.c:1411-1455 | later blocks change nothing that has been emitted |
| WmaOverlap.SilenceAtFirst | stm32radio_svn66/libwma/wmadeci.c:53 | the expected output is exactly the sum of all windowed blocks if and only if the buffer held zeros up to the end of the first block's rising window |
| WmaDecoder.StaleIsHeard | stm32radio_svn66/libwma/wmadeci.c:217-266 | for every stream of one block length, over a buffer whose first sample is not zero, the first sample put out is not the sum of the windowed blocks |
| BitReservoir.SuperframeDecoder.Init | stm32radio_svn66/libwma/wmadeci.c:1459-1490 | the header fields, and one frame fewer when there is no carry-over |
| BitReservoir.SuperframeDecoder.AppendCarry | stm32radio_svn66/libwma/wmadeci.c:1514-1525 | the bits behind the carry-over are exactly the first bit_offset payload bits, padded with zeros |
| BitReservoir.SuperframeDecoder.AppendBits | stm32radio_svn66/libwma/wmadeci.c:1518-1524 | one byte of that |
| BitReservoir.SuperframeDecoder.SetToCarry | stm32radio_svn66/libwma/wmadeci.c:1506-1532 | the straddling frame decoder sees exactly the unread tail of the superframe before, followed by the first bit_offset payload bits of this one |
| BitReservoir.SuperframeDecoder.SetToStart | stm32radio_svn66/libwma/wmadeci.c:1542-1547 | the next frame starts exactly after those bits |
| BitReservoir.SuperframeDecoder.SaveCarry | stm32radio_svn66/libwma/wmadeci.c:1565-1577 | what is saved is exactly the bits after the last decoded frame, or the size error |
| BitReservoir.SuperframeDecoder.DecodeSuperframeFrame | stm32radio_svn66/libwma/wmadeci.c:1496-1586 | one frame: what its decoder sees, where the reader is afterwards, what is carried over, when the reservoir is reset, and exactly when it fails |
| BitReservoir.SuperframeDecoder.DecodeSuperframe | stm32radio_svn66/wma.c:1011-1030 | a whole superframe: with a carry-over as many frames are decoded as the header counts, at least one, and without one the first is dropped; the straddling frame gets what is due to it, the others are decoded back to back, and exactly the bits after the last one are carried over; when none is decoded what follows the start is lost; it fails exactly if a frame does or if what is carried over, from before or on, is too long |
| BitReservoir.SuperframeDecoder.DecodeAlone | stm32radio_svn66/libwma/wmadeci.c:1487-1586 | without a bit reservoir the one frame of a superframe sees all of it |
| BitReservoir.TailIsLost | stm32radio_svn66/libwma/wmadeci.c:1476-1485 | an instance: of the first ten bytes after a new decoder, with a header that counts no frame, 64 bits follow the start and none is carried over |
| WmaLayout.NearIs | stm32radio_svn66/libwma/wmadeci.c:505-550 | the place of a critical frequency is the one whole coefficient, or the one multiple of four, within half a step of twice its part of the block |
| WmaLayout.BoundsDecide | stm32radio_svn66/libwma/wmadeci.c:539-560 | the ends of the bands decide a row without empty bands, widths and order |
| WmaBands.BuildBands | stm32radio_svn66/libwma/wmadeci.c:500-560 | in version 1 the i-th band ends where the i-th critical frequency is, cut to the block, until the block is full; in version 2 the bands, none of them empty, end exactly at all these places |
| WmaBands.TableFills | stm32radio_svn66/libwma/wmadata.h:35-51 | the widths of every hard-coded row sum to its block length |
| WmaBands.TableTop | stm32radio_svn66/libwma/wmadeci.c:510-525 | which hard-coded row is whose: at the rate it is made for, its last band begins at 9500 or 15500 Hz, to within three coefficients |
| WmaBands.BandsFill | stm32radio_svn66/libwma/wmadeci.c:500-560 | for all rates up to 49000 the bands fill their block, computed or hard-coded, in both versions |
| WmaBands.HighBands | stm32radio_svn66/libwma/wmadeci.c:574-589 | the high bands are what lies of the bands between the start of the high bands and the end of the coded coefficients, band by band |
| WmaBands.Bands.constructor | stm32radio_svn66/libwma/wmadeci.c:305-330 | a context as the loader leaves it, with every row empty |
| WmaBands.Bands.InitRow | stm32radio_svn66/libwma/wmadeci.c:496-560 | the bands of a block length, laid out or copied from the hard-coded row, go into its own row in version 2 and always into the first row in version 1; the other rows are untouched |
| WmaBands.Bands.InitBlock | stm32radio_svn66/libwma/wmadeci.c:496-589 | the high bands of block length k start where the fixed-point computation says and are taken from row k, whatever it holds |
| WmaBands.Bands.Init | stm32radio_svn66/libwma/wmadeci.c:384-591 | after the set-up of all block lengths, noise coding is on or off and each length has its start as the rate and the bits a sample say, and has its high bands, taken from its own bands in version 2 and at the first block length, and from what row k held before in version 1 at any other; the first row of version 1 ends with the bands of the shortest block |
| WmaBands.Factors | stm32radio_svn66/libwma/wmadeci.c:407-477 | the factors of the high frequency lie between 0.3 and 0.75, and up to 49000 Hz their product with the rate overflows only for 0.75 above 43690 Hz outside version 2 |
| WmaBands.NoiseDecimal | stm32radio_svn66/libwma/wmadeci.c:407-477 | the factors and their limits are the decimals 0.3 to 0.75 and 0.5 to 1.6 rounded to fixed point |
| WmaBands.NoiseGrows | stm32radio_svn66/libwma/wmadeci.c:384-477 | at the same rate more bits never start the noise lower nor bring it back, as long as the bits a sample fit |
| WmaBands.StartInside | stm32radio_svn66/libwma/wmadeci.c:564-567 | for every rate from 8 to 49000 Hz, every such factor and every block length: without overflow the high bands start behind the third coefficient and before the coded end, with overflow before the block |
| WmaBands.StartExact | stm32radio_svn66/libwma/wmadeci.c:564-567 | at even rates and without overflow the start is the factor times the block length, rounded |
| WmaBands.HighBandsInside | stm32radio_svn66/libwma/wmadeci.c:384-567 | the same for the set-up as a whole: in version 2 always, in version 1 unless the product overflows, the high bands start between the first coded coefficient and the coded end |
| WmaBands.CodedEndFits | stm32radio_svn66/libwma/wmadeci.c:562 | the end of the coded coefficients lies inside the block, less than one coefficient from 91 hundredths of it |
| WmaBands.FrameLengths | stm32radio_svn66/libwma/wmadeci.c:356-364 | a frame has 512, 1024 or 2048 samples, by rate and version |
| WmaCoefs.CountCoefs | stm32radio_svn66/libwma/wmadeci.c:1009-1035 | the number of transmitted coefficients leaves out exactly the noise-coded bands |
| WmaCoefs.FillCoefs | stm32radio_svn66/libwma/wmadeci.c:1207-1312 | for every choice of noise-coded bands each coefficient of the block gets its own source and its own noise, and the transmitted ones are consumed in order, each in its place |
| WmaCoefs.PutBand | stm32radio_svn66/libwma/wmadeci.c:1246-1294 | one high band of that |
| WmaCoefs.BlockIsExact | stm32radio_svn66/libwma/wmadeci.c:1207-1312 | the loops write exactly the block, and consume exactly the transmitted coefficients, if and only if the high bands reach from their start to the end of the coded coefficients, or start below the coded ones in a row that falls short by just as much |
| WmaCoefs.BlockCoefs | stm32radio_svn66/libwma/wmadeci.c:1009-1312 | the count and the loops together, over the context as it was set up: exactly the block is written, and exactly the counted coefficients are consumed, under that condition and no other |
| WmaCoefs.ExactBlocks | stm32radio_svn66/libwma/wmadeci.c:384-591 | from 8 to 49000 Hz with noise coding on: every block of version 2 is exact without condition; the first block length of version 1 is exact if and only if the product of rate and factor does not overflow; a shorter block of version 1 with an empty row never is |
| WmaCoefs.ShortBlockOfVersionOne | stm32radio_svn66/libwma/wmadeci.c:384-591 | an instance: in a version 1 stream at 44100 Hz and half a bit a sample the second block length starts its high bands at 410 and leaves 522 of its 1024 coefficients unwritten |
| WmaCoefs.LongBlockOfVersionOne | stm32radio_svn66/libwma/wmadeci.c:464-567 | an instance of the overflow: in a version 1 stream at 48000 Hz and 40000 bits a second the first block length writes three coefficients more than the block has |
| WmaCoefs.PlainCoefs | stm32radio_svn66/libwma/wmadeci.c:1313-1337 | without noise coding the block is written exactly: zeros below and above, and between them all transmitted coefficients in order |
| FixSqrt.Step | stm32radio_svn66/libwma/wmafixed.c:106-107 | one of the sixteen steps keeps the relation of partial root, remainder and step |
| FixSqrt.FixSqrt32 | stm32radio_svn66/libwma/wmafixed.c:102-127 | the result is r * 2^8 where r is the integer square root |
| FixSqrt.RootIsUnique | stm32radio_svn66/libwma/wmafixed.c:102-127 | that determines the result |
| NetBuffer.MarkIsPercent | stm32radio_svn66/netbuffer.c:365-366 | a water mark is the percentage of the size, rounded down, as long as the product fits 32 bits, and the gap above the resume mark then covers a block in rings of 20471 bytes and more |
| NetBuffer.SlotsDiffer | stm32radio_svn66/netbuffer.c:114-128 | fewer than a ring apart, two bytes do not share a slot |
| NetBuffer.NetBuffer.constructor | stm32radio_svn66/netbuffer.c:352-386 | the initial state satisfies the invariant |
| NetBuffer.NetBuffer.Call | stm32radio_svn66/netbuffer.c:79-87 | a read of any length starts with its view of the data length |
| NetBuffer.NetBuffer.TestStat | stm32radio_svn66/netbuffer.c:86-87 | the two tests of the state, as separate steps |
| NetBuffer.NetBuffer.SetWaitReady | stm32radio_svn66/netbuffer.c:92 | the wait is announced |
| NetBuffer.NetBuffer.TakeWaitReady | stm32radio_svn66/netbuffer.c:96 | blocks without a token; exactly one wake-up is ahead of a waiting reader |
| NetBuffer.NetBuffer.GetReadIndex | stm32radio_svn66/netbuffer.c:103 | the reader's view of the index |
| NetBuffer.NetBuffer.GetDataLength | stm32radio_svn66/netbuffer.c:105-111 | a read is cut to the data there are; its index is stale exactly when it is not the buffer's and there are data; it leaves the ring only if that is overfull already |
| NetBuffer.NetBuffer.CopyOut | stm32radio_svn66/netbuffer.c:113-128 | each byte copied out is the one in its slot, and while the stream is right the next byte of the stream |
| NetBuffer.NetBuffer.MoveReadIndex | stm32radio_svn66/netbuffer.c:118-128 | the read index moves to the slot after the copied bytes |
| NetBuffer.NetBuffer.TakeOut | stm32radio_svn66/netbuffer.c:130-147 | the bytes returned so far are extended by exactly the copied ones; a suspended worker is resumed exactly below the resume mark |
| NetBuffer.NetBuffer.ReleaseWaitResume | stm32radio_svn66/netbuffer.c:142 | the one resume token |
| NetBuffer.NetBuffer.ReceiveJob | stm32radio_svn66/netbuffer.c:332-336 | blocks without a job |
| NetBuffer.NetBuffer.CheckJob | stm32radio_svn66/netbuffer.c:339 | a job stopped meanwhile is dropped |
| NetBuffer.NetBuffer.ResetIndices | stm32radio_svn66/netbuffer.c:341-343 | a job starts a new, empty stream, which is right unless a read of an earlier stream is in the middle of its copy; a read lags if it is, or has taken an index other than the new one |
| NetBuffer.NetBuffer.TestStopping | stm32radio_svn66/netbuffer.c:244-248 | a stop is noticed before the next fetch |
| NetBuffer.NetBuffer.Fetch | stm32radio_svn66/netbuffer.c:251-257 | the fetched bytes extend the stream |
| NetBuffer.NetBuffer.TestRoom | stm32radio_svn66/netbuffer.c:260-263 | the unsigned test for room |
| NetBuffer.NetBuffer.SetSuspend | stm32radio_svn66/netbuffer.c:269-271 | suspends, even over a stop that has just come |
| NetBuffer.NetBuffer.TakeWaitResume | stm32radio_svn66/netbuffer.c:272 | blocks without a token and leaves none behind |
| NetBuffer.NetBuffer.CopyIn | stm32radio_svn66/netbuffer.c:282-296 | each byte copied in goes to its slot; it writes over a byte still to be read exactly when the ring is full, and never while the worker has had room |
| NetBuffer.NetBuffer.MoveSaveIndex | stm32radio_svn66/netbuffer.c:291-300 | the save index moves to the slot after the block |
| NetBuffer.NetBuffer.Commit | stm32radio_svn66/netbuffer.c:303-306 | while the stream is right the counted data never exceed the ring |
| NetBuffer.NetBuffer.TestReady | stm32radio_svn66/netbuffer.c:309-311 | wakes a waiting reader only above the ready mark |
| NetBuffer.NetBuffer.ClearWaitReady | stm32radio_svn66/netbuffer.c:316 | the wait is answered once |
| NetBuffer.NetBuffer.ReleaseWaitReady | stm32radio_svn66/netbuffer.c:319 | the one wake-up |
| NetBuffer.NetBuffer.SetStopped | stm32radio_svn66/netbuffer.c:217 | the job ends |
| NetBuffer.NetBuffer.TestWaitReady | stm32radio_svn66/netbuffer.c:219 | a reader still waiting is woken |
| NetBuffer.NetBuffer.StopReset | stm32radio_svn66/netbuffer.c:226-228 | the stream ends with the reset |
| NetBuffer.NetBuffer.StopJob | stm32radio_svn66/netbuffer.c:183-203 | a stop releases the worker exactly when it is suspended; the worker is without room exactly when its block does not fit then |
| NetBuffer.NetBuffer.ClaimJob | stm32radio_svn66/netbuffer.c:165-180 | only a stopped buffer can be claimed |
| NetBuffer.NetBuffer.SendJob | stm32radio_svn66/netbuffer.c:175 | a claimed job is sent once |
| NetBuffer.NetBuffer.Step | stm32radio_svn66/netbuffer.c:79-350 | any step of anyone keeps the invariant, and whoever can go on does; a stream begins right at every reset but one in the middle of a copy, whether a read lags is settled at the reset, and a stream stops being right exactly at its end, at a read with a stale index, or at a byte written over one not taken out |
| NetBuffer.NetBuffer.Run | stm32radio_svn66/netbuffer.c:79-350 | under every interleaving of any number of jobs, the stream is right or over unless a read was lagging when its job reset the indices, the gap above the resume mark does not cover a block, or a stop released a worker without room; while it is right the bytes returned are in order a prefix of the bytes fetched and the data never exceed the ring; at all times at most one resume token exists, none is left over, and a waiting worker is either suspended without one or resumed with exactly one delivered or about to be |
| NetBuffer.NetBuffer.RunJob | stm32radio_svn66/netbuffer.c:233-350 | in a ring whose gap above the resume mark covers a block, from a reset at which no read lags and under every interleaving in which no stop releases a worker without room, the bytes returned are in order a prefix of the bytes fetched, and the data never exceed the ring, until the job ends |
| NetBufferRuns.FirstJob | stm32radio_svn66/netbuffer.c:79-350 | the same from the start on: a job is started, a read waits for it, and then any schedule without stops follows |
| NetBufferRuns.ReaderFirst | stm32radio_svn66/netbuffer.c:153-181 | a reader that waits before the worker has reset the indices: the stream of the job starts right |
| NetBufferRuns.StaleRead | stm32radio_svn66/netbuffer.c:102-128 | in a ring of any size, a run from the start in which a read takes its index, the job is stopped, the next one stores the bytes x and y, and the read returns y first |
| NetBufferRuns.StoreBlock | stm32radio_svn66/netbuffer.c:282-306 | a worker that stores its block alone keeps the stream right if and only if the block fits |
| NetBufferRuns.StopStores | stm32radio_svn66/netbuffer.c:183-203 | from every suspended state, a stop after which the reader takes nothing out keeps the stream right if and only if the block held fits |
| NetBufferRuns.StopOverfills | stm32radio_svn66/netbuffer.c:183-203 | for a ring of any size, a run from the start in which a stop makes the worker store a whole block into a full ring |
| NetBufferRuns.ResumeStores | stm32radio_svn66/netbuffer.c:130-143 | a read of one byte that resumes the worker keeps the stream right if and only if the block held then fits |
| NetBufferRuns.ResumeOverfills | stm32radio_svn66/netbuffer.c:364-366 | for a ring of any size whose gap above the resume mark does not cover a block, a run from the start, without stops, that overfills it |
| CodecQueue.Push | stm32radio_svn66/codec.c:533-538 | a node written at the put index joins the queue's end |
| CodecQueue.FullIsFour | stm32radio_svn66/codec.c:521-530 | the queue is full exactly with four nodes |
| CodecQueue.ClockDivides | stm32radio_svn66/codec.c:362-413 | exactly nine rates are supported, and for each the register divides the clock it selects to just that rate |
| CodecQueue.Codec.constructor | stm32radio_svn66/codec.c:587-589 | the queue starts empty and the codec idle |
| CodecQueue.Codec.WriteCheck | stm32radio_svn66/codec.c:521-530 | a write is refused exactly with four nodes pending |
| CodecQueue.Codec.WriteCommit | stm32radio_svn66/codec.c:532-558 | the buffer joins the queue; alone in it, it starts the DMA with itself and sets the MS bit |
| CodecQueue.Codec.Isr | stm32radio_svn66/codec.c:598-658 | the head is completed and leaves the queue; the DMA goes on with the next head, or stops and clears the MS bit |
| CodecQueue.Codec.CloseTest | stm32radio_svn66/codec.c:446 | close goes on exactly when the MS bit is set |
| CodecQueue.Codec.CloseStopDma | stm32radio_svn66/codec.c:448-451 | an interrupt in between may have emptied the queue |
| CodecQueue.Codec.CloseClear | stm32radio_svn66/codec.c:453-454 | the MS bit is cleared |
| CodecQueue.Codec.CompleteNext | stm32radio_svn66/codec.c:463-468 | one node completed |
| CodecQueue.Codec.CloseDrain | stm32radio_svn66/codec.c:457-473 | the drain completes exactly what was submitted if and only if something is queued when it starts |
| CodecQueue.Codec.LoadRate | stm32radio_svn66/codec.c:358-422 | a new rate loads the MS bit with interrupts on; an unsupported one changes nothing |
| CodecQueue.Codec.StoreRate | stm32radio_svn66/codec.c:358-422 | the store leaves the MS bit saying whether something is queued if and only if the bit is still what was loaded |
| CodecQueue.Codec.Step | stm32radio_svn66/codec.c:358-658 | any step keeps the invariant and is taken when it is possible; a run is raced exactly by a close that stops the DMA with the queue already empty and by a store of a stale MS bit; the other bits of the clock register change only with the rate |
| CodecQueue.Codec.Run | stm32radio_svn66/codec.c:358-658 | over every run that is not raced the completed buffers followed by the queued ones are the submitted ones, at most four are pending, the MS bit is set exactly while something is queued and the DMA then runs with the head, and a close stops the DMA, clears the bit and empties the queue in that order; a run without a close and without a change of rate is never raced |
| CodecQueue.CloseRace | stm32radio_svn66/codec.c:446-470 | the interrupt between the test and the stop: one buffer submitted, six completed |
| CodecQueue.RateRace | stm32radio_svn66/codec.c:401-403 | the interrupt between load and store of the clock register: one buffer submitted, and the next close has completed six |
| AsfText.Utf16RoundTrip | stm32radio_svn66/wma.c:346-366 | every well-formed UTF-16LE text is read as the string it spells |
| AsfText.AdmittedIsLongest | stm32radio_svn66/wma.c:372-376 | the characters put out are the longest prefix before each of which more than six bytes of the budget are left |
| AsfText.Utf8Encode | stm32radio_svn66/wma.c:312-325 | the bytes written are the UTF-8 form of the character, and nothing else changes |
| AsfText.StreamBuffer.constructor | stm32radio_svn66/wma.c:243-258 | the cache starts empty at the start of the file |
| AsfText.StreamBuffer.Fill | stm32radio_svn66/wma.c:165 | the cache is filled with the next bytes of the file |
| AsfText.StreamBuffer.Read | stm32radio_svn66/wma.c:155-184 | the next bytes of the file are put in place, across a refill of the cache, fewer only where the cache and one refill hold fewer; for requests up to the size of the cache that is only at the end of the file; the end is marked exactly then |
| AsfText.StreamBuffer.Advance | stm32radio_svn66/wma.c:186-197 | the position moves by the size unless that lies beyond the next filling of the cache, which marks the end |
| AsfText.StreamBuffer.ReadChunk | stm32radio_svn66/wma.c:342-344 | the next part of the string |
| AsfText.StreamBuffer.CompletePair | stm32radio_svn66/wma.c:351-359 | a surrogate pair split over two chunks is put together again |
| AsfText.Character | stm32radio_svn66/wma.c:365-371 | the character at the front of the chunk |
| AsfText.StreamBuffer.DecodeNext | stm32radio_svn66/wma.c:346-383 | one turn of the loop keeps the decoder's progress |
| AsfText.StreamBuffer.Finish | stm32radio_svn66/wma.c:386-392 | the terminator, within the budget |
| AsfText.StreamBuffer.Utf16LEDecode | stm32radio_svn66/wma.c:330-394 | the output is the UTF-8 of the admitted characters and a terminator, within budget, and exactly the string's bytes are consumed, whatever the chunks and refills |
| AsfPacket.FirstFrame | stm32radio_svn66/wma.c:868-916 | what is parsed at a place depends only on the bytes from there on |
| AsfPacket.CountKeepsUp | stm32radio_svn66/wma.c:910-916 | the count of bytes keeps up with the place in the packet if and only if the payload is not compressed |
| AsfPacket.SinglePayloadEnds | stm32radio_svn66/wma.c:912-916 | a single payload ends where the padding begins if and only if it is not compressed, and otherwise one byte later; with several payloads the count is not used |
| AsfPacket.CompressedTakesPadding | stm32radio_svn66/wma.c:743-790 | an instance: a packet of nineteen bytes, twelve of them read before its single compressed payload, which takes the first byte of the padding |
| AsfPacket.GetValueIsLittleEndian | stm32radio_svn66/wma.c:717-719 | a header field is little-endian in its coded length |
| AsfPacket.ReadHeader | stm32radio_svn66/wma.c:868-916 | a payload header gives the stream, the place and the length of the payload, as the fields lie there |
| AsfPacket.Memmove | stm32radio_svn66/wma.c:929 | the bytes are moved down in place |
| AsfPacket.OneMore | stm32radio_svn66/wma.c:918-934 | each payload is left, moved down or passed over without touching a header or payload not parsed yet |
| AsfPacket.ReadPayloads | stm32radio_svn66/wma.c:849-941 | for every well-formed packet the audio buffer ends up holding, in order, the original bytes of all payloads of the audio stream; without one the packet is unchanged |
| AsfSpelling.BytesRoundTrip | stm32radio_svn66/wma.c:717-719 | a value written least significant byte first in a field that holds it is read back |
| AsfSpelling.PayloadRoundTrip | stm32radio_svn66/wma.c:868-916 | for every choice of the four field codes in the property byte: a payload spelled as stream byte, object number, offset, length of the replicated bytes, replicated bytes, length, extra byte and data is parsed at any place to that stream, that place and that length, and ends where it was spelled to end |
| AsfSpelling.PacketRoundTrip | stm32radio_svn66/wma.c:868-934 | for every sequence of payloads spelled one after the other, the audio of the packet is the data of those of the audio stream, in order |
| AsfSpelling.ReadSpelled | stm32radio_svn66/wma.c:849-941 | the loop over such a packet finds audio exactly if there is some, and leaves all of it together and in order |

## Left out

- JsonParser.Parser.constructor: depth limits of 128 or more, or none, for which `push` indexes beyond its capacity.
- JsonParser.Parser.Grow: allocations do not fail; so `JsonParser.Parser.ReserveFor` always succeeds.
- JsonParser.Parser.ParseParseBuffer: the callback accepts.
- JSON callbacks that refuse, failing allocations, the numeric conversion of number texts (a number is reported by its text).
- `JSON_parser_is_legal_white_space_string`, error strings and the configuration defaults other than depth and comments.
- Bit operations on disjoint fields are written as additions, divisions and remainders.
- VlcBuilder.Vlc.BuildTable: assumes a prefix-free code and enough room, so the error returns for a clash and for a failed allocation are assertions that they are not taken; for other codes detection depends on the order of the code words.
- VlcBuilder.Vlc.AllocTable: there is room for the entries asked for; the program only reports that there is not, and goes on.
- VlcBuilder.Vlc.InitVlc: the table entries of 16 bits are numbers bounded by the stated limits on symbols and entries; the variants of the bit reader and writer that the build does not select, `GET_RL_VLC` and static tables are not modelled.
- VlcBuilder.BuildAndDecode: where no code word matches, how far the position moves is left open, as the comment in the header says.
- BitStream.PutBitContext.PutBits: the value fits its width and there is room for a word, which the program takes for granted.
- BitStream.GetBitContext.Init: the size in bits and the end of the buffer, which the reader never looks at, are left out, and negative sizes with them.
- BitStream.PutBitContext.constructor: likewise for the end of the writer's buffer.
- BitStream.GetBitContext.GetBits: the bytes behind the reader's read-only pointer are a value; that memory is not changed while it is read.
- WmaDecoder.Decoder.DecodeBlock: fixed-point multiplication, window values and the inverse transform are uninterpreted, and the rest of a block's bits between its lengths and its transform is not read; one channel is modelled, with every block coded, because a block whose channel is not coded skips the windowing; the interleaving of channels in the output is left out.
- WmaDecoder.Decoder.DecodeFrames: stops at the first frame that fails; where rereading the lengths makes neighbours disagree nothing is said of the output.
- BitReservoir.SuperframeDecoder.DecodeSuperframeFrame: a frame decoder is only how many bits it consumes, or that it fails; the memory behind a superframe is long enough for what its header announces.
- WmaCoefs.FillCoefs: a coefficient is where it comes from, not its fixed-point value, and the exponents are left out.
- WmaCoefs.BlockCoefs: the channel's array has room for what the loops write.
- WmaBands.Bands.Init: the number of block lengths is given, and the bound of sixteen on the number of high bands is left out.
- WmaBands.HighBandsInside: rates below 8 Hz, where halving the rate loses too much, and above 49000 Hz, where the bands need not fill the block, are left out.
- Exponent decoding, LSP, the run-length coefficient parser, stereo, and the CORDIC sine.
- NetBuffer.NetBuffer.Run: nothing is said of progress. A semaphore wait does not fail, and the assignments that reset the indices at the start and the end of a job (lines 226-228 and 342-343) are one step each.
- NetBuffer.NetBuffer.Step: once a stream is not right any more only the token counts and the index ranges are kept, and nothing is said of a read that has left the ring.
- NetBuffer.NetBuffer.constructor: a ring smaller than a block, into which no full block can be copied, is left out.
- CodecQueue.Codec.Run: the completion callback is installed and does not call back into the queue, interrupts fire only while the DMA runs, the clearing of the MS bit in a close is one step, rates are changed one at a time, and the master-mode build is modelled.
- AsfText.StreamBuffer.Utf16LEDecode: for text of even length whose surrogates are paired, except that the last one may be cut off; other text makes the program shift by a negative amount or read a stale byte.
- AsfText.Utf8Encode: for code points up to the last one; larger values, which the program encodes in up to six bytes, do not come from paired surrogates.
- AsfText.StreamBuffer.Read: `read` on a regular file returns what is left up to the size asked for.
- AsfPacket.ReadPayloads: the packet header before the payloads is given; a packet whose headers or payloads leave the buffer is not followed, since the program does not check that.
- The tag parser, the metadata objects of ASF, the HTTP and radio clients, the user interface, drivers and all hardware set-up.
