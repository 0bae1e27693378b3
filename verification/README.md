# Verified models of libdivecomputer

libdivecomputer downloads dive logs over serial, Bluetooth and USB links and decodes them.
This project models the parts of it that carry the weight and proves, for all inputs and
all runs, what they promise. `dafny verify dfyconfig.toml` checks everything.

Each part has a specification in plain functions, methods in the form of the C code that
are proved to compute it, and lemmas that say what the specification is worth.

- **AES-128 in CBC mode** (`AesTables`, `AesColumns`, `Aes`, `BlockChaining`, `AesCbc`). The
  tables are tied to arithmetic in GF(2^8), every in-place stage to its mathematical form,
  and decryption is shown to undo encryption for every key and messages of any length.
- **Checksums** (`Crc*`, `Checksum`). Each table-driven loop is division by its polynomial,
  one bit at a time. From linearity and injectivity of the register follow burst detection
  for every width and the mirror symmetry of plain and reflected variants.
- **Framing and the Freedom transport** (`Hdlc`, `HdlcSync`, `HdlcStream`,
  `FreedomTransport`, `FreedomDevice`). The reader and writer with their buffers, over a
  stream that arrives in arbitrary chunks, when the reader stays in step with the sender, and
  the fragmenting protocol above them, end to end, with what it notices of loss, damage and
  late answers.
- **Block download** (`SymbiosDownload`, `SymbiosDevice`). The host is modelled against any
  peer whatever (a function from all that was said to what arrives next), and then against
  one that sends a file over a line that loses and damages packets.
- **The byte buffer** (`Buffer`). A class with its representation invariant, all operations
  against operations on sequences, all runs, and the amortised cost of growing.
- **Parsers with tables** (`FreedomRecords`, `FreedomGuarantees`, `FreedomParser`,
  `SymbiosRecords`, `SymbiosTimes`, `SymbiosParser`, `IdiveRecords`, `IdiveParser`,
  `ExcursionRecords`, `ExcursionTimes`, `ExcursionParser`, over the samples in `Samples` and
  `SampleTimes`). A first pass that makes the second one safe, memories that agree with
  searches, a table that makes parsing repeatable, and times in order.
- **Decoders** (`OstcScreenshot`, `OstcDives`, `Aqualand`, `CochranBackparse`, `DateTime`).

Some places where the code does not do what one would hope are proved as such.
`FreedomTransport.LossDetected` and `FreedomTransport.SixteenLost`: losing a multiple of
sixteen packets goes unnoticed. `HdlcSync.SyncKept`, `HdlcSync.FlippedBit` and the lemmas
around them: bytes that leave the reader of frames inside what it takes for one, be it a flag
too many, a lost flag, two escapes in a row or a silence, make it take the flags of all later
frames the wrong way round and return empty frames. `DateTime.ZoneIsApplied` and
`DateTime.ZoneIsLost`: the value that stands for an invalid date is also a valid time, whose
time zone is ignored. `DateTime.TimegmCounts` and `DateTime.DayAhead`: leap days are counted
by the year, or in January and February by the year before; where that is before year 0 and
not a leap year, division towards zero makes the fallback a day ahead.
`SymbiosDevice.Host.Download` and `SymbiosDownload.EmptyDownloadDivides`: the progress of a
download divides by the announced length, which may be zero. `AesCbc.EncryptBuffer`: for a
message whose last block is not full, the padded block comes after it and uses neither the
message nor the chain.

Conventions of the model: bytes are small integers in the transports and parsers and bit
vectors in the cipher and the checksums, with proved conversions between them. Samples are
in the raw units of the dive computer. Fixed tables with a count are sequences with the
same checks of capacity. The stream below the framing layer delivers arbitrary non-empty
chunks and fails to write after an arbitrary number of writes. Memory of a buffer is either
plentiful or may run out at any request. Callbacks become the trace of samples, or, for
`OstcDives.ExtractDives`, two predicates.

## Model

| member | source | states |
|---|---|---|
| `AesTables.SboxInverses` | src/aes.c:108-180 | The two substitution tables are inverse permutations of the bytes, in both directions |
| `AesTables.SboxIsAffineOfInverse` | src/aes.c:108-125 | Every entry of the table is the affine image of the multiplicative inverse in GF(2^8): section 5.1.1 of FIPS 197 |
| `AesTables.MultiplyIsFieldProduct` | src/aes.c:329-345 | The shift-and-mask product agrees with carry-less multiplication reduced by the AES polynomial for all four factors that decryption uses |
| `AesTables.XtimeAdditive` | src/aes.c:306-309 | Doubling in the field distributes over xor |
| `AesTables.XtimeIsFieldProduct` | src/aes.c:306-309 | `xtime` is the field product by two |
| `AesTables.RconIsPowerOfX` | src/aes.c:149-168 | The round constants in use are the successive powers of x |
| `AesColumns.UnmixMixed` | src/aes.c:312-366 | The inverse column matrix undoes the column matrix, over the field, for every column |
| `Aes.SubstitutionInverts` | src/aes.c:263-274 | Inverse substitution undoes substitution on every block |
| `Aes.RowsShiftedIsRotation` | src/aes.c:279-303 | Row r is rotated left by r columns |
| `Aes.RowsUnshiftedIsRotation` | src/aes.c:384-409 | Row r is rotated right by r columns, so each byte goes back where it came from |
| `Aes.ScrambleInverts` | src/aes.c:263-303 | The inverse row shift and substitution, in the order decryption applies them, undo those of encryption |
| `Aes.ColumnMixInverts` | src/aes.c:312-366 | Inverse column mixing undoes column mixing on every block |
| `Aes.KeyedTwice` | src/aes.c:249-259 | Adding a round key twice changes nothing |
| `Aes.UnwoundMeetsRounds` | src/aes.c:413-461 | After n rounds of decryption the state is what encryption had n rounds before its end |
| `Aes.DecryptedEncrypted` | src/aes.c:413-461 | For every expanded key and every block, the inverse cipher returns the block that was enciphered |
| `Aes.MixStepIsMixRow` | src/aes.c:312-326 | The shortcut with one shared sum is the matrix product of section 5.1.3 of FIPS 197 |
| `Aes.UnmixRowAsWritten` | src/aes.c:350-366 | The four products as written are a row of the inverse matrix |
| `AesCbc.AesState.KeyExpansion` | src/aes.c:182-247 | Fills the whole schedule, word by word, by the recurrence of section 5.2 of FIPS 197 |
| `AesCbc.AesState.AddRoundKey` | src/aes.c:249-259 | Adds the 16 bytes of one round key to the block in place and touches nothing outside it |
| `AesCbc.AesState.SubBytes` | src/aes.c:263-274 | Substitutes the block in place and touches nothing outside it |
| `AesCbc.AesState.InvSubBytes` | src/aes.c:371-380 | Substitutes back in place and touches nothing outside the block |
| `AesCbc.AesState.ShiftRows` | src/aes.c:279-303 | The in-place swaps are the row rotation of the specification |
| `AesCbc.AesState.InvShiftRows` | src/aes.c:384-409 | The in-place swaps are the inverse rotation |
| `AesCbc.AesState.MixColumns` | src/aes.c:312-326 | The in-place update with one saved byte and one shared sum is the column matrix |
| `AesCbc.AesState.InvMixColumns` | src/aes.c:350-366 | The in-place update is the inverse column matrix |
| `AesCbc.AesState.Cipher` | src/aes.c:413-436 | Ten rounds in place are the cipher of section 5.1 of FIPS 197 |
| `AesCbc.AesState.InvCipher` | src/aes.c:438-461 | Ten rounds counted down in place are the inverse cipher of section 5.3 |
| `AesCbc.AesState.XorWithIv` | src/aes.c:518-525 | Adds the current vector to sixteen bytes of the buffer and nothing else |
| `AesCbc.BlockCopy` | src/aes.c:463-471 | Copies one block and leaves the rest of the buffer |
| `AesCbc.EncryptBuffer` | src/aes.c:527-566 | For any length: the output is the chaining recurrence over the blocks that hold the message, the input is overwritten with the masked blocks, and if the last block is not full one more, padded and not chained, is encrypted behind it; nothing else changes |
| `AesCbc.DecryptBuffer` | src/aes.c:568-608 | For any length: the output is the chained decryption of the blocks that hold the message, with one more decrypted behind a last block that is not full; nothing else changes |
| `AesCbc.DecryptionUndoesEncryption` | src/aes.c:413-461 | Decryption under the schedule of a key undoes encryption under the same key, for every key and block |
| `AesCbc.AesCbcRoundTrip` | src/aes.c:527-608 | For every key, vector and sequence of whole blocks, CBC decryption of CBC encryption returns it |
| `AesCbc.Restore` | src/aes.c:527-608 | A message of any length comes back when it is encrypted and decrypted in buffers that hold whole blocks |
| `BlockChaining.ChainingRecurrence` | src/aes.c:549-558 | Block j of the output is the cipher of plaintext block j xored with output block j-1, or with the vector: section 6.2 of NIST SP 800-38A |
| `BlockChaining.MaskedIsShiftedSum` | src/aes.c:549-558 | What the encryption leaves in its input is the message xored with the vector followed by the output |
| `BlockChaining.ChainRoundTrip` | src/aes.c:527-608 | Chaining is undone for any cipher and its inverse, any vector and any number of blocks |
| `Checksum.Crc8` | src/checksum.c:70-118 | The table-driven loop is bit-at-a-time division by 0x07, for every message, start and final xor |
| `Checksum.Crc16Ccitt` | src/checksum.c:120-168 | The table-driven loop is bit-at-a-time division by 0x1021 |
| `Checksum.Crc16CcittReflected` | src/checksum.c:171-219 | The reflected loop is division by the mirrored 0x1021, lowest bit first |
| `Checksum.Crc16Ansi` | src/checksum.c:221-269 | The table-driven loop is bit-at-a-time division by 0x8005 |
| `Checksum.Crc16AnsiReflected` | src/checksum.c:271-319 | The reflected loop is division by the mirrored 0x8005 |
| `Checksum.Crc32Reflected` | src/checksum.c:322-372 | The reflected loop with inverted start and end is division by the mirrored 0x04C11DB7 |
| `Checksum.Crc32` | src/checksum.c:375-425 | The plain loop with inverted start and end is division by 0x04C11DB7 |
| `Checksum.Crc8Table` | src/checksum.c:78-111 | Every table entry is eight division steps on its index |
| `Checksum.CcittTable` | src/checksum.c:128-161 | Every table entry is eight division steps on its index |
| `Checksum.CcittRTable` | src/checksum.c:179-212 | Every entry of the reflected table is eight mirrored steps on its index |
| `Checksum.AnsiTable` | src/checksum.c:229-262 | Every table entry is eight division steps on its index |
| `Checksum.AnsiRTable` | src/checksum.c:279-312 | Every entry of the reflected table is eight mirrored steps on its index |
| `Checksum.Crc32Table` | src/checksum.c:385-418 | Every table entry is eight division steps on its index |
| `Checksum.Crc32RTable` | src/checksum.c:332-365 | Every entry of the reflected table is eight mirrored steps on its index |
| `Checksum.ReverseBits` | src/array.c:37-52 | Every byte is replaced, in place, by the byte with its bits in reverse order |
| `CrcTheory.DividedLinear` | src/checksum.c:70-425 | Division is linear over xor of registers and messages |
| `CrcTheory.DividedInjective` | src/checksum.c:70-425 | For a polynomial of full degree, a message maps different registers to different registers |
| `CrcTheory.WindowInjective` | src/checksum.c:70-425 | Different windows no longer than the register lead to different registers |
| `CrcGuarantees.PlainCrc8DetectsBursts` | src/checksum.c:70-118 | Messages that differ only within eight consecutive bits have different checks, for every start value |
| `CrcGuarantees.PlainCrc16DetectsBursts` | src/checksum.c:120-269 | Messages that differ only within sixteen consecutive bits have different checks |
| `CrcGuarantees.PlainCrc32DetectsBursts` | src/checksum.c:375-425 | Messages that differ only within 32 consecutive bits have different checks |
| `CrcGuarantees.ReflectedCrc16DetectsBursts` | src/checksum.c:171-319 | The same for the reflected 16-bit checks, in their order of bits |
| `CrcGuarantees.ReflectedCrc32DetectsBursts` | src/checksum.c:322-372 | The same for the reflected 32-bit check |
| `CrcGuarantees.DifferentMessagesDifferInBits` | src/checksum.c:70-425 | Different messages of one length have different bits in either order, so a burst covers every pair that agrees outside the window |
| `CrcGuarantees.Crc16MirrorSymmetry` | src/checksum.c:120-319 | The reflected 16-bit check is the bit mirror of the plain one on bit-reversed bytes from the mirrored start |
| `CrcGuarantees.Crc32MirrorSymmetry` | src/checksum.c:322-425 | The same for the 32-bit checks |
| `CrcAppended.AppendedDetectsBursts` | src/checksum.c:171-219 | A message that carries its inverted reflected check no longer does after a burst of at most sixteen bits in the message, in the check or across both |
| `CrcAppended.SealedVanishes` | src/checksum.c:171-219 | Dividing on through the check that was appended leaves the register empty |
| `CrcAppended.PlainCheckVanishes` | src/checksum.c:70-118 | A message followed by its 8-bit check has the check zero |
| `Hdlc.ToggledIsXor` | src/hdlc.c:258-261 | Flipping the escape bit arithmetically is the xor with 0x20 |
| `Hdlc.StuffedHasNoFlag` | src/hdlc.c:305-340 | Stuffed data never holds a flag byte: section 4.2 of RFC 1662 |
| `Hdlc.UnstuffedStuffed` | src/hdlc.c:248-265 | Unstuffing undoes stuffing |
| `Hdlc.NextFrameReads` | src/hdlc.c:201-280 | Behind any noise without a flag byte, a written frame is read back whole and the stream stands just behind it |
| `Hdlc.SuccessMeansFrame` | src/hdlc.c:201-280 | For every stream at all: a read succeeds only on what stands, well stuffed, between its first flag byte and a later one |
| `HdlcSync.SyncKept` | src/hdlc.c:201-280 | After any bytes whatever, flags and escapes included, the next frame is read by some read exactly if those bytes, run through an automaton of three places, leave the reader between frames |
| `HdlcSync.FrameMet` | src/hdlc.c:201-280 | After any bytes whatever, the read that meets the next frame returns it, or else what was collected before its opening flag, with an error behind an escape, and leaves the rest of the frame unread |
| `HdlcSync.FromThenOn` | src/hdlc.c:201-280 | Of all frames behind those, every one is read if the bytes leave the reader between frames, and otherwise an empty one for each |
| `HdlcSync.LostFlag` | src/hdlc.c:228-263 | A frame whose opening flag is lost takes the next one with it |
| `HdlcSync.FlippedBit` | src/hdlc.c:228-263 | A stream where one flipped bit makes a flag of a byte: two empty frames are read and the next frame never is |
| `HdlcSync.CutFrame` | src/hdlc.c:201-280 | Wherever a silence cuts a frame in two, the read of its beginning times out, and the read of the rest finds an empty frame and passes over the next one |
| `HdlcSync.SyncAfterDamage` | src/hdlc.c:228-263 | After a frame with any bytes but flags in it, error or not, the next read returns the next frame exactly if the damaged one has no two escapes in a row; otherwise it returns an empty frame and the next one is passed over |
| `HdlcSync.SyncStaysLost` | src/hdlc.c:228-263 | Once a frame has been passed over, an empty one is read in the place of every frame that follows |
| `Hdlc.FramesReadBack` | src/hdlc.c:201-280 | Any list of frames is read back in order, empty ones included, and what follows is left alone |
| `HdlcStream.Framer.constructor` | src/hdlc.c:83-139 | Starts with empty buffers of the sizes asked for |
| `HdlcStream.Framer.Read` | src/hdlc.c:201-280 | For every chunking of the stream and every fill of the read buffer: the status, the bytes stored and the unread rest are those of the next frame; a frame too large for the caller is cut and reported, and the stream still moves on to just behind it |
| `HdlcStream.Framer.Write` | src/hdlc.c:282-358 | For every size of the write buffer the peer gets flag, stuffed data, flag; if the stream below fails, it has got a proper beginning of that |
| `HdlcStream.Framer.Purge` | src/hdlc.c:376-387 | Purging the input forgets exactly the bytes held in the read buffer and the chunks that have come in below |
| `HdlcStream.ReadFrames` | src/hdlc.c:201-280 | Successive reads return exactly the frames in order, however chunked, also after frames that did not fit |
| `HdlcStream.ReadCutFrame` | src/hdlc.c:201-280 | Two reads with a silence inside a frame between them: a time-out, then an empty frame, and the next frame is passed over, however the stream is chunked |
| `FreedomDevice.Device.Send` | src/divesoft_freedom.c:93-134 | The peer gets the packets of the message, one frame each; if the stream fails, a proper beginning of them |
| `FreedomDevice.Device.Recv` | src/divesoft_freedom.c:136-222 | Status, message type, data appended and unread rest are those that the packets in the stream determine; a failed allocation keeps what was received |
| `FreedomDevice.Device.Transfer` | src/divesoft_freedom.c:224-248 | Sends under the next number and receives under the same |
| `FreedomDevice.BuildPacket` | src/divesoft_freedom.c:105-116 | Lays out one packet: numbers, flags, type, length, data and check |
| `FreedomDevice.Check` | src/divesoft_freedom.c:160-193 | Accepts a packet exactly if every check passes |
| `FreedomDevice.RecvWhole` | src/divesoft_freedom.c:136-222 | End to end: a message that was cut into packets, framed and cut into any chunks is received whole, and what follows stays in the stream |
| `FreedomTransport.Delivered` | src/divesoft_freedom.c:93-222 | For every payload, number and type, receiving the frames of its packets yields the payload, from any point of the count |
| `FreedomTransport.FragmentsFrom` | src/divesoft_freedom.c:99-131 | Packet i on is what cutting the payload from byte 256 i on gives, numbered from i |
| `FreedomTransport.WrongNumberRefused` | src/divesoft_freedom.c:160-169 | A packet with the wrong count or the wrong command number, modulo sixteen, is refused |
| `FreedomTransport.LossDetected` | src/divesoft_freedom.c:143-216 | Losing g packets before the last is a protocol error exactly if g is not a multiple of sixteen; otherwise the message is accepted with exactly those bytes missing |
| `FreedomTransport.AnyLossDetected` | src/divesoft_freedom.c:143-216 | Whichever packets before the last get lost: the message is accepted exactly if a multiple of sixteen were lost before every packet that arrives, otherwise it is a protocol error; the data is that of the packets up to the first out of turn |
| `FreedomTransport.SixteenLost` | src/divesoft_freedom.c:143-216 | A message of seventeen packets of which only the last arrives is accepted, with its last byte for data |
| `FreedomTransport.StaleAnswerRefused` | src/divesoft_freedom.c:165-169 | The answer to another command is refused exactly if the numbers of the two differ modulo sixteen, as those of the last fifteen commands do; otherwise it is taken for the answer to this one |
| `FreedomTransport.TruncationDetected` | src/divesoft_freedom.c:143-216 | A message whose last packet never comes times out |
| `FreedomTransport.DamageDetected` | src/divesoft_freedom.c:160-193 | A packet in which at most sixteen consecutive bits were damaged, in its body, in its check or across both, is refused |
| `Buffer.DcBuffer.constructor` | src/buffer.c:32-54 | A new buffer is empty and has the capacity asked for |
| `Buffer.DcBuffer.Clear` | src/buffer.c:70-80 | Forgets the contents |
| `Buffer.DcBuffer.ExpandCalc` | src/buffer.c:83-92 | Ends, with the first doubling of the capacity that is large enough |
| `Buffer.FirstDoublingIsUnique` | src/buffer.c:83-92 | There is only one first doubling |
| `Buffer.DcBuffer.ExpandAppend` | src/buffer.c:95-123 | Makes room behind the contents without changing them |
| `Buffer.DcBuffer.ExpandPrepend` | src/buffer.c:126-156 | Makes room in front of the contents without changing them |
| `Buffer.DcBuffer.Reserve` | src/buffer.c:159-176 | Grows the capacity and keeps the contents |
| `Buffer.DcBuffer.Resize` | src/buffer.c:179-194 | Cuts the contents or extends them with zeros |
| `Buffer.DcBuffer.Append` | src/buffer.c:197-212 | Contents become old contents and bytes; an append-only history keeps all moves paid for by the capacity |
| `Buffer.DcBuffer.Prepend` | src/buffer.c:215-231 | Contents become bytes and old contents |
| `Buffer.DcBuffer.OpenGap` | src/buffer.c:243-289 | In each of the four branches, head and tail of the contents stand apart by the gap asked for |
| `Buffer.MoveParts` | src/buffer.c:255-268 | The two moves in their order, in place, never overwrite bytes still to be moved |
| `Buffer.DcBuffer.Insert` | src/buffer.c:234-297 | Contents become head, bytes, tail; refused exactly behind the end; a failed allocation changes nothing |
| `Buffer.DcBuffer.Slice` | src/buffer.c:300-313 | Contents become the slice; refused exactly if it does not fit |
| `Buffer.Perform` | src/buffer.c:70-313 | One operation does to the contents what it says, or changes nothing |
| `Buffer.Run` | src/buffer.c:32-313 | Every run of operations from a new buffer keeps the bounds, leaves the contents that the operations determine, and refuses only what is illegal or has run out of memory |
| `Buffer.AppendAll` | src/buffer.c:83-123 | However appended bytes are chunked, all bytes ever moved are at most the final capacity, which is at most the first one or twice the size |
| `SymbiosDevice.Host.Send` | src/halcyon_symbios.c:91-121 | Sends the command byte alone, or with data and check; refuses too much data |
| `SymbiosDevice.Host.Recv` | src/halcyon_symbios.c:123-210 | Accepts, refuses or reports the error code of a packet in the order of the checks |
| `SymbiosDevice.Host.FetchBlock` | src/halcyon_symbios.c:294-316 | Asks for a block again after each bad copy, up to the bound |
| `SymbiosDevice.Host.TakeBlock` | src/halcyon_symbios.c:294-358 | Stores, reports and acknowledges a block exactly if it is good and next in order; breaks off where progress divides by zero |
| `SymbiosDevice.Host.Download` | src/halcyon_symbios.c:253-377 | Against any peer: status, error code, buffer, progress and everything said on the line are those of the specified download, unless progress is tracked and divides by zero, which is exactly if the announced length is zero and a block is accepted |
| `SymbiosDownload.ResponseChecked` | src/halcyon_symbios.c:123-210 | A good answer is taken as it was meant |
| `SymbiosDownload.AcceptedInOrder` | src/halcyon_symbios.c:290-363 | Against any peer: accepted blocks are numbered consecutively through the wrap of the counter, and exactly the last of a successful download is marked as last |
| `SymbiosDownload.OneAckPerBlock` | src/halcyon_symbios.c:290-363 | Against any peer: one acknowledgement per accepted block, and otherwise only repetitions, never more than three in a row |
| `SymbiosDownload.FaithfulCollection` | src/halcyon_symbios.c:290-363 | Over a line that loses or visibly damages packets, what is collected is a beginning of the file from the current block on, and all of it exactly on success |
| `SymbiosDownload.FaithfulDownload` | src/halcyon_symbios.c:253-377 | The buffer always holds a beginning of the file; success means the whole file, as long as announced |
| `SymbiosDownload.EmptyDownloadDivides` | src/halcyon_symbios.c:66-67 | Of the downloads that succeed, progress divides by zero in exactly those of no bytes, or of a multiple of 2^32 |
| `SymbiosDownload.StepsInOrder` | src/halcyon_symbios.c:344-351 | Progress never passes its end; as long as its steps fit 32 bits it never goes back and ends with the last byte |
| `SymbiosDownload.StepsWrap` | src/halcyon_symbios.c:66-67 | Beyond that it goes back: of five million bytes, one more sets it from 858 to 0 |
| `SymbiosDownload.DamagedFetch` | src/halcyon_symbios.c:294-316 | A block gets through exactly if one of its first four copies does |
| `SymbiosDownload.DamagedDownload` | src/halcyon_symbios.c:253-377 | With the length announced right, a download succeeds exactly if no block is damaged more than three times in a row, and fails as a protocol error otherwise |
| `SymbiosDownload.DamageShows` | src/halcyon_symbios.c:140-171 | Damage to at most eight consecutive bits of the message and its check is always noticed, and so is a wrong command byte |
| `CochranBackparse.Backparse` | src/cochran_commander_parser.c:329-350 | Ends, and returns the least of all positions from which the samples read as whole events, over every way to read them; the end if there is none |
| `CochranBackparse.SplitsByLast` | src/cochran_commander_parser.c:329-350 | Reading forwards and peeling events off the end find the same positions |
| `CochranBackparse.RunIsUnique` | src/cochran_commander_parser.c:254-267 | With distinct codes, there is only one way to read the bytes from a position on as events |
| `CochranBackparse.EventsAreDetermined` | src/cochran_commander_parser.c:254-350 | For the events of both families, the samples alone determine where the whole events begin and which they are |
| `FreedomParser.HeaderCrcDetects` | src/divesoft_freedom_parser.c:343-349 | Damage to at most sixteen consecutive bits of what it covers changes the check of a header |
| `FreedomRecords.FieldsOfFlags` | src/divesoft_freedom_parser.c:413-415 | Type, time and identifier of a record are the bit fields of the little-endian word at its front |
| `FreedomParser.Parser.FillCache` | src/divesoft_freedom_parser.c:312-658 | Caches exactly what the data determine, once; a failure leaves the parser as it was |
| `FreedomParser.CollectTables` | src/divesoft_freedom_parser.c:404-565 | The first pass over the records fills the tables record by record, ignoring a last record that is cut short |
| `FreedomParser.Merge` | src/divesoft_freedom_parser.c:567-624 | Puts the tables of mixes together in order, without doubles, and finds the initial diluent |
| `FreedomParser.SearchGasMix` | src/divesoft_freedom_parser.c:276-289 | Finds the first entry with this oxygen, helium and type, or the size of the table |
| `FreedomParser.SearchTank` | src/divesoft_freedom_parser.c:291-302 | Finds the first tank with this transmitter, or the size of the table |
| `FreedomParser.Parser.GetTank` | src/divesoft_freedom_parser.c:838-853 | The mix reported with a tank is the one from its own record |
| `FreedomParser.Parser.SamplesForeach` | src/divesoft_freedom_parser.c:880-1073 | Reports what the cached tables and the records determine; fails, once cached, exactly on a jump back in time; times increase and indices are in range |
| `FreedomGuarantees.CollectedKnows` | src/divesoft_freedom_parser.c:404-565 | After the first pass every gas change and every pressure of the dive finds its mix and its tank in the tables |
| `FreedomGuarantees.CachedKnows` | src/divesoft_freedom_parser.c:567-655 | The merged tables still hold all of them, fit their room, and hold the initial diluent at the index remembered |
| `FreedomGuarantees.TanksHaveTheirMix` | src/divesoft_freedom_parser.c:460-500 | Tank i and mix i come from the i-th air integration record |
| `FreedomGuarantees.TanksTrackPressures` | src/divesoft_freedom_parser.c:532-552 | Begin and end pressure of every tank are the first and last of its recorded pressures |
| `FreedomGuarantees.OnlyTimeCanFail` | src/divesoft_freedom_parser.c:880-1073 | After a successful first pass the second fails exactly if time moves back by more than five seconds from some earlier record |
| `FreedomGuarantees.ReportsAreSound` | src/divesoft_freedom_parser.c:880-1073 | Reported times strictly increase and every reported gas and tank index is in range |
| `SymbiosParser.Parser.SamplesForeach` | src/halcyon_symbios_parser.c:311-764 | With the last tank and gas mix remembered, reports and caches exactly what linear searches would; a failure caches nothing |
| `SymbiosParser.ReadPressure` | src/halcyon_symbios_parser.c:502-535 | The remembered index is always what a fresh search finds, and stays so |
| `SymbiosParser.SelectGas` | src/halcyon_symbios_parser.c:485-500 | The remembered mix is always what a fresh search finds, and stays so |
| `SymbiosParser.SwitchGas` | src/halcyon_symbios_parser.c:440-464 | A switch finds or enters the mix and keeps what is remembered right |
| `SymbiosParser.ConfigureGas` | src/halcyon_symbios_parser.c:646-680 | A configuration enters, confirms or contradicts a mix and keeps what is remembered right |
| `SymbiosRecords.PressureTracks` | src/halcyon_symbios_parser.c:606-639 | After a reading every tank still shows the first and last pressure reported for it |
| `SymbiosRecords.EveryDiveIsSound` | src/halcyon_symbios_parser.c:370-763 | At the end of every dive, however it ended: tables in bounds, indices in range, no tank twice, begin and end pressures first and last of those reported |
| `SymbiosTimes.TimesInOrder` | src/halcyon_symbios_parser.c:400-415 | The times of a dive never decrease, and strictly increase exactly if the interval is not zero at any tick of the clock but the first |
| `SymbiosTimes.HeaderFirstIncreases` | src/halcyon_symbios_parser.c:400-450 | They strictly increase in every dive that begins with a header and whose headers all have an interval that is not zero |
| `IdiveParser.Parser.SamplesForeach` | src/divesystem_idive_parser.c:408-688 | With the last tank remembered, reports and caches exactly what linear searches would; a failure caches nothing |
| `IdiveParser.ReadPressure` | src/divesystem_idive_parser.c:619-649 | The remembered index is always what a fresh search finds, also for a tank that is not in the table yet |
| `IdiveParser.BreatheGas` | src/divesystem_idive_parser.c:541-568 | A change of gas finds or enters the mix, and only a change is reported |
| `IdiveRecords.EveryDiveIsSound` | src/divesystem_idive_parser.c:459-664 | At the end of every dive, however it ended: tables in bounds and without doubles, indices in range, times going forward except for repeated zeros, tanks showing the first and last pressure reported |
| `ExcursionParser.ReadConfig` | src/deepsix_excursion_parser.c:460-576 | Descriptors are accepted exactly if they fit and known ones have their sizes |
| `ExcursionParser.Parser.SamplesForeach` | src/deepsix_excursion_parser.c:452-771 | Reports, and leaves in the table, what the data and the table at the start determine, also after a failure |
| `ExcursionParser.ParseTwice` | src/deepsix_excursion_parser.c:452-771 | Two runs of the same object give the same answer |
| `ExcursionParser.SearchMix` | src/deepsix_excursion_parser.c:174-184 | Finds the first equal entry, or the size of the table |
| `ExcursionRecords.SecondRunRepeats` | src/deepsix_excursion_parser.c:578-771 | From any table at the start, a run over the table that a first run left ends alike, reports the same and leaves the table as it is, failures included |
| `ExcursionRecords.EveryRunFits` | src/deepsix_excursion_parser.c:663-682 | The table only grows, within its room, and every reported index is in it |
| `ExcursionTimes.TimesInOrder` | src/deepsix_excursion_parser.c:578-770 | The times of a dive are at least one sampling interval apart; they strictly increase exactly if the clock moves between any two samples, whether by the interval or by events about missing samples |
| `OstcScreenshot.Screenshot` | src/hw_ostc.c:458-594 | The raw format keeps the bytes received, the others hold the image of the pixels expanded so far; bad streams fail where they stop |
| `OstcScreenshot.DrawRun` | src/hw_ostc.c:559-583 | Walking down the columns draws the next pixels of the stream, in bounds, and no others |
| `OstcScreenshot.PlacesDiffer` | src/hw_ostc.c:560-583 | No place of the image is written for two pixels |
| `OstcScreenshot.PlaceOfPixel` | src/hw_ostc.c:560-583 | Every place of the image belongs to a pixel of the stream |
| `OstcScreenshot.ImageIsTransposed` | src/hw_ostc.c:508-591 | Pixel (x, y) of a finished image is element x * 240 + y of the expanded stream |
| `OstcScreenshot.UsedExpandsAlike` | src/hw_ostc.c:515-556 | The bytes used by a screenshot are a whole screenshot themselves |
| `OstcScreenshot.RawIsEnough` | src/hw_ostc.c:552-584 | Expanding what the raw format stored gives the image of the other formats |
| `OstcDives.SearchForward` | src/array.c:74-86 | Finds the first place of a marker within the bounds |
| `OstcDives.SearchBackward` | src/array.c:89-101 | Finds the last place of a marker within the bounds |
| `OstcDives.ExtractDives` | src/hw_ostc.c:597-638 | Ends, and reports the dives from the end of the data down, up to a known one and as long as more are wanted |
| `OstcDives.HeadersAreGreedy` | src/hw_ostc.c:612-635 | The headers visited are the greedy choice from the right, at 266 or above, without overlap, and none is left over |
| `OstcDives.DivesAreProper` | src/hw_ostc.c:612-635 | The dives are exactly those that begin at a visited header and end with the first footer behind it that lies before the header visited last |
| `OstcDives.DivesAreDisjoint` | src/hw_ostc.c:612-635 | Dives come in decreasing position, are in bounds and do not overlap |
| `Aqualand.UnpackTables` | src/citizen_aqualand_parser.c:142-207 | Both tables end up one behind the other in the array, which is always large enough; a missing end marker is a format error |
| `Aqualand.UnpackTable` | src/citizen_aqualand_parser.c:164-206 | One table is converted in bounds, from any nibble, behind what is stored already |
| `Aqualand.StoredIsRead` | src/citizen_aqualand_parser.c:167-206 | Digits with a marker at the next whole byte are read back, whatever the padding |
| `Aqualand.PackedIsUnpacked` | src/citizen_aqualand_parser.c:142-207 | Packing any two lists of three-digit values, with any padding and anything behind, and unpacking gives both lists back |
| `DateTime.TimegmCounts` | src/datetime.c:71-101 | The arithmetic equals the calendar counted day by day exactly if the year it takes leap days by is not negative or is a leap year, hence always from year 1; otherwise it is a day ahead |
| `DateTime.DayAhead` | src/datetime.c:71-101 | The first day of the leap year 0 comes out a day ahead, and that of the year -3, which is no leap year, right: in January and February the year before counts |
| `DateTime.CountedIncreases` | src/datetime.c:71-101 | Seconds by the calendar increase strictly with the date, leap seconds aside |
| `DateTime.TimegmIncreases` | src/datetime.c:71-101 | The arithmetic increases strictly on dates from year 1, leap seconds aside |
| `DateTime.TimegmIsPosix` | src/datetime.c:71-101 | From 1970 it equals the expression in section 4.16 of the POSIX.1-2017 Base Definitions |
| `DateTime.ZoneIsApplied` | src/datetime.c:169-193 | The time zone is subtracted exactly unless the date is the last second of 1969 and the zone is not zero |
| `DateTime.ZoneIsLost` | src/datetime.c:184-190 | An hour east of Greenwich the last second of 1969 gives -1 instead of -3601 |

## Left out

- AesCbc.EncryptBuffer: buffers do not overlap and hold all blocks that the code touches; null keys or vectors, which leave the state uninitialized, and the single-block entry points are not modelled.
- AesCbc.DecryptBuffer: the same restrictions.
- FreedomDevice.Device.Transfer: cancelling, progress events and logging are not modelled.
- SymbiosDevice.Host.Send: a stream that fails to write and cancelling are not modelled.
- SymbiosDevice.Host.Download: a stream that fails to write and cancelling are not modelled; progress is counted from where it stood before.
- HdlcStream.Framer.Read: the stream below never returns data together with an error and never succeeds without data.
- OstcDives.ExtractDives: whether a dive is the one with the stored fingerprint, and whether the callback wants more, are parameters; the five bytes of the fingerprint are not read. Data shorter than 266 bytes, for which the code computes a negative length to search, are excluded; its only caller reads more.
- ExcursionParser.Parser.SamplesForeach: event types of 16 and more never happen in the model; in the code types of 31 and more shift out of range.
- FreedomParser.Parser.FillCache: conservatism, salinity, location, temperature, depth and pressure values of the header and the configuration, which are copied without being used, are not modelled.
- SymbiosParser.Parser.SamplesForeach: versions, clock, location, gradient factors and the footer, which are copied without being used, are not modelled.
- IdiveParser.Parser.SamplesForeach: dive mode, algorithm and location, which are copied without being used, are not modelled; the constructor requires the header that the code reads without a check.
- Aqualand.UnpackTables: the second stage, which interpolates bogus depths and reports samples, is not modelled.
- CochranBackparse.Backparse: the rest of the Cochran parser, which relies on a ring buffer, is not modelled.
- DateTime.TimegmCounts: only the fallback without a library function is modelled, not local time.
- The first version of the Excursion format: fixed records without tables.
- Wrap-around of sizes, counts and times at the width of the machine: buffers and dives are assumed to stay below it. The length of a Symbios download, which is compared modulo 2^32, is modelled with it.
- Conversion of raw values to floating point units.
- Opening, configuring and closing devices, USB and Bluetooth transfers, firmware upload, the command line program, and all devices not named above.
