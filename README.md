# FM Ekka Pro fiscal-memory codec, Z-report editor and icon writer, in Dafny

This project models the core of FM Ekka Pro, a desktop editor for the
fiscal-memory dumps of Datecs DP-25 cash registers, and proves properties
of that model.

**The dump codec (`electron/lib/dp-fm-parser.cjs`).**

- A dump is a 2 MiB flash image. Erased flash reads as 0xFF.
- The image is a fixed sequence of regions:
  - a 384-byte test area;
  - one serial-number record and one fiscal-mode-start record;
  - 8 fiscal-memory numbers and 8 tax ids;
  - 32 VAT-rate changes and 100 RAM resets;
  - 4500 daily Z reports;
  - 20 electronic-journal open marks and 20 close marks;
  - an unused area, then a 16-byte CPU id.
- A slot whose bytes before its last are all 0xFF has never been written.
- Any other record carries, in its last byte, the XOR of 0xA5 and all of its other bytes.

The model covers these parts, one module each:

- the byte and buffer primitives of Node's `Buffer` (`Bytes`);
- the checksum protocol (`Checksum`);
- the Windows-1251 text fields (`FixedText`);
- the packed 8-byte dates (`FiscalDate`);
- each record kind's parser and in-place writer (`Records`, `VatRates`, `ZReports`);
- the date resolver that computes a Z report's change counters (`DateResolver`);
- the slot regions (`Slots`);
- the file layout (`Layout`);
- the decoder and the encoder (`Decoder`, `Encoder`).

The decoder works as follows:

- Each list region keeps its non-blank slots in slot order.
- Every kept record is checked. A failing checksum raises a `checksum` warning, and a date after "now" raises a `future-date` warning.
- The serial record and the fiscal-mode-start record are always parsed, even when their slots are blank.

The encoder works as follows:

- It starts from erased flash and writes every slot from the input lists.
- It recomputes each Z report's four change counters from the dates of the change lists.

`RoundTrip` proves that encoding a dump and decoding the result gives back every record, with only future-date warnings. It also shows that the decoder's "always parse the singletons" rule breaks the reverse trip for a dump without a serial record. The reverse trip is decode, then encode, then decode again.

`RoundTrip.ReencodeStable` proves that the trip settles after one round. Take data in the form decoding produces, with both singletons present, no null entries, and no list over its region's capacity. Encode it, decode the image, and hand the decoded records back to the encoder unchanged. The second image is the first one byte for byte.

The stability needs those conditions, because the encoder counts Z changes over the whole input lists (electron/lib/dp-fm-parser.cjs:713-732, `Layout.Counted` over `Layout.TimesOf`):

- An entry past a region's capacity is never written, yet its date still counts. After decoding it is gone, so the second encode can write smaller counters.
- A null entry is written as an erased slot, yet it still takes a position in the resolver's list. Decoding compacts it out, which moves the positions of the later entries, so the second encode can write different counters.
- Without a serial record or a fiscal-mode start, `RoundTrip.AbsentSingletonsNotStable` shows that the slot changes on the second encode.

**The Z-report editor page (`src/pages/z-reports-page.tsx`).** Its pure list operations are modelled in `ZReportsPage`:

- the blank report and appending a report;
- normalising imported reports;
- deleting one report and deleting a range of Z numbers (both renumber the rows);
- the free-text filter of the table.

**The main layout (`src/layouts/main-layout.tsx`).** `MainLayout` models:

- the file name shown for the open path;
- the default name offered when saving a copy;
- the section label chosen from the current route.

**The icon generator (`scripts/generate-ekka-icon.cjs`).** `Icon` models:

- the CRC-32 table and the CRC-32 loop;
- the framing of a PNG chunk;
- the raw scanline layout and the IHDR header of `encodePNG`;
- the container assembled by `buildIco`.

Compression is a parameter.

Where a JavaScript value can be `null`/`undefined` and the code handles it, the model uses `Option`. Instants are integers (milliseconds since the Unix epoch) standing for the ISO strings of the source. Text is the Windows-1251 byte string.

## Model

| member | source | states |
|---|---|---|
| Bytes.LeRoundTrip | electron/lib/dp-fm-parser.cjs:95-101 | a value below 256^n stored as n little-endian bytes (`writeUInt16LE`/`writeUInt8`) reads back as itself |
| Bytes.LeBytesOfValue | electron/lib/dp-fm-parser.cjs:95-101 | reading little-endian bytes loses nothing: the bytes are recovered from the value read |
| Bytes.Alloc | scripts/generate-ekka-icon.cjs:67 | `Buffer.alloc(n)` is a fresh buffer of n zero bytes |
| Bytes.AllocErased | electron/lib/dp-fm-parser.cjs:712 | `Buffer.alloc(FILE_SIZE, 0xff)` is a fresh buffer of erased bytes |
| Bytes.Fill | electron/lib/dp-fm-parser.cjs:31 | `fill(v, from, to)` sets exactly the bytes from `from` up to `to` to v and leaves every other byte as it was |
| Bytes.CopyInto | electron/lib/dp-fm-parser.cjs:35 | `copy` stores the source bytes from the offset on and changes nothing else |
| Bytes.PutU8 | electron/lib/dp-fm-parser.cjs:150-155 | `writeUInt8` stores the one-byte value at the offset and changes nothing else |
| Bytes.PutU16 | electron/lib/dp-fm-parser.cjs:149 | `writeUInt16LE` stores the value's two little-endian bytes and changes nothing else |
| Bytes.PutU32 | electron/lib/dp-fm-parser.cjs:383-388 | `writeUInt32LE` stores the value's four little-endian bytes and changes nothing else |
| Bytes.GetU16 | electron/lib/dp-fm-parser.cjs:95 | `readUInt16LE` returns the little-endian value of the two bytes at the offset |
| Bytes.GetU32 | electron/lib/dp-fm-parser.cjs:296-300 | `readUInt32LE` returns the little-endian value of the four bytes at the offset |
| Bytes.ReadUInt64LE | electron/lib/dp-fm-parser.cjs:74-80 | the shift-and-or loop yields the little-endian value of the eight bytes, which is below 2^64 |
| Bytes.WriteUInt64LE | electron/lib/dp-fm-parser.cjs:82-92 | the eight stored bytes are those of v mod 2^64, so a negative BigInt is stored in two's complement; nothing else changes |
| Bytes.UInt64RoundTrip | electron/lib/dp-fm-parser.cjs:74-92 | what `writeUInt64LE` stores, `readUInt64LE` reads back as v mod 2^64 |
| Bytes.PutU16s | electron/lib/dp-fm-parser.cjs:243-258 | sixteen consecutive `writeUInt16LE` calls lay the values out as consecutive 2-byte little-endian words |
| Bytes.PutU64s | electron/lib/dp-fm-parser.cjs:445-448 | the accumulator loop lays the values out as consecutive 8-byte words, each value reduced mod 2^64 |
| Bytes.GetU64s | electron/lib/dp-fm-parser.cjs:358-361 | the accumulator read loop returns the consecutive 8-byte words of the span, each below 2^64 |
| Bytes.WordsRoundTrip | electron/lib/dp-fm-parser.cjs:217-232 | values that fit their width, laid out as little-endian words, read back as the same values |
| Bytes.LeBytes | electron/lib/dp-fm-parser.cjs:95-101 | the little-endian image of a value has the requested number of bytes |
| Bytes.LeValue | electron/lib/dp-fm-parser.cjs:95-101 | the value of n little-endian bytes is below 256^n |
| Bytes.Words | electron/lib/dp-fm-parser.cjs:243-258 | a run of w-byte little-endian words takes w bytes per value |
| Bytes.WordsOf | electron/lib/dp-fm-parser.cjs:217-232 | reading n words of w bytes gives n values |
| Bytes.WordsBelow | electron/lib/dp-fm-parser.cjs:217-232 | every word read is below 256^w |
| Bytes.U64Words | electron/lib/dp-fm-parser.cjs:445-448 | the 8-byte words of the accumulators take eight bytes per value |
| Bytes.U64WordsMod | electron/lib/dp-fm-parser.cjs:82-92 | `writeUInt64LE` stores each value reduced modulo 2^64 |
| Checksum.IsRecordEmpty | electron/lib/dp-fm-parser.cjs:38-44 | true exactly when every byte of the record before its last is 0xFF |
| Checksum.ChecksumFromSlice | electron/lib/dp-fm-parser.cjs:46-53 | the result is 0xA5 XOR-ed with every byte of the record but the last |
| Checksum.ApplyChecksum | electron/lib/dp-fm-parser.cjs:55-58 | the buffer becomes the old one with the record replaced by its sealed form, and nothing else changes |
| Checksum.VerifyChecksum | electron/lib/dp-fm-parser.cjs:60-65 | true exactly when the record is empty or its last byte equals the recomputed checksum |
| Checksum.SealShape | electron/lib/dp-fm-parser.cjs:55-58 | sealing keeps every byte but the last, leaves an empty record untouched, and otherwise stores the checksum in the last byte |
| Checksum.SealVerifies | electron/lib/dp-fm-parser.cjs:55-65 | a sealed record always verifies, sealing twice equals sealing once, and sealing keeps emptiness |
| Checksum.LastByteIgnored | electron/lib/dp-fm-parser.cjs:38-53 | neither emptiness nor the checksum depends on the record's last byte |
| Checksum.CorruptionDetected | electron/lib/dp-fm-parser.cjs:60-65 | a non-empty record whose last byte differs from the checksum fails verification |
| Checksum.Seal | electron/lib/dp-fm-parser.cjs:55-58 | sealing keeps the record's length |
| FixedText.ReadString | electron/lib/dp-fm-parser.cjs:25-28 | the text is a prefix of the span that does not end in NUL, and every byte of the span past it is NUL |
| FixedText.TextField | electron/lib/dp-fm-parser.cjs:30-36 | a written field is n bytes: the first min(length, n) bytes of the text, then zeros |
| FixedText.TextRoundTrip | electron/lib/dp-fm-parser.cjs:25-36 | reading a written field gives the text cut to the span with trailing NULs removed; a text that fits comes back exactly |
| FixedText.WriteString | electron/lib/dp-fm-parser.cjs:30-36 | the buffer becomes the old one with the span replaced by the field image, whatever the text (an empty text leaves zeros) |
| FixedText.ReadPadded | electron/lib/dp-fm-parser.cjs:25-28 | zero padding after a text does not change what is read |
| FiscalDate.ParseDateTime | electron/lib/dp-fm-parser.cjs:94-130 | the result is missing exactly when all eight bytes are 0xFF; otherwise the raw fields fit, re-encode to exactly the eight bytes, and the instant is `Date.UTC` of them |
| FiscalDate.InstantMillis | electron/lib/dp-fm-parser.cjs:114-123 | the millisecond part of a decoded instant is ten times the stored hundredths, capped at 999 |
| FiscalDate.DateField | electron/lib/dp-fm-parser.cjs:132-156 | the field is eight bytes and is the old bytes unchanged when there is nothing to write (no value, or neither raw fields nor a valid instant) |
| FiscalDate.DateRoundTrip | electron/lib/dp-fm-parser.cjs:94-156 | a date as decoding produces it, written into erased flash, parses back as the same date |
| FiscalDate.WriteRawFields | electron/lib/dp-fm-parser.cjs:149-155 | the seven writes store exactly the eight packed bytes of the fields and change nothing else |
| FiscalDate.WriteDateTime | electron/lib/dp-fm-parser.cjs:132-156 | the buffer becomes the old one with the eight bytes replaced by the date field; a missing value changes nothing |
| FiscalDate.RawBytes | electron/lib/dp-fm-parser.cjs:149-155 | the packed date fields take eight bytes |
| Records.SealedRecord | electron/lib/dp-fm-parser.cjs:168-169 | a record whose byte before the checksum is zero, once sealed, is never empty and always verifies |
| Records.SealFields | electron/lib/dp-fm-parser.cjs:169 | the closing `applyChecksum` turns the freshly written fields into the sealed record and changes nothing else |
| Records.SerialImage | electron/lib/dp-fm-parser.cjs:164-170 | writing a serial record leaves a record that is not empty and verifies; a missing record leaves the bytes as they were |
| Records.SerialRoundTrip | electron/lib/dp-fm-parser.cjs:158-170 | a serial record as decoding produces it, written into erased flash, parses back unchanged |
| Records.ParseSerialBody | electron/lib/dp-fm-parser.cjs:158-162 | the parser reads back every field the writer laid out before the checksum, whatever the checksum byte |
| Records.WriteSerialRecord | electron/lib/dp-fm-parser.cjs:164-170 | the buffer becomes the old one with the 24-byte slot replaced by the serial record's image, and nothing else changes |
| Records.FiscalModeStartImage | electron/lib/dp-fm-parser.cjs:177-182 | writing a fiscal-mode start leaves a record that is not empty and verifies; a missing one leaves the bytes as they were |
| Records.FiscalModeStartRoundTrip | electron/lib/dp-fm-parser.cjs:172-182 | a fiscal-mode start as decoding produces it, written into erased flash, parses back unchanged |
| Records.ParseFiscalModeStartBody | electron/lib/dp-fm-parser.cjs:172-175 | the parser reads back the date the writer laid out before the checksum |
| Records.WriteFiscalModeStart | electron/lib/dp-fm-parser.cjs:177-182 | the buffer becomes the old one with the 16-byte slot replaced by the record's image, and nothing else changes |
| Records.FMNumberImage | electron/lib/dp-fm-parser.cjs:190-196 | writing an FM number leaves a record that is not empty and verifies; a missing one leaves the bytes as they were |
| Records.FMNumberRoundTrip | electron/lib/dp-fm-parser.cjs:184-196 | an FM number record as decoding produces it, written into erased flash, parses back unchanged |
| Records.ParseFMNumberBody | electron/lib/dp-fm-parser.cjs:184-188 | the parser reads back every field the writer laid out before the checksum |
| Records.WriteFMNumberRecord | electron/lib/dp-fm-parser.cjs:190-196 | the buffer becomes the old one with the 24-byte slot replaced by the record's image, and nothing else changes |
| Records.TaxIdImage | electron/lib/dp-fm-parser.cjs:205-213 | writing a tax id leaves a record that is not empty and verifies; a missing one leaves the bytes as they were |
| Records.TaxIdRoundTrip | electron/lib/dp-fm-parser.cjs:198-213 | a tax id record as decoding produces it, written into erased flash, parses back unchanged |
| Records.ParseTaxIdBody | electron/lib/dp-fm-parser.cjs:198-203 | the parser reads back every field the writer laid out before the checksum |
| Records.WriteTaxIdRecord | electron/lib/dp-fm-parser.cjs:205-213 | the buffer becomes the old one with the 32-byte slot replaced by the record's image, and nothing else changes |
| Records.RamResetImage | electron/lib/dp-fm-parser.cjs:274-281 | writing a RAM reset leaves a record that is not empty and verifies; a missing one leaves the bytes as they were |
| Records.RamResetRoundTrip | electron/lib/dp-fm-parser.cjs:267-281 | a RAM reset record as decoding produces it, written into erased flash, parses back unchanged |
| Records.ParseRamResetBody | electron/lib/dp-fm-parser.cjs:267-272 | the parser reads back every field the writer laid out before the checksum |
| Records.WriteRamResetRecord | electron/lib/dp-fm-parser.cjs:274-281 | the buffer becomes the old one with the 16-byte slot replaced by the record's image, and nothing else changes |
| Records.EJOpenImage | electron/lib/dp-fm-parser.cjs:462-469 | writing a journal-open mark leaves a record that is not empty and verifies; a missing one leaves the bytes as they were |
| Records.EJOpenRoundTrip | electron/lib/dp-fm-parser.cjs:455-469 | a journal-open mark as decoding produces it, written into erased flash, parses back unchanged |
| Records.ParseEJOpenBody | electron/lib/dp-fm-parser.cjs:455-460 | the parser reads back every field the writer laid out before the checksum |
| Records.WriteEJOpen | electron/lib/dp-fm-parser.cjs:462-469 | the buffer becomes the old one with the 24-byte slot replaced by the record's image, and nothing else changes |
| Records.EJCloseImage | electron/lib/dp-fm-parser.cjs:479-487 | writing a journal-close mark leaves a record that is not empty and verifies; a missing one leaves the bytes as they were |
| Records.EJCloseRoundTrip | electron/lib/dp-fm-parser.cjs:471-487 | a journal-close mark as decoding produces it, written into erased flash, parses back unchanged |
| Records.ParseEJCloseBody | electron/lib/dp-fm-parser.cjs:471-477 | the parser reads back every field the writer laid out before the checksum |
| Records.WriteEJClose | electron/lib/dp-fm-parser.cjs:479-487 | the buffer becomes the old one with the 24-byte slot replaced by the record's image, and nothing else changes |
| Records.Sealed | electron/lib/dp-fm-parser.cjs:55-58 | a sealed body keeps every written byte before the checksum |
| Records.SealOverFields | electron/lib/dp-fm-parser.cjs:55-58 | sealing a freshly written slot in place is writing the sealed body over the old slot |
| Records.ParseSerialRecord | electron/lib/dp-fm-parser.cjs:158-162 | the serial number is the text of bytes 0..10 and the date the packed date at 10 |
| Records.SerialBody | electron/lib/dp-fm-parser.cjs:164-169 | the serial writer lays out the text field, the date and five zero bytes before the checksum |
| Records.ParseFiscalModeStart | electron/lib/dp-fm-parser.cjs:172-175 | the fiscal-mode start is the packed date at 0 |
| Records.FiscalModeStartBody | electron/lib/dp-fm-parser.cjs:177-181 | the writer lays out the date and zero bytes before the checksum |
| Records.ParseFMNumberRecord | electron/lib/dp-fm-parser.cjs:184-188 | the FM number is the text of bytes 0..10 and the date the packed date at 10 |
| Records.FMNumberBody | electron/lib/dp-fm-parser.cjs:190-195 | the writer lays out the text field, the date and zero bytes before the checksum |
| Records.ParseTaxIdRecord | electron/lib/dp-fm-parser.cjs:198-203 | the kind is byte 0, the tax number the text of bytes 1..13 and the date the packed date at 14 |
| Records.TaxIdBody | electron/lib/dp-fm-parser.cjs:205-212 | the writer lays out the kind, the text field, the date and zero bytes before the checksum |
| Records.ParseRamResetRecord | electron/lib/dp-fm-parser.cjs:267-272 | the date is at 0, the next Z number the 2-byte word at 8 and the flag byte 10 |
| Records.RamResetBody | electron/lib/dp-fm-parser.cjs:274-280 | the writer lays out the date, the next Z number, the flag and zero bytes before the checksum |
| Records.ParseEJOpen | electron/lib/dp-fm-parser.cjs:455-460 | the date is at 0, the last record number the 4-byte word at 8 and the last Z number the 2-byte word at 12 |
| Records.EJOpenBody | electron/lib/dp-fm-parser.cjs:462-468 | the writer lays out the date, the two numbers and zero bytes before the checksum |
| Records.ParseEJClose | electron/lib/dp-fm-parser.cjs:471-477 | the date is at 0, the last record number at 8, the last Z number at 12 and the lost-or-broken byte at 14 |
| Records.EJCloseBody | electron/lib/dp-fm-parser.cjs:479-486 | the writer lays out the date, the two numbers, the flag and zero bytes before the checksum |
| VatRates.VatImage | electron/lib/dp-fm-parser.cjs:241-265 | writing a VAT-rate change leaves a record that is not empty and verifies; a missing one leaves the bytes as they were |
| VatRates.VatRoundTrip | electron/lib/dp-fm-parser.cjs:215-265 | a VAT-rate change as decoding produces it, written into erased flash, parses back unchanged |
| VatRates.ParseVatBody | electron/lib/dp-fm-parser.cjs:215-239 | the parser reads back the sixteen rates, the date, the next Z number and the two flag bytes the writer laid out |
| VatRates.ParseVatRateChange | electron/lib/dp-fm-parser.cjs:215-239 | the rates and levy rates are the sixteen little-endian words of bytes 0..32, each field read from its own offset |
| VatRates.WriteVatRateChange | electron/lib/dp-fm-parser.cjs:241-265 | the buffer becomes the old one with the 48-byte slot replaced by the record's image, and nothing else changes |
| VatRates.VatBody | electron/lib/dp-fm-parser.cjs:241-264 | the writer lays out the sixteen rates as 2-byte words, the date, the next Z number, the two flag bytes and three zeros |
| ZReports.ZImage | electron/lib/dp-fm-parser.cjs:369-453 | writing a Z report leaves a record that is not empty and verifies; a missing report leaves the bytes as they were |
| ZReports.ZReportOf | electron/lib/dp-fm-parser.cjs:283-367 | a parsed report has 48 accumulators, each below 2^64, and reports the record's last byte as its checksum |
| ZReports.ParseZReport | electron/lib/dp-fm-parser.cjs:283-367 | the cursor walk returns exactly the report of the record's 432 bytes |
| ZReports.ZRoundTrip | electron/lib/dp-fm-parser.cjs:283-453 | a report as decoding produces it, written into erased flash, parses back unchanged except for the checksum field, which becomes the record's own checksum |
| ZReports.ParseZHead | electron/lib/dp-fm-parser.cjs:283-305 | the parser reads back the Z number, date, four counters, last document numbers and receipt counts the writer laid out |
| ZReports.ParseZTotals | electron/lib/dp-fm-parser.cjs:358-361 | accumulators below 2^64, written as 8-byte words, read back unchanged |
| ZReports.ParseZBody | electron/lib/dp-fm-parser.cjs:283-367 | the parser reads back every field the writer laid out before the checksum |
| ZReports.WriteZCounters | electron/lib/dp-fm-parser.cjs:373-382 | the first sixteen bytes become the Z number, date, the four counters and two reserved zeros, and nothing else changes |
| ZReports.WriteZDocuments | electron/lib/dp-fm-parser.cjs:383-392 | bytes 16..32 become the three document numbers and the two receipt counts, and nothing else changes |
| ZReports.WriteZReport | electron/lib/dp-fm-parser.cjs:369-453 | the buffer becomes the old one with the 432-byte slot replaced by the report's image (the stored checksum field is not written), and nothing else changes |
| ZReports.ZCounters | electron/lib/dp-fm-parser.cjs:373-382 | bytes 0..16 hold the Z number, the date, the four change counters and two zeros |
| ZReports.ZDocuments | electron/lib/dp-fm-parser.cjs:383-392 | bytes 16..32 hold the three document numbers and the two receipt counts |
| ZReports.ZBody | electron/lib/dp-fm-parser.cjs:369-451 | the body is the counters, the documents, the 48 accumulators as 8-byte words and fifteen zeros |
| ZReports.ParseZDocuments | electron/lib/dp-fm-parser.cjs:296-305 | the document numbers and receipt counts read back as written |
| DateResolver.LastEligible | electron/lib/dp-fm-parser.cjs:505-509 | the index found is that of a record dated no later than the Z instant with no such record after it; none is found only when no record qualifies |
| DateResolver.Resolve | electron/lib/dp-fm-parser.cjs:489-511 | 0 for an empty list; the last index (plus one when one-based) when the Z instant is unknown or no record qualifies; otherwise the index (plus one) of the last record dated no later than the Z instant |
| DateResolver.ResolveCountsChanges | electron/lib/dp-fm-parser.cjs:489-511 | for a list in date order, a one-based resolver returns the number of changes made up to the Z instant |
| DateResolver.CountEligible | electron/lib/dp-fm-parser.cjs:505-509 | the number of records dated no later than the Z instant is at most the list length |
| DateResolver.CountPrefix | electron/lib/dp-fm-parser.cjs:505-509 | when exactly the first m records qualify, the count is m |
| Slots.CheckRecord | electron/lib/dp-fm-parser.cjs:528-551 | a checksum warning is raised exactly when verification fails and a future-date warning exactly when the record's instant is later than now; every warning names the record type, index and offset |
| Slots.CheckRecordAt | electron/lib/dp-fm-parser.cjs:528-551 | `checkRecord` on the bytes at the offset raises the warnings of `CheckRecord` for that record's verification outcome |
| Slots.WarningSound | electron/lib/dp-fm-parser.cjs:528-551 | every warning of a region names a written slot by number and offset; a checksum warning one that fails verification, a future-date warning one dated after now |
| Slots.ChecksumWarningComplete | electron/lib/dp-fm-parser.cjs:529-539 | every written slot that fails verification gets a checksum warning |
| Slots.FutureWarningComplete | electron/lib/dp-fm-parser.cjs:540-550 | every written slot dated after now gets a future-date warning |
| Slots.NoChecksumWarnings | electron/lib/dp-fm-parser.cjs:528-551 | slots that all verify raise only future-date warnings |
| Slots.DecodeSlot | electron/lib/dp-fm-parser.cjs:583-593 | one loop body: a blank slot adds nothing; any other adds its parsed record and the warnings of `checkRecord` |
| Slots.DecodeRegion | electron/lib/dp-fm-parser.cjs:581-595 | a list loop returns the records of the written slots in slot order and the warnings of those slots in slot order |
| Slots.DecodeNext | electron/lib/dp-fm-parser.cjs:582-595 | one loop turn extends the records and warnings of the first i slots to those of the first i + 1 and advances the offset by one slot |
| Slots.DecodeStep | electron/lib/dp-fm-parser.cjs:582-595 | the records and warnings of i + 1 slots are those of i slots followed by what slot i adds |
| Slots.DecodeSingleton | electron/lib/dp-fm-parser.cjs:557-567 | a singleton is always parsed, and checked as index 0 only when its slot is not blank |
| Slots.RecordsInSlotOrder | electron/lib/dp-fm-parser.cjs:581-595 | the records a region yields are exactly those of its written slots, one per written slot, in increasing slot order |
| Slots.ViewBytes | electron/lib/dp-fm-parser.cjs:583-584 | a slot is blank exactly when it is empty; otherwise its record is the slot's bytes parsed and its verification the slot's checksum check |
| Slots.RegionWarningSound | electron/lib/dp-fm-parser.cjs:581-595 | a warning of a region names a written slot by number and by the offset `off + size * j`, with the cause the warning states |
| Slots.RegionWarningComplete | electron/lib/dp-fm-parser.cjs:581-595 | each written slot that fails verification, or is dated after now, gets the matching warning with its number and offset |
| Slots.RegionMembership | electron/lib/dp-fm-parser.cjs:581-595 | a warning is raised by a region exactly when it carries the region's record type and its slot calls for it |
| Slots.SingletonMembership | electron/lib/dp-fm-parser.cjs:557-578 | the same for a singleton record, numbered 0 |
| Slots.Entry | electron/lib/dp-fm-parser.cjs:744 | `list?.[i]` is the entry at i, or none past the end of the list |
| Slots.ImagesIgnoreOverflow | electron/lib/dp-fm-parser.cjs:743-746 | entries past a region's capacity never reach the image |
| Slots.SlotOfImages | electron/lib/dp-fm-parser.cjs:743-746 | after a write loop, slot k holds the image of entry k (erased when there is none) |
| Slots.ViewsOfImages | electron/lib/dp-fm-parser.cjs:581-595 | a region a write loop filled decodes slot k as entry k, verified, while there are entries, and as blank after them |
| Slots.RegionRoundTrip | electron/lib/dp-fm-parser.cjs:581-595 | a list of present entries that fits its region, written by a write loop, decodes back as the same list, and every slot verifies |
| Slots.StepConcat | electron/lib/dp-fm-parser.cjs:743-746 | one write-loop turn over an erased slot extends the written prefix by that slot's image |
| Slots.Views | electron/lib/dp-fm-parser.cjs:581-595 | the decoder's view of a region has one entry per slot |
| Slots.ViewsAt | electron/lib/dp-fm-parser.cjs:582-584 | slot j of a region is the slot at its offset |
| Slots.Records | electron/lib/dp-fm-parser.cjs:585-586 | the decoded list is at most as long as the region |
| Slots.ViewOfSlot | electron/lib/dp-fm-parser.cjs:583-586 | the decoder's view of a slot depends only on the slot's bytes |
| Slots.RecordsOfViews | electron/lib/dp-fm-parser.cjs:581-595 | slots written for a list in order decode as that list, and all verify |
| Slots.Images | electron/lib/dp-fm-parser.cjs:743-746 | the slots of a write loop take one slot size per slot |
| Slots.ImagesAt | electron/lib/dp-fm-parser.cjs:743-746 | slot k of a written region holds the image of entry k |
| Slots.ImagesAgree | electron/lib/dp-fm-parser.cjs:743-746 | lists that agree on the region's entries fill it alike |
| Slots.SlotImages | electron/lib/dp-fm-parser.cjs:743-746 | the slot images of a write loop: one per slot, each the image of its entry |
| Slots.ImagesAreConcat | electron/lib/dp-fm-parser.cjs:743-746 | a written region is its slot images one after another |
| Slots.StillErased | electron/lib/dp-fm-parser.cjs:743-746 | before a write-loop turn, its slot is still erased |
| Layout.LayoutFillsFile | electron/lib/dp-fm-parser.cjs:4-21 | each region starts where the one before it ends, and the twelve regions end exactly at byte 0x200000 |
| Layout.TimesOf | electron/lib/dp-fm-parser.cjs:489-497 | the instants the resolver reads: one per entry, none for a null entry or an entry without a date |
| Layout.Counted | electron/lib/dp-fm-parser.cjs:769-776 | the report written is the given one with exactly its four change counters replaced by the one-based resolvers of the four change lists at the report's instant |
| Layout.ZToWrite | electron/lib/dp-fm-parser.cjs:763-778 | null entries stay null and every other report is counted |
| Layout.FlatRegions | electron/lib/dp-fm-parser.cjs:733-790 | each region of the image sits at its offset |
| Layout.ImagePieces | electron/lib/dp-fm-parser.cjs:711-798 | the built image is the twelve regions in order, each as its writer leaves it, with the test space, padding and CPU id erased |
| Layout.UnwrittenRegionsErased | electron/lib/dp-fm-parser.cjs:733-797 | the test space, the unused padding and the CPU id stay 0xFF |
| Layout.ZReportLandsInSlot | electron/lib/dp-fm-parser.cjs:763-778 | Z report i lands in slot i of the Z region with its counters recomputed; a null or missing report leaves the slot erased |
| Layout.SerialSlot | electron/lib/dp-fm-parser.cjs:737 | the serial slot is 24 bytes |
| Layout.FiscalModeStartSlot | electron/lib/dp-fm-parser.cjs:740 | the fiscal-mode-start slot is 16 bytes |
| Layout.FMNumberSlot | electron/lib/dp-fm-parser.cjs:743-746 | an FM number slot is 24 bytes |
| Layout.TaxIdSlot | electron/lib/dp-fm-parser.cjs:748-751 | a tax id slot is 32 bytes |
| Layout.VatSlot | electron/lib/dp-fm-parser.cjs:753-756 | a VAT-rate slot is 48 bytes |
| Layout.RamResetSlot | electron/lib/dp-fm-parser.cjs:758-761 | a RAM reset slot is 16 bytes |
| Layout.ZSlot | electron/lib/dp-fm-parser.cjs:763-778 | a Z report slot is 432 bytes |
| Layout.EJOpenSlot | electron/lib/dp-fm-parser.cjs:780-783 | a journal-open slot is 24 bytes |
| Layout.EJCloseSlot | electron/lib/dp-fm-parser.cjs:785-788 | a journal-close slot is 24 bytes |
| Layout.FMRegion | electron/lib/dp-fm-parser.cjs:743-746 | the FM number region is 8 slots long |
| Layout.TaxRegion | electron/lib/dp-fm-parser.cjs:748-751 | the tax id region is 8 slots long |
| Layout.VatRegion | electron/lib/dp-fm-parser.cjs:753-756 | the VAT-rate region is 32 slots long |
| Layout.RamRegion | electron/lib/dp-fm-parser.cjs:758-761 | the RAM reset region is 100 slots long |
| Layout.ZRegion | electron/lib/dp-fm-parser.cjs:763-778 | the Z region is 4500 slots long |
| Layout.EJOpenRegion | electron/lib/dp-fm-parser.cjs:780-783 | the journal-open region is 20 slots long |
| Layout.EJCloseRegion | electron/lib/dp-fm-parser.cjs:785-788 | the journal-close region is 20 slots long |
| Layout.Parts | electron/lib/dp-fm-parser.cjs:4-21 | the file has twelve regions |
| Layout.PartsTile | electron/lib/dp-fm-parser.cjs:4-21 | regions of the right sizes tile the file in order |
| Layout.Flat | electron/lib/dp-fm-parser.cjs:4-21 | regions of the right sizes make a 0x200000-byte file |
| Layout.RegionsOf | electron/lib/dp-fm-parser.cjs:711-798 | every region the encoder writes has its size |
| Layout.EncodeImage | electron/lib/dp-fm-parser.cjs:711-798 | the built image is 0x200000 bytes |
| Layout.ZSlotOfFlat | electron/lib/dp-fm-parser.cjs:763-778 | slot i of the Z region of the file is the image of entry i |
| Decoder.DumpOf | electron/lib/dp-fm-parser.cjs:696-708 | every decoded list holds at most its region's capacity |
| Decoder.WarningsExact | electron/lib/dp-fm-parser.cjs:528-691 | decoding raises exactly one checksum warning per written slot that fails verification and one future-date warning per written slot dated after now, each naming its region, slot number and offset |
| Decoder.HeadMembership | electron/lib/dp-fm-parser.cjs:557-578 | the warnings of the singletons are those their slots call for |
| Decoder.ChangeMembership | electron/lib/dp-fm-parser.cjs:581-643 | the warnings of the four change lists are those their slots call for |
| Decoder.JournalMembership | electron/lib/dp-fm-parser.cjs:645-691 | the warnings of the Z reports and journal marks are those their slots call for |
| Decoder.Decode | electron/lib/dp-fm-parser.cjs:514-520 | anything but a buffer fails with "not a buffer", a buffer shorter than 0x200000 bytes with "too small", and any other buffer decodes to `DumpOf` of its bytes |
| Decoder.DecodeImage | electron/lib/dp-fm-parser.cjs:553-708 | the walk returns `DumpOf` of the buffer |
| Decoder.DecodeHead | electron/lib/dp-fm-parser.cjs:557-579 | the walk over the singletons returns both records and their warnings, and ends at the first FM number slot |
| Decoder.DecodeChanges | electron/lib/dp-fm-parser.cjs:581-643 | the four change loops return the records of their written slots and their warnings, and end at the Z region |
| Decoder.DecodeJournal | electron/lib/dp-fm-parser.cjs:645-691 | the Z report and journal loops return the records of their written slots and their warnings, and end at the unused area |
| Decoder.DecodeFMNumbers | electron/lib/dp-fm-parser.cjs:581-595 | the FM number loop returns the records of the written slots and their warnings |
| Decoder.DecodeTaxNumbers | electron/lib/dp-fm-parser.cjs:597-611 | the tax number loop returns the records of the written slots and their warnings |
| Decoder.DecodeVatRateChanges | electron/lib/dp-fm-parser.cjs:613-627 | the VAT-rate change loop returns the records of the written slots and their warnings |
| Decoder.DecodeRamResets | electron/lib/dp-fm-parser.cjs:629-643 | the RAM reset loop returns the records of the written slots and their warnings |
| Decoder.DecodeZReports | electron/lib/dp-fm-parser.cjs:645-659 | the Z report loop returns the reports of the written slots and their warnings |
| Decoder.DecodeEJOpen | electron/lib/dp-fm-parser.cjs:661-675 | the journal-open loop returns the records of the written slots and their warnings |
| Decoder.DecodeEJClose | electron/lib/dp-fm-parser.cjs:677-691 | the journal-close loop returns the records of the written slots and their warnings |
| Decoder.ReadCpuId | electron/lib/dp-fm-parser.cjs:693-694 | the CPU id is the sixteen bytes after the unused area |
| Decoder.FMViews | electron/lib/dp-fm-parser.cjs:581-595 | the FM number region has 8 slots |
| Decoder.TaxViews | electron/lib/dp-fm-parser.cjs:597-611 | the tax id region has 8 slots |
| Decoder.VatViews | electron/lib/dp-fm-parser.cjs:613-627 | the VAT-rate region has 32 slots |
| Decoder.RamViews | electron/lib/dp-fm-parser.cjs:629-643 | the RAM reset region has 100 slots |
| Decoder.ZViews | electron/lib/dp-fm-parser.cjs:645-659 | the Z region has 4500 slots |
| Decoder.EJOpenViews | electron/lib/dp-fm-parser.cjs:661-675 | the journal-open region has 20 slots |
| Decoder.EJCloseViews | electron/lib/dp-fm-parser.cjs:677-691 | the journal-close region has 20 slots |
| Encoder.Encode | electron/lib/dp-fm-parser.cjs:711-798 | the returned buffer is fresh and holds the image of the data: every region as its writer leaves it, the rest erased |
| Encoder.EncodeFront | electron/lib/dp-fm-parser.cjs:735-761 | the singletons and the four change loops fill their regions in file order and leave the rest erased |
| Encoder.EncodeSerial | electron/lib/dp-fm-parser.cjs:737-738 | the serial record fills its region and the rest stays erased |
| Encoder.EncodeFiscalModeStart | electron/lib/dp-fm-parser.cjs:740-741 | the fiscal-mode start fills its region and the rest stays erased |
| Encoder.EncodeChanges | electron/lib/dp-fm-parser.cjs:743-761 | the four change loops fill their regions and the rest stays erased |
| Encoder.EncodeJournal | electron/lib/dp-fm-parser.cjs:763-788 | the Z report and journal loops fill their regions and the rest stays erased |
| Encoder.EncodeZReports | electron/lib/dp-fm-parser.cjs:763-778 | the Z loop fills the Z region with the counted reports, null ones left erased |
| Encoder.EncodeZTurn | electron/lib/dp-fm-parser.cjs:764-777 | one turn of the Z loop writes slot i with the counted report, or leaves it erased for a missing one |
| Encoder.EncodeFMNumbers | electron/lib/dp-fm-parser.cjs:743-746 | the FM number loop fills its region slot by slot |
| Encoder.EncodeTaxNumbers | electron/lib/dp-fm-parser.cjs:748-751 | the tax number loop fills its region slot by slot |
| Encoder.EncodeVatRateChanges | electron/lib/dp-fm-parser.cjs:753-756 | the VAT-rate change loop fills its region slot by slot |
| Encoder.EncodeRamResets | electron/lib/dp-fm-parser.cjs:758-761 | the RAM reset loop fills its region slot by slot |
| Encoder.EncodeEJOpen | electron/lib/dp-fm-parser.cjs:780-783 | the journal-open loop fills its region slot by slot |
| Encoder.EncodeEJClose | electron/lib/dp-fm-parser.cjs:785-788 | the journal-close loop fills its region slot by slot |
| Encoder.EncodeStart | electron/lib/dp-fm-parser.cjs:712-735 | the erased buffer already holds the test area |
| Encoder.EncodeTail | electron/lib/dp-fm-parser.cjs:790-797 | the padding and the CPU id left erased complete the image |
| Encoder.WriteFMNumberSlot | electron/lib/dp-fm-parser.cjs:744-745 | one turn writes slot i with its entry's image and advances the offset by one slot |
| Encoder.WriteTaxNumberSlot | electron/lib/dp-fm-parser.cjs:749-750 | one turn writes slot i with its entry's image and advances the offset by one slot |
| Encoder.WriteVatRateChangeSlot | electron/lib/dp-fm-parser.cjs:754-755 | one turn writes slot i with its entry's image and advances the offset by one slot |
| Encoder.WriteRamResetSlot | electron/lib/dp-fm-parser.cjs:759-760 | one turn writes slot i with its entry's image and advances the offset by one slot |
| Encoder.WriteZReportSlot | electron/lib/dp-fm-parser.cjs:769-777 | one turn writes slot i with the counted report and advances the offset by one slot |
| Encoder.WriteEJOpenSlot | electron/lib/dp-fm-parser.cjs:781-782 | one turn writes slot i with its entry's image and advances the offset by one slot |
| Encoder.WriteEJCloseSlot | electron/lib/dp-fm-parser.cjs:786-787 | one turn writes slot i with its entry's image and advances the offset by one slot |
| RoundTrip.SerialReadsBack | electron/lib/dp-fm-parser.cjs:557-566 | a serial slot written with a decoded record reads back as that record and verifies |
| RoundTrip.FiscalModeStartReadsBack | electron/lib/dp-fm-parser.cjs:569-578 | a fiscal-mode-start slot written with a decoded record reads back as that record and verifies |
| RoundTrip.FMNumbersReadBack | electron/lib/dp-fm-parser.cjs:581-595 | the FM number region the encoder wrote reads back as the list, in order, and every slot verifies |
| RoundTrip.TaxNumbersReadBack | electron/lib/dp-fm-parser.cjs:597-611 | the tax number region the encoder wrote reads back as the list, in order, and every slot verifies |
| RoundTrip.VatRateChangesReadBack | electron/lib/dp-fm-parser.cjs:613-627 | the VAT-rate region the encoder wrote reads back as the list, in order, and every slot verifies |
| RoundTrip.RamResetsReadBack | electron/lib/dp-fm-parser.cjs:629-643 | the RAM reset region the encoder wrote reads back as the list, in order, and every slot verifies |
| RoundTrip.ZEntryReadsBack | electron/lib/dp-fm-parser.cjs:763-778 | report k, counted and written, is a record that verifies and reads back as the counted report |
| RoundTrip.ZReportsReadBack | electron/lib/dp-fm-parser.cjs:645-659 | the Z region the encoder wrote reads back as the list, in order, each report with its counters as the encoder recomputed them, and every slot verifies |
| RoundTrip.EJOpenReadBack | electron/lib/dp-fm-parser.cjs:661-675 | the journal-open region the encoder wrote reads back as the list, in order, and every slot verifies |
| RoundTrip.EJCloseReadBack | electron/lib/dp-fm-parser.cjs:677-691 | the journal-close region the encoder wrote reads back as the list, in order, and every slot verifies |
| RoundTrip.OnlyFutureWarnings | electron/lib/dp-fm-parser.cjs:528-551 | when every written slot verifies, the only warnings are future-date warnings |
| RoundTrip.DecodeWritten | electron/lib/dp-fm-parser.cjs:514-798 | an image whose regions hold what the encoder writes for the data decodes to the data, with only future-date warnings |
| RoundTrip.EncodeThenDecode | electron/lib/dp-fm-parser.cjs:514-798 | encoding data in the form decoding produces and decoding the image gives every record back (Z reports with recomputed counters and their checksum), the CPU id erased, and only future-date warnings |
| RoundTrip.ErasedSerialRewritten | electron/lib/dp-fm-parser.cjs:557 | an erased serial slot still decodes to a record, and writing that record back no longer leaves the slot erased |
| RoundTrip.ErasedFiscalModeStartRewritten | electron/lib/dp-fm-parser.cjs:569 | the same for an erased fiscal-mode-start slot |
| RoundTrip.AbsentSingletonsNotStable | electron/lib/dp-fm-parser.cjs:557-578 | data without a serial record or fiscal-mode start is encoded with that slot erased, yet what decoding returns for it is written back as a record |
| RoundTrip.DataOf | electron/lib/dp-fm-parser.cjs:696-708 | a decoded dump handed back to the encoder has both singletons and no null entries, and its lists unwrap to the decoded lists |
| RoundTrip.DataOfReadBack | electron/lib/dp-fm-parser.cjs:696-708 | handing back the dump expected for the data gives the same singletons and lists, with each Z report replaced by what it reads back as |
| RoundTrip.CountedAgain | electron/lib/dp-fm-parser.cjs:763-777 | counting a counted report again against the same lists changes nothing, whatever checksum it carries |
| RoundTrip.ZSlotIgnoresCheckSum | electron/lib/dp-fm-parser.cjs:369-453 | writing a Z report ignores the checksum it carries |
| RoundTrip.ZRegionsAlike | electron/lib/dp-fm-parser.cjs:713-778 | data with the same change lists, whose reports agree apart from the stored checksum, write the same Z region |
| RoundTrip.ReencodeStable | electron/lib/dp-fm-parser.cjs:514-798 | encoding, decoding and encoding the decoded records again writes the same image, and the decoded data is again writable and in decoded form |
| RoundTrip.Present | electron/lib/dp-fm-parser.cjs:743-788 | a list of present entries, unwrapped in order |
| RoundTrip.ZReadBack | electron/lib/dp-fm-parser.cjs:645-659 | a counted report reads back as itself apart from the stored checksum |
| RoundTrip.ZReadBacks | electron/lib/dp-fm-parser.cjs:645-659 | the Z list reads back with one report per report written |
| RoundTrip.ReadBack | electron/lib/dp-fm-parser.cjs:696-708 | the dump expected back carries the warnings given |
| RoundTrip.SlotOnlyFuture | electron/lib/dp-fm-parser.cjs:528-551 | a blank slot or one that verifies raises at most a future-date warning |
| MainLayout.LastIndexOf | src/layouts/main-layout.tsx:79 | the index found holds the character and no later index does; -1 when it does not occur |
| MainLayout.LastSeparator | src/layouts/main-layout.tsx:73-76 | the larger of the last `/` and the last `\`: a separator, with none after it, or -1 |
| MainLayout.LastSegmentSpec | src/layouts/main-layout.tsx:73-78 | the text after the last separator is the last segment of the path, and the only string that is |
| MainLayout.SplitPath | src/layouts/main-layout.tsx:68 | splitting on either separator gives at least one piece, and no piece holds a separator |
| MainLayout.LastSegmentSnoc | src/layouts/main-layout.tsx:68 | a separator at the end empties the last segment; any other character extends it |
| MainLayout.SplitPathLast | src/layouts/main-layout.tsx:68 | the last piece of the split (what `pop()` returns, never undefined) is the last segment |
| MainLayout.FileNameSpec | src/layouts/main-layout.tsx:68 | no name is shown exactly when there is no path or it is empty; otherwise the name is the path's last segment |
| MainLayout.StemEnd | src/layouts/main-layout.tsx:79-85 | `_updated` goes before the last dot when that dot is not the first character, otherwise at the end |
| MainLayout.InsertSuffix | src/layouts/main-layout.tsx:81-85 | the result is the name with `_updated` inserted at the given place: taking those eight characters out gives the name back |
| MainLayout.InsertKeepsNoSeparator | src/layouts/main-layout.tsx:81-85 | inserting `_updated` adds no separator |
| MainLayout.UpdatedSaveNameSpec | src/layouts/main-layout.tsx:71-86 | no path (or an empty one) gives `fiscal-memory_updated.bin`; otherwise the last segment with `_updated` before its extension, and never a separator |
| MainLayout.FindByPrefix | src/layouts/main-layout.tsx:48-49 | `find` returns the first entry whose route starts the path, or none when no entry does |
| MainLayout.RoutesPrefixFree | src/layouts/main-layout.tsx:37-46 | no route of the sidebar is a prefix of another |
| MainLayout.SectionLabelOfRoute | src/layouts/main-layout.tsx:48-49 | a path below a route gets that route's label |
| MainLayout.SectionLabelFallback | src/layouts/main-layout.tsx:48-49 | a path below no route gets the fallback label |
| ZReportsPage.EmptyZReport | src/pages/z-reports-page.tsx:45-105 | the blank report: the given Z number, no date, every counter and accumulator zero |
| ZReportsPage.EmptyReportWritable | src/pages/z-reports-page.tsx:45-105 | a blank report with a two-byte Z number is one the record codec writes and reads back |
| ZReportsPage.Renumber | src/pages/z-reports-page.tsx:222-225 | same length, each report unchanged but for its Z number, which becomes its position plus one |
| ZReportsPage.RenumberNumbered | src/pages/z-reports-page.tsx:222-225 | renumbering a numbered list changes nothing |
| ZReportsPage.AddReport | src/pages/z-reports-page.tsx:107-112 | the list grows by one blank report numbered one past the old length, the others untouched |
| ZReportsPage.AddKeepsNumbered | src/pages/z-reports-page.tsx:107-112 | adding to a numbered list keeps it numbered |
| ZReportsPage.Spread | src/pages/z-reports-page.tsx:117-121 | the spread keeps a full set of accumulators |
| ZReportsPage.NormalizeReports | src/pages/z-reports-page.tsx:114-122 | the list keeps its length and comes out numbered 1, 2, 3, ... |
| ZReportsPage.NormalizeKeepsPresentFields | src/pages/z-reports-page.tsx:114-122 | every field an item has is kept, every missing one is taken from the blank report |
| ZReportsPage.NormalizeComplete | src/pages/z-reports-page.tsx:114-122 | normalizing reports that have every field only renumbers them |
| ZReportsPage.WithoutIndex | src/pages/z-reports-page.tsx:221 | filtering out an index in range shortens the list by one; any other leaves its length |
| ZReportsPage.WithoutIndexIsCut | src/pages/z-reports-page.tsx:221 | filtering out index k cuts the list around k; an index outside the list removes nothing |
| ZReportsPage.DeleteReport | src/pages/z-reports-page.tsx:218-227 | the list after a delete is numbered |
| ZReportsPage.DeleteReportSpec | src/pages/z-reports-page.tsx:218-227 | the others keep their order, shifted down past the deleted index and renumbered; an index outside the list only renumbers |
| ZReportsPage.KeepOutside | src/pages/z-reports-page.tsx:236 | the survivors come from the list and lie outside the range |
| ZReportsPage.KeepOutsideAppend | src/pages/z-reports-page.tsx:236 | the filter keeps survivors in order across a concatenation |
| ZReportsPage.KeepOutsideComplete | src/pages/z-reports-page.tsx:236 | every report outside the range survives |
| ZReportsPage.DeleteRange | src/pages/z-reports-page.tsx:229-242 | a bound that is not a number leaves the list alone; otherwise the result is numbered |
| ZReportsPage.DeleteRangeSpec | src/pages/z-reports-page.tsx:229-242 | the order of the bounds does not matter; a report survives exactly when its Z number lies outside them, and the survivors keep their order and are renumbered |
| ZReportsPage.FilteredRows | src/pages/z-reports-page.tsx:140-172 | every row is a shown report of the list with its own index, in increasing index order |
| ZReportsPage.FilteredRowsComplete | src/pages/z-reports-page.tsx:140-172 | every shown report appears with its index |
| ZReportsPage.FilteredReportsSpec | src/pages/z-reports-page.tsx:140-172 | a report is listed exactly when the filter shows it; a number filter keeps exact matches only, and a date bound drops every report without a date |
| Icon.BuildCrcTable | scripts/generate-ekka-icon.cjs:45-55 | each entry of the table is eight shift-and-fold steps from its index |
| Icon.CrcIndex | scripts/generate-ekka-icon.cjs:60 | the table index is below 256 |
| Icon.CrcRegisterSnoc | scripts/generate-ekka-icon.cjs:59-61 | the register takes the bytes one at a time, in order |
| Icon.CrcIncremental | scripts/generate-ekka-icon.cjs:57-63 | the register after two pieces is the register after the first run on through the second |
| Icon.Crc32Empty | scripts/generate-ekka-icon.cjs:57-63 | the CRC of no bytes is 0 |
| Icon.CrcFold | scripts/generate-ekka-icon.cjs:58-61 | the loop leaves the register of the whole buffer |
| Icon.Crc32 | scripts/generate-ekka-icon.cjs:57-63 | `crc32` returns the inverted register of the buffer |
| Icon.BeBytes | scripts/generate-ekka-icon.cjs:68 | big-endian bytes have the requested length |
| Icon.BeValue | scripts/generate-ekka-icon.cjs:68 | the value of n big-endian bytes is below 256^n |
| Icon.BeRoundTrip | scripts/generate-ekka-icon.cjs:68 | a value that fits reads back from its big-endian bytes |
| Icon.BeBytesOfValue | scripts/generate-ekka-icon.cjs:68 | bytes are recovered from their value |
| Icon.PutU32BE | scripts/generate-ekka-icon.cjs:68-71 | `writeUInt32BE` replaces exactly four bytes at the offset with the value's big-endian bytes |
| Icon.CrcValue | scripts/generate-ekka-icon.cjs:62 | `>>> 0` gives a number below 2^32 |
| Icon.CrcBytes | scripts/generate-ekka-icon.cjs:70-71 | the CRC trailer is four bytes |
| Icon.Frame | scripts/generate-ekka-icon.cjs:72 | a chunk is four length bytes, type, data and trailer |
| Icon.ChunkBytes | scripts/generate-ekka-icon.cjs:65-73 | a chunk is twelve bytes longer than its data |
| Icon.FrameFields | scripts/generate-ekka-icon.cjs:65-73 | the length, type, data and trailer lie where a reader looks for them |
| Icon.ChunkRoundTrip | scripts/generate-ekka-icon.cjs:65-73 | a chunk of four-byte type and data that fits reads back as that type and data, with its length and CRC checking |
| Icon.ParseChunkExact | scripts/generate-ekka-icon.cjs:65-73 | anything that reads back as a chunk is exactly the bytes `chunk` writes for it |
| Icon.Chunk | scripts/generate-ekka-icon.cjs:65-73 | `chunk(type, data)` returns the framed type and data with the CRC of both |
| Icon.RowOffsetProduct | scripts/generate-ekka-icon.cjs:79 | row y of w-byte rows starts at `y * w` |
| Icon.RowOffsetMono | scripts/generate-ekka-icon.cjs:78-82 | earlier rows start no later |
| Icon.Scanlines | scripts/generate-ekka-icon.cjs:77-82 | the raw data of h rows has one more byte per row than the pixels |
| Icon.ScanlinesPrefix | scripts/generate-ekka-icon.cjs:78-82 | the raw data of the first k rows begins the raw data of all of them |
| Icon.ScanlineRow | scripts/generate-ekka-icon.cjs:78-82 | row y of the raw data is filter byte 0, then row y of the pixels |
| Icon.Unfilter | scripts/generate-ekka-icon.cjs:78-82 | dropping the filter bytes gives back the pixel length |
| Icon.ScanlinesRoundTrip | scripts/generate-ekka-icon.cjs:78-82 | dropping the filter bytes gives back the pixels |
| Icon.ScanlinesSnoc | scripts/generate-ekka-icon.cjs:78-82 | one more row appends its filter byte and its pixels |
| Icon.WriteRow | scripts/generate-ekka-icon.cjs:79-81 | one pass of the row loop writes the filter byte and the row after it, and nothing else |
| Icon.RawStep | scripts/generate-ekka-icon.cjs:78-82 | after row y the buffer holds the raw data of rows 0 to y |
| Icon.EncodeRaw | scripts/generate-ekka-icon.cjs:76-82 | the raw buffer is the unfiltered scanlines of the pixels |
| Icon.IhdrData | scripts/generate-ekka-icon.cjs:83-90 | the IHDR data is 13 bytes |
| Icon.IhdrFields | scripts/generate-ekka-icon.cjs:83-90 | width and height read back big-endian, then bit depth 8, colour type 6 and three zero bytes |
| Icon.Ihdr | scripts/generate-ekka-icon.cjs:83-90 | the buffer written field by field is the IHDR data |
| Icon.PngBytes | scripts/generate-ekka-icon.cjs:92-97 | the file is 57 bytes longer than the compressed data |
| Icon.EncodePng | scripts/generate-ekka-icon.cjs:75-98 | `encodePNG` returns the signature, then the IHDR, IDAT and IEND chunks, the IDAT holding the compressed scanlines |
| Icon.PngHeader | scripts/generate-ekka-icon.cjs:83-97 | the file starts with the PNG signature, the IHDR type sits at 12, and width and height at 16 and 20 |
| Icon.HeadFields | scripts/generate-ekka-icon.cjs:92-97 | the fixed offsets of a file that starts with the signature and an IHDR chunk |
| Icon.PngChunks | scripts/generate-ekka-icon.cjs:92-97 | the three chunks read back, with their CRCs checking, as IHDR with the header data, IDAT with the compressed data and an empty IEND |
| Icon.IcoHeader | scripts/generate-ekka-icon.cjs:182-185 | the ICO header is six bytes |
| Icon.IcoEntry | scripts/generate-ekka-icon.cjs:192-202 | a directory entry is sixteen bytes |
| Icon.IcoEntryFields | scripts/generate-ekka-icon.cjs:192-202 | an entry holds the dimension bytes (0 for 256 or more), the image size and its offset |
| Icon.WriteIcoHeader | scripts/generate-ekka-icon.cjs:182-185 | the header written field by field: reserved 0, type 1, the image count |
| Icon.WriteIcoEntry | scripts/generate-ekka-icon.cjs:192-202 | the entry written field by field is `IcoEntry` |
| Icon.IcoStep | scripts/generate-ekka-icon.cjs:191-206 | one image adds its entry at the running offset, and the offset grows by its size |
| Icon.BuildIco | scripts/generate-ekka-icon.cjs:180-209 | `buildIco` returns the header, one entry per image with running offsets, then the images |
| Bytes.ConcatAt | scripts/generate-ekka-icon.cjs:208 | in `Buffer.concat`, part k lies right after the parts before it |
| Icon.ConcatEntries | scripts/generate-ekka-icon.cjs:208 | k sixteen-byte entries take 16k bytes |
| Icon.IcoParts | scripts/generate-ekka-icon.cjs:180-209 | header, directory and images lie one after another |
| Icon.IcoLayout | scripts/generate-ekka-icon.cjs:180-209 | the header reads back as 0, 1 and the count, and the file is 6 + 16n bytes plus the images |
| Icon.IcoEntryAt | scripts/generate-ekka-icon.cjs:187-208 | entry k sits at `6 + 16k` and describes image k at its offset |
| Icon.DirectoryAt | scripts/generate-ekka-icon.cjs:191-206 | entry k is the k-th run of sixteen bytes of the directory |
| Icon.IcoImageAt | scripts/generate-ekka-icon.cjs:187-208 | image k sits at its offset, byte for byte |
| Icon.IcoDirectoryReadsBack | scripts/generate-ekka-icon.cjs:180-209 | reading the file through its directory, entry k's size and offset locate image k exactly, and its first two bytes are that image's width and height |
| Icon.IcoOfEncodedPng | scripts/generate-ekka-icon.cjs:75-98 | an image made by `encodePNG` gets its own width and height in the directory |

## Left out

- Loading and saving files: the `window.api` bridge, the import dialog, `writeFile` and `buildIconSet` are I/O and are not modelled.
- The React state around the pure handlers is not modelled: the store, `useMemo`, the virtualised list, the scroll position, the confirmation dialogs and the toast messages. The handlers are modelled as functions from the list they receive to the list they return. The `if (!data) return` guards only skip the update.
- Character sets: `iconv` transcoding between Windows-1251 and JavaScript strings is left out. Text fields are modelled as the byte strings they hold.
- JavaScript `Date`: ISO strings are modelled as instants in milliseconds (`Option<int>`, with `None` for an absent or unparseable string). `Date.parse` and `toISOString` are not modelled. The arithmetic of `Date.UTC` is written out in `FiscalDate.UtcInstant`.
- The `?? 0` defaults of the record writers: record fields are always present in the model, so a missing field in a hand-built object is not modelled.
- `BigInt(value ?? 0)` in `writeUInt64LE` is not modelled: parsing a decimal string, and the fallback to 0 when parsing fails. Accumulators are integers, written modulo 2^64; the decoder produces them as numbers below 2^64.
- Node's `RangeError`s: every `writeUIntN` throws for a value that does not fit. That behaviour is replaced by preconditions (`StampWritable`, `VatWritable`, `ZWritable`, `DataWritable`, `IcoInput` and the like), so the model never writes an unfitting value.
- Decoder.Decode: the current time is a parameter `now`, where the source reads the clock. The text of each `console.warn` message is left out; a warning keeps its kind, record type, index and offset.
- Decoder.Decode: a non-`Buffer` argument is modelled as a null array. `Buffer.isBuffer` on other JavaScript values is not modelled.
- DateResolver.Resolve: for an empty list the code returns 0 before the one-based adjustment is applied, so a one-based resolver over an empty list also gives 0 (electron/lib/dp-fm-parser.cjs:500). The model does the same.
- MainLayout: the `icon` field of the navigation entries is left out. Paths are strings of characters, with no Unicode normalisation.
- ZReportsPage.NormalizeReports: an imported key whose value is `null` or `undefined` is copied by the spread over the blank report's value (src/pages/z-reports-page.tsx:117-121). Each `ReportItem` field is an `Option`, either missing or present with a value, so the model cannot express such a key. A missing field is taken from the blank report.
- ZReportsPage.DeleteRange: `Number(text)` is not modelled; the bounds are given as numbers, or `None` where the conversion yields NaN.
- ZReportsPage.FilteredRows: `Number(text.trim())` and `Date.parse` on the filter fields are not modelled; the fields arrive already classified (`NumberInput`, `DateBound`).
- Icon.EncodePng: `zlib.deflateSync` is a function parameter, so the IDAT payload is whatever that function returns.
- `drawIcon` (the pixel art of the icon) is not modelled; the pixels are an input.
- Icon.EncodeRaw: requires exactly `4 * width * height` pixel bytes. The clamping `Buffer.copy` applies to a shorter or longer source is not modelled.
- Icon.BuildCrcTable: the table's contents are stated through the bit-step definition and four sample entries. The full 256-entry table is not written out as constants.
- Icon.BuildIco: requires fewer than 2^16 images, each at least 24 bytes long, with sizes and offsets below 2^32. These stand for the `RangeError`s of the buffer writes.
