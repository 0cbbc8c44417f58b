# wM-Bus EVO868 decoder: a verified model

This project models the core of an ESPHome wM-Bus component that decodes EVO868
water-meter telegrams. It has three parts:

- **The EVO868 decoder** (`Evo868Driver::decode` and its helpers).
  - It skips the optional `0x54 0x3D/0xCD` prefix and the 15-byte link and transport
    header, then the `0x2F` filler bytes.
  - It walks the EN 13757-3 data records: DIF, DIFE chain, VIF, VIFE chain, payload.
  - It folds each record into the decoder's locals through the if-chain on the VIF.
  - It builds the attribute map and the main value (the first storage-0 volume).
  - The value decoders are: little-endian integers, BCD strings with a hexadecimal
    fallback, packed dates of type G and date-times of type F, and the status-flag
    formatter.
- **The driver registry**: a class whose one field maps driver names to decode
  functions. Registration ignores null and the last registration wins. Lookup is read-only.
- **The packet router**: `WMBusParser` keeps its meters in a sequence. It reads the meter
  ID out of a packet and hands the whole packet to the first meter with that ID.
  `WMBusMeter` decodes the packet and publishes the result to its sensor, if one is bound.

Modules:

| file | module | contents |
|---|---|---|
| `wrappers.dfy` | `Wrappers` | `Option` and `Result` |
| `bytes.dfy` | `Bytes` | octets, powers, `read_le_uint` |
| `text.dfy` | `Text` | `%02X`, `%04X`, `%0Nd`, decimal numerals and their values |
| `value_decoders.dfy` | `ValueDecoders` | BCD strings, type G and F dates, date formatting, status flags |
| `data_records.dfy` | `DataRecords` | length table, storage number, the record reader and its inverse |
| `evo868.dfy` | `Evo868` | the decoder's accumulators, attribute keys, `decode` as a function and as a method |
| `driver_registry.dfy` | `Registry` | the registry as functions on a map and as a class |
| `router.dfy` | `Router` | meter ID extraction, `WMBusMeter`, `WMBusParser` |

How the model represents the source:

- **Quantities.** A volume or flow is the integer `raw_value` that the source divides by 1000
  before printing. `Milli(n)` means n litres, or n thousandths of m³/h.
- **Absent values.** NaN sentinels and `valid` flags become `Option`.
- **Decoding.** `Evo868.DecodeSpec` is the decoder as a function of the telegram. Its parts
  are `RecordsFrom` (the record walk), `Fold` (the record loop) and `Attributes` (the
  assembly). `Evo868.Decode` is the method that runs the source's loops. It is proved equal
  to `DecodeSpec`, and the decoder's properties are proved about `DecodeSpec`.
- **Attribute keys.** Attributes are keyed by the datatype `Evo868.Key`. `Evo868.KeyName`
  spells each key as the source does, for example `HistoryVolume(s)` is
  `consumption_at_history_<s-7>_m3`. `Evo868.KeyNameInjective` proves that no two keys
  share a name. So the key map and the source's string-keyed map correspond one to one.
- **Where the code departs from EN 13757-3 or from its own comments, the model follows the code:**
  - *DIF code 7.* `data_field_length` returns the byte at the cursor. A zero byte is then
    consumed as the length of an empty payload. A non-zero byte is *not* consumed, so it
    becomes the first payload byte. The table's comment calls code 7 "variable length
    (handled separately if needed)" (evo868_driver.cpp:170), which suggests a length byte
    followed by the payload; the code does not consume a non-zero length byte.
    `DataRecords.Encode` and `DataRecords.WellFormed` state the code's layout.
  - *Length table.* The table is the driver's own. It is not EN 13757-3's, where code 5 is
    a 32-bit real, 7 a 64-bit integer, D variable length and E 12 BCD digits.
  - *Dead header checks.* The "header incomplete" and "unexpected end" checks can never
    fire, because any telegram of at least 20 bytes has more than offset + 15 bytes.
    `DecodeSpec` keeps both checks, `DecodeOutcome` proves they never decide the result,
    and the `Decode` method asserts it.
  - *Router and registry.* The router does not consult the registry. `decode_packet` only
    decodes for the driver name `"evo868"`.

## Model

| member | source | states |
|---|---|---|
| Bytes.ReadLeUint | components/wmbus_parser/evo868_driver.cpp:40-46 | For at most four bytes the result is the little-endian value Σ data[i]·256^i and fits in 32 bits. |
| Bytes.LeValueBound | components/wmbus_parser/evo868_driver.cpp:40-46 | The value of n little-endian bytes is below 256^n. |
| Bytes.LeValueOfLeBytes | components/wmbus_parser/evo868_driver.cpp:40-46 | Reading back the n-byte encoding of a value below 256^n gives the value. |
| Bytes.LeBytesOfLeValue | components/wmbus_parser/evo868_driver.cpp:40-46 | Re-encoding the value read from some bytes, at the same width, gives the bytes back. |
| Text.Hex2 | components/wmbus_parser/wmbus_parser.cpp:66 | `%02X` of a byte is two upper-case hex digits that read back as the byte. |
| Text.Hex4 | components/wmbus_parser/evo868_driver.cpp:144 | `%04X` of a 16-bit value is four upper-case hex digits that read back as the value. |
| Text.NatToString | components/wmbus_parser/evo868_driver.cpp:401 | `std::to_string`: at least one decimal digit, no leading zero unless the number is 0, reads back as the number. |
| Text.NatToStringInjective | components/wmbus_parser/evo868_driver.cpp:395-397 | Different numbers have different numerals. |
| Text.PadDecimal | components/wmbus_parser/evo868_driver.cpp:68 | `%0Nd`: the numeral left-padded with zeros to N characters; all decimal digits; reads back as the number. |
| ValueDecoders.DecodeBcdString | components/wmbus_parser/evo868_driver.cpp:80-112 | The digit pass with its `has_invalid` flag, then the hex pass when needed, returns `BcdString(data)`. |
| ValueDecoders.BcdStringMeaning | components/wmbus_parser/evo868_driver.cpp:80-112 | Empty for no bytes, otherwise two characters per byte. With all nibbles ≤ 9 it is the decimal numeral of the BCD number (last byte most significant). Otherwise it is the upper-case hex numeral of the little-endian value. It never contains '?'. |
| ValueDecoders.BcdStringDigitsAt | components/wmbus_parser/evo868_driver.cpp:86-102 | Character k of an all-digit result is the high (k even) or low (k odd) nibble of byte len-1-k/2. |
| ValueDecoders.BcdStringHexAt | components/wmbus_parser/evo868_driver.cpp:103-110 | Character k of the fallback is character k mod 2 of `%02X` of byte len-1-k/2. |
| ValueDecoders.BcdString | components/wmbus_parser/evo868_driver.cpp:80-112 | The BCD string as a function of the bytes; its meaning is stated by `BcdStringMeaning`, `BcdStringDigitsAt` and `BcdStringHexAt`, and `DecodeBcdString` is proved to compute it. |
| ValueDecoders.DecodeDateG | components/wmbus_parser/evo868_driver.cpp:114-123 | A type G date is present iff day (bits 0-4) > 0 and month (bits 8-11) > 0. When present: day ≤ 31, month ≤ 15, year in 2000..2127. |
| ValueDecoders.DateGRoundTrip | components/wmbus_parser/evo868_driver.cpp:114-123 | Every date a type G field can carry decodes from its encoding. |
| ValueDecoders.DateGEncodesDecoded | components/wmbus_parser/evo868_driver.cpp:114-123 | A valid type G word is the encoding of the date it decodes to, so no bit is ignored. |
| ValueDecoders.DecodeDateTimeF | components/wmbus_parser/evo868_driver.cpp:125-138 | Absent for fewer than 4 bytes. Otherwise present iff day > 0 and month > 0. When present: day ≤ 31, month ≤ 15, year in 2000..2127, hour ≤ 31, minute ≤ 63. |
| ValueDecoders.DateTimeFRoundTrip | components/wmbus_parser/evo868_driver.cpp:125-138 | Every date-time a type F field can carry decodes from its 4-byte encoding. |
| ValueDecoders.DateTimeFEncodesDecoded | components/wmbus_parser/evo868_driver.cpp:125-138 | A valid type F field agrees with the encoding of its decoded value except in bits 6-7 of byte 0 and 5-7 of byte 1. |
| ValueDecoders.FormatDate | components/wmbus_parser/evo868_driver.cpp:64-70 | `%04d-%02d-%02d` of a date; what it produces is stated by `FormatDateFields`. |
| ValueDecoders.FormatDateTime | components/wmbus_parser/evo868_driver.cpp:72-78 | `%04d-%02d-%02d %02d:%02d` of a date-time; what it produces is stated by `FormatDateTimeFields`. |
| ValueDecoders.FormatDateFields | components/wmbus_parser/evo868_driver.cpp:64-70 | A rendered date is 10 characters, `-` at 4 and 7, and its three fields are decimal digits that read back as year, month and day. |
| ValueDecoders.FormatDateTimeFields | components/wmbus_parser/evo868_driver.cpp:72-78 | A rendered date-time is 16 characters with its separators, and its five fields are decimal digits that read back as the components. |
| ValueDecoders.FormatErrorFlags | components/wmbus_parser/evo868_driver.cpp:140-146 | "OK" iff the flags are 0. Otherwise "ERROR_FLAGS_" plus 4 upper-case hex digits of the low 16 bits ("0000" when only high bits are set). |
| DataRecords.FieldLength | components/wmbus_parser/evo868_driver.cpp:161-189 | The table width for every code but 7. For code 7, the byte at the cursor, or 0 past the end. Always below 256. |
| DataRecords.LengthTableShape | components/wmbus_parser/evo868_driver.cpp:162-179 | The BCD codes 9..E have the widths of the integer codes 1..6. Exactly 0, 7, 8 and F have width 0. |
| DataRecords.StorageNumber | components/wmbus_parser/evo868_driver.cpp:191-199 | The storage number `(bit 6 of DIF + 2·Σ nibble_k·16^k) mod 2^16`; its layout is stated by `StorageNumberLayout` and `ComputeStorageNumber` is proved to compute it. |
| DataRecords.ComputeStorageNumber | components/wmbus_parser/evo868_driver.cpp:191-199 | The `|=` loop over the DIFEs returns `StorageNumber` and stays below 2^16. |
| DataRecords.StorageNumberLayout | components/wmbus_parser/evo868_driver.cpp:191-199 | With at most three DIFEs nothing is truncated. Bit 0 is DIF bit 6 and nibble k above it is DIFE k's low nibble. Without DIFEs the result is 0 or 1. |
| DataRecords.ReadChain | components/wmbus_parser/evo868_driver.cpp:264-272 | The DIFE/VIFE loop reads exactly the extension chain `ReadExtension` describes. |
| DataRecords.ReadExtensionShape | components/wmbus_parser/evo868_driver.cpp:265-271 | The chain is the bytes passed over, at least one if any remain. All but the last have bit 7 set. It is complete unless it ran into the end of the buffer. |
| DataRecords.ReadExtensionOfChain | components/wmbus_parser/evo868_driver.cpp:265-271 | A complete chain in the buffer is read back exactly. |
| DataRecords.ReadHead | components/wmbus_parser/evo868_driver.cpp:259-282 | DIF, DIFEs, VIF and VIFEs from a position, none when the buffer ends before the VIF. A head that is read ends past the DIF and within the buffer; `ReadHeadBytes` states that it is exactly the bytes consumed, with well-shaped chains. |
| DataRecords.ReadPayload | components/wmbus_parser/evo868_driver.cpp:284-303 | The payload after a head: `continue` for a zero width (except code 7 with a byte left), `break` when it does not fit. A turn that does not stop ends within the buffer; `ReadPayloadBytes` states that the payload is the bytes consumed, of the table's width. |
| DataRecords.RecordAt | components/wmbus_parser/evo868_driver.cpp:258-303 | One turn of the loop: a filler is consumed alone. A turn that does not stop advances by at least one byte and stays within the buffer, so the walk terminates. |
| DataRecords.ReadRecord | components/wmbus_parser/evo868_driver.cpp:258-303 | The cursor code of one loop turn produces `RecordAt`. |
| DataRecords.RecordAtConsumesEncoding | components/wmbus_parser/evo868_driver.cpp:258-303 | A record handed out is well formed and is exactly the bytes the turn consumed. |
| DataRecords.RecordAtEncode | components/wmbus_parser/evo868_driver.cpp:258-303 | The reader inverts `Encode`: a well-formed record is read back from its bytes, whatever follows. |
| DataRecords.RecordsFrom | components/wmbus_parser/evo868_driver.cpp:258-358 | The records the decode loop hands out, front to back; stated by `RecordsFromEncodeAll`, `RecordsFromWellFormed`, `FillerProducesNoRecord` and `OverlongPayloadEndsWalk`. |
| DataRecords.RecordsFromEncodeAll | components/wmbus_parser/evo868_driver.cpp:258-358 | The walk inverts `EncodeAll`: well-formed records laid end to end are read back in order. |
| DataRecords.RecordsFromWellFormed | components/wmbus_parser/evo868_driver.cpp:288-297 | Every record the walk yields is well formed. No record of code 0, 8 or F is yielded (`continue`). |
| DataRecords.FillerProducesNoRecord | components/wmbus_parser/evo868_driver.cpp:261-262 | A `0x2F` where a DIF is expected is consumed without producing a record. |
| DataRecords.OverlongPayloadEndsWalk | components/wmbus_parser/evo868_driver.cpp:299-300 | A record whose head is read but whose payload width (non-zero) runs past the end of the buffer ends the walk: no record is produced from it on. |
| DataRecords.SkipFiller | components/wmbus_parser/evo868_driver.cpp:238-239 | The padding skip stops at the first non-filler byte or at the end, and passes only fillers. |
| DataRecords.SkipFillerKeepsRecords | components/wmbus_parser/evo868_driver.cpp:238-239 | Skipping fillers before the loop yields the same records as letting the loop skip them. |
| Evo868.HistoryKey | components/wmbus_parser/evo868_driver.cpp:395-397 | The name of history storage s is `consumption_at_history_`, then the decimal index s-7 ≥ 1 without a leading zero, then `_m3`. |
| Evo868.KeyNameInjective | components/wmbus_parser/evo868_driver.cpp:367-401 | Different keys have different attribute names. |
| Evo868.Word | components/wmbus_parser/evo868_driver.cpp:309 | A payload read as `read_le_uint`: below 2^32, and the little-endian value when at most 4 bytes long. |
| Evo868.EffectOf | components/wmbus_parser/evo868_driver.cpp:305-357 | The if-chain on the VIF base and first VIFE with its length guards, as an effect. The value each local holds after the loop is stated by `FoldTotal`, `FoldHistory`, `FoldInterval`, `FoldSetDateVolumes`, `FoldDates`, `FoldDateTimes` and `FoldScalars`. |
| Evo868.Perform | components/wmbus_parser/evo868_driver.cpp:310-356 | The assignment each effect makes to the locals. Stated one local at a time by the `Apply…` lemmas (`ApplyHistory`, `ApplyInterval`, `ApplySetDateVolumes`, `ApplyDates`, `ApplyDateTimes`, `ApplyFlow`, `ApplyStatus`, `ApplyFabrication`). |
| Evo868.Apply | components/wmbus_parser/evo868_driver.cpp:305-357 | One turn of the record loop on the locals; `ApplyRecord` is proved to compute it. |
| Evo868.Fold | components/wmbus_parser/evo868_driver.cpp:258-358 | The record loop over all records. Every local is characterised after it: `FoldTotal`, `FoldHistory`, `FoldInterval`, `FoldSetDateVolumes`, `FoldDates`, `FoldDateTimes` and `FoldScalars` give each local's value, and `FoldSane` its bounds. |
| Evo868.FoldTotal | components/wmbus_parser/evo868_driver.cpp:311-312 | Once set, the total is never replaced. After the loop it is the volume of the first storage-0 volume record. |
| Evo868.FoldSane | components/wmbus_parser/evo868_driver.cpp:353-355 | Over any records the interval stays in 1..255 and history storages stay in 8..65535. |
| Evo868.InvalidDateIgnored | components/wmbus_parser/evo868_driver.cpp:320-323 | A type G field with an invalid date changes nothing, so it never overwrites a valid date. |
| Evo868.InvalidDateTimeIgnored | components/wmbus_parser/evo868_driver.cpp:331-334 | A type F field with an invalid date-time changes nothing. |
| Evo868.FoldHistory | components/wmbus_parser/evo868_driver.cpp:317-318 | A history storage holds the volume of the last volume record of that storage. |
| Evo868.ApplyInterval | components/wmbus_parser/evo868_driver.cpp:352-355 | Only a VIF 0xFD record whose first VIFE is 0x28 and whose payload is non-empty changes the interval, to its first byte, a 0 read as 1. |
| Evo868.FoldInterval | components/wmbus_parser/evo868_driver.cpp:252 | After the loop the interval is the month count of the last interval record (`LastInterval`), or its value before the loop (1 at the start) when there is none. |
| Evo868.ApplySetDateVolumes | components/wmbus_parser/evo868_driver.cpp:308-319 | Only a volume record of storage 1 (or 2) sets `consumption_set_date` (or `_date2`), to its little-endian value. |
| Evo868.FoldSetDateVolumes | components/wmbus_parser/evo868_driver.cpp:308-319 | After the loop each set-date volume is the value of the last volume record of storage 1 (or 2), or what it was before. |
| Evo868.ApplyDates | components/wmbus_parser/evo868_driver.cpp:320-330 | Only a valid type G date of storage 1, 2 or 8 sets `set_date`, `set_date2` or `history_reference_date`; an invalid one changes nothing. |
| Evo868.FoldDates | components/wmbus_parser/evo868_driver.cpp:320-330 | After the loop each date is the last valid type G date of its storage (1, 2, 8), or what it was before. |
| Evo868.ApplyDateTimes | components/wmbus_parser/evo868_driver.cpp:331-339 | Only a valid type F date-time of storage 0 or 3 sets `device_datetime` or `max_flow_datetime`. |
| Evo868.FoldDateTimes | components/wmbus_parser/evo868_driver.cpp:331-339 | After the loop each date-time is the last valid type F date-time of its storage (0, 3), or what it was before. |
| Evo868.ApplyFlow | components/wmbus_parser/evo868_driver.cpp:340-342 | Only a record of VIF base 0x3B with at least 3 bytes sets the flow, to its first three bytes little-endian. |
| Evo868.ApplyStatus | components/wmbus_parser/evo868_driver.cpp:347-351 | Only a VIF 0xFD record whose first VIFE is 0x17 and that has at least 2 bytes sets the status word. |
| Evo868.ApplyFabrication | components/wmbus_parser/evo868_driver.cpp:343-344 | Only a record of VIF base 0x78 sets the fabrication number, to its BCD string, even an empty one. |
| Evo868.FoldScalars | components/wmbus_parser/evo868_driver.cpp:340-351 | After the loop the flow, the status word and the fabrication number are those of the last record of each kind, or what they were before. |
| Evo868.FoldTracks | components/wmbus_parser/evo868_driver.cpp:308-357 | After the loop a local is present exactly when some record fed its key. The fabrication number is present only if fed, because a later empty string clears it; `DecodeStatusAndFabrication` gives the exact condition. |
| Evo868.Value | components/wmbus_parser/evo868_driver.cpp:367-403 | The attribute of one key given the locals; stated by `AttributesKeys`. |
| Evo868.Attributes | components/wmbus_parser/evo868_driver.cpp:367-403 | The attribute map built from the locals; it holds exactly the keys whose value is present (`AttributesKeys`), and `AssembleAttributes` is proved to compute it. |
| Evo868.AttributesKeys | components/wmbus_parser/evo868_driver.cpp:367-403 | The attribute map holds exactly the keys whose local is present, each with its value. |
| Evo868.DecodeOutcome | components/wmbus_parser/evo868_driver.cpp:206-365 | Failure iff fewer than 20 bytes (TooShort) or no storage-0 volume record (MissingTotal). The header checks never fire. On success the main value is the first storage-0 volume, `total_m3` holds it, and `timestamp` is present. |
| Evo868.DecodeKeys | components/wmbus_parser/evo868_driver.cpp:367-403 | A successful decode has the timestamp. Every other key is present iff some record fed it; the fabrication number is present only if fed. Every key has a name. The values are given by `DecodeOutcome`, `DecodeHistory`, `DecodeInterval`, `DecodeVolumes`, `DecodeDates`, `DecodeDateTimes` and `DecodeStatusAndFabrication`. |
| Evo868.DecodeHistory | components/wmbus_parser/evo868_driver.cpp:390-399 | `consumption_at_history_<s-7>_m3` is present iff some volume record has storage s ≥ 8, and it carries the last of them. |
| Evo868.DecodeInterval | components/wmbus_parser/evo868_driver.cpp:252-403 | `history_interval_months` is present iff some history volume is. It is the numeral of the first payload byte of the last VIF 0xFD / VIFE 0x28 record (a 0 read as 1), or of 1 when there is none, so always of a count in 1..255. |
| Evo868.DecodeVolumes | components/wmbus_parser/evo868_driver.cpp:376-385 | `consumption_at_set_date_m3`, `consumption_at_set_date_2_m3` and `max_flow_since_datetime_m3h` are present iff a record of their kind was read, and hold the last one's value in thousandths. |
| Evo868.DecodeDates | components/wmbus_parser/evo868_driver.cpp:378-389 | `set_date`, `set_date_2` and `history_reference_date` are present iff a valid type G date of storage 1, 2 or 8 was read, and hold the last one, formatted. |
| Evo868.DecodeDateTimes | components/wmbus_parser/evo868_driver.cpp:370-387 | `device_date_time` and `max_flow_datetime` are present iff a valid type F date-time of storage 0 or 3 was read, and hold the last one, formatted. |
| Evo868.DecodeStatusAndFabrication | components/wmbus_parser/evo868_driver.cpp:372-375 | `current_status` is present iff a status record was read and holds the last flags, formatted. `fabrication_no` is present iff the last 0x78 record's BCD string is non-empty, and holds that string. |
| Evo868.TelegramOfRecords | components/wmbus_parser/evo868_driver.cpp:223-358 | After a 15-byte header (and optional prefix), well-formed records laid end to end are exactly the records the decoder folds. |
| Evo868.SingleVolumeTelegram | components/wmbus_parser/evo868_driver.cpp:203-406 | A 15-byte header and one 4-byte storage-0 volume of 12345 decodes to main value 12345 with only `total_m3` and `timestamp`. |
| Evo868.PrefixLength | components/wmbus_parser/evo868_driver.cpp:214-216 | The offset of the records: 2 after a `0x54 0x3D` or `0x54 0xCD` prefix, else 0; used by `Router.PacketMeterId`, whose contract states where the address is read. |
| Evo868.DecodeSpec | components/wmbus_parser/evo868_driver.cpp:203-406 | `decode` as a function of the telegram. `DecodeOutcome`, `DecodeKeys`, `DecodeHistory`, `DecodeInterval`, `DecodeVolumes`, `DecodeDates`, `DecodeDateTimes` and `DecodeStatusAndFabrication` state its result. `Decode` is proved to compute it. |
| Evo868.ApplyRecord | components/wmbus_parser/evo868_driver.cpp:305-357 | The if-chain on the VIF base, with its length guards and early `continue`s, computes `Apply`. |
| Evo868.AssembleAttributes | components/wmbus_parser/evo868_driver.cpp:367-403 | The assembly in the source's order produces `Attributes(acc)`. |
| Evo868.PutPresent | components/wmbus_parser/evo868_driver.cpp:370-389 | One `if (present) attributes[name] = value` step adds exactly that key's attribute. |
| Evo868.AssembleHistory | components/wmbus_parser/evo868_driver.cpp:390-403 | The history loop writes one volume per storage from 8 on, then the interval. |
| Evo868.Decode | components/wmbus_parser/evo868_driver.cpp:203-406 | Returns true iff `DecodeSpec` succeeds, with its attributes and main value. On failure the map is cleared and there is no main value. |
| Registry.Lookup | components/wmbus_parser/driver_registry.h:35-40 | `find` returns the registered function iff the name is registered, and null otherwise. |
| Registry.Register | components/wmbus_parser/driver_registry.h:29-33 | `register_driver` on the map; stated by `RegisterNullUnchanged`, `LookupAfterRegister` and `LastRegistrationWins`. |
| Registry.RegisterNullUnchanged | components/wmbus_parser/driver_registry.h:29-31 | Registering null leaves the map unchanged. |
| Registry.LookupAfterRegister | components/wmbus_parser/driver_registry.h:29-33 | After registering a non-null function, the name finds it. Every other name finds what it found before. |
| Registry.LastRegistrationWins | components/wmbus_parser/driver_registry.h:32 | Registering a name twice keeps only the second function. |
| Registry.LookupAfterReplay | components/wmbus_parser/driver_registry.h:29-40 | After any sequence of registrations a name finds the last non-null function registered under it, or what it found before. |
| Registry.NeverRegisteredNotFound | components/wmbus_parser/driver_registry.h:35-40 | From the empty registry, a name never registered with a function is not found. |
| Registry.DriverRegistry.constructor | components/wmbus_parser/driver_registry.h:43 | The registry starts empty. |
| Registry.DriverRegistry.RegisterDriver | components/wmbus_parser/driver_registry.h:29-33 | The new map is `Register(old map, name, fn)`. |
| Registry.DriverRegistry.Find | components/wmbus_parser/driver_registry.h:35-40 | A read-only lookup with `Lookup`'s contract. |
| Router.PacketMeterId | components/wmbus_parser/wmbus_parser.cpp:52-67 | No ID iff the packet has fewer than 10 bytes, so the id-extraction length check never fires. Otherwise, after the prefix, 8 upper-case hex digits whose value is the little-endian address at bytes 4..7. |
| Router.AddressExample | components/wmbus_parser/wmbus_parser.cpp:64-67 | Bytes 11 22 33 44 at offsets 4..7 give "44332211". |
| Router.NonUpperHexNeverMatches | components/wmbus_parser/wmbus_parser.cpp:71 | A configured ID that is not upper-case hex, such as a lower-case one, never equals a packet's ID. |
| Router.FirstMatch | components/wmbus_parser/wmbus_parser.cpp:70-76 | The index of the first equal ID, none iff no ID is equal. |
| Router.Outcome | components/wmbus_parser/wmbus_parser.cpp:16-23 | Success iff the driver is "evo868" and the telegram decodes. `total_m3` then holds the main value. |
| Router.Delivered | components/wmbus_parser/wmbus_parser.cpp:29-41 | The sensor receives one publication iff decoding succeeded and a sensor is bound, and nothing otherwise. |
| Router.WMBusMeter.constructor | components/wmbus_parser/wmbus_parser.cpp:9-10 | Stores the three names, with no sensor and nothing published. |
| Router.WMBusMeter.SetTotalM3 | components/wmbus_parser/wmbus_parser.cpp:12-14 | Binds or unbinds the sensor and publishes nothing. |
| Router.WMBusMeter.DecodePacket | components/wmbus_parser/wmbus_parser.cpp:16-23 | Returns true iff `Outcome` succeeds, with its value and attributes. Any driver other than "evo868" fails. On failure the map is empty and there is no value (see Left out for the other-driver path). |
| Router.WMBusMeter.HandlePacket | components/wmbus_parser/wmbus_parser.cpp:25-42 | Appends `Delivered(bound, Outcome(driver, raw))` to what the sensor received, and nothing else. |
| Router.WMBusParser.AddMeter | components/wmbus_parser/wmbus_parser.cpp:44-48 | Appends the meter and keeps the earlier ones in order. |
| Router.WMBusParser.Target | components/wmbus_parser/wmbus_parser.cpp:56-78 | The meter a packet goes to is the first configured meter whose ID equals the packet's. No meter means no ID, or no configured meter with it. |
| Router.WMBusParser.ReceivePacket | components/wmbus_parser/wmbus_parser.cpp:50-79 | Only the first meter whose ID equals the packet's handles the whole, unstripped packet, once. Every other meter is unchanged. A packet under 10 bytes or without a match reaches no meter. |

## Left out

- Floating point: `format_float` (evo868_driver.cpp:48-62) and the `static_cast<float>(raw_value) / 1000.0f` scalings (evo868_driver.cpp:310 and :342). Volumes and flows are integer thousandths, `Milli(n)`. Their decimal rendering is not modelled. Nor is the float rounding: `static_cast<float>` is inexact above 2^24, so the published value is not always exactly raw/1000.
- The clock: `current_timestamp` (evo868_driver.cpp:148-159) reads the system time. The timestamp attribute is the opaque value `CurrentTime`.
- Evo868.Word: `read_le_uint` on a payload longer than 4 bytes shifts by 32 bits or more, which is undefined in C++. The model reads the first four bytes.
- DataRecords.StorageNumber: from the fourth DIFE on, the source loses bits shifted past bit 15, and long chains shift by 32 or more, which is undefined. The model takes the sum mod 2^16, which agrees wherever the behaviour is defined. `StorageNumberLayout` needs at most three DIFEs.
- Logging (`ESP_LOG*`) is left out. It has no effect on any result.
- Router.WMBusMeter.HandlePacket: the sensor is modelled by whether one is bound and by the log `published` of what it received. `publish_state_with_attributes` and the sensor object itself are outside this model.
- Decode triggers and the raw-log level are declared in wmbus_parser.h without an implementation shown, so they are not part of this model.
- The static registration of "evo868" (evo868_driver.cpp:410-414) and the `DriverRegistry::instance()` singleton (driver_registry.h:24-27) are not modelled. The registry is a class that callers construct.
- The draft driver under `components/wmbus_parser/drivers/` is not part of this model. The router never dispatches to it.
- `__init__.py` (ESPHome code generation) and the header files, which only declare, are not modelled.
- Evo868.AssembleHistory: the source visits history storages in increasing order. The model visits them in an unspecified order. The resulting map is the same.
- Attribute names: the attribute map is keyed by `Evo868.Key`, and its strings are given by `Evo868.KeyName`.
- Router.WMBusMeter.DecodePacket: for a driver other than "evo868" the source returns false without writing `attrs` or `value` (wmbus_parser.cpp:21-22). The model returns an empty map and no value. The two agree in use only because `handle_packet` passes a fresh map and NaN (wmbus_parser.cpp:26-27).
- Router.Outcome: the main value published is the integer number of litres, not the float in m³.
