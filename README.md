# nearby: a Dafny model of the 802.11 decoder and topology mapper

`nearby` passively captures IEEE 802.11 frames and builds a picture of the
wireless networks around it. This project models its core in Dafny and
proves properties of that model:

- **Bit test** (`src/util.rs`, module `Util`): `flag_is_set`, the mask test
  used for the eight frame-control flags.
- **Header decoder** (`src/dot11.rs`, module `Dot11`):
  - the frame-control octets: protocol version, type, subtype and flags;
  - the `xx:xx:xx:xx:xx:xx` formatting of MAC fields;
  - the choice of destination, source and BSSID from the DS flags;
  - the reader that copies the header fields into zero-filled buffers.
- **Body parser** (`src/info.rs`, module `Info`):
  - the little-endian fixed fields;
  - the SSID and Supported Rates elements;
  - the scan for the Country element;
  - the five management bodies: Beacon, Probe Request, Probe Response,
    Association Request and Association Response. Of these, the header
    decoder applies only the Beacon parser, as `parse_body` does.
- **Vendor table** (`src/dot11/vendors.rs`, module `Vendors`): the rule that
  turns each line of the IEEE OUI registry into a table entry, and the key
  that `lookup` derives from a MAC address.
- **Mapper** (`src/mapper.rs`, module `Mapper`):
  - a class whose two maps are updated frame by frame;
  - one Collection per access point, with its nodes and links;
  - in people mode, the phones seen probing.

Modules `Common` (octets, `Option`/`Result`, `split`/`join`/`contains`) and
`Text` (`{:02x}` formatting, UTF-8 well-formedness, ASCII lower-casing) hold
the helpers the core relies on.

Code that advances a cursor or fills a buffer step by step is modelled as a
method with a local position: the body parsers, `get_country`,
`supported_rates`, the header reader, `parse_address` and the `from_file`
line loop. Each such method is proved equal to a function that states the
byte layout, and the lemmas are stated about that function. A `bytes`
cursor panics when it runs past the end of its input; here that panic is
`None`. The mapper is a `class Mapper` with fields `netMap` and
`peopleMap`. Each of its methods is proved equal to a function on the map
values (`MapStep`, `AddToCollectionSpec`, `AddAccessPointSpec`,
`AddPeopleSpec`), and lemmas state what those functions preserve.

The files shown for this repository come from different revisions: the
mapper reads `Dot11Header.info`, `Beacon.current_channel` and the subtypes
`QoS`, `Data` and `NullData`, none of which the decoder defines. The model
takes the superset:
- the header carries an `info` field, which holds the decoded Beacon for a
  Beacon frame and `Unhandled` for every other frame, as `parse_body` parses
  only Beacon bodies;
- `FrameSubType` has the three data subtypes, although `frame_subtype`
  never produces them (`Dot11.NoDataSubtypeDecoded`);
- a Beacon's current channel is not decoded and stays 0.

Behaviours of the code that differ from what one might expect, proved as
written:

- **Addresses.** With exactly one DS flag set, `parse_address` reports
  destination and source swapped compared with the address table of IEEE
  Std 802.11-2016 (`Dot11.AddressTableAgainstStandard`).
- **Fourth address.** Only 18 address octets reach
  `FrameAddresses::from_bytes`, so the fourth address is always
  `00:00:00:00:00:00`.
- **Country after the rates element.** After the rates element, the Beacon
  and Probe Response cursors advance by the number of recognised rates plus
  2, not by the declared length. An unknown rate code therefore hides a
  Country element that follows (`Info.BeaconMissesCountryAfterUnknownRate`).
- **Data frames.** Decoded data frames never carry the subtypes the mapper
  dispatches on, so the mapper ignores them (`Mapper.DecodedDataFramesIgnored`).
- **End-to-end scenario.** Take a Beacon followed by a QoS frame from a
  client to the access point (`Mapper.BeaconThenDataExample`). The
  Collection ends with two nodes and two links:
  - the nodes are the access point's own node and the client's;
  - the links are (client, bssid) from the source edge and (bssid, bssid)
    from the destination edge, since the destination is the access point.

## Model

Each method's row also covers the function it is proved equal to. A
specification function with no contract of its own is covered by the lemma
rows about it:
- `Dot11.FrameTypeOf` by `Dot11.FrameTypeIsBits2And3`;
- `Dot11.FrameSubtypeOf` by `Dot11.FrameSubtypeIsHighNibble`,
  `Dot11.UnknownSubtypeCodes` and `Dot11.SubtypeCodeRoundTrip`;
- `Info.RateOf` by `Info.RateTable`;
- `Info.CountryScan` by `Info.GetCountry`, `Info.ScanSkipsElement`,
  `Info.CountryScanFindsCountry` and `Info.CountryScanExhausts`;
- `Mapper.MapStep` by `Mapper.Mapper.Map`, `Mapper.MapStepEffect`,
  `Mapper.MapStepKeepsValid` and `Mapper.MapStepIdempotent`;
- `Mapper.AddAccessPointSpec` by `Mapper.Mapper.AddAccessPoint`,
  `Mapper.AddAccessPointEffect` and `Mapper.AddAccessPointIdempotent`;
- `Mapper.AddPeopleSpec` by `Mapper.Mapper.AddPeople`,
  `Mapper.AddPeopleEffect` and `Mapper.AddPeopleIdempotent`.

| member | source | states |
|---|---|---|
| Util.FlagIsSet | src/util.rs:1-9 | No flag of the zero octet is set. The bit number is below 8, because `1 << bit` overflows a `u8` from 8 on. |
| Util.FlagIsSetIsBit | src/util.rs:2-9 | `flag_is_set(data, bit)` holds exactly when binary digit `bit` (least significant = 0) of `data` is 1. |
| Util.BitZeroBranchIsGeneral | src/util.rs:3-8 | The separate bit-0 branch computes the general `1 << bit` mask test. |
| Util.FlagIgnoresOtherBits | src/util.rs:7-8 | Flipping any other bit of `data` leaves the result unchanged. |
| Dot11.ProtocolVersion | src/dot11.rs:158-160 | The version is octet 0 modulo 4: its two low bits. |
| Dot11.FrameControlFromBytes | src/dot11.rs:133-156 | Fails exactly when the protocol version is nonzero, and then with the version error. |
| Dot11.FrameTypeIsBits2And3 | src/dot11.rs:162-169 | The type is the table entry for bits 2-3 of octet 0: 0, 1, 2 give Management, Control, Data; 3 gives Unknown. |
| Dot11.FrameSubtypeIsHighNibble | src/dot11.rs:171-186 | The subtype is the table entry for the high nibble alone, whatever the type. |
| Dot11.UnknownSubtypeCodes | src/dot11.rs:171-186 | Exactly the codes 6, 7, 13, 14 and 15 give `Unknown`. |
| Dot11.SubtypeCodeRoundTrip | src/dot11.rs:171-186 | Every named subtype decodes back from its code in the high nibble, whatever the low nibble holds. |
| Dot11.NoDataSubtypeDecoded | src/dot11.rs:171-186 | The decoder never yields `Data`, `QoS` or `NullData`. |
| Dot11.BeaconOctet | src/dot11.rs:162-186 | Octet 0 `0x80` decodes to a Management Beacon for any flags octet. |
| Dot11.FlagsRoundTrip | src/dot11.rs:145-152 | The eight flags are bits 0-7 of octet 1 in the order to_ds, from_ds, more_flag, retry, pwr_mgmt, more_data, wep, order. Rebuilding the octet from them gives octet 1 back. |
| Dot11.FlagsOctetRoundTrip | src/dot11.rs:145-152 | Decoding an octet rebuilt from eight flags gives back the same flags. |
| Dot11.FlagsExamples | src/dot11.rs:145-152 | Octet `0b11` sets only to_ds and from_ds; `0x00` sets no flag. |
| Dot11.MacFieldFromSlice | src/dot11.rs:238-244 | The formatted address is 17 characters, with `:` at every third position. |
| Dot11.MacFieldGroups | src/dot11.rs:238-244 | Splitting the formatted address on `:` gives the six `{:02x}` groups of its octets. |
| Dot11.MacFieldRoundTrip | src/dot11.rs:238-244 | The formatted address parses back to its first six octets. |
| Dot11.MacFieldInjective | src/dot11.rs:238-244 | Different 6-octet prefixes never format alike. |
| Dot11.MacFieldExample | src/dot11.rs:239 | `[de,ad,be,ef,00,01]` formats as `"de:ad:be:ef:00:01"`. |
| Dot11.ZeroMacField | src/dot11.rs:239 | Six zero octets format as `00:00:00:00:00:00`. |
| Dot11.ReadInto | src/dot11.rs:204-205 | `read` into a zeroed buffer copies the remaining input, at most the buffer's length, and leaves zeros after it. It returns the clamped position. |
| Dot11.ReadField | src/dot11.rs:48-61 | One zeroed-buffer field read from the current position: the input there, zero-padded to the field length. |
| Dot11.FrameAddressesFromBytes | src/dot11.rs:198-229 | Reads addresses 1-3 at offsets 0, 6 and 12, skips sequence control, then reads address 4 at offset 20, each zero-padded. |
| Dot11.FourthAddressIsZero | src/dot11.rs:216-221 | From an 18-octet block, the fourth address is always `00:00:00:00:00:00`. |
| Dot11.ParseAddress | src/dot11.rs:79-104 | (dst, src, bssid) is the code's table for the four DS-flag cases, with an empty BSSID when both flags are set. |
| Dot11.AddressTableAgainstStandard | src/dot11.rs:86-101 | Agrees with section 9.3.2.1 of IEEE Std 802.11-2016 when both DS flags are equal. With exactly one flag set, dst and src are swapped. |
| Dot11.BodyOf | src/dot11.rs:106-115 | Only a Management Beacon has its body parsed, and it fails exactly when the Beacon parser fails. Every other frame carries `Unhandled`, whatever its body holds. |
| Dot11.ParseBody | src/dot11.rs:106-115 | The method equals `BodyOf`. |
| Dot11.DecodeHeader | src/dot11.rs:42-77 | The step-by-step reader equals the header layout function. |
| Dot11.DecodeAfterControl | src/dot11.rs:52-66 | After the frame control: duration, 18 address octets, sequence control, then the body drained by `io::copy`. |
| Dot11.HeaderVersionCheck | src/dot11.rs:48-50 | The version error occurs exactly when the first octet has a nonzero version. An empty frame reads as version 0. |
| Dot11.HeaderTruncatedOnlyForBeacons | src/dot11.rs:63-66 | With protocol version 0, decoding fails exactly when the frame is a Beacon whose body the Beacon parser cannot read, and then with `TruncatedBody`. |
| Dot11.OnlyBeaconsCarryBody | src/dot11.rs:106-115 | A decoded frame other than a Beacon carries `Unhandled`. A decoded Beacon carries the Beacon its body parses to. |
| Dot11.HeaderLayout | src/dot11.rs:48-61 | On a full header: duration is octets 2-3, addresses 4-21, sequence control 22-23, and the body starts at 24. |
| Dot11.WdsFrameAddresses | src/dot11.rs:86-88 | The BSSID is empty exactly when both DS flags are set; the source is then all zeros. |
| Dot11.BareBeaconIsTruncated | src/dot11.rs:109-111 | A Beacon header with no body fails instead of decoding. |
| Text.Hex2RoundTrip | src/dot11.rs:239 | `{:02x}` of an octet reads back to the same octet. |
| Text.Hex2Injective | src/dot11.rs:239 | Different octets never format alike. |
| Text.Hex2HasNoColon | src/dot11.rs:239 | A formatted octet holds no `:`. |
| Text.Utf8OrEmptyIsValid | src/info.rs:179 | `from_utf8(..).unwrap_or("")` always gives well-formed text, and keeps the bytes exactly when they are well-formed. |
| Text.AsciiIsUtf8 | src/info.rs:192-196 | ASCII bytes, such as a country code, are well-formed UTF-8. |
| Text.ToLowerAscii | src/dot11/vendors.rs:23 | Upper-case letters map to lower case, and every other character is kept. |
| Info.LittleEndianRoundTrip | src/info.rs:33-35 | Writing a number as `n` little-endian octets and reading them back gives the number. |
| Info.ToLittleEndianRoundTrip | src/info.rs:33-35 | Reading octets as a little-endian number and writing it back gives the octets. |
| Info.RateTable | src/info.rs:211-227 | The table lists exactly 14 codes, and each rate is its code with bit 7 cleared, in units of 0.5 Mbps. |
| Info.DecodeRatesAppend | src/info.rs:208-228 | Decoding the codes one by one distributes over concatenation. |
| Info.DecodeRatesKeepsAllIffRecognised | src/info.rs:208-228 | No code is dropped exactly when every code is in the table. |
| Info.DecodeRatesFromCodes | src/info.rs:208-228 | Every decoded rate is the rate of some declared code. |
| Info.SupportedRatesOf | src/info.rs:201-231 | Byte 0 is ignored and byte 1 is the count. It fails when fewer bytes remain than counted. The output is no longer than the count. |
| Info.SupportedRates | src/info.rs:201-231 | The counted loop equals the in-order decoding of the declared codes, dropping unknown ones. |
| Info.RatesOfElement | src/info.rs:201-231 | A rates element decodes its own codes, whatever follows it. |
| Info.RatesExample | src/info.rs:211-226 | `[id, 3, 0x82, 0x0c, 0x01]` decodes to 1 and 6 Mbps, dropping `0x01`. |
| Info.SsidOf | src/info.rs:168-181 | A decoded SSID fits in the input, and its length is byte 1. |
| Info.ParseSsid | src/info.rs:168-181 | Id, length, then that many bytes as UTF-8 or `""`. It fails when fewer bytes remain. |
| Info.SsidOfElement | src/info.rs:168-181 | An SSID element decodes to its id, length and text, whatever follows it. |
| Info.CountryFromBytes | src/info.rs:190-198 | It succeeds exactly when 3 bytes are present, and the code is those bytes or empty. |
| Info.GetCountry | src/info.rs:233-260 | The cursor loop equals the scan. |
| Info.ScanSkipsElement | src/info.rs:242-252 | An element with id 2-6 or 0x32-0x42 is stepped over by its length. |
| Info.CountryScanFindsCountry | src/info.rs:237-257 | Skipped elements in front of a Country element do not hide it: its first three bytes are the code. |
| Info.CountryScanExhausts | src/info.rs:237-257 | A body of skipped elements alone runs `get_u8` past the end. |
| Info.ParseBeaconElements | src/info.rs:37-41 | SSID element; rates element; then the country scan from the ssid length plus 2, plus the recognised-rate count plus 2. |
| Info.ParseBeacon | src/info.rs:30-51 | Timestamp (LE u64), interval and capability (LE u16) from octets 0-12, then the elements. |
| Info.BeaconOfElements | src/info.rs:30-51 | A Beacon built from fixed fields, an SSID element, a rates element of known codes and a Country element decodes to exactly those parts. |
| Info.BeaconMissesCountryAfterUnknownRate | src/info.rs:40 | One unknown rate code leaves the cursor inside the rates element, so the Country element that follows is not seen. |
| Info.ParseProbeResponse | src/info.rs:85-106 | The same layout as a Beacon. |
| Info.ParseProbeRequest | src/info.rs:61-71 | No fixed fields: the SSID at offset 0, then the rates. |
| Info.ProbeRequestOfElements | src/info.rs:61-71 | An SSID element followed by a rates element decodes to both. |
| Info.ParseAssociationRequest | src/info.rs:118-132 | Capability and listen interval (4 octets), then SSID, then rates. |
| Info.AssociationRequestOfElements | src/info.rs:118-132 | The fixed fields and both elements decode to themselves. |
| Info.ParseAssociationResponse | src/info.rs:144-157 | Capability, status code and association id (6 octets), then rates with no SSID. |
| Info.AssociationResponseOfElements | src/info.rs:144-157 | The fixed fields and the rates element decode to themselves. |
| Vendors.LineRule | src/dot11/vendors.rs:19-24 | A line is skipped exactly when its first tab field lacks `base 16`. An entry's code is six non-upper-case characters. |
| Vendors.LineRuleOfFields | src/dot11/vendors.rs:19-24 | For any line of tab-free fields: skipped exactly when the first field lacks `base 16`; panics exactly when it has it and there are fewer than three fields; otherwise the lowercased first six characters map to the third field. |
| Vendors.LineRuleEntry | src/dot11/vendors.rs:19-24 | A line `prefix rest TAB mid TAB name`, with a six-character prefix and `base 16` in the first field, adds the lowercased prefix mapped to `name`, whatever `mid` holds. |
| Vendors.FromLines | src/dot11/vendors.rs:12-30 | The line loop fails exactly when the fold of the line outcomes fails, and otherwise builds the fold's table. |
| Vendors.PanicIsFinal | src/dot11/vendors.rs:17-24 | After one line panics, reading the whole file fails. |
| Vendors.FoldFailsIffPanic | src/dot11/vendors.rs:17-24 | Reading fails exactly when some line panics. |
| Vendors.EntriesAreInTable | src/dot11/vendors.rs:17-24 | A code is in the table exactly when some line adds it. |
| Vendors.LaterLineWins | src/dot11/vendors.rs:23 | The name stored for a code comes from the last line that adds it. |
| Vendors.CodesAreLowercase | src/dot11/vendors.rs:21-23 | Every code in the table is six characters with no upper-case letter. |
| Vendors.RegistryLineExample | src/dot11/vendors.rs:19-24 | `00000C (base 16)\t\tCisco` adds `00000c` mapped to `Cisco`. |
| Vendors.Lookup | src/dot11/vendors.rs:32-40 | The stored name when the key is present, `""` otherwise. |
| Vendors.KeyOfMacField | src/dot11/vendors.rs:33-34 | Every formatted MAC field has a key: its first three octets in lowercase hex. |
| Vendors.EmptyMacHasNoKey | src/dot11/vendors.rs:33-34 | The empty BSSID has fewer than three groups, so indexing them panics. |
| Vendors.LookupExample | src/dot11/vendors.rs:32-40 | A table read from one registry line answers every MAC with that prefix. |
| Mapper.PushNode | src/mapper.rs:52-54 | Appends the node and changes nothing else. |
| Mapper.PushLink | src/mapper.rs:56-58 | Appends the link and changes nothing else. |
| Mapper.FindNode | src/mapper.rs:201-202 | Finds a node exactly when one has the MAC. |
| Mapper.NodeFor | src/mapper.rs:213-217 | The node has the MAC, the signal and the looked-up vendor. |
| Mapper.AddToCollectionSpec | src/mapper.rs:196-211 | Never adds or removes a key. |
| Mapper.SignalOf | src/mapper.rs:134-137 | The antenna signal, or 0 when absent. |
| Mapper.FreqOf | src/mapper.rs:139-142 | The channel frequency, or 0 when absent. |
| Mapper.Mapper.constructor | src/mapper.rs:118-127 | Both maps start empty and the invariant holds. |
| Mapper.Mapper.Map | src/mapper.rs:129-168 | The new maps and the returned Collection are `MapStep` of the old maps. The invariant is preserved. |
| Mapper.Mapper.AddAccessPoint | src/mapper.rs:170-194 | The new network map and the result are `AddAccessPointSpec`. The people map is unchanged. |
| Mapper.Mapper.AddToCollection | src/mapper.rs:196-211 | The new network map is `AddToCollectionSpec`. The people map is unchanged. |
| Mapper.Mapper.AddNode | src/mapper.rs:213-217 | The node for the MAC, labelled with its vendor. |
| Mapper.Mapper.AddPeople | src/mapper.rs:219-236 | The new people map is `AddPeopleSpec`. The network map is unchanged. |
| Mapper.AddToCollectionKeepsValid | src/mapper.rs:196-211 | Each Collection keeps its router id and its own node first, with distinct node MACs and distinct links, all pointing at its key. |
| Mapper.AddEdgeKeepsValid | src/mapper.rs:201-208 | One edge into a valid Collection keeps it valid. |
| Mapper.AddNodeKeepsValid | src/mapper.rs:201-204 | A node is appended only when its MAC is new, so node MACs stay distinct. |
| Mapper.AddLinkKeepsValid | src/mapper.rs:206-208 | A link is appended only when it is new, so links stay distinct. |
| Mapper.AddAccessPointKeepsValid | src/mapper.rs:170-194 | A new access point's Collection is valid. |
| Mapper.AddPeopleKeepsValid | src/mapper.rs:219-236 | Every person is keyed by their MAC and has a vendor from the phone list. |
| Mapper.MapStepKeepsValid | src/mapper.rs:129-168 | Every frame keeps both map invariants. |
| Mapper.AddToCollectionEffect | src/mapper.rs:196-211 | After the call, a known BSSID's Collection holds the node and the link for a collectable MAC. Otherwise nothing changes. Only that Collection changes, and it only grows. |
| Mapper.AddEdgeEffect | src/mapper.rs:201-208 | The node and the link are present afterwards. The Collection only grows, and is unchanged when both were there. |
| Mapper.AddToCollectionPresent | src/mapper.rs:201-208 | A node and a link already present make the call a no-op. |
| Mapper.AddToCollectionIdempotent | src/mapper.rs:196-211 | Seeing the same edge twice records it once. |
| Mapper.DataEdgesEffect | src/mapper.rs:153-155 | The two edges of a data frame keep the keys, leave every Collection but the BSSID's unchanged, and only grow that one. |
| Mapper.DataEdgesIdempotent | src/mapper.rs:153-155 | Replaying a data frame's two edges changes nothing. |
| Mapper.AddAccessPointEffect | src/mapper.rs:170-194 | Creates exactly for a candidate BSSID with no Collection and a non-empty SSID. The new Collection has the Beacon's SSID, signal and channel, the BSSID as router id, the looked-up vendor as label, only the access point's node, and no links. Otherwise nothing changes. |
| Mapper.AddAccessPointIdempotent | src/mapper.rs:173 | First seen wins. Once a Beacon has created the Collection, any second Beacon for that BSSID, with any SSID and signal, changes nothing and returns `None`. A Beacon that created nothing left the map unchanged. |
| Mapper.AddPeopleEffect | src/mapper.rs:219-236 | A source is upserted exactly when its vendor is on the phone list. No other entry changes. |
| Mapper.AddPeopleIdempotent | src/mapper.rs:234 | Recording the same probe twice records it once. |
| Mapper.MapStepEffect | src/mapper.rs:129-168 | People mode changes only the people map, and only for a Probe Request, and returns `None`. Topology mode changes only the network map: keys grow at most by the BSSID, every other Collection stays exactly as it was, and the BSSID's Collection only grows. A returned Collection is the one added. |
| Mapper.MapStepIdempotent | src/mapper.rs:129-168 | Replaying a frame changes nothing and creates nothing. |
| Mapper.DecodedDataFramesIgnored | src/mapper.rs:152-159 | A decoded data frame changes nothing, because its subtype is never QoS, Data or NullData. |
| Mapper.DecodedLookupsDefined | src/mapper.rs:196-217 | Every vendor lookup on a decoded frame with at most one DS flag set has a key. |
| Mapper.WdsBeaconHasNoKey | src/mapper.rs:180 | A Beacon with both DS flags set, for an unknown BSSID, reaches a lookup of `""`, which panics. |
| Mapper.BeaconThenDataExample | src/mapper.rs:150-165 | After a Beacon and then a QoS frame from a station to the access point, the Collection holds the access point node, then the station node, and the links (station, bssid) and (bssid, bssid). |
| Mapper.StationThenApEdges | src/mapper.rs:153-155 | The station edge then the access point's own edge, on a fresh Collection. |

## Left out

- Opening and reading files is not modelled:
  - `from_file` takes the lines of the registry as a sequence;
  - `Mapper::new` takes the table already read (`src/mapper.rs:119-127`).
- `calc_distance` is `f32` floating point, which is not modelled. A person's
  distance is kept as its two inputs, frequency and signal.
- Rates are `f32` in the source. Here they are naturals in units of 0.5 Mbps,
  which loses nothing: every table entry is a multiple of 0.5.
- Radiotap parsing is an external crate. The mapper receives the two fields
  it reads: antenna signal and channel frequency.
- These files are not part of this model: `src/main.rs` (capture loop,
  output), `src/server.rs` (web server), `src/linux_device_management.rs`
  (interface control) and `src/errors.rs` (errors are a plain datatype).
  Serde serialisation and the NetJSON shape are left out too.
- The `println!` of the decoded Beacon in `parse_body` is output only.
  The model keeps the decoded Beacon in the header's `info` field instead.
- A panic while decoding a Beacon body is `TruncatedBody` for that one
  frame, rather than the end of the process.
- Text:
  - SSID and country strings are kept as their UTF-8 bytes;
  - `from_utf8` is modelled as a well-formedness predicate following
    RFC 3629, with no decoding to code points;
  - `to_lowercase` is modelled on ASCII letters only.
- Vendors.LineRule: `split_at(6)` panics when byte 6 is not a character
  boundary. The model counts characters, and a first field holding
  `base 16` always has at least seven, so the model never panics there.
- Vendors.Lookup: requires a MAC with at least three `:`-separated groups.
  The source panics on shorter strings, and the mapper's methods carry the
  same requirement as `LookupsDefined`.
- Mapper.Mapper.Map: requires `LookupsDefined`, for the same reason. A WDS
  Beacon for an unknown BSSID is such a panic (`Mapper.WdsBeaconHasNoKey`).
- `src/main.rs` calls `map` with two arguments where `src/mapper.rs` takes
  three. The model follows `mapper.rs`.
