/** `src/dot11.rs`: the 802.11 MAC header decoder. The first frame-control
    octet holds protocol version, type and subtype and the second eight
    flags (section 9.2.4.1 of IEEE Std 802.11-2016); three address fields
    follow, formatted as `xx:xx:xx:xx:xx:xx`; the DS flags decide which of
    them is destination, source and BSSID. A Beacon also has its body
    decoded by `Info`. */
module Dot11 {
  import opened Common
  import opened Util
  import opened Text
  import Info

  datatype FrameType = Management | Control | Data | Unknown

  /** The subtypes the decoder names, plus `Data`, `QoS` and `NullData`, which
      the mapper tests for but which `FrameSubtypeOf` never produces. */
  datatype FrameSubType =
    | AssoReq | AssoResp | ReassoReq | ReassoResp | ProbeReq | ProbeResp
    | Beacon | Atim | Disasso | Auth | Deauth | Unknown
    | Data | QoS | NullData

  datatype FrameControl = FrameControl(
    frameType: FrameType, frameSubtype: FrameSubType,
    toDs: bool, fromDs: bool, moreFlag: bool, retry: bool,
    pwrMgmt: bool, moreData: bool, wep: bool, order: bool)

  datatype DecodeError =
    | UnsupportedProtocolVersion
    /** a body field ran past the end of the frame (the source panics) */
    | TruncatedBody

  // ---------------------------------------------------------------------------
  // Frame control

  function ProtocolVersion(packet: byte): (v: byte)
    ensures v as int == packet as int % 4
  {
    LowTwoBits(packet);
    packet & 0x03
  }

  lemma LowTwoBits(x: byte)
    ensures (x & 0x03) as int == x as int % 4
  {
    assert x & 0x03 == x % 4;
  }

  function TypeOfCode(code: nat): FrameType
  {
    match code
    case 0 => Management
    case 1 => Control
    case 2 => FrameType.Data
    case _ => FrameType.Unknown
  }

  function FrameTypeOf(packet: byte): (t: FrameType)
  {
    TypeOfCode(((packet & 0x0C) >> 2) as int)
  }

  /** The subtype table of `frame_subtype`. It is the table of management
      subtypes and is applied whatever the frame type. */
  function SubtypeOfCode(code: nat): FrameSubType
  {
    match code
    case 0 => AssoReq
    case 1 => AssoResp
    case 2 => ReassoReq
    case 3 => ReassoResp
    case 4 => ProbeReq
    case 5 => ProbeResp
    case 8 => Beacon
    case 9 => Atim
    case 10 => Disasso
    case 11 => Auth
    case 12 => Deauth
    case _ => FrameSubType.Unknown
  }

  function FrameSubtypeOf(packet: byte): (s: FrameSubType)
  {
    SubtypeOfCode(((packet & 0xF0) >> 4) as int)
  }

  /** `FrameControl::from_bytes`: fails exactly for a nonzero protocol version;
      otherwise type and subtype come from octet 0 and the flags are bits 0
      to 7 of octet 1. */
  function FrameControlFromBytes(input: seq<byte>): (r: Result<FrameControl, DecodeError>)
    requires |input| >= 2
    ensures r.Failure? <==> input[0] as int % 4 != 0
    ensures r.Failure? ==> r.error == UnsupportedProtocolVersion
  {
    var versionTypeSubtype, flags := input[0], input[1];
    if ProtocolVersion(versionTypeSubtype) != 0 then Failure(UnsupportedProtocolVersion)
    else Success(FrameControl(
      FrameTypeOf(versionTypeSubtype), FrameSubtypeOf(versionTypeSubtype),
      FlagIsSet(flags, 0), FlagIsSet(flags, 1), FlagIsSet(flags, 2), FlagIsSet(flags, 3),
      FlagIsSet(flags, 4), FlagIsSet(flags, 5), FlagIsSet(flags, 6), FlagIsSet(flags, 7)))
  }

  /** The frame type is the number in bits 2 and 3 of octet 0. */
  lemma FrameTypeIsBits2And3(packet: byte)
    ensures FrameTypeOf(packet) == TypeOfCode((packet as int / 4) % 4)
  {
    assert ((packet & 0x0C) >> 2) as int == (packet as int / 4) % 4;
  }

  /** The subtype is read from the high nibble alone, never from the type. */
  lemma FrameSubtypeIsHighNibble(packet: byte)
    ensures FrameSubtypeOf(packet) == SubtypeOfCode(packet as int / 16)
  {
    assert ((packet & 0xF0) >> 4) as int == packet as int / 16;
  }

  /** Exactly the codes 6, 7, 13, 14 and 15 have no name. */
  lemma UnknownSubtypeCodes(code: nat)
    requires code < 16
    ensures SubtypeOfCode(code) == FrameSubType.Unknown <==> code in {6, 7, 13, 14, 15}
  {
  }

  /** The decoder never yields the data subtypes the mapper dispatches on. */
  lemma NoDataSubtypeDecoded(packet: byte)
    ensures FrameSubtypeOf(packet) !in {FrameSubType.Data, QoS, NullData}
  {
  }

  /** The code of each named subtype: the partner of `SubtypeOfCode`. */
  function SubtypeCode(s: FrameSubType): (code: nat)
    requires s !in {FrameSubType.Unknown, FrameSubType.Data, QoS, NullData}
    ensures code < 16
  {
    match s
    case AssoReq => 0
    case AssoResp => 1
    case ReassoReq => 2
    case ReassoResp => 3
    case ProbeReq => 4
    case ProbeResp => 5
    case Beacon => 8
    case Atim => 9
    case Disasso => 10
    case Auth => 11
    case Deauth => 12
  }

  /** Every named subtype is decoded back from its code in the high nibble,
      whatever the low nibble holds. */
  lemma SubtypeCodeRoundTrip(s: FrameSubType, low: nat)
    requires s !in {FrameSubType.Unknown, FrameSubType.Data, QoS, NullData}
    requires low < 16
    ensures FrameSubtypeOf(OctetOf(SubtypeCode(s) * 16 + low)) == s
  {
    var p := OctetOf(SubtypeCode(s) * 16 + low);
    FrameSubtypeIsHighNibble(p);
    assert p as int / 16 == SubtypeCode(s);
  }

  /** `0x80` in octet 0 is a Management Beacon. */
  lemma BeaconOctet(flags: byte)
    ensures FrameControlFromBytes([0x80, flags]).Success?
    ensures FrameControlFromBytes([0x80, flags]).value.frameType == Management
    ensures FrameControlFromBytes([0x80, flags]).value.frameSubtype == Beacon
  {
  }

  /** The flags octet rebuilt from the eight decoded flags. */
  function FlagsOctet(fc: FrameControl): byte
  {
    (if fc.toDs then 0x01 else 0) | (if fc.fromDs then 0x02 else 0) |
    (if fc.moreFlag then 0x04 else 0) | (if fc.retry then 0x08 else 0) |
    (if fc.pwrMgmt then 0x10 else 0) | (if fc.moreData then 0x20 else 0) |
    (if fc.wep then 0x40 else 0) | (if fc.order then 0x80 else 0)
  }

  /** The eight flags lose nothing of octet 1: to_ds, from_ds, more_flag,
      retry, pwr_mgmt, more_data, wep and order are bits 0 to 7 in that order. */
  lemma FlagsRoundTrip(octet0: byte, octet1: byte)
    requires octet0 as int % 4 == 0
    ensures FlagsOctet(FrameControlFromBytes([octet0, octet1]).value) == octet1
  {
  }

  /** Decoding a rebuilt flags octet gives back the same eight flags. */
  lemma FlagsOctetRoundTrip(fc: FrameControl, octet0: byte)
    requires octet0 as int % 4 == 0
    ensures var d := FrameControlFromBytes([octet0, FlagsOctet(fc)]).value;
      d.toDs == fc.toDs && d.fromDs == fc.fromDs && d.moreFlag == fc.moreFlag && d.retry == fc.retry
      && d.pwrMgmt == fc.pwrMgmt && d.moreData == fc.moreData && d.wep == fc.wep && d.order == fc.order
  {
  }

  /** Octet 1 `0b11` sets to_ds and from_ds only; `0x00` sets no flag. */
  lemma FlagsExamples(octet0: byte)
    requires octet0 as int % 4 == 0
    ensures var d := FrameControlFromBytes([octet0, 0x03]).value;
      d.toDs && d.fromDs && !d.moreFlag && !d.retry && !d.pwrMgmt && !d.moreData && !d.wep && !d.order
    ensures var d := FrameControlFromBytes([octet0, 0x00]).value;
      !d.toDs && !d.fromDs && !d.moreFlag && !d.retry && !d.pwrMgmt && !d.moreData && !d.wep && !d.order
  {
  }

  // ---------------------------------------------------------------------------
  // MAC fields

  /** The six octets as two-digit lowercase hexadecimal groups. */
  function HexGroups(s: seq<byte>): (groups: seq<string>)
    requires |s| >= 6
    ensures |groups| == 6
    ensures forall i :: 0 <= i < 6 ==> groups[i] == Hex2(s[i])
  {
    seq(6, i requires 0 <= i < 6 => Hex2(s[i]))
  }

  /** `MACField::from_slice`: the first six octets, `{:02x}` each, joined by `:`. */
  function MacFieldFromSlice(s: seq<byte>): (addr: string)
    requires |s| >= 6
    ensures |addr| == 17
    ensures forall k :: 0 <= k < 5 ==> addr[3 * k + 2] == ':'
  {
    JoinPairs(HexGroups(s), ':');
    Join(HexGroups(s), ':')
  }

  /** Reads hexadecimal groups back into octets. */
  function ParseGroups(groups: seq<string>): (r: Option<seq<byte>>)
    ensures r.Some? ==> |r.value| == |groups|
  {
    if |groups| == 0 then Some([])
    else
      match (ParseHex2(groups[0]), ParseGroups(groups[1..]))
      case (Some(b), Some(rest)) => Some([b] + rest)
      case _ => None
  }

  /** Reads a formatted MAC field back into its six octets. */
  function ParseMacField(addr: string): (r: Option<seq<byte>>)
    ensures r.Some? ==> |r.value| == 6
  {
    var groups := Split(addr, ':');
    if |groups| != 6 then None else ParseGroups(groups)
  }

  /** The `:`-separated groups of a formatted MAC field are its six octets
      in hexadecimal. */
  lemma MacFieldGroups(s: seq<byte>)
    requires |s| >= 6
    ensures Split(MacFieldFromSlice(s), ':') == HexGroups(s)
  {
    forall i | 0 <= i < 6
      ensures ':' !in HexGroups(s)[i]
    {
      Hex2HasNoColon(s[i]);
    }
    SplitJoin(HexGroups(s), ':');
  }

  lemma {:induction false} ParseHexGroups(s: seq<byte>)
    ensures ParseGroups(seq(|s|, i requires 0 <= i < |s| => Hex2(s[i]))) == Some(s)
  {
    var groups := seq(|s|, i requires 0 <= i < |s| => Hex2(s[i]));
    if |s| > 0 {
      Hex2RoundTrip(s[0]);
      ParseHexGroups(s[1..]);
      assert groups[1..] == seq(|s[1..]|, i requires 0 <= i < |s[1..]| => Hex2(s[1..][i]));
      assert s == [s[0]] + s[1..];
    }
  }

  lemma MacFieldRoundTrip(s: seq<byte>)
    requires |s| >= 6
    ensures ParseMacField(MacFieldFromSlice(s)) == Some(s[..6])
  {
    MacFieldGroups(s);
    ParseHexGroups(s[..6]);
    assert HexGroups(s) == seq(6, i requires 0 <= i < 6 => Hex2(s[..6][i]));
  }

  /** Different addresses never print alike. */
  lemma MacFieldInjective(a: seq<byte>, b: seq<byte>)
    requires |a| >= 6 && |b| >= 6
    ensures MacFieldFromSlice(a) == MacFieldFromSlice(b) ==> a[..6] == b[..6]
  {
    MacFieldRoundTrip(a);
    MacFieldRoundTrip(b);
  }

  lemma MacFieldExample()
    ensures MacFieldFromSlice([0xde, 0xad, 0xbe, 0xef, 0x00, 0x01]) == "de:ad:be:ef:00:01"
  {
    ExampleGroups();
    ExampleJoin();
  }

  lemma ExampleGroups()
    ensures HexGroups([0xde, 0xad, 0xbe, 0xef, 0x00, 0x01]) == ["de", "ad", "be", "ef", "00", "01"]
  {
  }

  lemma ExampleJoin()
    ensures Join(["de", "ad", "be", "ef", "00", "01"], ':') == "de:ad:be:ef:00:01"
  {
    JoinSix("de", "ad", "be", "ef", "00", "01", ':');
  }

  /** Six groups joined: each followed by the separator, except the last. */
  lemma JoinSix(a: string, b: string, c: string, d: string, e: string, f: string, sep: char)
    ensures Join([a, b, c, d, e, f], sep) == a + ([sep] + (b + ([sep] + (c + ([sep] + (d + ([sep] + (e + ([sep] + f)))))))))
  {
    var g := [a, b, c, d, e, f];
    JoinStep(g, sep);
    JoinStep(g[1..], sep);
    JoinStep(g[2..], sep);
    JoinStep(g[3..], sep);
    JoinStep(g[4..], sep);
    assert g[5..] == [f];
  }

  lemma JoinStep(g: seq<string>, sep: char)
    requires |g| >= 2
    ensures Join(g, sep) == g[0] + ([sep] + Join(g[1..], sep))
  {
  }

  const ZeroMac: string := "00:00:00:00:00:00"

  lemma ZeroMacField(s: seq<byte>)
    requires |s| >= 6 && forall i :: 0 <= i < 6 ==> s[i] == 0
    ensures MacFieldFromSlice(s) == ZeroMac
  {
    var g := HexGroups(s);
    assert Hex2(0) == "00";
    assert g == ["00", "00", "00", "00", "00", "00"];
    JoinSix("00", "00", "00", "00", "00", "00", ':');
  }

  // ---------------------------------------------------------------------------
  // Reading into pre-zeroed buffers

  /** What `Read::read` leaves in a zeroed buffer of `n` bytes when the
      reader stands at `pos`: the remaining input, then zeros. */
  function Padded(input: seq<byte>, pos: nat, n: nat): (r: seq<byte>)
    ensures |r| == n
  {
    seq(n, i requires 0 <= i < n => if pos + i < |input| then input[pos + i] else 0)
  }

  /** `reader.read(&mut buf)` on a zeroed buffer: copies as many bytes as
      remain, at most the buffer's length, and returns the new position. */
  method ReadInto(input: seq<byte>, pos: nat, buf: array<byte>) returns (next: nat)
    requires pos <= |input|
    requires forall i :: 0 <= i < buf.Length ==> buf[i] == 0
    modifies buf
    ensures buf[..] == Padded(input, pos, buf.Length)
    ensures next == Min(|input|, pos + buf.Length)
  {
    var n := Min(|input| - pos, buf.Length);
    var i := 0;
    while i < n
      invariant 0 <= i <= n
      invariant forall j :: 0 <= j < i ==> buf[j] == input[pos + j]
      invariant forall j :: i <= j < buf.Length ==> buf[j] == 0
    {
      buf[i] := input[pos + i];
      i := i + 1;
    }
    next := pos + n;
  }

  /** A reader that ran dry reads zeros, as a reader further on would. */
  lemma PaddedFromClamped(input: seq<byte>, k: nat, n: nat)
    ensures Padded(input, Min(|input|, k), n) == Padded(input, k, n)
  {
  }

  /** One `let mut field = [0; n]; reader.read(&mut field)` step, with the
      reader's position given as the number of bytes it has been asked for
      so far (`asked`): the field is read zero-padded from there. */
  method ReadField(input: seq<byte>, asked: nat, n: nat) returns (field: seq<byte>, next: nat)
    ensures field == Padded(input, asked, n)
    ensures next == asked + n
  {
    var buf := new byte[n](_ => 0);
    PaddedFromClamped(input, asked, n);
    var _ := ReadInto(input, Min(|input|, asked), buf);
    field := buf[..];
    next := asked + n;
  }

  // ---------------------------------------------------------------------------
  // Addresses

  datatype FrameAddresses = FrameAddresses(addr1: string, addr2: string, addr3: string, addr4: string)

  /** `FrameAddresses::from_bytes`: three 6-byte addresses, a 2-byte sequence
      control, then a fourth address, each read zero-padded. */
  function AddressesOf(block: seq<byte>): (r: FrameAddresses)
  {
    FrameAddresses(MacFieldFromSlice(Padded(block, 0, 6)), MacFieldFromSlice(Padded(block, 6, 6)),
                   MacFieldFromSlice(Padded(block, 12, 6)), MacFieldFromSlice(Padded(block, 20, 6)))
  }

  method FrameAddressesFromBytes(s: seq<byte>) returns (r: FrameAddresses)
    ensures r == AddressesOf(s)
  {
    var pos := 0;
    var macAddr1, seqCtl, macAddr2, macAddr3, macAddr4;
    macAddr1, pos := ReadField(s, pos, 6);
    var addr1 := MacFieldFromSlice(macAddr1);
    macAddr2, pos := ReadField(s, pos, 6);
    var addr2 := MacFieldFromSlice(macAddr2);
    macAddr3, pos := ReadField(s, pos, 6);
    var addr3 := MacFieldFromSlice(macAddr3);
    seqCtl, pos := ReadField(s, pos, 2);
    macAddr4, pos := ReadField(s, pos, 6);
    var addr4 := MacFieldFromSlice(macAddr4);
    return FrameAddresses(addr1, addr2, addr3, addr4);
  }

  /** The header hands `FrameAddresses::from_bytes` only its 18 address
      bytes, so the fourth address always reads as all zeros. */
  lemma FourthAddressIsZero(block: seq<byte>)
    requires |block| <= 18
    ensures AddressesOf(block).addr4 == ZeroMac
  {
    ZeroMacField(Padded(block, 20, 6));
  }

  /** The (dst, src, bssid) choice of `parse_address`, as the code makes it. */
  function AddressTable(toDs: bool, fromDs: bool, a: FrameAddresses): (string, string, string)
  {
    if toDs && fromDs then (a.addr3, a.addr4, "")
    else if toDs then (a.addr2, a.addr3, a.addr1)
    else if fromDs then (a.addr3, a.addr1, a.addr2)
    else (a.addr1, a.addr2, a.addr3)
  }

  /** The address roles of section 9.3.2.1 of IEEE Std 802.11-2016 for
      non-mesh frames: destination, source and BSSID, with no BSSID when both
      DS flags are set. */
  function StandardAddressRoles(toDs: bool, fromDs: bool, a: FrameAddresses): (string, string, string)
  {
    if !toDs && !fromDs then (a.addr1, a.addr2, a.addr3)
    else if !toDs && fromDs then (a.addr1, a.addr3, a.addr2)
    else if toDs && !fromDs then (a.addr3, a.addr2, a.addr1)
    else (a.addr3, a.addr4, "")
  }

  /** The code agrees with the standard when both DS flags are equal; with
      exactly one set it reports destination and source swapped. */
  lemma AddressTableAgainstStandard(toDs: bool, fromDs: bool, a: FrameAddresses)
    ensures var (dst, src, bssid) := AddressTable(toDs, fromDs, a);
      var (sdst, ssrc, sbssid) := StandardAddressRoles(toDs, fromDs, a);
      bssid == sbssid && (if toDs == fromDs then dst == sdst && src == ssrc else dst == ssrc && src == sdst)
  {
  }

  /** `parse_address`: starts from three empty strings and appends the chosen
      address to each. */
  method ParseAddress(frameControl: FrameControl, input: seq<byte>) returns (dst: string, src: string, bssid: string)
    ensures (dst, src, bssid) == AddressTable(frameControl.toDs, frameControl.fromDs, AddressesOf(input))
  {
    dst, src, bssid := "", "", "";
    var addresses := FrameAddressesFromBytes(input);
    assert forall a: string :: "" + a == a;
    if frameControl.toDs && frameControl.fromDs {
      dst := dst + addresses.addr3;
      src := src + addresses.addr4;
    } else if frameControl.toDs {
      dst := dst + addresses.addr2;
      src := src + addresses.addr3;
      bssid := bssid + addresses.addr1;
    } else if frameControl.fromDs {
      dst := dst + addresses.addr3;
      src := src + addresses.addr1;
      bssid := bssid + addresses.addr2;
    } else {
      dst := dst + addresses.addr1;
      src := src + addresses.addr2;
      bssid := bssid + addresses.addr3;
    }
  }

  // ---------------------------------------------------------------------------
  // The whole header

  datatype Dot11Header = Dot11Header(
    frameControl: FrameControl, duration: seq<byte>,
    dst: string, src: string, bssid: string,
    seqCtl: seq<byte>, info: Info.BodyInformation)

  function Wrap<T>(r: Option<T>, f: T -> Info.BodyInformation): Option<Info.BodyInformation>
  {
    match r
    case None => None
    case Some(v) => Some(f(v))
  }

  /** `parse_body`: only a Management Beacon has its body decoded; every
      other frame, whatever its body holds, carries `Unhandled`. `None` when
      the Beacon parser runs out of bytes. */
  function BodyOf(fc: FrameControl, body: seq<byte>): (r: Option<Info.BodyInformation>)
    ensures !IsBeacon(fc) ==> r == Some(Info.Unhandled)
    ensures IsBeacon(fc) ==> (r.None? <==> Info.BeaconOf(body).None?)
    ensures r.Some? && r.value != Info.Unhandled ==> IsBeacon(fc) && r == Some(Info.BeaconBody(Info.BeaconOf(body).value))
  {
    if IsBeacon(fc) then Wrap(Info.BeaconOf(body), b => Info.BeaconBody(b))
    else Some(Info.Unhandled)
  }

  predicate IsBeacon(fc: FrameControl)
  {
    fc.frameType == Management && fc.frameSubtype == Beacon
  }

  method ParseBody(fc: FrameControl, body: seq<byte>) returns (r: Option<Info.BodyInformation>)
    ensures r == BodyOf(fc, body)
  {
    if fc.frameType == Management && fc.frameSubtype == Beacon {
      var b := Info.ParseBeacon(body);
      if b.None? { return None; }
      return Some(Info.BeaconBody(b.value));
    }
    return Some(Info.Unhandled);
  }

  /** `Dot11Header::from_bytes`: frame control (octets 0-1), duration (2-3),
      18 bytes of addresses (4-21), sequence control (22-23), all read into
      zeroed buffers, then the body is everything after octet 23. */
  function HeaderOf(input: seq<byte>): (r: Result<Dot11Header, DecodeError>)
  {
    match FrameControlFromBytes(Padded(input, 0, 2))
    case Failure(e) => Failure(e)
    case Success(fc) => HeaderAfterControl(fc, input)
  }

  /** The rest of `Dot11Header::from_bytes` once the frame control is known. */
  function HeaderAfterControl(fc: FrameControl, input: seq<byte>): (r: Result<Dot11Header, DecodeError>)
  {
    var (dst, src, bssid) := AddressTable(fc.toDs, fc.fromDs, AddressesOf(Padded(input, 4, 18)));
    match BodyOf(fc, BodyBytes(input))
    case None => Failure(TruncatedBody)
    case Some(info) => Success(Dot11Header(fc, Padded(input, 2, 2), dst, src, bssid, Padded(input, 22, 2), info))
  }

  /** What `io::copy` drains from the reader after the 24 header octets. */
  function BodyBytes(input: seq<byte>): (body: seq<byte>)
  {
    if |input| >= 24 then input[24..] else []
  }

  method DecodeHeader(input: seq<byte>) returns (r: Result<Dot11Header, DecodeError>)
    ensures r == HeaderOf(input)
  {
    // the reader now stands at octet 2, where DecodeAfterControl resumes
    var control, _ := ReadField(input, 0, 2);
    var frameControl := FrameControlFromBytes(control);
    if frameControl.Failure? { return Failure(frameControl.error); }
    r := DecodeAfterControl(frameControl.value, input);
  }

  method DecodeAfterControl(fc: FrameControl, input: seq<byte>) returns (r: Result<Dot11Header, DecodeError>)
    ensures r == HeaderAfterControl(fc, input)
  {
    var pos := 2;
    var duration, macAddresses, seqCtl;
    duration, pos := ReadField(input, pos, 2);
    macAddresses, pos := ReadField(input, pos, 18);
    var dst, src, bssid := ParseAddress(fc, macAddresses);
    seqCtl, pos := ReadField(input, pos, 2);
    // io::copy of whatever the reader has left
    var body := if pos <= |input| then input[pos..] else [];
    var info := ParseBody(fc, body);
    if info.None? { return Failure(TruncatedBody); }
    return Success(Dot11Header(fc, duration, dst, src, bssid, seqCtl, info.value));
  }

  // ---------------------------------------------------------------------------
  // Properties of the header decoder

  /** The only version error is a nonzero version in octet 0; an empty frame
      reads as version 0. */
  lemma HeaderVersionCheck(input: seq<byte>)
    ensures HeaderOf(input) == Failure(UnsupportedProtocolVersion)
      <==> |input| >= 1 && input[0] as int % 4 != 0
  {
    assert |input| >= 1 ==> Padded(input, 0, 2)[0] == input[0];
  }

  /** Only a Beacon can fail on its body; any other frame with protocol
      version 0 decodes, whatever its body holds. */
  lemma HeaderTruncatedOnlyForBeacons(input: seq<byte>)
    requires FrameControlFromBytes(Padded(input, 0, 2)).Success?
    ensures var fc := FrameControlFromBytes(Padded(input, 0, 2)).value;
      && (HeaderOf(input).Failure? <==> IsBeacon(fc) && Info.BeaconOf(BodyBytes(input)).None?)
      && (HeaderOf(input).Failure? ==> HeaderOf(input).error == TruncatedBody)
  {
  }

  /** Frames other than Beacons carry no decoded body; a Beacon carries the
      Beacon its body decodes to. */
  lemma OnlyBeaconsCarryBody(input: seq<byte>)
    requires HeaderOf(input).Success?
    ensures var h := HeaderOf(input).value;
      && (!IsBeacon(h.frameControl) ==> h.info == Info.Unhandled)
      && (IsBeacon(h.frameControl) ==> h.info == Info.BeaconBody(Info.BeaconOf(BodyBytes(input)).value))
  {
  }

  /** With a full 24-octet header the fields are the octets at their offsets:
      duration 2-3, addresses 4-9, 10-15 and 16-21, sequence control 22-23;
      the body starts at octet 24. */
  lemma HeaderLayout(input: seq<byte>)
    requires |input| >= 24
    requires HeaderOf(input).Success?
    ensures var h := HeaderOf(input).value;
      var a := FrameAddresses(MacFieldFromSlice(input[4..10]), MacFieldFromSlice(input[10..16]),
                              MacFieldFromSlice(input[16..22]), ZeroMac);
      && h.frameControl == FrameControlFromBytes(input[..2]).value
      && h.duration == input[2..4]
      && h.seqCtl == input[22..24]
      && (h.dst, h.src, h.bssid) == AddressTable(h.frameControl.toDs, h.frameControl.fromDs, a)
      && BodyOf(h.frameControl, input[24..]) == Some(h.info)
  {
    PaddedWithin(input, 0, 2);
    assert input[0..2] == input[..2];
    HeaderAfterControlLayout(FrameControlFromBytes(input[..2]).value, input);
  }

  /** `HeaderAfterControl` on a full header reads its fields from their offsets. */
  lemma HeaderAfterControlLayout(fc: FrameControl, input: seq<byte>)
    requires |input| >= 24
    requires HeaderAfterControl(fc, input).Success?
    ensures var h := HeaderAfterControl(fc, input).value;
      var a := FrameAddresses(MacFieldFromSlice(input[4..10]), MacFieldFromSlice(input[10..16]),
                              MacFieldFromSlice(input[16..22]), ZeroMac);
      && h.frameControl == fc
      && h.duration == input[2..4]
      && h.seqCtl == input[22..24]
      && (h.dst, h.src, h.bssid) == AddressTable(fc.toDs, fc.fromDs, a)
      && BodyOf(fc, input[24..]) == Some(h.info)
  {
    PaddedWithin(input, 2, 2);
    PaddedWithin(input, 22, 2);
    AddressesOfFullBlock(input);
  }

  /** Reading within the input reads the input. */
  lemma PaddedWithin(input: seq<byte>, pos: nat, n: nat)
    requires pos + n <= |input|
    ensures Padded(input, pos, n) == input[pos..pos + n]
  {
  }

  /** The address block of a full header, read from octets 4 to 21. */
  lemma AddressesOfFullBlock(input: seq<byte>)
    requires |input| >= 24
    ensures AddressesOf(Padded(input, 4, 18))
      == FrameAddresses(MacFieldFromSlice(input[4..10]), MacFieldFromSlice(input[10..16]),
                        MacFieldFromSlice(input[16..22]), ZeroMac)
  {
    var block := Padded(input, 4, 18);
    assert Padded(block, 0, 6) == input[4..10];
    assert Padded(block, 6, 6) == input[10..16];
    assert Padded(block, 12, 6) == input[16..22];
    FourthAddressIsZero(block);
  }

  /** A frame with both DS flags set (a WDS frame) has no BSSID and, since
      the fourth address is never read, an all-zero source; every other frame
      has a BSSID. */
  lemma WdsFrameAddresses(input: seq<byte>)
    requires HeaderOf(input).Success?
    ensures var h := HeaderOf(input).value;
      (h.bssid == "" <==> h.frameControl.toDs && h.frameControl.fromDs)
      && (h.frameControl.toDs && h.frameControl.fromDs ==> h.src == ZeroMac)
  {
    FourthAddressIsZero(Padded(input, 4, 18));
  }

  /** A Beacon header with no body fails instead of decoding. */
  lemma BareBeaconIsTruncated(input: seq<byte>)
    requires |input| == 24 && input[0] == 0x80
    ensures HeaderOf(input) == Failure(TruncatedBody)
  {
    BeaconOctet(input[1]);
    assert Padded(input, 0, 2) == [0x80, input[1]];
  }
}
