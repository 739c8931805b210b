/** `src/info.rs`: the management-frame body parser. Fixed little-endian
    fields come first, then tagged elements (id, length, value): the SSID
    element (section 9.4.2.2 of IEEE Std 802.11-2016), the Supported Rates
    element (9.4.2.3) and a scan for the Country element (9.4.2.9).

    The source reads through a `bytes` cursor whose `get_u8`, `get_u16_le`,
    `get_u64_le`, `advance` and `split_to` panic when too few bytes remain;
    here each such panic is `None`. Every parser is a method that moves a
    cursor position step by step, proved equal to a function that states the
    layout. Rates are natural numbers in units of 0.5 Mbps. */
module Info {
  import opened Common
  import opened Text

  datatype Ssid = Ssid(elementId: byte, ssidLen: nat, value: seq<byte>)

  /** The country code as UTF-8 bytes; empty when absent or not UTF-8. */
  datatype Country = Country(countryCode: seq<byte>)

  const DefaultCountry := Country([])

  datatype Beacon = Beacon(timestamp: nat, interval: nat, capInfo: nat, ssid: Ssid,
                           supportedRates: seq<nat>, country: Country, currentChannel: u8)

  datatype ProbeRequest = ProbeRequest(ssid: Ssid, supportedRates: seq<nat>)

  datatype ProbeResponse = ProbeResponse(timestamp: nat, interval: nat, capInfo: nat, ssid: Ssid,
                                         supportedRates: seq<nat>, country: Country)

  datatype AssociationRequest = AssociationRequest(capInfo: nat, interval: nat, ssid: Ssid,
                                                   supportedRates: seq<nat>)

  datatype AssociationResponse = AssociationResponse(capInfo: nat, statusCode: nat, associationId: nat,
                                                     supportedRates: seq<nat>)

  datatype BodyInformation =
    | BeaconBody(beacon: Beacon)
    | ProbeRequestBody(probeRequest: ProbeRequest)
    | ProbeResponseBody(probeResponse: ProbeResponse)
    | AssociationRequestBody(associationRequest: AssociationRequest)
    | AssociationResponseBody(associationResponse: AssociationResponse)
    | Unhandled

  // ---------------------------------------------------------------------------
  // Little-endian fixed fields

  function Pow256(n: nat): (r: nat)
    ensures r >= 1
  {
    if n == 0 then 1 else 256 * Pow256(n - 1)
  }

  /** The unsigned little-endian number held in `b` (`get_u16_le`, `get_u64_le`). */
  function LittleEndian(b: seq<byte>): (r: nat)
    ensures r < Pow256(|b|)
  {
    if |b| == 0 then 0 else b[0] as int + 256 * LittleEndian(b[1..])
  }

  /** The `n` little-endian octets of `x`: the partner of `LittleEndian`. */
  function ToLittleEndian(x: nat, n: nat): (b: seq<byte>)
    requires x < Pow256(n)
    ensures |b| == n
  {
    if n == 0 then [] else [OctetOf(x % 256)] + ToLittleEndian(x / 256, n - 1)
  }

  lemma {:induction false} LittleEndianRoundTrip(x: nat, n: nat)
    requires x < Pow256(n)
    ensures LittleEndian(ToLittleEndian(x, n)) == x
  {
    if n > 0 {
      var b := ToLittleEndian(x, n);
      assert b[0] as int == x % 256;
      assert b[1..] == ToLittleEndian(x / 256, n - 1);
      LittleEndianRoundTrip(x / 256, n - 1);
      assert LittleEndian(b) == x % 256 + 256 * (x / 256);
    }
  }

  lemma DigitSplit(lo: int, hi: nat)
    requires 0 <= lo < 256
    ensures (lo + 256 * hi) % 256 == lo && (lo + 256 * hi) / 256 == hi
  {
  }

  lemma {:induction false} ToLittleEndianRoundTrip(b: seq<byte>)
    ensures ToLittleEndian(LittleEndian(b), |b|) == b
  {
    if |b| > 0 {
      var x := LittleEndian(b);
      var rest := LittleEndian(b[1..]);
      assert x == b[0] as int + 256 * rest;
      DigitSplit(b[0] as int, rest);
      OctetOfValue(b[0]);
      ToLittleEndianRoundTrip(b[1..]);
    }
  }

  // ---------------------------------------------------------------------------
  // Supported rates

  /** The fixed code table of `supported_rates`, in units of 0.5 Mbps;
      `None` for a code the table does not list. */
  function RateOf(code: byte): (r: Option<nat>)
  {
    match code
    case 0x82 => Some(2)    // 1.0 Mbps
    case 0x84 => Some(4)    // 2.0
    case 0x8b => Some(11)   // 5.5
    case 0x0c => Some(12)   // 6.0
    case 0x12 => Some(18)   // 9.0
    case 0x96 => Some(22)   // 11.0
    case 0x18 => Some(24)   // 12.0
    case 0x24 => Some(36)   // 18.0
    case 0x2c => Some(44)   // 22.0
    case 0x30 => Some(48)   // 24.0
    case 0x42 => Some(66)   // 33.0
    case 0x48 => Some(72)   // 36.0
    case 0x60 => Some(96)   // 48.0
    case 0x6c => Some(108)  // 54.0
    case _ => None
  }

  /** The table lists exactly the fourteen basic and extended rates, and each
      rate is its code with the basic-rate bit (0x80) cleared. */
  lemma RateTable(code: byte)
    ensures RateOf(code).Some? <==> code in {0x82, 0x84, 0x8b, 0x0c, 0x12, 0x96, 0x18, 0x24, 0x2c, 0x30, 0x42, 0x48, 0x60, 0x6c}
    ensures RateOf(code).Some? ==> RateOf(code).value == (code & 0x7F) as int
  {
  }

  /** The recognised codes of `codes`, in order, each mapped through the table. */
  function DecodeRates(codes: seq<byte>): (r: seq<nat>)
    ensures |r| <= |codes|
  {
    if |codes| == 0 then []
    else
      match RateOf(codes[0])
      case Some(rate) => [rate] + DecodeRates(codes[1..])
      case None => DecodeRates(codes[1..])
  }

  lemma {:induction false} DecodeRatesAppend(a: seq<byte>, b: seq<byte>)
    ensures DecodeRates(a + b) == DecodeRates(a) + DecodeRates(b)
  {
    if |a| > 0 {
      assert (a + b)[1..] == a[1..] + b;
      DecodeRatesAppend(a[1..], b);
    } else {
      assert a + b == b;
    }
  }

  /** No code is lost exactly when every code is in the table. */
  lemma {:induction false} DecodeRatesKeepsAllIffRecognised(codes: seq<byte>)
    ensures |DecodeRates(codes)| == |codes| <==> forall i :: 0 <= i < |codes| ==> RateOf(codes[i]).Some?
  {
    if |codes| > 0 {
      DecodeRatesKeepsAllIffRecognised(codes[1..]);
      assert forall i :: 1 <= i < |codes| ==> codes[i] == codes[1..][i - 1];
    }
  }

  /** Every decoded rate is the rate of some declared code. */
  lemma {:induction false} DecodeRatesFromCodes(codes: seq<byte>, k: nat)
    requires k < |DecodeRates(codes)|
    ensures exists i :: 0 <= i < |codes| && RateOf(codes[i]) == Some(DecodeRates(codes)[k])
  {
    var r := DecodeRates(codes);
    match RateOf(codes[0])
    case Some(rate) =>
      if k > 0 {
        DecodeRatesFromCodes(codes[1..], k - 1);
        var i :| 0 <= i < |codes[1..]| && RateOf(codes[1..][i]) == Some(DecodeRates(codes[1..])[k - 1]);
        assert codes[i + 1] == codes[1..][i];
      }
    case None =>
      DecodeRatesFromCodes(codes[1..], k);
      var i :| 0 <= i < |codes[1..]| && RateOf(codes[1..][i]) == Some(DecodeRates(codes[1..])[k]);
      assert codes[i + 1] == codes[1..][i];
  }

  /** `supported_rates(input)`: byte 0 (the element id) is ignored, byte 1 is
      the declared count `n`, and the next `n` bytes are decoded; `None` when
      fewer bytes are present than `get_u8` is asked for. */
  function SupportedRatesOf(input: seq<byte>): (r: Option<seq<nat>>)
    ensures r.Some? ==> |input| >= 2 && 2 + input[1] as int <= |input| && |r.value| <= input[1] as int
  {
    if |input| < 2 || |input| - 2 < input[1] as int then None
    else Some(DecodeRates(input[2..2 + input[1] as int]))
  }

  method SupportedRates(input: seq<byte>) returns (r: Option<seq<nat>>)
    ensures r == SupportedRatesOf(input)
  {
    var pos := 0;
    if |input| - pos < 1 { return None; }
    pos := pos + 1;  // element id, unused
    if |input| - pos < 1 { return None; }
    var numberOfRates := input[pos];
    pos := pos + 1;
    var rates: seq<nat> := [];
    var x := 0;
    while x < numberOfRates as int
      invariant 0 <= x <= numberOfRates as int
      invariant pos == 2 + x <= |input|
      invariant rates == DecodeRates(input[2..pos])
    {
      if |input| - pos < 1 { return None; }
      var rate := input[pos];
      DecodeRatesAppend(input[2..pos], [rate]);
      assert input[2..pos + 1] == input[2..pos] + [rate];
      pos := pos + 1;
      match RateOf(rate) {
        case Some(v) => rates := rates + [v];
        case None =>
      }
      x := x + 1;
    }
    return Some(rates);
  }

  // ---------------------------------------------------------------------------
  // SSID and Country elements

  /** `SSID::from_bytes`: id, length, then `length` bytes of text; `None` when
      the bytes run out (the source panics there). */
  function SsidOf(input: seq<byte>): (r: Option<Ssid>)
    ensures r.Some? ==> 2 + r.value.ssidLen <= |input| && r.value.ssidLen == input[1] as int
  {
    if |input| < 2 || |input| - 2 < input[1] as int then None
    else Some(Ssid(input[0], input[1] as int, Utf8OrEmpty(input[2..2 + input[1] as int])))
  }

  method ParseSsid(input: seq<byte>) returns (r: Option<Ssid>)
    ensures r == SsidOf(input)
  {
    var pos := 0;
    if |input| - pos < 1 { return None; }
    var elementId := input[pos];
    pos := pos + 1;
    if |input| - pos < 1 { return None; }
    var ssidLen := input[pos] as int;
    pos := pos + 1;
    if ssidLen > |input| - pos { return None; }
    var text := input[pos..pos + ssidLen];
    assert pos == 2 && ssidLen == input[1] as int;
    assert SsidOf(input) == Some(Ssid(elementId, ssidLen, Utf8OrEmpty(text)));
    return Some(Ssid(elementId, ssidLen, Utf8OrEmpty(text)));
  }

  /** `Country::from_bytes`: the first three bytes are the code; `None` when
      fewer than three remain. */
  function CountryFromBytes(input: seq<byte>): (r: Option<Country>)
    ensures r.Some? <==> |input| >= 3
    ensures r.Some? ==> r.value.countryCode == input[..3] || r.value.countryCode == []
  {
    if |input| < 3 then None else Some(Country(Utf8OrEmpty(input[..3])))
  }

  /** Element ids that `get_country` steps over by their declared length. */
  predicate IsSkippedElement(id: byte)
  {
    (0x02 <= id <= 0x06) || (0x32 <= id <= 0x42)
  }

  /** `get_country`: walk elements from the start of `input`, stepping over
      the skipped ids; id 7 decodes the Country element, any other id ends
      the scan with the empty default. `None` where the cursor panics. */
  function CountryScan(input: seq<byte>): (r: Option<Country>)
    decreases |input|
  {
    if |input| < 2 then None
    else
      var id, len := input[0], input[1] as int;
      if IsSkippedElement(id) then
        if len > |input| - 2 then None else CountryScan(input[2 + len..])
      else if id == 7 then CountryFromBytes(input[2..])
      else Some(DefaultCountry)
  }

  method GetCountry(input: seq<byte>) returns (r: Option<Country>)
    ensures r == CountryScan(input)
  {
    var pos := 0;
    while true
      invariant pos <= |input|
      invariant CountryScan(input[pos..]) == CountryScan(input)
      decreases |input| - pos
    {
      if |input| - pos < 1 { return None; }
      var elementId := input[pos];
      pos := pos + 1;
      if |input| - pos < 1 { return None; }
      var len := input[pos] as int;
      pos := pos + 1;
      if IsSkippedElement(elementId) {
        if len > |input| - pos { return None; }
        assert input[pos - 2..][2 + len..] == input[pos + len..];
        pos := pos + len;
      } else if elementId == 7 {
        assert input[pos - 2..][2..] == input[pos..];
        return CountryFromBytes(input[pos..]);
      } else {
        return Some(DefaultCountry);
      }
    }
  }

  /** A tagged element as it appears on the air. */
  datatype Element = Element(id: byte, body: seq<byte>)

  /** The octets of one element: id, length, body. */
  function ElementBytes(id: byte, body: seq<byte>): (r: seq<byte>)
    requires |body| < 256
    ensures |r| == |body| + 2
  {
    [id, OctetOf(|body|)] + body
  }

  function EncodeElements(elems: seq<Element>): (r: seq<byte>)
    requires forall i :: 0 <= i < |elems| ==> |elems[i].body| < 256
  {
    if |elems| == 0 then []
    else ElementBytes(elems[0].id, elems[0].body) + EncodeElements(elems[1..])
  }

  /** The scan steps over one skipped element by its length. */
  lemma ScanSkipsElement(id: byte, body: seq<byte>, rest: seq<byte>)
    requires |body| < 256 && IsSkippedElement(id)
    ensures CountryScan(ElementBytes(id, body) + rest) == CountryScan(rest)
  {
    var s := ElementBytes(id, body) + rest;
    assert s[0] == id && s[1] as int == |body|;
    assert s[2 + |body|..] == rest;
  }

  /** Skipped elements in front of a Country element do not hide it: the scan
      steps over each by its length and decodes the country. */
  lemma {:induction false} CountryScanFindsCountry(elems: seq<Element>, len: byte, body: seq<byte>)
    requires forall i :: 0 <= i < |elems| ==> |elems[i].body| < 256 && IsSkippedElement(elems[i].id)
    requires |body| >= 3
    ensures CountryScan(EncodeElements(elems) + ([7, len] + body)) == Some(Country(Utf8OrEmpty(body[..3])))
  {
    var tail := [7, len] + body;
    if |elems| == 0 {
      assert EncodeElements(elems) + tail == tail;
      assert tail[2..] == body;
    } else {
      var e := elems[0];
      var rest := EncodeElements(elems[1..]) + tail;
      assert EncodeElements(elems) + tail == ElementBytes(e.id, e.body) + rest;
      ScanSkipsElement(e.id, e.body, rest);
      CountryScanFindsCountry(elems[1..], len, body);
    }
  }

  /** A body made only of skipped elements runs the cursor dry: `get_u8`
      panics after the last one. */
  lemma {:induction false} CountryScanExhausts(elems: seq<Element>)
    requires forall i :: 0 <= i < |elems| ==> |elems[i].body| < 256 && IsSkippedElement(elems[i].id)
    ensures CountryScan(EncodeElements(elems)) == None
  {
    if |elems| > 0 {
      ScanSkipsElement(elems[0].id, elems[0].body, EncodeElements(elems[1..]));
      CountryScanExhausts(elems[1..]);
    }
  }

  // ---------------------------------------------------------------------------
  // Frame bodies

  /** The three elements a Beacon or ProbeResponse decodes after its fixed fields. */
  datatype BeaconElements = BeaconElements(ssid: Ssid, rates: seq<nat>, country: Country)

  /** The elements part of `Beacon::from_bytes`, from octet 12: the SSID
      element; the rates element; then the country scan. The cursor steps
      over the rates element by the number of RECOGNISED rates plus 2, not by
      its declared length. */
  function BeaconElementsOf(body: seq<byte>): (r: Option<BeaconElements>)
  {
    match SsidOf(body)
    case None => None
    case Some(ssid) =>
      var p := ssid.ssidLen + 2;
      match SupportedRatesOf(body[p..])
      case None => None
      case Some(rates) =>
        var q := p + |rates| + 2;
        match CountryScan(body[q..])
        case None => None
        case Some(country) => Some(BeaconElements(ssid, rates, country))
  }

  /** `Beacon::from_bytes`: timestamp (8 bytes), beacon interval (2) and
      capability information (2), little-endian, then the elements. The
      current channel is not decoded and stays 0. */
  function BeaconOf(input: seq<byte>): (r: Option<Beacon>)
  {
    if |input| < 12 then None
    else
      match BeaconElementsOf(input[12..])
      case None => None
      case Some(e) =>
        Some(Beacon(LittleEndian(input[0..8]), LittleEndian(input[8..10]), LittleEndian(input[10..12]),
                    e.ssid, e.rates, e.country, 0))
  }

  method ParseBeacon(input: seq<byte>) returns (r: Option<Beacon>)
    ensures r == BeaconOf(input)
  {
    var pos := 0;
    if |input| - pos < 8 { return None; }
    var timestamp := LittleEndian(input[pos..pos + 8]);
    pos := pos + 8;
    if |input| - pos < 2 { return None; }
    var interval := LittleEndian(input[pos..pos + 2]);
    pos := pos + 2;
    if |input| - pos < 2 { return None; }
    var capInfo := LittleEndian(input[pos..pos + 2]);
    pos := pos + 2;
    assert pos == 12;
    var elements := ParseBeaconElements(input[pos..]);
    if elements.None? { return None; }
    var e := elements.value;
    assert BeaconOf(input) == Some(Beacon(timestamp, interval, capInfo, e.ssid, e.rates, e.country, 0));
    return Some(Beacon(timestamp, interval, capInfo, e.ssid, e.rates, e.country, 0));
  }

  /** The element reads shared by `Beacon::from_bytes` and
      `ProbeResponse::from_bytes`, with the cursor counted from octet 12. */
  method ParseBeaconElements(body: seq<byte>) returns (r: Option<BeaconElements>)
    ensures r == BeaconElementsOf(body)
  {
    var pos := 0;
    var ssid := ParseSsid(body[pos..]);
    assert body[pos..] == body;
    if ssid.None? { return None; }
    pos := pos + ssid.value.ssidLen + 2;
    var rates := SupportedRates(body[pos..]);
    if rates.None? { return None; }
    pos := pos + |rates.value| + 2;
    var country := GetCountry(body[pos..]);
    if country.None? { return None; }
    return Some(BeaconElements(ssid.value, rates.value, country.value));
  }

  /** `ProbeResponse::from_bytes` reads exactly the layout of a Beacon. */
  function ProbeResponseOf(input: seq<byte>): (r: Option<ProbeResponse>)
  {
    match BeaconOf(input)
    case None => None
    case Some(b) => Some(ProbeResponse(b.timestamp, b.interval, b.capInfo, b.ssid, b.supportedRates, b.country))
  }

  method ParseProbeResponse(input: seq<byte>) returns (r: Option<ProbeResponse>)
    ensures r == ProbeResponseOf(input)
  {
    var pos := 0;
    if |input| - pos < 8 { return None; }
    var timestamp := LittleEndian(input[pos..pos + 8]);
    pos := pos + 8;
    if |input| - pos < 2 { return None; }
    var interval := LittleEndian(input[pos..pos + 2]);
    pos := pos + 2;
    if |input| - pos < 2 { return None; }
    var capInfo := LittleEndian(input[pos..pos + 2]);
    pos := pos + 2;
    assert pos == 12;
    var elements := ParseBeaconElements(input[pos..]);
    if elements.None? { return None; }
    var e := elements.value;
    assert BeaconOf(input) == Some(Beacon(timestamp, interval, capInfo, e.ssid, e.rates, e.country, 0));
    return Some(ProbeResponse(timestamp, interval, capInfo, e.ssid, e.rates, e.country));
  }

  /** `ProbeRequest::from_bytes`: no fixed fields; the SSID element, then the
      rates element. */
  function ProbeRequestOf(input: seq<byte>): (r: Option<ProbeRequest>)
  {
    match SsidOf(input)
    case None => None
    case Some(ssid) =>
      match SupportedRatesOf(input[ssid.ssidLen + 2..])
      case None => None
      case Some(rates) => Some(ProbeRequest(ssid, rates))
  }

  method ParseProbeRequest(input: seq<byte>) returns (r: Option<ProbeRequest>)
    ensures r == ProbeRequestOf(input)
  {
    var pos := 0;
    var ssid := ParseSsid(input[pos..]);
    if ssid.None? { return None; }
    pos := pos + ssid.value.ssidLen + 2;
    var rates := SupportedRates(input[pos..]);
    if rates.None? { return None; }
    return Some(ProbeRequest(ssid.value, rates.value));
  }

  /** `AssociationRequest::from_bytes`: capability information and listen
      interval (2 bytes each), the SSID element, then the rates element. */
  function AssociationRequestOf(input: seq<byte>): (r: Option<AssociationRequest>)
  {
    if |input| < 4 then None
    else
      match SsidOf(input[4..])
      case None => None
      case Some(ssid) =>
        match SupportedRatesOf(input[4 + ssid.ssidLen + 2..])
        case None => None
        case Some(rates) =>
          Some(AssociationRequest(LittleEndian(input[0..2]), LittleEndian(input[2..4]), ssid, rates))
  }

  method ParseAssociationRequest(input: seq<byte>) returns (r: Option<AssociationRequest>)
    ensures r == AssociationRequestOf(input)
  {
    var pos := 0;
    if |input| - pos < 2 { return None; }
    var capInfo := LittleEndian(input[pos..pos + 2]);
    pos := pos + 2;
    if |input| - pos < 2 { return None; }
    var interval := LittleEndian(input[pos..pos + 2]);
    pos := pos + 2;
    var ssid := ParseSsid(input[pos..]);
    if ssid.None? { return None; }
    pos := pos + ssid.value.ssidLen + 2;
    var rates := SupportedRates(input[pos..]);
    if rates.None? { return None; }
    return Some(AssociationRequest(capInfo, interval, ssid.value, rates.value));
  }

  /** `AssociationResponse::from_bytes`: capability information, status code
      and association id (2 bytes each), then the rates element; no SSID. */
  function AssociationResponseOf(input: seq<byte>): (r: Option<AssociationResponse>)
  {
    if |input| < 6 then None
    else
      match SupportedRatesOf(input[6..])
      case None => None
      case Some(rates) =>
        Some(AssociationResponse(LittleEndian(input[0..2]), LittleEndian(input[2..4]),
                                 LittleEndian(input[4..6]), rates))
  }

  method ParseAssociationResponse(input: seq<byte>) returns (r: Option<AssociationResponse>)
    ensures r == AssociationResponseOf(input)
  {
    var pos := 0;
    if |input| - pos < 2 { return None; }
    var capInfo := LittleEndian(input[pos..pos + 2]);
    pos := pos + 2;
    if |input| - pos < 2 { return None; }
    var statusCode := LittleEndian(input[pos..pos + 2]);
    pos := pos + 2;
    if |input| - pos < 2 { return None; }
    var associationId := LittleEndian(input[pos..pos + 2]);
    pos := pos + 2;
    var rates := SupportedRates(input[pos..]);
    if rates.None? { return None; }
    return Some(AssociationResponse(capInfo, statusCode, associationId, rates.value));
  }

  // ---------------------------------------------------------------------------
  // Decoding well-formed elements

  /** An SSID element decodes to its id, length and text, whatever follows. */
  lemma SsidOfElement(id: byte, text: seq<byte>, rest: seq<byte>)
    requires |text| < 256
    ensures SsidOf(ElementBytes(id, text) + rest) == Some(Ssid(id, |text|, Utf8OrEmpty(text)))
  {
    var s := ElementBytes(id, text) + rest;
    assert s[1] as int == |text|;
    assert s[2..2 + |text|] == text;
  }

  /** A rates element decodes to the recognised rates among its codes,
      whatever follows. */
  lemma RatesOfElement(id: byte, codes: seq<byte>, rest: seq<byte>)
    requires |codes| < 256
    ensures SupportedRatesOf(ElementBytes(id, codes) + rest) == Some(DecodeRates(codes))
  {
    var s := ElementBytes(id, codes) + rest;
    assert s[1] as int == |codes|;
    assert s[2..2 + |codes|] == codes;
  }

  /** The rates of a list of codes, in half-Mbps units; the unknown code
      `0x01` is dropped. */
  lemma RatesExample()
    ensures SupportedRatesOf([1, 3, 0x82, 0x0c, 0x01]) == Some([2, 12])
  {
    assert [1, 3, 0x82, 0x0c, 0x01] == ElementBytes(1, [0x82, 0x0c, 0x01]) + [];
    RatesOfElement(1, [0x82, 0x0c, 0x01], []);
    assert DecodeRates([0x01]) == [];
    assert [0x0c, 0x01][1..] == [0x01];
    assert DecodeRates([0x0c, 0x01]) == [12];
    assert [0x82, 0x0c, 0x01][1..] == [0x0c, 0x01];
    assert DecodeRates([0x82, 0x0c, 0x01]) == [2, 12];
  }

  /** A Beacon whose rates element lists only known codes decodes to its
      fixed fields, its SSID, its rates and the country found after the rates
      element. */
  lemma BeaconOfElements(input: seq<byte>, ssidId: byte, text: seq<byte>, ratesId: byte, codes: seq<byte>, rest: seq<byte>)
    requires |input| >= 12 && |text| < 256 && |codes| < 256
    requires input[12..] == ElementBytes(ssidId, text) + (ElementBytes(ratesId, codes) + rest)
    requires forall i :: 0 <= i < |codes| ==> RateOf(codes[i]).Some?
    requires CountryScan(rest).Some?
    ensures BeaconOf(input)
      == Some(Beacon(LittleEndian(input[..8]), LittleEndian(input[8..10]), LittleEndian(input[10..12]),
                     Ssid(ssidId, |text|, Utf8OrEmpty(text)), DecodeRates(codes), CountryScan(rest).value, 0))
  {
    BeaconElementsOfElements(input[12..], ssidId, text, ratesId, codes, rest);
  }

  lemma BeaconElementsOfElements(body: seq<byte>, ssidId: byte, text: seq<byte>, ratesId: byte, codes: seq<byte>, rest: seq<byte>)
    requires |text| < 256 && |codes| < 256
    requires body == ElementBytes(ssidId, text) + (ElementBytes(ratesId, codes) + rest)
    requires forall i :: 0 <= i < |codes| ==> RateOf(codes[i]).Some?
    requires CountryScan(rest).Some?
    ensures BeaconElementsOf(body)
      == Some(BeaconElements(Ssid(ssidId, |text|, Utf8OrEmpty(text)), DecodeRates(codes), CountryScan(rest).value))
  {
    var ratesPart := ElementBytes(ratesId, codes) + rest;
    SsidStep(body, ssidId, text, ratesPart);
    RatesStep(ratesPart, ratesId, codes, rest);
    DropTwice(body, |text| + 2, |codes| + 2);
    BeaconElementsSteps(body, Ssid(ssidId, |text|, Utf8OrEmpty(text)), DecodeRates(codes), CountryScan(rest).value);
  }

  lemma SsidStep(body: seq<byte>, id: byte, text: seq<byte>, rest: seq<byte>)
    requires |text| < 256 && body == ElementBytes(id, text) + rest
    ensures SsidOf(body) == Some(Ssid(id, |text|, Utf8OrEmpty(text)))
    ensures body[|text| + 2..] == rest
  {
    SsidOfElement(id, text, rest);
  }

  lemma RatesStep(body: seq<byte>, id: byte, codes: seq<byte>, rest: seq<byte>)
    requires |codes| < 256 && body == ElementBytes(id, codes) + rest
    requires forall i :: 0 <= i < |codes| ==> RateOf(codes[i]).Some?
    ensures SupportedRatesOf(body) == Some(DecodeRates(codes))
    ensures |DecodeRates(codes)| == |codes|
    ensures body[|codes| + 2..] == rest
  {
    RatesOfElement(id, codes, rest);
    DecodeRatesKeepsAllIffRecognised(codes);
  }

  lemma DropTwice(s: seq<byte>, a: nat, b: nat)
    requires a + b <= |s|
    ensures s[a + b..] == s[a..][b..]
  {
  }

  /** `BeaconElementsOf` from the results of its three steps. */
  lemma BeaconElementsSteps(body: seq<byte>, ssid: Ssid, rates: seq<nat>, country: Country)
    requires SsidOf(body) == Some(ssid)
    requires SupportedRatesOf(body[ssid.ssidLen + 2..]) == Some(rates)
    requires ssid.ssidLen + 2 + |rates| + 2 <= |body|
    requires CountryScan(body[ssid.ssidLen + 2 + |rates| + 2..]) == Some(country)
    ensures BeaconElementsOf(body) == Some(BeaconElements(ssid, rates, country))
  {
    var p := ssid.ssidLen + 2;
    var q := p + |rates| + 2;
  }

  /** The cursor of `Beacon::from_bytes` steps over the rates element by the
      number of recognised rates: one unknown code leaves it inside the rates
      element, and a Country element that follows is not seen, although the
      scan from the element's real end finds it. */
  lemma BeaconMissesCountryAfterUnknownRate()
    ensures var input := [0, 0, 0, 0, 0, 0, 0, 0, 0, 0, 0, 0, 0, 0, 1, 2, 0x82, 0x01, 7, 3, 0x55, 0x53, 0x20];
      && BeaconOf(input).Some?
      && BeaconOf(input).value.supportedRates == [2]
      && BeaconOf(input).value.country == DefaultCountry
      && CountryScan(input[18..]) == Some(Country([0x55, 0x53, 0x20]))
  {
    var input: seq<byte> := [0, 0, 0, 0, 0, 0, 0, 0, 0, 0, 0, 0, 0, 0, 1, 2, 0x82, 0x01, 7, 3, 0x55, 0x53, 0x20];
    assert input[12..] == [0, 0, 1, 2, 0x82, 0x01, 7, 3, 0x55, 0x53, 0x20];
    assert input[18..] == [7, 3, 0x55, 0x53, 0x20];
    QuirkElements();
    QuirkCountry();
  }

  /** The elements part of the example above. */
  lemma QuirkElements()
    ensures BeaconElementsOf([0, 0, 1, 2, 0x82, 0x01, 7, 3, 0x55, 0x53, 0x20])
      == Some(BeaconElements(Ssid(0, 0, Utf8OrEmpty([])), [2], DefaultCountry))
  {
    var body: seq<byte> := [0, 0, 1, 2, 0x82, 0x01, 7, 3, 0x55, 0x53, 0x20];
    var tail: seq<byte> := [7, 3, 0x55, 0x53, 0x20];
    var ssid := Ssid(0, 0, Utf8OrEmpty([]));
    assert SsidOf(body) == Some(ssid) by {
      assert body == ElementBytes(0, []) + body[2..];
      SsidOfElement(0, [], body[2..]);
    }
    assert SupportedRatesOf(body[2..]) == Some([2]) by {
      assert body[2..] == ElementBytes(1, [0x82, 0x01]) + tail;
      RatesOfElement(1, [0x82, 0x01], tail);
      assert DecodeRates([0x01]) == [];
      assert [0x82, 0x01][1..] == [0x01];
      assert DecodeRates([0x82, 0x01]) == [2];
    }
    assert CountryScan(body[5..]) == Some(DefaultCountry) by {
      assert body[5..][0] == 0x01;
    }
    BeaconElementsSteps(body, ssid, [2], DefaultCountry);
  }

  /** The Country element of the example above, scanned from its own start. */
  lemma QuirkCountry()
    ensures CountryScan([7, 3, 0x55, 0x53, 0x20]) == Some(Country([0x55, 0x53, 0x20]))
  {
    var tail: seq<byte> := [7, 3, 0x55, 0x53, 0x20];
    var code: seq<byte> := [0x55, 0x53, 0x20];
    assert tail[2..] == code && code[..3] == code;
    AsciiIsUtf8(code);
    assert CountryFromBytes(tail[2..]) == Some(Country(code));
  }

  /** A ProbeRequest is its SSID element followed by its rates element. */
  lemma ProbeRequestOfElements(ssidId: byte, text: seq<byte>, ratesId: byte, codes: seq<byte>, rest: seq<byte>)
    requires |text| < 256 && |codes| < 256
    ensures ProbeRequestOf(ElementBytes(ssidId, text) + (ElementBytes(ratesId, codes) + rest))
      == Some(ProbeRequest(Ssid(ssidId, |text|, Utf8OrEmpty(text)), DecodeRates(codes)))
  {
    var ratesPart := ElementBytes(ratesId, codes) + rest;
    var input := ElementBytes(ssidId, text) + ratesPart;
    SsidOfElement(ssidId, text, ratesPart);
    assert input[|text| + 2..] == ratesPart;
    RatesOfElement(ratesId, codes, rest);
  }

  /** An AssociationRequest is capability information and listen interval,
      then its SSID and rates elements. */
  lemma AssociationRequestOfElements(input: seq<byte>, ssidId: byte, text: seq<byte>, ratesId: byte, codes: seq<byte>, rest: seq<byte>)
    requires |input| >= 4 && |text| < 256 && |codes| < 256
    requires input[4..] == ElementBytes(ssidId, text) + (ElementBytes(ratesId, codes) + rest)
    ensures AssociationRequestOf(input)
      == Some(AssociationRequest(LittleEndian(input[..2]), LittleEndian(input[2..4]),
                                 Ssid(ssidId, |text|, Utf8OrEmpty(text)), DecodeRates(codes)))
  {
    var ratesPart := ElementBytes(ratesId, codes) + rest;
    SsidOfElement(ssidId, text, ratesPart);
    assert input[4 + |text| + 2..] == ratesPart;
    RatesOfElement(ratesId, codes, rest);
  }

  /** An AssociationResponse is three 2-byte fields, then its rates element. */
  lemma AssociationResponseOfElements(input: seq<byte>, ratesId: byte, codes: seq<byte>, rest: seq<byte>)
    requires |input| >= 6 && |codes| < 256
    requires input[6..] == ElementBytes(ratesId, codes) + rest
    ensures AssociationResponseOf(input)
      == Some(AssociationResponse(LittleEndian(input[..2]), LittleEndian(input[2..4]), LittleEndian(input[4..6]),
                                  DecodeRates(codes)))
  {
    RatesOfElement(ratesId, codes, rest);
  }
}
