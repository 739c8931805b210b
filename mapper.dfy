/** `src/mapper.rs`: folds decoded frames into a map of access points. A
    Beacon creates the Collection of its BSSID (first seen wins); Probe
    Request and data frames attach the station as a node, and a link from
    it, to a Collection that already exists. In people mode only Probe
    Requests from phones of a fixed list of vendors are recorded.

    The Collections are values owned by the map, so updating one is a map
    update. Each operation of `Mapper` is a method proved equal to a
    function on the map values; the lemmas state what those functions
    keep. */
module Mapper {
  import opened Common
  import opened Dot11
  import Info
  import opened Vendors

  const Protocol: string := "802.11"
  const Broadcast: string := "ff:ff:ff:ff:ff:ff"
  const Unspecified: string := "00:00:00:00:00:00"
  const Multicast: string := "33:33:00:"

  /** The vendor names `add_people` accepts. */
  const PhoneVendors: seq<string> := [
    "Samsung Electronics Co.,Ltd", "Apple, Inc.", "HTC Corporation",
    "Huawei Symantec Technologies Co.,Ltd.", "Google, Inc.", "Microsoft",
    "Motorola (Wuhan) Mobility Technologies Communication Co., Ltd."
  ]

  datatype Properties = Properties(vendor: string, signal: i8)

  /** `Node::new(mac, vendor, signal)` is `Node(mac, Properties(vendor, signal))`. */
  datatype Node = Node(mac: string, properties: Properties)

  /** `Link::new(src, dst)` is `Link(src, dst)`: an ordered pair. */
  datatype Link = Link(source: string, target: string)

  /** One access point and what was seen talking to it. The SSID is kept as
      its UTF-8 octets. */
  datatype Collection = Collection(
    ssid: seq<byte>, protocol: string, version: string, routerId: string,
    apLabel: string, signal: i8, currentChannel: u8,
    nodes: seq<Node>, links: seq<Link>)

  /** `Collection::new()`. */
  const EmptyCollection: Collection := Collection([], Protocol, "", "", "", 0, 0, [], [])

  /** The distance estimate of `calc_distance`, kept as its two inputs: the
      floating-point formula is not modelled. */
  datatype Distance = FreeSpace(freq: nat, signal: i8)

  datatype People = People(mac: string, vendor: string, signal: i8, distance: Distance)

  /** The two radiotap fields `map` reads: antenna signal in dBm and channel
      frequency in MHz. */
  datatype Radiotap = Radiotap(antennaSignal: Option<i8>, channelFreq: Option<nat>)

  // ---------------------------------------------------------------------------
  // Collections

  /** `Collection::push_node`. */
  function PushNode(c: Collection, n: Node): (r: Collection)
    ensures r.nodes == c.nodes + [n]
    ensures r.(nodes := c.nodes) == c
  {
    c.(nodes := c.nodes + [n])
  }

  /** `Collection::push_link`. */
  function PushLink(c: Collection, l: Link): (r: Collection)
    ensures r.links == c.links + [l]
    ensures r.(links := c.links) == c
  {
    c.(links := c.links + [l])
  }

  predicate HasNodeFor(nodes: seq<Node>, mac: string)
  {
    exists i :: 0 <= i < |nodes| && nodes[i].mac == mac
  }

  /** `node_iter.find(|x| x.mac == mac)` as a loop over the nodes. */
  method FindNode(nodes: seq<Node>, mac: string) returns (found: bool)
    ensures found <==> HasNodeFor(nodes, mac)
  {
    var i := 0;
    while i < |nodes|
      invariant 0 <= i <= |nodes|
      invariant forall j :: 0 <= j < i ==> nodes[j].mac != mac
    {
      if nodes[i].mac == mac {
        return true;
      }
      i := i + 1;
    }
    return false;
  }

  /** No two nodes share a MAC address. */
  predicate NodesDistinct(nodes: seq<Node>)
  {
    forall i, j :: 0 <= i < j < |nodes| ==> nodes[i].mac != nodes[j].mac
  }

  /** No link appears twice. */
  predicate LinksDistinct(links: seq<Link>)
  {
    forall i, j :: 0 <= i < j < |links| ==> links[i] != links[j]
  }

  /** What holds of every Collection in the map under key `key`: it names
      its key as router id, has a non-empty SSID, starts with the access
      point's own node, has distinct nodes and links, and every link points
      at the access point from a node of the Collection. */
  predicate CollectionValid(key: string, c: Collection)
  {
    && c.routerId == key
    && c.protocol == Protocol
    && c.version == ""
    && c.ssid != []
    && |c.nodes| >= 1
    && c.nodes[0] == Node(key, Properties(c.apLabel, 0))
    && NodesDistinct(c.nodes)
    && LinksDistinct(c.links)
    && forall l :: l in c.links ==> l.target == key && HasNodeFor(c.nodes, l.source)
  }

  predicate NetMapValid(m: map<string, Collection>)
  {
    forall k :: k in m ==> CollectionValid(k, m[k])
  }

  /** Every person recorded is keyed by their MAC and has an accepted vendor. */
  predicate PeopleMapValid(pm: map<string, People>)
  {
    forall k :: k in pm ==> pm[k].mac == k && pm[k].vendor in PhoneVendors
  }

  /** `new` grows `old`: the same access point fields, and the node and link
      lists of `old` as prefixes. */
  predicate Extends(old_: Collection, new_: Collection)
  {
    && new_.(nodes := old_.nodes, links := old_.links) == old_
    && |old_.nodes| <= |new_.nodes| && new_.nodes[..|old_.nodes|] == old_.nodes
    && |old_.links| <= |new_.links| && new_.links[..|old_.links|] == old_.links
  }

  /** From `m` to `r` only the Collection under `bssid` may change or be
      added, and every Collection already there only grows. */
  predicate Grows(m: map<string, Collection>, r: map<string, Collection>, bssid: string)
  {
    && m.Keys <= r.Keys <= m.Keys + {bssid}
    && (forall k :: k in m && k != bssid ==> r[k] == m[k])
    && (forall k :: k in m ==> Extends(m[k], r[k]))
  }

  // ---------------------------------------------------------------------------
  // The operations as functions of the map values

  /** Frames whose BSSID contains the broadcast or the unspecified address
      never create a Collection. */
  predicate IsApCandidate(bssid: string)
  {
    !Contains(bssid, Broadcast) && !Contains(bssid, Unspecified)
  }

  /** Station addresses that `add_to_collection` considers. */
  predicate IsCollectable(mac: string)
  {
    !Contains(mac, Broadcast) && !StartsWith(mac, Multicast)
  }

  /** `add_node`: the node for `mac`, labelled with its vendor. */
  function NodeFor(vendors: VendorsDb, mac: string, signal: i8): (n: Node)
    requires HasKey(mac)
    ensures n.mac == mac && n.properties.signal == signal
    ensures n.properties.vendor == Lookup(vendors, mac)
  {
    Node(mac, Properties(Lookup(vendors, mac), signal))
  }

  /** `add_to_collection`: for a collectable `mac` and a known `bssid`, add
      the node unless one with that MAC exists and the link unless it
      exists; otherwise nothing changes. The vendor lookup happens before the
      BSSID is checked. */
  function AddToCollectionSpec(vendors: VendorsDb, m: map<string, Collection>, mac: string, bssid: string, signal: i8)
    : (r: map<string, Collection>)
    requires IsCollectable(mac) ==> HasKey(mac)
    ensures r.Keys == m.Keys
  {
    if !IsCollectable(mac) then m
    else
      var node := NodeFor(vendors, mac, signal);
      var link := Link(mac, bssid);
      if bssid !in m then m
      else m[bssid := AddEdge(m[bssid], node, link)]
  }

  /** The Collection after one edge: the node unless one with its MAC is
      there, then the link unless it is there. */
  function AddEdge(c: Collection, node: Node, link: Link): (r: Collection)
  {
    var c1 := if HasNodeFor(c.nodes, node.mac) then c else PushNode(c, node);
    if link in c1.links then c1 else PushLink(c1, link)
  }

  /** The Collection a Beacon creates. */
  function NewAccessPoint(vendors: VendorsDb, beacon: Info.Beacon, signal: i8, bssid: string): (c: Collection)
    requires HasKey(bssid)
  {
    var vendor := Lookup(vendors, bssid);
    EmptyCollection.(ssid := beacon.ssid.value, signal := signal, currentChannel := beacon.currentChannel,
                     routerId := bssid, apLabel := vendor, nodes := [Node(bssid, Properties(vendor, 0))])
  }

  /** `add_access_point`: a candidate BSSID without a Collection and a Beacon
      with a non-empty SSID create the Collection, which is also returned;
      anything else changes nothing. */
  function AddAccessPointSpec(vendors: VendorsDb, m: map<string, Collection>, beacon: Info.Beacon, signal: i8, bssid: string)
    : (r: (map<string, Collection>, Option<Collection>))
    requires IsApCandidate(bssid) && bssid !in m ==> HasKey(bssid)
  {
    if !IsApCandidate(bssid) || bssid in m then (m, None)
    else if beacon.ssid.value == [] then (m, None)
    else
      var ap := NewAccessPoint(vendors, beacon, signal, bssid);
      (m[bssid := ap], Some(ap))
  }

  /** `add_people`: a source whose vendor is on the phone list is recorded
      (or re-recorded) under its MAC. */
  function AddPeopleSpec(vendors: VendorsDb, pm: map<string, People>, src: string, freq: nat, signal: i8)
    : (r: map<string, People>)
    requires HasKey(src)
  {
    var vendor := Lookup(vendors, src);
    if vendor in PhoneVendors then pm[src := People(src, vendor, signal, FreeSpace(freq, signal))] else pm
  }

  function SignalOf(radio: Radiotap): (signal: i8)
    ensures radio.antennaSignal.Some? ==> signal == radio.antennaSignal.value
    ensures radio.antennaSignal.None? ==> signal == 0
  {
    match radio.antennaSignal
    case Some(s) => s
    case None => 0
  }

  function FreqOf(radio: Radiotap): (freq: nat)
    ensures radio.channelFreq.Some? ==> freq == radio.channelFreq.value
    ensures radio.channelFreq.None? ==> freq == 0
  {
    match radio.channelFreq
    case Some(f) => f
    case None => 0
  }

  predicate IsProbeRequest(fc: FrameControl)
  {
    fc.frameType == Management && fc.frameSubtype == ProbeReq
  }

  predicate IsDataEdge(fc: FrameControl)
  {
    fc.frameType == FrameType.Data && (fc.frameSubtype == QoS || fc.frameSubtype == FrameSubType.Data)
  }

  predicate IsNullData(fc: FrameControl)
  {
    fc.frameType == FrameType.Data && fc.frameSubtype == NullData
  }

  /** Every vendor lookup that `map` makes on this frame has a key; otherwise
      the source panics. */
  predicate LookupsDefined(m: map<string, Collection>, h: Dot11Header, people: bool)
  {
    var fc := h.frameControl;
    if people then IsProbeRequest(fc) ==> HasKey(h.src)
    else if IsProbeRequest(fc) then IsCollectable(h.src) ==> HasKey(h.src)
    else if fc.frameType == FrameType.Data then
      && (IsDataEdge(fc) ==> (IsCollectable(h.src) ==> HasKey(h.src)) && (IsCollectable(h.dst) ==> HasKey(h.dst)))
      && (IsNullData(fc) ==> (IsCollectable(h.dst) ==> HasKey(h.dst)))
    else if fc.frameType == Management && h.info.BeaconBody? then
      IsApCandidate(h.bssid) && h.bssid !in m ==> HasKey(h.bssid)
    else true
  }

  datatype MapState = MapState(netMap: map<string, Collection>, peopleMap: map<string, People>)

  /** `map`: one frame folded into the state, with the Collection it
      created, if any. */
  function MapStep(vendors: VendorsDb, s: MapState, radio: Radiotap, h: Dot11Header, people: bool)
    : (r: (MapState, Option<Collection>))
    requires LookupsDefined(s.netMap, h, people)
  {
    var signal := SignalOf(radio);
    var fc := h.frameControl;
    if people then
      if IsProbeRequest(fc) then (s.(peopleMap := AddPeopleSpec(vendors, s.peopleMap, h.src, FreqOf(radio), signal)), None)
      else (s, None)
    else if IsProbeRequest(fc) then
      (s.(netMap := AddToCollectionSpec(vendors, s.netMap, h.src, h.bssid, signal)), None)
    else if fc.frameType == FrameType.Data then
      if IsDataEdge(fc) then
        var m1 := AddToCollectionSpec(vendors, s.netMap, h.src, h.bssid, signal);
        (s.(netMap := AddToCollectionSpec(vendors, m1, h.dst, h.bssid, signal)), None)
      else if IsNullData(fc) then
        (s.(netMap := AddToCollectionSpec(vendors, s.netMap, h.dst, h.bssid, signal)), None)
      else (s, None)
    else if fc.frameType == Management && h.info.BeaconBody? then
      var (m, ap) := AddAccessPointSpec(vendors, s.netMap, h.info.beacon, signal, h.bssid);
      (s.(netMap := m), ap)
    else (s, None)
  }

  // ---------------------------------------------------------------------------
  // The mapper

  class Mapper {
    const vendors: VendorsDb
    var netMap: map<string, Collection>
    var peopleMap: map<string, People>

    ghost predicate Valid()
      reads this
    {
      NetMapValid(netMap) && PeopleMapValid(peopleMap)
    }

    /** `Mapper::new` with the vendor table already read. */
    constructor (vendors: VendorsDb)
      ensures this.vendors == vendors && netMap == map[] && peopleMap == map[]
      ensures Valid()
    {
      this.vendors := vendors;
      netMap := map[];
      peopleMap := map[];
    }

    method Map(radio: Radiotap, h: Dot11Header, people: bool) returns (newAp: Option<Collection>)
      requires LookupsDefined(netMap, h, people)
      modifies this
      ensures (MapState(netMap, peopleMap), newAp) == MapStep(vendors, MapState(old(netMap), old(peopleMap)), radio, h, people)
      ensures old(Valid()) ==> Valid()
    {
      ghost var s := MapState(netMap, peopleMap);
      newAp := None;
      var fc := h.frameControl;
      var signal := SignalOf(radio);
      var freq := FreqOf(radio);
      if people {
        if fc.frameType == Management && fc.frameSubtype == ProbeReq {
          AddPeople(h.src, freq, signal);
        }
      } else {
        if fc.frameType == Management && fc.frameSubtype == ProbeReq {
          AddToCollection(h.src, h.bssid, signal);
        } else if fc.frameType == FrameType.Data {
          if fc.frameSubtype == QoS || fc.frameSubtype == FrameSubType.Data {
            AddToCollection(h.src, h.bssid, signal);
            AddToCollection(h.dst, h.bssid, signal);
          } else if fc.frameSubtype == NullData {
            AddToCollection(h.dst, h.bssid, signal);
          }
        } else if fc.frameType == Management {
          if h.info.BeaconBody? {
            newAp := AddAccessPoint(h.info.beacon, signal, h);
          }
        }
      }
      MapStepKeepsValid(vendors, s, radio, h, people);
    }

    method AddAccessPoint(beacon: Info.Beacon, signal: i8, h: Dot11Header) returns (r: Option<Collection>)
      requires IsApCandidate(h.bssid) && h.bssid !in netMap ==> HasKey(h.bssid)
      modifies this
      ensures (netMap, r) == AddAccessPointSpec(vendors, old(netMap), beacon, signal, h.bssid)
      ensures peopleMap == old(peopleMap)
    {
      if !Contains(h.bssid, Broadcast) && !Contains(h.bssid, Unspecified) {
        if h.bssid !in netMap {
          var accessPoint := EmptyCollection;
          accessPoint := accessPoint.(ssid := beacon.ssid.value);
          accessPoint := accessPoint.(signal := signal);
          accessPoint := accessPoint.(currentChannel := beacon.currentChannel);
          accessPoint := accessPoint.(routerId := h.bssid);
          accessPoint := accessPoint.(apLabel := Lookup(vendors, h.bssid));
          if accessPoint.ssid == [] {
            return None;
          }
          var node := Node(h.bssid, Properties(accessPoint.apLabel, 0));
          accessPoint := accessPoint.(nodes := accessPoint.nodes + [node]);
          assert accessPoint.nodes == [node];
          assert accessPoint == NewAccessPoint(vendors, beacon, signal, h.bssid);
          netMap := netMap[h.bssid := accessPoint];
          return Some(accessPoint);
        }
      }
      return None;
    }

    method AddToCollection(mac: string, bssid: string, signal: i8)
      requires IsCollectable(mac) ==> HasKey(mac)
      modifies this
      ensures netMap == AddToCollectionSpec(vendors, old(netMap), mac, bssid, signal)
      ensures peopleMap == old(peopleMap)
    {
      if !Contains(mac, Broadcast) && !StartsWith(mac, Multicast) {
        var node := AddNode(mac, signal);
        var link := Link(mac, bssid);
        if bssid in netMap {
          var accessPoint := netMap[bssid];
          var found := FindNode(accessPoint.nodes, node.mac);
          if !found {
            accessPoint := PushNode(accessPoint, node);
          }
          if link !in accessPoint.links {
            accessPoint := PushLink(accessPoint, link);
          }
          netMap := netMap[bssid := accessPoint];
        }
      }
    }

    method AddNode(mac: string, signal: i8) returns (node: Node)
      requires HasKey(mac)
      ensures node == NodeFor(vendors, mac, signal)
    {
      var vendor := Lookup(vendors, mac);
      node := Node(mac, Properties(vendor, signal));
    }

    method AddPeople(src: string, freq: nat, signal: i8)
      requires HasKey(src)
      modifies this
      ensures peopleMap == AddPeopleSpec(vendors, old(peopleMap), src, freq, signal)
      ensures netMap == old(netMap)
    {
      var vendor := Lookup(vendors, src);
      if vendor in PhoneVendors {
        var person := People(src, vendor, signal, FreeSpace(freq, signal));
        peopleMap := peopleMap[src := person];
      }
    }
  }

  // ---------------------------------------------------------------------------
  // What the operations keep

  /** Adding an edge keeps every Collection valid. */
  lemma AddToCollectionKeepsValid(vendors: VendorsDb, m: map<string, Collection>, mac: string, bssid: string, signal: i8)
    requires IsCollectable(mac) ==> HasKey(mac)
    requires NetMapValid(m)
    ensures NetMapValid(AddToCollectionSpec(vendors, m, mac, bssid, signal))
  {
    if IsCollectable(mac) && bssid in m {
      AddEdgeKeepsValid(bssid, m[bssid], NodeFor(vendors, mac, signal));
    }
  }

  /** An edge into a valid Collection keeps it valid. */
  lemma AddEdgeKeepsValid(key: string, c: Collection, node: Node)
    requires CollectionValid(key, c)
    ensures CollectionValid(key, AddEdge(c, node, Link(node.mac, key)))
  {
    var c1 := if HasNodeFor(c.nodes, node.mac) then c else PushNode(c, node);
    AddNodeKeepsValid(key, c, node);
    AddLinkKeepsValid(key, c1, Link(node.mac, key));
  }

  /** The node half of an edge: afterwards the Collection holds a node with
      its MAC and is still valid. */
  lemma AddNodeKeepsValid(key: string, c: Collection, node: Node)
    requires CollectionValid(key, c)
    ensures var c1 := if HasNodeFor(c.nodes, node.mac) then c else PushNode(c, node);
      CollectionValid(key, c1) && HasNodeFor(c1.nodes, node.mac)
  {
    if !HasNodeFor(c.nodes, node.mac) {
      var c1 := PushNode(c, node);
      assert c1.nodes[|c.nodes|] == node;
      forall l | l in c1.links
        ensures HasNodeFor(c1.nodes, l.source)
      {
        var i :| 0 <= i < |c.nodes| && c.nodes[i].mac == l.source;
        assert c1.nodes[i] == c.nodes[i];
      }
    }
  }

  /** The link half of an edge: a link to the key from a node already there
      keeps the Collection valid. */
  lemma AddLinkKeepsValid(key: string, c: Collection, link: Link)
    requires CollectionValid(key, c)
    requires link.target == key && HasNodeFor(c.nodes, link.source)
    ensures CollectionValid(key, if link in c.links then c else PushLink(c, link))
  {
  }

  /** Creating an access point keeps every Collection valid. */
  lemma AddAccessPointKeepsValid(vendors: VendorsDb, m: map<string, Collection>, beacon: Info.Beacon, signal: i8, bssid: string)
    requires IsApCandidate(bssid) && bssid !in m ==> HasKey(bssid)
    requires NetMapValid(m)
    ensures NetMapValid(AddAccessPointSpec(vendors, m, beacon, signal, bssid).0)
  {
    if IsApCandidate(bssid) && bssid !in m && beacon.ssid.value != [] {
      var ap := NewAccessPoint(vendors, beacon, signal, bssid);
      assert CollectionValid(bssid, ap);
    }
  }

  /** Recording a person keeps the people map valid. */
  lemma AddPeopleKeepsValid(vendors: VendorsDb, pm: map<string, People>, src: string, freq: nat, signal: i8)
    requires HasKey(src)
    requires PeopleMapValid(pm)
    ensures PeopleMapValid(AddPeopleSpec(vendors, pm, src, freq, signal))
  {
  }

  /** Every frame keeps both maps valid. */
  lemma MapStepKeepsValid(vendors: VendorsDb, s: MapState, radio: Radiotap, h: Dot11Header, people: bool)
    requires LookupsDefined(s.netMap, h, people)
    ensures var r := MapStep(vendors, s, radio, h, people).0;
      (NetMapValid(s.netMap) ==> NetMapValid(r.netMap)) && (PeopleMapValid(s.peopleMap) ==> PeopleMapValid(r.peopleMap))
  {
    var signal := SignalOf(radio);
    var fc := h.frameControl;
    if people {
      if IsProbeRequest(fc) && PeopleMapValid(s.peopleMap) {
        AddPeopleKeepsValid(vendors, s.peopleMap, h.src, FreqOf(radio), signal);
      }
    } else if NetMapValid(s.netMap) {
      if IsProbeRequest(fc) {
        AddToCollectionKeepsValid(vendors, s.netMap, h.src, h.bssid, signal);
      } else if fc.frameType == FrameType.Data {
        if IsDataEdge(fc) {
          AddToCollectionKeepsValid(vendors, s.netMap, h.src, h.bssid, signal);
          var m1 := AddToCollectionSpec(vendors, s.netMap, h.src, h.bssid, signal);
          AddToCollectionKeepsValid(vendors, m1, h.dst, h.bssid, signal);
        } else if IsNullData(fc) {
          AddToCollectionKeepsValid(vendors, s.netMap, h.dst, h.bssid, signal);
        }
      } else if fc.frameType == Management && h.info.BeaconBody? {
        AddAccessPointKeepsValid(vendors, s.netMap, h.info.beacon, signal, h.bssid);
      }
    }
  }

  /** Growing keeps every node and link. */
  lemma ExtendsKeepsEdges(c: Collection, d: Collection, mac: string, l: Link)
    requires Extends(c, d)
    ensures HasNodeFor(c.nodes, mac) ==> HasNodeFor(d.nodes, mac)
    ensures l in c.links ==> l in d.links
  {
    if HasNodeFor(c.nodes, mac) {
      var i :| 0 <= i < |c.nodes| && c.nodes[i].mac == mac;
      assert d.nodes[i] == c.nodes[i];
    }
    if l in c.links {
      var i :| 0 <= i < |c.links| && c.links[i] == l;
      assert d.links[i] == c.links[i];
    }
  }

  lemma ExtendsTransitive(a: Collection, b: Collection, c: Collection)
    requires Extends(a, b) && Extends(b, c)
    ensures Extends(a, c)
  {
    assert c.nodes[..|a.nodes|] == b.nodes[..|b.nodes|][..|a.nodes|];
    assert c.links[..|a.links|] == b.links[..|b.links|][..|a.links|];
  }

  /** After `add_to_collection` the Collection of a known BSSID has a node
      for a collectable MAC and the link from it to the BSSID; otherwise the
      map is unchanged. Only that Collection changes, and it only grows. */
  lemma AddToCollectionEffect(vendors: VendorsDb, m: map<string, Collection>, mac: string, bssid: string, signal: i8)
    requires IsCollectable(mac) ==> HasKey(mac)
    ensures var r := AddToCollectionSpec(vendors, m, mac, bssid, signal);
      && (IsCollectable(mac) && bssid in m ==> HasNodeFor(r[bssid].nodes, mac) && Link(mac, bssid) in r[bssid].links)
      && (!IsCollectable(mac) || bssid !in m ==> r == m)
      && (forall k :: k in m && k != bssid ==> r[k] == m[k])
      && (forall k :: k in m ==> Extends(m[k], r[k]))
  {
    ExtendsReflexive(m);
    if IsCollectable(mac) && bssid in m {
      AddEdgeEffect(m[bssid], NodeFor(vendors, mac, signal), Link(mac, bssid));
    }
  }

  /** One edge leaves its node and its link in the Collection, which only
      grows; with both already there it is unchanged. */
  lemma AddEdgeEffect(c: Collection, node: Node, link: Link)
    ensures var r := AddEdge(c, node, link);
      && HasNodeFor(r.nodes, node.mac) && link in r.links && Extends(c, r)
      && (HasNodeFor(c.nodes, node.mac) && link in c.links ==> r == c)
  {
    var c1 := if HasNodeFor(c.nodes, node.mac) then c else PushNode(c, node);
    var r := AddEdge(c, node, link);
    assert HasNodeFor(c1.nodes, node.mac) by {
      if !HasNodeFor(c.nodes, node.mac) {
        assert c1.nodes[|c.nodes|].mac == node.mac;
      }
    }
    assert Extends(c, c1) by {
      assert c1.nodes[..|c.nodes|] == c.nodes;
      assert c1.links[..|c.links|] == c.links;
    }
    assert Extends(c1, r) by {
      assert r.nodes[..|c1.nodes|] == c1.nodes;
      assert r.links[..|c1.links|] == c1.links;
    }
    ExtendsTransitive(c, c1, r);
    ExtendsKeepsEdges(c1, r, node.mac, link);
  }

  /** A node and a link already present make `add_to_collection` a no-op. */
  lemma AddToCollectionPresent(vendors: VendorsDb, m: map<string, Collection>, mac: string, bssid: string, signal: i8)
    requires IsCollectable(mac) ==> HasKey(mac)
    requires IsCollectable(mac) && bssid in m ==> HasNodeFor(m[bssid].nodes, mac) && Link(mac, bssid) in m[bssid].links
    ensures AddToCollectionSpec(vendors, m, mac, bssid, signal) == m
  {
    if IsCollectable(mac) && bssid in m {
      assert m[bssid := m[bssid]] == m;
    }
  }

  /** Seeing the same edge twice records it once. */
  lemma AddToCollectionIdempotent(vendors: VendorsDb, m: map<string, Collection>, mac: string, bssid: string, signal: i8)
    requires IsCollectable(mac) ==> HasKey(mac)
    ensures var r := AddToCollectionSpec(vendors, m, mac, bssid, signal);
      AddToCollectionSpec(vendors, r, mac, bssid, signal) == r
  {
    AddToCollectionEffect(vendors, m, mac, bssid, signal);
    AddToCollectionPresent(vendors, AddToCollectionSpec(vendors, m, mac, bssid, signal), mac, bssid, signal);
  }

  /** The two edges of a data frame, seen again, change nothing. */
  lemma DataEdgesIdempotent(vendors: VendorsDb, m: map<string, Collection>, src: string, dst: string, bssid: string, signal: i8)
    requires IsCollectable(src) ==> HasKey(src)
    requires IsCollectable(dst) ==> HasKey(dst)
    ensures var m2 := AddToCollectionSpec(vendors, AddToCollectionSpec(vendors, m, src, bssid, signal), dst, bssid, signal);
      AddToCollectionSpec(vendors, AddToCollectionSpec(vendors, m2, src, bssid, signal), dst, bssid, signal) == m2
  {
    var m1 := AddToCollectionSpec(vendors, m, src, bssid, signal);
    var m2 := AddToCollectionSpec(vendors, m1, dst, bssid, signal);
    AddToCollectionEffect(vendors, m, src, bssid, signal);
    AddToCollectionEffect(vendors, m1, dst, bssid, signal);
    if bssid in m2 {
      ExtendsKeepsEdges(m1[bssid], m2[bssid], src, Link(src, bssid));
    }
    AddToCollectionPresent(vendors, m2, src, bssid, signal);
    AddToCollectionPresent(vendors, m2, dst, bssid, signal);
  }

  /** `add_access_point` creates a Collection exactly for a candidate BSSID
      not yet in the map and a non-empty SSID, and returns it; it then holds
      the Beacon's SSID, the frame's signal and channel, and only the access
      point's node. Otherwise nothing changes: the first Beacon seen wins. */
  lemma AddAccessPointEffect(vendors: VendorsDb, m: map<string, Collection>, beacon: Info.Beacon, signal: i8, bssid: string)
    requires IsApCandidate(bssid) && bssid !in m ==> HasKey(bssid)
    ensures var (r, ap) := AddAccessPointSpec(vendors, m, beacon, signal, bssid);
      && (ap.Some? <==> IsApCandidate(bssid) && bssid !in m && beacon.ssid.value != [])
      && (ap.None? ==> r == m)
      && (ap.Some? ==> r == m[bssid := ap.value] && CollectionValid(bssid, ap.value))
      && (ap.Some? ==> ap.value.ssid == beacon.ssid.value && ap.value.signal == signal
                        && ap.value.currentChannel == beacon.currentChannel
                        && ap.value.routerId == bssid && ap.value.apLabel == Lookup(vendors, bssid)
                        && |ap.value.nodes| == 1 && ap.value.links == [])
  {
  }

  /** First Beacon wins: once a Beacon has created the Collection, any
      second Beacon for the same BSSID, with any SSID and signal, changes
      nothing; a Beacon that created nothing left the map as it was. */
  lemma AddAccessPointIdempotent(vendors: VendorsDb, m: map<string, Collection>, beacon: Info.Beacon, signal: i8,
                                 beacon2: Info.Beacon, signal2: i8, bssid: string)
    requires IsApCandidate(bssid) && bssid !in m ==> HasKey(bssid)
    ensures var r := AddAccessPointSpec(vendors, m, beacon, signal, bssid).0;
      && (bssid in r ==> AddAccessPointSpec(vendors, r, beacon2, signal2, bssid) == (r, None))
      && (bssid !in r ==> r == m)
  {
  }



  /** `add_people` records a source exactly when its vendor is a phone
      vendor, and touches no other entry. */
  lemma AddPeopleEffect(vendors: VendorsDb, pm: map<string, People>, src: string, freq: nat, signal: i8)
    requires HasKey(src)
    requires PeopleMapValid(pm)
    ensures var r := AddPeopleSpec(vendors, pm, src, freq, signal);
      && (Lookup(vendors, src) in PhoneVendors
          <==> src in r && r[src] == People(src, Lookup(vendors, src), signal, FreeSpace(freq, signal)))
      && (Lookup(vendors, src) !in PhoneVendors ==> r == pm)
      && (forall k :: k != src ==> (k in r <==> k in pm))
      && (forall k :: k != src && k in pm ==> r[k] == pm[k])
  {
  }

  /** Recording the same probe twice records it once. */
  lemma AddPeopleIdempotent(vendors: VendorsDb, pm: map<string, People>, src: string, freq: nat, signal: i8)
    requires HasKey(src)
    ensures var r := AddPeopleSpec(vendors, pm, src, freq, signal);
      AddPeopleSpec(vendors, r, src, freq, signal) == r
  {
  }

  /** One frame: people mode touches only the people map, and only for a
      Probe Request, and creates nothing; topology mode touches only the
      network map, whose keys grow at most by the frame's BSSID, and only
      that BSSID's Collection changes, by growing; a returned Collection is
      the one newly added. */
  lemma MapStepEffect(vendors: VendorsDb, s: MapState, radio: Radiotap, h: Dot11Header, people: bool)
    requires LookupsDefined(s.netMap, h, people)
    ensures var (r, ap) := MapStep(vendors, s, radio, h, people);
      && (people ==> r.netMap == s.netMap && ap.None?)
      && (people && !IsProbeRequest(h.frameControl) ==> r == s)
      && (!people ==> r.peopleMap == s.peopleMap)
      && s.netMap.Keys <= r.netMap.Keys <= s.netMap.Keys + {h.bssid}
      && (forall k :: k in s.netMap && k != h.bssid ==> r.netMap[k] == s.netMap[k])
      && (forall k :: k in s.netMap ==> Extends(s.netMap[k], r.netMap[k]))
      && (ap.Some? ==> h.bssid !in s.netMap && r.netMap == s.netMap[h.bssid := ap.value])
      && LookupsDefined(r.netMap, h, people)
  {
    if people {
      ExtendsReflexive(s.netMap);
    } else {
      TopologyStepEffect(vendors, s, radio, h);
    }
  }

  /** `MapStepEffect` in topology mode, where each frame kind reaches its own
      `add_*` call. */
  lemma TopologyStepEffect(vendors: VendorsDb, s: MapState, radio: Radiotap, h: Dot11Header)
    requires LookupsDefined(s.netMap, h, false)
    ensures var (r, ap) := MapStep(vendors, s, radio, h, false);
      && r.peopleMap == s.peopleMap
      && Grows(s.netMap, r.netMap, h.bssid)
      && (ap.Some? ==> h.bssid !in s.netMap && r.netMap == s.netMap[h.bssid := ap.value])
  {
    var signal := SignalOf(radio);
    var fc := h.frameControl;
    var m := s.netMap;
    if IsProbeRequest(fc) {
      AddToCollectionGrows(vendors, m, h.src, h.bssid, signal);
    } else if fc.frameType == FrameType.Data {
      if IsDataEdge(fc) {
        var m1 := AddToCollectionSpec(vendors, m, h.src, h.bssid, signal);
        AddToCollectionGrows(vendors, m, h.src, h.bssid, signal);
        AddToCollectionGrows(vendors, m1, h.dst, h.bssid, signal);
        GrowsTransitive(m, m1, AddToCollectionSpec(vendors, m1, h.dst, h.bssid, signal), h.bssid);
      } else if IsNullData(fc) {
        AddToCollectionGrows(vendors, m, h.dst, h.bssid, signal);
      } else {
        GrowsReflexive(m, h.bssid);
      }
    } else if fc.frameType == Management && h.info.BeaconBody? {
      AddAccessPointGrows(vendors, m, h.info.beacon, signal, h.bssid);
    } else {
      GrowsReflexive(m, h.bssid);
    }
  }

  lemma GrowsReflexive(m: map<string, Collection>, bssid: string)
    ensures Grows(m, m, bssid)
  {
    ExtendsReflexive(m);
  }

  lemma GrowsTransitive(m0: map<string, Collection>, m1: map<string, Collection>, m2: map<string, Collection>, bssid: string)
    requires Grows(m0, m1, bssid) && Grows(m1, m2, bssid)
    ensures Grows(m0, m2, bssid)
  {
    forall k | k in m0
      ensures Extends(m0[k], m2[k])
    {
      ExtendsTransitive(m0[k], m1[k], m2[k]);
    }
  }

  lemma AddToCollectionGrows(vendors: VendorsDb, m: map<string, Collection>, mac: string, bssid: string, signal: i8)
    requires IsCollectable(mac) ==> HasKey(mac)
    ensures Grows(m, AddToCollectionSpec(vendors, m, mac, bssid, signal), bssid)
  {
    AddToCollectionEffect(vendors, m, mac, bssid, signal);
  }

  lemma AddAccessPointGrows(vendors: VendorsDb, m: map<string, Collection>, beacon: Info.Beacon, signal: i8, bssid: string)
    requires IsApCandidate(bssid) && bssid !in m ==> HasKey(bssid)
    ensures var (r, ap) := AddAccessPointSpec(vendors, m, beacon, signal, bssid);
      Grows(m, r, bssid) && (ap.Some? ==> bssid !in m && r == m[bssid := ap.value])
  {
    ExtendsReflexive(m);
    AddAccessPointEffect(vendors, m, beacon, signal, bssid);
  }



  lemma ExtendsReflexive(m: map<string, Collection>)
    ensures forall k :: k in m ==> Extends(m[k], m[k])
  {
    forall k | k in m
      ensures Extends(m[k], m[k])
    {
      assert m[k].nodes[..|m[k].nodes|] == m[k].nodes;
      assert m[k].links[..|m[k].links|] == m[k].links;
    }
  }

  /** The two edges of a data frame keep the keys and only grow Collections. */
  lemma DataEdgesEffect(vendors: VendorsDb, m: map<string, Collection>, src: string, dst: string, bssid: string, signal: i8)
    requires IsCollectable(src) ==> HasKey(src)
    requires IsCollectable(dst) ==> HasKey(dst)
    ensures var m2 := AddToCollectionSpec(vendors, AddToCollectionSpec(vendors, m, src, bssid, signal), dst, bssid, signal);
      && m2.Keys == m.Keys
      && (forall k :: k in m && k != bssid ==> m2[k] == m[k])
      && (forall k :: k in m ==> Extends(m[k], m2[k]))
  {
    var m1 := AddToCollectionSpec(vendors, m, src, bssid, signal);
    var m2 := AddToCollectionSpec(vendors, m1, dst, bssid, signal);
    AddToCollectionEffect(vendors, m, src, bssid, signal);
    AddToCollectionEffect(vendors, m1, dst, bssid, signal);
    forall k | k in m
      ensures Extends(m[k], m2[k])
    {
      ExtendsTransitive(m[k], m1[k], m2[k]);
    }
  }

  /** Replaying a frame changes nothing and creates nothing: identical
      frames give one node and one link. */
  lemma MapStepIdempotent(vendors: VendorsDb, s: MapState, radio: Radiotap, h: Dot11Header, people: bool)
    requires LookupsDefined(s.netMap, h, people)
    ensures var r := MapStep(vendors, s, radio, h, people).0;
      LookupsDefined(r.netMap, h, people) && MapStep(vendors, r, radio, h, people) == (r, None)
  {
    MapStepEffect(vendors, s, radio, h, people);
    var signal := SignalOf(radio);
    var fc := h.frameControl;
    var m := s.netMap;
    if people {
      if IsProbeRequest(fc) {
        AddPeopleIdempotent(vendors, s.peopleMap, h.src, FreqOf(radio), signal);
      }
    } else if IsProbeRequest(fc) {
      AddToCollectionIdempotent(vendors, m, h.src, h.bssid, signal);
    } else if fc.frameType == FrameType.Data {
      if IsDataEdge(fc) {
        DataEdgesIdempotent(vendors, m, h.src, h.dst, h.bssid, signal);
      } else if IsNullData(fc) {
        AddToCollectionIdempotent(vendors, m, h.dst, h.bssid, signal);
      }
    } else if fc.frameType == Management && h.info.BeaconBody? {
      AddAccessPointIdempotent(vendors, m, h.info.beacon, signal, h.info.beacon, signal, h.bssid);
    }
  }

  // ---------------------------------------------------------------------------
  // Frames as the decoder delivers them

  /** Decoded data frames never carry the subtypes `map` dispatches on, so
      they change nothing. */
  lemma DecodedDataFramesIgnored(vendors: VendorsDb, s: MapState, radio: Radiotap, input: seq<byte>, people: bool)
    requires HeaderOf(input).Success? && HeaderOf(input).value.frameControl.frameType == FrameType.Data
    ensures LookupsDefined(s.netMap, HeaderOf(input).value, people)
    ensures MapStep(vendors, s, radio, HeaderOf(input).value, people) == (s, None)
  {
    NoDataSubtypeDecoded(Padded(input, 0, 2)[0]);
  }

  /** Every lookup on a decoded frame with at most one DS flag set has a
      key: its addresses are all formatted MAC fields. */
  lemma DecodedLookupsDefined(m: map<string, Collection>, input: seq<byte>, people: bool)
    requires HeaderOf(input).Success?
    requires !(HeaderOf(input).value.frameControl.toDs && HeaderOf(input).value.frameControl.fromDs)
    ensures LookupsDefined(m, HeaderOf(input).value, people)
  {
    var block := Padded(input, 4, 18);
    KeyOfMacField(Padded(block, 0, 6));
    KeyOfMacField(Padded(block, 6, 6));
    KeyOfMacField(Padded(block, 12, 6));
  }

  /** A Beacon with both DS flags set has the empty BSSID, which is a
      candidate with no lookup key: unless the map already holds it, `map`
      panics on it. */
  lemma WdsBeaconHasNoKey(m: map<string, Collection>, h: Dot11Header)
    requires h.bssid == "" && "" !in m
    requires h.frameControl.frameType == Management && h.frameControl.frameSubtype == FrameSubType.Beacon
    requires h.info.BeaconBody?
    ensures !LookupsDefined(m, h, false)
  {
    EmptyMacHasNoKey();
  }

  /** A Beacon followed by a QoS data frame from a station to the access
      point: one Collection, holding the access point's node and then the
      station's, with a link from the station and, for the destination
      edge, one from the access point to itself. */
  lemma BeaconThenDataExample(vendors: VendorsDb, radio: Radiotap, beacon: Info.Beacon, bh: Dot11Header, dh: Dot11Header)
    requires bh.frameControl.frameType == Management && bh.frameControl.frameSubtype == FrameSubType.Beacon
    requires bh.info == Info.BeaconBody(beacon) && beacon.ssid.value != []
    requires IsApCandidate(bh.bssid) && IsCollectable(bh.bssid) && HasKey(bh.bssid)
    requires dh.frameControl.frameType == FrameType.Data && dh.frameControl.frameSubtype == QoS
    requires dh.bssid == bh.bssid && dh.dst == bh.bssid
    requires dh.src != bh.bssid && IsCollectable(dh.src) && HasKey(dh.src)
    ensures LookupsDefined(map[], bh, false)
    ensures var s1 := MapStep(vendors, MapState(map[], map[]), radio, bh, false).0;
      && LookupsDefined(s1.netMap, dh, false)
      && var ap := NewAccessPoint(vendors, beacon, SignalOf(radio), bh.bssid);
      MapStep(vendors, s1, radio, dh, false).0.netMap
        == map[bh.bssid := ap.(nodes := ap.nodes + [NodeFor(vendors, dh.src, SignalOf(radio))],
                               links := [Link(dh.src, bh.bssid), Link(bh.bssid, bh.bssid)])]
  {
    BeaconStep(vendors, radio, beacon, bh);
    var ap := NewAccessPoint(vendors, beacon, SignalOf(radio), bh.bssid);
    DataEdgeStep(vendors, MapState(map[bh.bssid := ap], map[]), radio, dh);
    StationThenApEdges(vendors, bh.bssid, ap, dh.src, SignalOf(radio));
  }

  /** A station edge and then the access point's own edge, on a Collection
      holding only the access point's node. */
  lemma StationThenApEdges(vendors: VendorsDb, key: string, ap: Collection, mac: string, signal: i8)
    requires IsCollectable(mac) && HasKey(mac) && IsCollectable(key) && HasKey(key) && mac != key
    requires |ap.nodes| == 1 && ap.nodes[0].mac == key && ap.links == []
    ensures AddToCollectionSpec(vendors, AddToCollectionSpec(vendors, map[key := ap], mac, key, signal), key, key, signal)
      == map[key := ap.(nodes := ap.nodes + [NodeFor(vendors, mac, signal)], links := [Link(mac, key), Link(key, key)])]
  {
    var ap1 := PushLink(PushNode(ap, NodeFor(vendors, mac, signal)), Link(mac, key));
    assert !HasNodeFor(ap.nodes, mac);
    FirstEdge(vendors, key, ap, mac, signal);
    assert ap1.nodes[0].mac == key && ap1.links == [Link(mac, key)];
    KnownNodeEdge(vendors, key, ap1, key, signal);
    assert PushLink(ap1, Link(key, key))
      == ap.(nodes := ap.nodes + [NodeFor(vendors, mac, signal)], links := [Link(mac, key), Link(key, key)]);
  }

  /** The first Beacon of a candidate BSSID with an SSID creates its
      Collection. */
  lemma BeaconStep(vendors: VendorsDb, radio: Radiotap, beacon: Info.Beacon, bh: Dot11Header)
    requires bh.frameControl.frameType == Management && bh.frameControl.frameSubtype == FrameSubType.Beacon
    requires bh.info == Info.BeaconBody(beacon) && beacon.ssid.value != []
    requires IsApCandidate(bh.bssid) && HasKey(bh.bssid)
    ensures LookupsDefined(map[], bh, false)
    ensures MapStep(vendors, MapState(map[], map[]), radio, bh, false).0
      == MapState(map[bh.bssid := NewAccessPoint(vendors, beacon, SignalOf(radio), bh.bssid)], map[])
  {
  }

  /** A QoS or Data frame adds the source edge, then the destination edge. */
  lemma DataEdgeStep(vendors: VendorsDb, s: MapState, radio: Radiotap, dh: Dot11Header)
    requires IsDataEdge(dh.frameControl)
    requires IsCollectable(dh.src) ==> HasKey(dh.src)
    requires IsCollectable(dh.dst) ==> HasKey(dh.dst)
    ensures LookupsDefined(s.netMap, dh, false)
    ensures MapStep(vendors, s, radio, dh, false).0 == s.(netMap := AddToCollectionSpec(vendors,
      AddToCollectionSpec(vendors, s.netMap, dh.src, dh.bssid, SignalOf(radio)), dh.dst, dh.bssid, SignalOf(radio)))
  {
  }

  /** An edge from a station the Collection does not know adds its node and
      its link. */
  lemma FirstEdge(vendors: VendorsDb, key: string, c: Collection, mac: string, signal: i8)
    requires IsCollectable(mac) && HasKey(mac)
    requires !HasNodeFor(c.nodes, mac) && Link(mac, key) !in c.links
    ensures AddToCollectionSpec(vendors, map[key := c], mac, key, signal)
      == map[key := PushLink(PushNode(c, NodeFor(vendors, mac, signal)), Link(mac, key))]
  {
  }

  /** An edge from a known node adds only its link. */
  lemma KnownNodeEdge(vendors: VendorsDb, key: string, c: Collection, mac: string, signal: i8)
    requires IsCollectable(mac) && HasKey(mac)
    requires HasNodeFor(c.nodes, mac) && Link(mac, key) !in c.links
    ensures AddToCollectionSpec(vendors, map[key := c], mac, key, signal) == map[key := PushLink(c, Link(mac, key))]
  {
  }
}
