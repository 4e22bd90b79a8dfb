/** IPv6 bootstrap of one interface: duplicate address detection, router discovery and readiness. */
module Ipv6Host {
  import opened Wrappers
  import opened SequenceNumbers
  import opened InternetChecksum
  import opened Ipv6Wire

  const DAD_TICKS: U64 := 100
  const RS_TICKS: U64 := 400

  const ALL_NODES: Address := [0xff, 2, 0, 0, 0, 0, 0, 0, 0, 0, 0, 0, 0, 0, 0, 1]
  const ALL_ROUTERS: Address := [0xff, 2, 0, 0, 0, 0, 0, 0, 0, 0, 0, 0, 0, 0, 0, 2]

  datatype State = LinkLocalDad | RouterSolicitation | GlobalDad | Ready | Duplicate | Unavailable

  datatype Route = Route(address: Address, router: Address, routerMac: Mac, mtu: U16,
                         preferredUntil: U64, validUntil: U64, routerUntil: U64)

  datatype Host = Host(state: State, linkLocal: Address, route: Option<Route>, echoReply: bool, mac: Mac,
                       deadline: U64, attempts: nat, pending: bool, echoSent: bool)

  /** A control frame and why it was sent. */
  datatype Sent =
    | Probe(target: Address, frame: seq<Byte>)
    | Solicit(frame: seq<Byte>)
    | Echo(frame: seq<Byte>)
    | Advertise(target: Address, frame: seq<Byte>)
    | EchoAnswer(frame: seq<Byte>)

  // ----- addresses -----

  /** Flip the universal/local bit of a MAC's first byte. */
  function FlipLocal(b: Byte): Byte { if b / 2 % 2 == 0 then b + 2 else b - 2 }

  function LinkLocal(mac: Mac): Address {
    [0xfe, 0x80, 0, 0, 0, 0, 0, 0, FlipLocal(mac[0]), mac[1], mac[2], 0xff, 0xfe, mac[3], mac[4], mac[5]]
  }

  function SolicitedNode(a: Address): Address {
    [0xff, 2, 0, 0, 0, 0, 0, 0, 0, 0, 0, 1, 0xff, a[13], a[14], a[15]]
  }

  function MulticastMac(a: Address): Mac { [0x33, 0x33, a[12], a[13], a[14], a[15]] }

  function NewHost(mac: Mac, tick: U64): Host {
    Host(LinkLocalDad, LinkLocal(mac), None, false, mac, SaturatingAdd(tick, DAD_TICKS), 0, true, false)
  }

  // ----- neighbour discovery options -----

  /** Every option has a non-zero length and fits; the visitor below sees each once, in order. */
  predicate OptionFits(bytes: seq<Byte>) {
    |bytes| >= 2 && bytes[1] != 0 && 8 * bytes[1] <= |bytes|
  }

  /** What a router advertisement's options said so far. */
  datatype Advert = Advert(prefix: Option<(Address, U32, U32)>, mac: Option<Mac>, mtu: U16)

  predicate UsablePrefix(option: seq<Byte>)
    requires |option| == 32
  {
    option[2] == 64 && option[3] / 64 == 3 && FromBe32(option[4..8]) != 0 && FromBe32(option[8..12]) != 0
    && !IsLinkLocal(option[16..32]) && !IsMulticast(option[16..32]) && option[16..24] != [0, 0, 0, 0, 0, 0, 0, 0]
  }

  function VisitAdvert(seen: Advert, option: seq<Byte>, sourceMac: Mac): Option<Advert>
    requires |option| >= 8
  {
    if option[0] == 1 then
      if |option| != 8 || seen.mac.Some? || option[2..8] != sourceMac || option[2] % 2 != 0 then None
      else Some(seen.(mac := Some(option[2..8])))
    else if option[0] == 3 then
      if |option| != 32 || FromBe32(option[8..12]) > FromBe32(option[4..8]) then None
      else if UsablePrefix(option) && seen.prefix.None? then
        Some(seen.(prefix := Some((option[16..32], FromBe32(option[8..12]), FromBe32(option[4..8])))))
      else Some(seen)
    else if option[0] == 5 then
      if |option| != 8 then None
      else
        var advertised := FromBe32(option[4..8]);
        Some(if advertised >= 1280 then seen.(mtu := if advertised < 1500 then advertised else 1500) else seen)
    else Some(seen)
  }

  function AdvertOptions(bytes: seq<Byte>, seen: Advert, sourceMac: Mac): Option<Advert>
    decreases |bytes|
  {
    if bytes == [] then Some(seen)
    else if !OptionFits(bytes) then None
    else
      var len: nat := 8 * bytes[1] as int;
      var next := VisitAdvert(seen, bytes[..len], sourceMac);
      if next.None? then None else AdvertOptions(bytes[len..], next.value, sourceMac)
  }

  function Until(tick: U64, seconds: U32): U64 { SaturatingAdd(tick, seconds * 100) }

  /** A usable route, or nothing: one bad field refuses the whole advertisement. */
  function RouterAdvertisement(p: Packet, local: Address, tick: U64): Option<Route> {
    var body := p.payload;
    if p.nextHeader != 58 || p.hopLimit != 255 || !IsLinkLocal(p.source)
       || (p.destination != ALL_NODES && p.destination != local)
       || |body| < 16 || body[..2] != [134, 0] || !ValidTransport(p) || Word(body[6], body[7]) == 0
    then None
    else
      var seen := AdvertOptions(body[16..], Advert(None, None, 1280), p.sourceMac);
      if seen.None? || seen.value.prefix.None? || seen.value.mac.None? then None
      else
        var (prefix, preferred, valid) := seen.value.prefix.value;
        Some(Route(prefix[..8] + local[8..], p.source, seen.value.mac.value, seen.value.mtu,
                   Until(tick, preferred), Until(tick, valid), Until(tick, Word(body[6], body[7]))))
  }

  /** Neighbour options: link-layer addresses must match the sender. The value says whether a source option was seen. */
  function NeighborOptions(bytes: seq<Byte>, sourceMac: Mac, seen: bool): Option<bool>
    decreases |bytes|
  {
    if bytes == [] then Some(seen)
    else if !OptionFits(bytes) then None
    else
      var len: nat := 8 * bytes[1] as int;
      var option := bytes[..len];
      if option[0] in {1, 2} && (|option| != 8 || option[2..8] != sourceMac) then None
      else NeighborOptions(bytes[len..], sourceMac, seen || option[0] == 1)
  }

  /** What the options collected so far guarantee. */
  ghost predicate Sound(seen: Advert, sourceMac: Mac) {
    && (seen.mac.Some? ==> seen.mac.value == sourceMac && sourceMac[0] % 2 == 0) && 1280 <= seen.mtu <= 1500
    && (seen.prefix.Some? ==>
          var (prefix, preferred, valid) := seen.prefix.value;
          !IsMulticast(prefix) && !IsLinkLocal(prefix) && prefix[..8] != [0, 0, 0, 0, 0, 0, 0, 0] && 0 < preferred <= valid)
  }

  lemma {:induction false} OptionsSound(bytes: seq<Byte>, seen: Advert, sourceMac: Mac)
    requires Sound(seen, sourceMac)
    ensures var r := AdvertOptions(bytes, seen, sourceMac);
            r.Some? ==> Sound(r.value, sourceMac)
    decreases |bytes|
  {
    if bytes != [] && OptionFits(bytes) {
      var len: nat := 8 * bytes[1] as int;
      VisitSound(seen, bytes[..len], sourceMac);
      var next := VisitAdvert(seen, bytes[..len], sourceMac);
      if next.Some? { OptionsSound(bytes[len..], next.value, sourceMac); }
    }
  }

  lemma VisitSound(seen: Advert, option: seq<Byte>, sourceMac: Mac)
    requires Sound(seen, sourceMac) && |option| >= 8
    ensures var r := VisitAdvert(seen, option, sourceMac);
            r.Some? ==> Sound(r.value, sourceMac)
  {
  }

  /** A route taken from an advertisement: through its sender, on this host's interface identifier, with a usable prefix
      and an MTU and lifetimes within bounds. */
  lemma RouteSound(p: Packet, local: Address, tick: U64)
    ensures var r := RouterAdvertisement(p, local, tick);
            r.Some? ==>
              && r.value.router == p.source && IsLinkLocal(p.source) && r.value.routerMac == p.sourceMac && p.sourceMac[0] % 2 == 0
              && r.value.address[8..] == local[8..] && !IsMulticast(r.value.address) && r.value.address != UNSPECIFIED
              && 1280 <= r.value.mtu <= 1500 && tick <= r.value.preferredUntil <= r.value.validUntil && tick <= r.value.routerUntil
  {
    hide AdvertOptions, ValidTransport;
    var r := RouterAdvertisement(p, local, tick);
    if r.Some? {
      OptionsSound(p.payload[16..], Advert(None, None, 1280), p.sourceMac);
      var seen := AdvertOptions(p.payload[16..], Advert(None, None, 1280), p.sourceMac).value;
      var prefix := seen.prefix.value.0;
      assert r.value.address[..8] == prefix[..8] && UNSPECIFIED[..8] == [0, 0, 0, 0, 0, 0, 0, 0];
      assert r.value.address[0] == r.value.address[..8][0] == prefix[..8][0] == prefix[0];
      assert r.value.address[8..] == local[8..];
    }
  }

  // ----- polling -----

  function Emit(h: Host, destinationMac: Mac, source: Address, destination: Address, hop: Byte, message: seq<Byte>): seq<Byte>
    requires 4 <= |message| <= FRAME_CAPACITY
  {
    IcmpFrame(h.mac, destinationMac, source, destination, hop, message)
  }

  /** Timer transitions, before anything is sent. */
  function Expire(h: Host, tick: U64): Host {
    if h.pending || tick < h.deadline then h
    else match h.state
      case LinkLocalDad => h.(state := RouterSolicitation, pending := true)
      case GlobalDad => h.(state := Ready)
      case RouterSolicitation => if h.attempts >= 3 then h.(state := Unavailable) else h.(pending := true)
      case _ => h
  }

  /** A ready host whose prefix or router lifetime ran out starts a new discovery round. */
  function Lapse(h: Host, tick: U64): Host {
    if h.state == Ready && h.route.Some? && (tick >= h.route.value.validUntil || tick >= h.route.value.routerUntil)
    then h.(route := None, state := RouterSolicitation, pending := true, attempts := 0, echoReply := false, echoSent := false)
    else h
  }

  function ProbeMessage(target: Address): seq<Byte> { [135, 0, 0, 0, 0, 0, 0, 0] + target }

  function SendPending(h: Host, tick: U64): (Host, Option<Sent>) {
    if h.state == LinkLocalDad || (h.state == GlobalDad && h.route.Some?) then
      var target := if h.state == LinkLocalDad then h.linkLocal else h.route.value.address;
      var node := SolicitedNode(target);
      (h.(pending := false, deadline := SaturatingAdd(tick, DAD_TICKS)),
       Some(Probe(target, Emit(h, MulticastMac(node), UNSPECIFIED, node, 255, ProbeMessage(target)))))
    else if h.state == RouterSolicitation then
      (h.(pending := false, attempts := h.attempts + 1, deadline := SaturatingAdd(tick, RS_TICKS)),
       Some(Solicit(Emit(h, MulticastMac(ALL_ROUTERS), h.linkLocal, ALL_ROUTERS, 255,
                         [133, 0, 0, 0, 0, 0, 0, 0, 1, 1] + h.mac))))
    else (h.(pending := false), None)
  }

  const ECHO: seq<Byte> := [128, 0, 0, 0, 0x47, 0x36, 0, 1, 71, 101, 110, 79, 83, 54]

  function SendEcho(h: Host): (Host, Option<Sent>) {
    if h.state == Ready && !h.echoSent && h.route.Some? then
      (h.(echoSent := true),
       Some(Echo(Emit(h, h.route.value.routerMac, h.route.value.address, h.route.value.router, 64, ECHO))))
    else (h, None)
  }

  /** At most one control frame per poll; a caller without room for a whole frame changes nothing. */
  function PollHost(h: Host, tick: U64, capacity: nat): (Host, Option<Sent>) {
    if capacity < FRAME_CAPACITY then (h, None)
    else
      var h1 := Lapse(Expire(h, tick), tick);
      if h1.pending then
        var (h2, sent) := SendPending(h1, tick);
        if sent.Some? then (h2, sent) else SendEcho(h2)
      else SendEcho(h1)
  }

  // ----- receiving -----

  /** The Ethernet destination fits, the sender is another unicast station, and the ICMPv6 checksum is right. */
  predicate Admitted(h: Host, frame: seq<Byte>, p: Packet) {
    && |frame| >= 6
    && p.sourceMac[0] % 2 == 0
    && frame[..6] == (if IsMulticast(p.destination) then MulticastMac(p.destination) else h.mac)
    && p.sourceMac != h.mac && p.nextHeader == 58 && ValidTransport(p)
  }

  /** A neighbour solicitation or advertisement that passes every rule of the one-interface policy. */
  predicate NeighborAdmitted(h: Host, p: Packet) {
    var body := p.payload;
    && |body| >= 24 && body[0] in {135, 136} && p.hopLimit == 255 && body[1] == 0
    && var target: Address := body[8..24];
       && !IsMulticast(target) && target != UNSPECIFIED
       && (p.destination == h.linkLocal || p.destination == ALL_NODES || p.destination == SolicitedNode(target)
           || (h.route.Some? && h.route.value.address == p.destination))
       && var options := NeighborOptions(body[24..], p.sourceMac, false);
          && options.Some?
          && !(body[0] == 135 && p.source == UNSPECIFIED && (p.destination != SolicitedNode(target) || options.value))
          && !(body[0] == 136 && (p.source == UNSPECIFIED || (IsMulticast(p.destination) && body[4] / 64 % 2 == 1)))
  }

  function Tentative(h: Host): Option<Address> {
    if h.state == LinkLocalDad then Some(h.linkLocal)
    else if h.state == GlobalDad && h.route.Some? then Some(h.route.value.address)
    else None
  }

  /** Another station uses, or is probing for, the address this host is still testing. */
  predicate Conflicting(h: Host, frame: seq<Byte>) {
    var p := ParseFrame(frame);
    && p.Some? && Admitted(h, frame, p.value) && NeighborAdmitted(h, p.value)
    && Tentative(h) == Some(p.value.payload[8..24])
    && (p.value.payload[0] == 136 || p.value.source == UNSPECIFIED)
  }

  predicate OwnsTarget(h: Host, target: Address) {
    h.state != LinkLocalDad && h.state != Duplicate
    && (target == h.linkLocal || (h.state == Ready && h.route.Some? && h.route.value.address == target))
  }

  /** The answer to a neighbour solicitation for an address this host owns. */
  function AdvertiseFor(h: Host, p: Packet, target: Address): Sent {
    var destination := if p.source == UNSPECIFIED then ALL_NODES else p.source;
    var mac := if IsMulticast(destination) then MulticastMac(destination) else p.sourceMac;
    var flags: Byte := if p.source == UNSPECIFIED then 0x20 else 0x60;
    Advertise(target, Emit(h, mac, target, destination, 255, [136, 0, 0, 0, flags, 0, 0, 0] + target + [2, 1] + h.mac))
  }

  /** Echo traffic of a ready host. */
  function HandleEcho(h: Host, p: Packet, capacity: nat): (Host, Option<Sent>)
    requires |p.payload| >= 4
  {
    if h.state != Ready || h.route.None? then (h, None)
    else
      var body, route := p.payload, h.route.value;
      var h1 := if |body| == 14 && body == [129, 0, body[2], body[3]] + ECHO[4..] && h.echoSent
                   && p.source == route.router && p.destination == route.address
                then h.(echoReply := true) else h;
      if body[0] == 128 && body[1] == 0 && 8 <= |body| <= 128 && p.source != UNSPECIFIED && !IsMulticast(p.source)
         && (p.destination == route.address || p.destination == h.linkLocal) && HEADER + |body| <= capacity
      then (h1, Some(EchoAnswer(Emit(h, p.sourceMac, p.destination, p.source, 64, [129] + body[1..]))))
      else (h1, None)
  }

  function ReceiveHost(h: Host, frame: seq<Byte>, tick: U64, capacity: nat): (Host, Option<Sent>) {
    var parsed := ParseFrame(frame);
    if parsed.None? || !Admitted(h, frame, parsed.value) then (h, None)
    else
      var p := parsed.value;
      var body := p.payload;
      if h.state == RouterSolicitation && RouterAdvertisement(p, h.linkLocal, tick).Some? then
        (h.(route := RouterAdvertisement(p, h.linkLocal, tick), state := GlobalDad, pending := true), None)
      else if body[0] !in {135, 136} then HandleEcho(h, p, capacity)
      else if !NeighborAdmitted(h, p) then (h, None)
      else
        var target: Address := body[8..24];
        if Conflicting(h, frame) then (h.(state := Duplicate, route := None), None)
        else if body[0] == 135 && OwnsTarget(h, target) && (p.destination == target || p.destination == SolicitedNode(target)) then
          (h, if HEADER + 32 <= capacity then Some(AdvertiseFor(h, p, target)) else None)
        else HandleEcho(h, p, capacity)
  }

  // ----- the interface object -----

  /** One network interface, updated in place. */
  class Interface {
    var state: State
    var linkLocal: Address
    var route: Option<Route>
    var echoReply: bool
    var mac: Mac
    var deadline: U64
    var attempts: nat
    var pending: bool
    var echoSent: bool

    ghost function View(): Host
      reads this
    {
      Host(state, linkLocal, route, echoReply, mac, deadline, attempts, pending, echoSent)
    }

    constructor (address: Mac, tick: U64)
      ensures View() == NewHost(address, tick)
    {
      state, linkLocal, route, echoReply, mac := LinkLocalDad, LinkLocal(address), None, false, address;
      deadline, attempts, pending, echoSent := SaturatingAdd(tick, DAD_TICKS), 0, true, false;
    }

    method Poll(tick: U64, capacity: nat) returns (sent: Option<Sent>)
      modifies this
      ensures (View(), sent) == PollHost(old(View()), tick, capacity)
    {
      hide IcmpFrame, SendPending;
      if capacity < FRAME_CAPACITY { return None; }
      if !pending && tick >= deadline {
        match state
        case LinkLocalDad => state, pending := RouterSolicitation, true;
        case GlobalDad => state := Ready;
        case RouterSolicitation =>
          if attempts >= 3 { state := Unavailable; } else { pending := true; }
        case _ =>
      }
      assert View() == Expire(old(View()), tick);
      if state == Ready && route.Some? && (tick >= route.value.validUntil || tick >= route.value.routerUntil) {
        route, state, pending, attempts, echoReply, echoSent := None, RouterSolicitation, true, 0, false, false;
      }
      assert View() == Lapse(Expire(old(View()), tick), tick);
      if pending {
        sent := SendNow(tick);
        if sent.Some? { return sent; }
      }
      if state == Ready && !echoSent {
        if route.None? { return None; }
        echoSent := true;
        sent := Some(Echo(IcmpFrame(mac, route.value.routerMac, route.value.address, route.value.router, 64, ECHO)));
        return sent;
      }
      return None;
    }

    method SendNow(tick: U64) returns (sent: Option<Sent>)
      modifies this
      ensures (View(), sent) == SendPending(old(View()), tick)
    {
      hide IcmpOf, SolicitedNode, MulticastMac;
      pending := false;
      sent := None;
      if state == LinkLocalDad || (state == GlobalDad && route.Some?) {
        var target := if state == LinkLocalDad then linkLocal else route.value.address;
        var node := SolicitedNode(target);
        deadline := SaturatingAdd(tick, DAD_TICKS);
        sent := Some(Probe(target, IcmpFrame(mac, MulticastMac(node), UNSPECIFIED, node, 255, ProbeMessage(target))));
      } else if state == RouterSolicitation {
        attempts := attempts + 1;
        deadline := SaturatingAdd(tick, RS_TICKS);
        sent := Some(Solicit(IcmpFrame(mac, MulticastMac(ALL_ROUTERS), linkLocal, ALL_ROUTERS, 255,
                                       [133, 0, 0, 0, 0, 0, 0, 0, 1, 1] + mac)));
      }
    }

    /** Nothing changes before the frame has passed every check of its kind. */
    method Receive(frame: seq<Byte>, tick: U64, capacity: nat) returns (sent: Option<Sent>)
      modifies this
      ensures (View(), sent) == ReceiveHost(old(View()), frame, tick, capacity)
    {
      hide ParseFrame, Admitted, NeighborAdmitted, RouterAdvertisement, IcmpFrame;
      var parsed := ParseFrame(frame);
      var host := Host(state, linkLocal, route, echoReply, mac, deadline, attempts, pending, echoSent);
      if parsed.None? || !Admitted(host, frame, parsed.value) { return None; }
      var packet := parsed.value;
      AdmittedLength(host, frame, packet);
      if state == RouterSolicitation {
        var advertised := RouterAdvertisement(packet, linkLocal, tick);
        if advertised.Some? {
          route, state, pending := advertised, GlobalDad, true;
          return None;
        }
      }
      var body := packet.payload;
      if body[0] == 135 || body[0] == 136 {
        if !NeighborAdmitted(host, packet) { return None; }
        AdmittedNeighbor(host, packet);
        var target: Address := body[8..24];
        if Tentative(host) == Some(target) && (body[0] == 136 || packet.source == UNSPECIFIED) {
          state, route := Duplicate, None;
          return None;
        }
        if body[0] == 135 && OwnsTarget(host, target)
           && (packet.destination == target || packet.destination == SolicitedNode(target)) {
          return if HEADER + 32 <= capacity then Some(AdvertiseFor(host, packet, target)) else None;
        }
      }
      sent := Answer(packet, capacity);
    }

    /** Echo traffic of a ready interface. */
    method Answer(packet: Packet, capacity: nat) returns (sent: Option<Sent>)
      requires |packet.payload| >= 4
      modifies this
      ensures (View(), sent) == HandleEcho(old(View()), packet, capacity)
    {
      if state != Ready || route.None? { return None; }
      var body, router := packet.payload, route.value;
      if |body| == 14 && body == [129, 0, body[2], body[3]] + ECHO[4..] && echoSent
         && packet.source == router.router && packet.destination == router.address {
        echoReply := true;
      }
      if body[0] == 128 && body[1] == 0 && 8 <= |body| <= 128 && packet.source != UNSPECIFIED && !IsMulticast(packet.source)
         && (packet.destination == router.address || packet.destination == linkLocal) && HEADER + |body| <= capacity {
        return Some(EchoAnswer(IcmpFrame(mac, packet.sourceMac, packet.destination, packet.source, 64, [129] + body[1..])));
      }
      return None;
    }
  }

  // ----- runs -----

  /** What the stack does with an interface: poll it and hand the frame to the device, or give it a received frame. */
  datatype Event =
    | Poll(tick: U64, capacity: nat, transmitted: bool)
    | Receive(frame: seq<Byte>, tick: U64, capacity: nat)

  /** A polled frame the device refuses retires the interface. */
  function Step(h: Host, e: Event): (Host, Option<Sent>) {
    match e
    case Poll(tick, capacity, transmitted) =>
      var (next, sent) := PollHost(h, tick, capacity);
      (if sent.Some? && !transmitted then next.(state := Unavailable, route := None) else next, sent)
    case Receive(frame, tick, capacity) => ReceiveHost(h, frame, tick, capacity)
  }

  /** The host after the first `k` events. */
  function At(h: Host, events: seq<Event>, k: nat): Host
    requires k <= |events|
  {
    if k == 0 then h else Step(At(h, events, k - 1), events[k - 1]).0
  }

  /** What event `k` sent. */
  function SentAt(h: Host, events: seq<Event>, k: nat): Option<Sent>
    requires k < |events|
  {
    Step(At(h, events, k), events[k]).1
  }

  /** A unicast address that can be tested and used. */
  predicate Legal(a: Address) { !IsMulticast(a) && a != UNSPECIFIED }

  predicate HostOk(h: Host) {
    && (h.route.Some? <==> h.state in {GlobalDad, Ready})
    && (h.route.Some? ==> Legal(h.route.value.address)) && Legal(h.linkLocal)
    && h.attempts <= 3
    && (h.state == RouterSolicitation && h.pending ==> h.attempts < 3)
    && (h.state == LinkLocalDad ==> h.attempts == 0)
  }

  /** Event `e` ends a ready period and opens a new discovery round. */
  predicate Restarts(h: Host, e: Event) {
    e.Poll? && e.capacity >= FRAME_CAPACITY && Lapse(Expire(h, e.tick), e.tick) != Expire(h, e.tick)
  }

  // ----- one step -----

  lemma ExpireKeeps(h: Host, tick: U64)
    requires HostOk(h)
    ensures HostOk(Lapse(Expire(h, tick), tick))
  {
    hide Legal;
  }

  lemma SendKeeps(h: Host, tick: U64)
    requires HostOk(h)
    ensures h.pending ==> HostOk(SendPending(h, tick).0)
    ensures HostOk(SendEcho(h).0)
  {
    hide IcmpFrame, Legal, MulticastMac, SolicitedNode, SaturatingAdd;
  }

  lemma PollKeeps(h: Host, tick: U64, capacity: nat)
    requires HostOk(h)
    ensures HostOk(PollHost(h, tick, capacity).0)
  {
    hide Expire, Lapse, SendPending, SendEcho, HostOk;
    ExpireKeeps(h, tick);
    var h1 := Lapse(Expire(h, tick), tick);
    SendKeeps(h1, tick);
    if h1.pending { SendKeeps(SendPending(h1, tick).0, tick); }
  }

  lemma ReceiveEffect(h: Host, frame: seq<Byte>, tick: U64, capacity: nat)
    ensures var (next, sent) := ReceiveHost(h, frame, tick, capacity);
            && next.attempts == h.attempts && next.deadline == h.deadline && next.linkLocal == h.linkLocal
            && (sent.Some? ==> !sent.value.Solicit? && !sent.value.Probe?)
            && (h.state == Duplicate ==> sent.None?)
            && (|| (next.state == h.state && next.route == h.route && next.pending == h.pending && !Conflicting(h, frame))
                || (next.state == Duplicate && next.route.None? && h.state in {LinkLocalDad, GlobalDad} && Conflicting(h, frame))
                || (next.state == GlobalDad && next.route.Some? && Legal(next.route.value.address) && next.pending
                    && h.state == RouterSolicitation))
  {
    hide ParseFrame, Admitted, RouterAdvertisement, NeighborOptions, IcmpFrame;
    var parsed := ParseFrame(frame);
    if parsed.Some? && Admitted(h, frame, parsed.value) {
      AdmittedLength(h, frame, parsed.value);
      RouteSound(parsed.value, h.linkLocal, tick);
    }
  }

  lemma AdmittedLength(h: Host, frame: seq<Byte>, p: Packet)
    requires Admitted(h, frame, p)
    ensures |p.payload| >= 4
  {
  }

  lemma AdmittedNeighbor(h: Host, p: Packet)
    requires NeighborAdmitted(h, p)
    ensures |p.payload| >= 24
  {
  }

  lemma StepKeeps(h: Host, e: Event)
    requires HostOk(h)
    ensures HostOk(Step(h, e).0)
  {
    hide PollHost, ReceiveHost, Conflicting;
    match e
    case Poll(tick, capacity, transmitted) => PollKeeps(h, tick, capacity);
    case Receive(frame, tick, capacity) => ReceiveEffect(h, frame, tick, capacity);
  }

  /** Whatever happens to a duplicate, it stays one and stays silent. */
  lemma DuplicateStep(h: Host, e: Event)
    requires h.state == Duplicate
    ensures Step(h, e).0.state == Duplicate && Step(h, e).1.None?
  {
    hide Conflicting, IcmpFrame, ReceiveHost;
    if e.Receive? { ReceiveEffect(h, e.frame, e.tick, e.capacity); }
  }

  /** A solicitation is counted when it is sent, and nothing else moves the count except a new round. */
  lemma AttemptsStep(h: Host, e: Event)
    ensures var (next, sent) := Step(h, e);
            next.attempts == (if Restarts(h, e) then 0 else h.attempts) + if sent.Some? && sent.value.Solicit? then 1 else 0
  {
    hide Conflicting, IcmpFrame, ReceiveHost;
    if e.Receive? { ReceiveEffect(h, e.frame, e.tick, e.capacity); }
  }

  /** The only ways into, and the only way to stay in, a test of a global address whose probe is out. */
  lemma TestingStep(h: Host, e: Event)
    ensures var (next, sent) := Step(h, e);
            next.state == GlobalDad && !next.pending ==>
              && h.state == GlobalDad && next.route == h.route && h.route.Some?
              && if h.pending
                 then e.Poll? && e.transmitted && sent.Some? && sent.value.Probe?
                      && sent.value.target == h.route.value.address && next.deadline == SaturatingAdd(e.tick, DAD_TICKS)
                 else next.deadline == h.deadline && (e.Receive? ==> !Conflicting(h, e.frame))
    requires HostOk(h)
  {
    hide Conflicting, IcmpFrame, ReceiveHost;
    if e.Receive? { ReceiveEffect(h, e.frame, e.tick, e.capacity); }
  }

  /** The only way to become ready is a test whose deadline passed. */
  lemma ReadyStep(h: Host, e: Event)
    requires HostOk(h)
    ensures var next := Step(h, e).0;
            next.state == Ready ==>
              && next.route == h.route && h.route.Some?
              && (h.state == Ready || (h.state == GlobalDad && !h.pending && e.Poll? && e.tick >= h.deadline))
  {
    hide Conflicting, IcmpFrame, ReceiveHost;
    if e.Receive? { ReceiveEffect(h, e.frame, e.tick, e.capacity); }
  }

  /** A host becomes ready only while its route still has lifetime left, so never at the last tick of the clock. */
  lemma ReadyTick(h: Host, e: Event)
    requires HostOk(h) && h.state != Ready && Step(h, e).0.state == Ready
    ensures e.tick < U64_MAX
  {
    hide Conflicting, PollHost, ReceiveHost;
    if e.Poll? { PollState(h, e.tick, e.capacity); }
    if e.Receive? { ReceiveEffect(h, e.frame, e.tick, e.capacity); }
  }

  /** Past the test of the link-local address. */
  predicate PastLocal(h: Host) { h.state in {RouterSolicitation, GlobalDad, Ready} }

  /** The only ways to stay in a test of the link-local address whose probe is out. */
  lemma LocalStep(h: Host, e: Event)
    ensures var (next, sent) := Step(h, e);
            next.state == LinkLocalDad ==>
              && h.state == LinkLocalDad && next.linkLocal == h.linkLocal
              && (!next.pending ==>
                    if h.pending
                    then e.Poll? && e.transmitted && sent.Some? && sent.value.Probe?
                         && sent.value.target == h.linkLocal && next.deadline == SaturatingAdd(e.tick, DAD_TICKS)
                    else next.deadline == h.deadline && (e.Receive? ==> !Conflicting(h, e.frame)))
  {
    hide Conflicting, IcmpFrame, ReceiveHost;
    if e.Receive? { ReceiveEffect(h, e.frame, e.tick, e.capacity); }
  }

  /** What a poll sends does not change where the host stands. */
  lemma PollState(h: Host, tick: U64, capacity: nat)
    ensures var next := PollHost(h, tick, capacity).0;
            var h1 := if capacity < FRAME_CAPACITY then h else Lapse(Expire(h, tick), tick);
            next.state == h1.state && next.route == h1.route && next.linkLocal == h.linkLocal
  {
    hide IcmpFrame, MulticastMac, SolicitedNode, SaturatingAdd;
  }

  /** The only way past the test of the link-local address is a poll at or after its deadline. */
  lemma PastStep(h: Host, e: Event)
    ensures var next := Step(h, e).0;
            && next.linkLocal == h.linkLocal
            && (PastLocal(next) ==>
                  || PastLocal(h)
                  || (h.state == LinkLocalDad && !h.pending && e.Poll? && e.tick >= h.deadline && next.state == RouterSolicitation))
  {
    hide Conflicting, PollHost, ReceiveHost;
    if e.Poll? { PollState(h, e.tick, e.capacity); }
    if e.Receive? { ReceiveEffect(h, e.frame, e.tick, e.capacity); }
  }

  // ----- whole runs -----

  /** In every run: a route exists exactly in GlobalDad and Ready, and the solicitation counter stays within three. */
  lemma {:induction false} RunKeeps(mac: Mac, start: U64, events: seq<Event>, n: nat)
    requires n <= |events|
    ensures HostOk(At(NewHost(mac, start), events, n))
  {
    hide Step;
    if n > 0 {
      RunKeeps(mac, start, events, n - 1);
      StepKeeps(At(NewHost(mac, start), events, n - 1), events[n - 1]);
    }
  }

  /** In every run: once an address is found duplicate the interface stays so, and never sends again. */
  lemma {:induction false} DuplicateForever(h: Host, events: seq<Event>, m: nat, n: nat)
    requires m <= n <= |events| && At(h, events, m).state == Duplicate
    ensures At(h, events, n).state == Duplicate
    ensures n < |events| ==> SentAt(h, events, n).None?
    decreases n
  {
    if m < n {
      DuplicateForever(h, events, m, n - 1);
      DuplicateStep(At(h, events, n - 1), events[n - 1]);
    }
    if n < |events| { DuplicateStep(At(h, events, n), events[n]); }
  }

  /** Router solicitations sent by events `m..n`. */
  function Solicitations(h: Host, events: seq<Event>, m: nat, n: nat): nat
    requires m <= n <= |events|
    decreases n - m
  {
    if m == n then 0
    else Solicitations(h, events, m, n - 1)
         + if SentAt(h, events, n - 1).Some? && SentAt(h, events, n - 1).value.Solicit? then 1 else 0
  }

  /** In every run: between two starts of a discovery round at most three solicitations are sent. The first event
      of the stretch may itself start the round. */
  lemma ThreeSolicitations(mac: Mac, start: U64, events: seq<Event>, m: nat, n: nat)
    requires m <= n <= |events|
    requires forall k :: m < k < n ==> !Restarts(At(NewHost(mac, start), events, k), events[k])
    ensures Solicitations(NewHost(mac, start), events, m, n) <= 3
  {
    RunKeeps(mac, start, events, n);
    SolicitationsCounted(NewHost(mac, start), events, m, n);
  }

  lemma {:induction false} SolicitationsCounted(h: Host, events: seq<Event>, m: nat, n: nat)
    requires m <= n <= |events|
    requires forall k :: m < k < n ==> !Restarts(At(h, events, k), events[k])
    ensures Solicitations(h, events, m, n) <= At(h, events, n).attempts
    decreases n - m
  {
    hide Step, Restarts;
    if m < n {
      SolicitationsCounted(h, events, m, n - 1);
      AttemptsStep(At(h, events, n - 1), events[n - 1]);
    }
  }

  /** Event `i` put a probe for `address` on the wire, and since then up to the state before event `n` the host has
      only been testing that address, with no conflicting packet among events `i..n`. */
  ghost predicate Testing(h: Host, events: seq<Event>, i: nat, n: nat, route: Option<Route>)
    requires i < n <= |events|
  {
    && route.Some? && events[i].Poll? && events[i].transmitted
    && SentAt(h, events, i).Some? && SentAt(h, events, i).value.Probe?
    && SentAt(h, events, i).value.target == route.value.address
    && (forall k :: i < k <= n ==> At(h, events, k).state == GlobalDad && At(h, events, k).route == route)
    && (forall k :: i < k < n && events[k].Receive? ==> !Conflicting(At(h, events, k), events[k].frame))
  }

  lemma {:induction false} TestingSince(mac: Mac, start: U64, events: seq<Event>, n: nat) returns (i: nat)
    requires n <= |events|
    requires At(NewHost(mac, start), events, n).state == GlobalDad && !At(NewHost(mac, start), events, n).pending
    ensures i < n && Testing(NewHost(mac, start), events, i, n, At(NewHost(mac, start), events, n).route)
    ensures At(NewHost(mac, start), events, n).deadline == SaturatingAdd(events[i].tick, DAD_TICKS)
  {
    hide Step, Conflicting, SaturatingAdd;
    var h := NewHost(mac, start);
    RunKeeps(mac, start, events, n - 1);
    TestingStep(At(h, events, n - 1), events[n - 1]);
    if At(h, events, n - 1).pending {
      i := n - 1;
    } else {
      i := TestingSince(mac, start, events, n - 1);
    }
  }

  /** In every run, a ready interface once probed for exactly the address it now uses, then waited at least
      `DAD_TICKS` without one conflicting packet, and has kept that route since. */
  lemma {:induction false} ReadyWasTested(mac: Mac, start: U64, events: seq<Event>, n: nat) returns (i: nat, j: nat)
    requires n <= |events| && At(NewHost(mac, start), events, n).state == Ready
    ensures i < j < n && events[j].Poll? && events[i].Poll?
    ensures events[j].tick - events[i].tick >= DAD_TICKS
    ensures Testing(NewHost(mac, start), events, i, j, At(NewHost(mac, start), events, n).route)
    ensures forall k :: j < k <= n ==> At(NewHost(mac, start), events, k).state == Ready
                                       && At(NewHost(mac, start), events, k).route == At(NewHost(mac, start), events, n).route
  {
    hide Step, Conflicting;
    var h := NewHost(mac, start);
    RunKeeps(mac, start, events, n - 1);
    ReadyStep(At(h, events, n - 1), events[n - 1]);
    if At(h, events, n - 1).state == Ready {
      i, j := ReadyWasTested(mac, start, events, n - 1);
    } else {
      j := n - 1;
      ReadyTick(At(h, events, j), events[j]);
      i := TestingSince(mac, start, events, j);
    }
  }

  // ----- the link-local test -----

  /** Event `i` put a probe for the link-local address on the wire, and up to the state before event `n` the host has
      only been testing that address, with no conflicting packet among events `i..n`. */
  ghost predicate TestingLocal(h: Host, events: seq<Event>, i: nat, n: nat)
    requires i < n <= |events|
  {
    && events[i].Poll? && events[i].transmitted
    && SentAt(h, events, i).Some? && SentAt(h, events, i).value.Probe? && SentAt(h, events, i).value.target == h.linkLocal
    && (forall k :: i < k <= n ==> At(h, events, k).state == LinkLocalDad && !At(h, events, k).pending)
    && (forall k :: i < k < n && events[k].Receive? ==> !Conflicting(At(h, events, k), events[k].frame))
  }

  /** Event `j` ended, without a conflict, the link-local test that event `i` began. */
  ghost predicate PassedLocal(h: Host, events: seq<Event>, i: nat, j: nat)
  {
    && i < j < |events| && TestingLocal(h, events, i, j)
    && events[j].Poll? && At(h, events, j + 1).state == RouterSolicitation
  }

  lemma {:induction false} LinkLocalStays(h: Host, events: seq<Event>, n: nat)
    requires n <= |events|
    ensures At(h, events, n).linkLocal == h.linkLocal
  {
    hide Step;
    if n > 0 {
      LinkLocalStays(h, events, n - 1);
      PastStep(At(h, events, n - 1), events[n - 1]);
    }
  }

  lemma {:induction false} TestingLocalSince(h: Host, events: seq<Event>, n: nat) returns (i: nat)
    requires n <= |events| && h.pending
    requires At(h, events, n).state == LinkLocalDad && !At(h, events, n).pending
    ensures i < n && TestingLocal(h, events, i, n)
    ensures At(h, events, n).deadline == SaturatingAdd(events[i].tick, DAD_TICKS)
  {
    hide Step, Conflicting, SaturatingAdd;
    LinkLocalStays(h, events, n - 1);
    LocalStep(At(h, events, n - 1), events[n - 1]);
    if At(h, events, n - 1).pending {
      i := n - 1;
    } else {
      i := TestingLocalSince(h, events, n - 1);
    }
  }

  /** While a link-local test runs, its deadline is the one set when its probe was sent. */
  lemma {:induction false} LocalDeadline(h: Host, events: seq<Event>, i: nat, n: nat)
    requires i < n <= |events| && At(h, events, i).state == LinkLocalDad && At(h, events, i).pending
    requires forall k :: i < k <= n ==> At(h, events, k).state == LinkLocalDad && !At(h, events, k).pending
    ensures At(h, events, n).deadline == SaturatingAdd(events[i].tick, DAD_TICKS)
    decreases n
  {
    hide Step, Conflicting, SaturatingAdd;
    LocalStep(At(h, events, n - 1), events[n - 1]);
    if i < n - 1 { LocalDeadline(h, events, i, n - 1); }
  }

  /** In every run, an interface that solicits routers, tests a global address or is ready once probed for its link-local
      address, met no conflict until the deadline of that probe, and has been past that test since. */
  lemma {:induction false} LocalWasTested(mac: Mac, start: U64, events: seq<Event>, n: nat) returns (i: nat, j: nat)
    requires n <= |events| && PastLocal(At(NewHost(mac, start), events, n))
    ensures j < n && PassedLocal(NewHost(mac, start), events, i, j)
    ensures events[j].tick >= SaturatingAdd(events[i].tick, DAD_TICKS)
    ensures forall k :: j < k <= n ==> PastLocal(At(NewHost(mac, start), events, k))
  {
    hide Step, Conflicting, SaturatingAdd, LinkLocal;
    var h := NewHost(mac, start);
    PastStep(At(h, events, n - 1), events[n - 1]);
    if PastLocal(At(h, events, n - 1)) {
      i, j := LocalWasTested(mac, start, events, n - 1);
    } else {
      j := n - 1;
      i := TestingLocalSince(h, events, j);
    }
  }

  /** Every run that begins with these events waits at least `DAD_TICKS` before it passes the test begun by event `i`. */
  ghost predicate AlwaysWaits(h: Host, events: seq<Event>, i: nat)
    requires i < |events|
  {
    forall run: seq<Event>, j: nat ::
      PassedLocal(h, run, i, j) && run[..i + 1] == events[..i + 1] ==> run[j].tick - run[i].tick >= DAD_TICKS
  }

  /** A link-local test waits its whole time in every continuation exactly when its probe was sent at least `DAD_TICKS`
      before the end of the clock. */
  lemma LocalWaitExact(h: Host, events: seq<Event>, i: nat)
    requires i < |events| && At(h, events, i).state == LinkLocalDad && At(h, events, i).pending
    requires At(h, events, i + 1).state == LinkLocalDad && !At(h, events, i + 1).pending
    ensures AlwaysWaits(h, events, i) <==> events[i].tick <= U64_MAX - DAD_TICKS
  {
    hide Step, Conflicting;
    if events[i].tick <= U64_MAX - DAD_TICKS {
      forall run: seq<Event>, j: nat | PassedLocal(h, run, i, j) && run[..i + 1] == events[..i + 1]
        ensures run[j].tick - run[i].tick >= DAD_TICKS
      {
        assert run[i] == run[..i + 1][i] && events[..i] == events[..i + 1][..i] == run[..i];
        SamePrefix(h, events, run, i);
        LocalDeadline(h, run, i, j);
        PastStep(At(h, run, j), run[j]);
      }
    } else {
      var last := Poll(U64_MAX, FRAME_CAPACITY, true);
      var run := events[..i + 1] + [last];
      SamePrefix(h, events, run, i);
      SamePrefix(h, events, run, i + 1);
      LocalStep(At(h, run, i), run[i]);
      LinkLocalStays(h, run, i);
      LocalEnds(At(h, run, i + 1), last);
      assert PassedLocal(h, run, i, i + 1);
    }
  }

  lemma {:induction false} SamePrefix(h: Host, events: seq<Event>, run: seq<Event>, n: nat)
    requires n <= |events| && n <= |run| && events[..n] == run[..n]
    ensures At(h, events, n) == At(h, run, n)
  {
    hide Step;
    if n > 0 {
      assert events[..n - 1] == events[..n][..n - 1] == run[..n - 1];
      assert events[n - 1] == events[..n][n - 1] == run[n - 1];
      SamePrefix(h, events, run, n - 1);
    }
  }

  lemma LocalEnds(h: Host, e: Event)
    requires h.state == LinkLocalDad && !h.pending && e == Poll(U64_MAX, FRAME_CAPACITY, true)
    ensures Step(h, e).0.state == RouterSolicitation
  {
    hide IcmpFrame;
  }

  /** The wait that falls short: probed one tick before the end of the clock, passed at its end. */
  lemma LocalWaitsLess()
    ensures var h := NewHost([2, 0, 0, 0, 0, 1], 0);
            var events := [Poll(U64_MAX - 1, FRAME_CAPACITY, true), Poll(U64_MAX, FRAME_CAPACITY, true)];
            PassedLocal(h, events, 0, 1) && events[1].tick - events[0].tick == 1
  {
    hide IcmpFrame, Conflicting;
    var h := NewHost([2, 0, 0, 0, 0, 1], 0);
    var events := [Poll(U64_MAX - 1, FRAME_CAPACITY, true), Poll(U64_MAX, FRAME_CAPACITY, true)];
    assert At(h, events, 0) == h;
    assert At(h, events, 1) == Step(h, events[0]).0;
    assert At(h, events, 2) == Step(At(h, events, 1), events[1]).0;
  }

  // ----- the probe seen from the other side -----

  /** A probe for an address, received by any other interface still testing that address, is a conflict: with
      `DuplicateForever`, the receiver never becomes ready with it. */
  lemma ProbeConflicts(h: Host, sender: Mac, target: Address)
    requires Tentative(h) == Some(target) && sender != h.mac && sender[0] % 2 == 0
    requires !IsMulticast(target) && target != UNSPECIFIED
    ensures Conflicting(h, IcmpFrame(sender, MulticastMac(SolicitedNode(target)), UNSPECIFIED, SolicitedNode(target), 255,
                                     ProbeMessage(target)))
  {
    hide IcmpFrame, ParseFrame, Admitted, NeighborAdmitted, IcmpOf;
    var node := SolicitedNode(target);
    var message := ProbeMessage(target);
    var frame := IcmpFrame(sender, MulticastMac(node), UNSPECIFIED, node, 255, message);
    ProbePayload(target);
    ProbeParsed(sender, target);
    ProbeAdmitted(h, sender, target);
    ProbeNeighbor(h, sender, target);
  }

  /** In every run: while an address is being tested, one probe for it from any other station ends the test. */
  lemma RivalProbe(mac: Mac, start: U64, events: seq<Event>, n: nat, sender: Mac, target: Address, tick: U64, capacity: nat)
    requires n <= |events| && Tentative(At(NewHost(mac, start), events, n)) == Some(target)
    requires sender != At(NewHost(mac, start), events, n).mac && sender[0] % 2 == 0
    ensures Step(At(NewHost(mac, start), events, n), Receive(ProbeFrame(sender, target), tick, capacity)).0.state == Duplicate
  {
    hide Step, At, Conflicting, IcmpFrame;
    var h := At(NewHost(mac, start), events, n);
    RunKeeps(mac, start, events, n);
    ProbeConflicts(h, sender, target);
    ConflictEnds(h, ProbeFrame(sender, target), tick, capacity);
  }

  lemma ConflictEnds(h: Host, frame: seq<Byte>, tick: U64, capacity: nat)
    requires Conflicting(h, frame)
    ensures Step(h, Receive(frame, tick, capacity)).0.state == Duplicate
  {
    hide ParseFrame, Admitted, RouterAdvertisement, NeighborOptions, IcmpFrame;
    AdmittedLength(h, frame, ParseFrame(frame).value);
  }

  // ----- answering an echo request -----

  /** What an echo request carries. */
  predicate EchoRequest(message: seq<Byte>) { 8 <= |message| <= 128 && message[0] == 128 && message[1] == 0 }

  /** The frame another station sends to ask for an echo. */
  function RequestFrame(h: Host, sender: Mac, source: Address, destination: Address, hop: Byte, message: seq<Byte>): seq<Byte>
    requires EchoRequest(message)
  {
    IcmpFrame(sender, h.mac, source, destination, hop, message)
  }

  /** A ready host answers an echo request for its address: the answer parses, verifies, goes back to where the request came
      from and carries the same identifier, sequence number and data. */
  lemma EchoAnswered(h: Host, sender: Mac, source: Address, hop: Byte, message: seq<Byte>, tick: U64)
    requires h.state == Ready && h.route.Some? && Legal(h.route.value.address) && Legal(source) && hop != 0
    requires sender != h.mac && sender[0] % 2 == 0 && EchoRequest(message)
    ensures var (next, sent) := ReceiveHost(h, RequestFrame(h, sender, source, h.route.value.address, hop, message), tick, FRAME_CAPACITY);
            && next == h && sent.Some? && sent.value.EchoAnswer?
            && var parsed := ParseFrame(sent.value.frame);
               && parsed.Some? && ValidTransport(parsed.value)
               && parsed.value.(payload := []) == Packet(h.mac, h.route.value.address, source, 58, 64, [])
               && |parsed.value.payload| == |message| && parsed.value.payload[..2] == [129, 0] && parsed.value.payload[4..] == message[4..]
  {
    hide IcmpFrame, ParseFrame, ValidTransport, IcmpOf, RouterAdvertisement, NeighborAdmitted, Conflicting;
    var local := h.route.value.address;
    var frame := RequestFrame(h, sender, source, local, hop, message);
    var p := Packet(sender, source, local, 58, hop, IcmpOf(source, local, message));
    RequestParsed(h, sender, source, local, hop, message);
    FilledBody(source, local, message);
    var answer := [129] + p.payload[1..];
    FilledBody(local, source, answer);
    AnswerParsed(h, sender, source, local, answer);
  }

  lemma FilledBody(source: Address, destination: Address, message: seq<Byte>)
    requires |message| >= 4
    ensures var body := IcmpOf(source, destination, message);
            |body| == |message| && body[..2] == message[..2] && body[0] == message[0] && body[1] == message[1] && body[4..] == message[4..]
  {
    hide TransportChecksumOf;
    var sum := TransportChecksumOf(source, destination, 58, WithChecksum(message, 0));
    WithLength(message, sum);
    assert WithChecksum(message, sum)[..2] == message[..2];
    assert WithChecksum(message, sum)[4..] == message[4..];
  }

  lemma RequestParsed(h: Host, sender: Mac, source: Address, local: Address, hop: Byte, message: seq<Byte>)
    requires EchoRequest(message) && Legal(source) && Legal(local) && hop != 0 && sender != h.mac && sender[0] % 2 == 0
    ensures var frame := RequestFrame(h, sender, source, local, hop, message);
            var p := Packet(sender, source, local, 58, hop, IcmpOf(source, local, message));
            ParseFrame(frame) == Some(p) && Admitted(h, frame, p)
  {
    hide ParseFrame, ValidTransport, IcmpOf;
    var frame := RequestFrame(h, sender, source, local, hop, message);
    IcmpRoundTrip(sender, h.mac, source, local, hop, message, []);
    assert frame + [] == frame;
    FrameLength(sender, h.mac, source, local, hop, message);
    assert frame[..6] == h.mac;
  }

  lemma AnswerParsed(h: Host, sender: Mac, source: Address, local: Address, answer: seq<Byte>)
    requires 8 <= |answer| <= 128 && Legal(source) && Legal(local)
    ensures var frame := IcmpFrame(h.mac, sender, local, source, 64, answer);
            var p := Packet(h.mac, local, source, 58, 64, IcmpOf(local, source, answer));
            ParseFrame(frame) == Some(p) && ValidTransport(p)
  {
    hide ParseFrame, ValidTransport, IcmpOf, IcmpFrame;
    var frame := IcmpFrame(h.mac, sender, local, source, 64, answer);
    IcmpRoundTrip(h.mac, sender, local, source, 64, answer, []);
    assert frame + [] == frame;
  }

  /** The packet a probe parses to. */
  function ProbePacket(sender: Mac, target: Address): Packet {
    Packet(sender, UNSPECIFIED, SolicitedNode(target), 58, 255, IcmpOf(UNSPECIFIED, SolicitedNode(target), ProbeMessage(target)))
  }

  function ProbeFrame(sender: Mac, target: Address): seq<Byte> {
    IcmpFrame(sender, MulticastMac(SolicitedNode(target)), UNSPECIFIED, SolicitedNode(target), 255, ProbeMessage(target))
  }

  lemma ProbePayload(target: Address)
    ensures var body := IcmpOf(UNSPECIFIED, SolicitedNode(target), ProbeMessage(target));
            |body| == 24 && body[0] == 135 && body[1] == 0 && body[8..24] == target && body[24..] == []
  {
    hide TransportChecksumOf;
    var message := ProbeMessage(target);
    var sum := TransportChecksumOf(UNSPECIFIED, SolicitedNode(target), 58, WithChecksum(message, 0));
    WithLength(message, sum);
    assert message[4..] == [0, 0, 0, 0] + target;
    assert WithChecksum(message, sum) == [135, 0] + Be16(sum) + [0, 0, 0, 0] + target;
  }

  lemma ProbeParsed(sender: Mac, target: Address)
    ensures ParseFrame(ProbeFrame(sender, target)) == Some(ProbePacket(sender, target)) && ValidTransport(ProbePacket(sender, target))
  {
    hide IcmpFrame, ParseFrame, ValidTransport, IcmpOf;
    var node := SolicitedNode(target);
    IcmpRoundTrip(sender, MulticastMac(node), UNSPECIFIED, node, 255, ProbeMessage(target), []);
    assert ProbeFrame(sender, target) + [] == ProbeFrame(sender, target);
  }

  lemma ProbeAdmitted(h: Host, sender: Mac, target: Address)
    requires sender != h.mac && sender[0] % 2 == 0
    ensures Admitted(h, ProbeFrame(sender, target), ProbePacket(sender, target))
  {
    hide ValidTransport, IcmpOf;
    var node := SolicitedNode(target);
    ProbeParsed(sender, target);
    FrameLength(sender, MulticastMac(node), UNSPECIFIED, node, 255, ProbeMessage(target));
    assert ProbeFrame(sender, target)[..6] == MulticastMac(node);
  }

  lemma ProbeNeighbor(h: Host, sender: Mac, target: Address)
    requires !IsMulticast(target) && target != UNSPECIFIED
    ensures NeighborAdmitted(h, ProbePacket(sender, target))
  {
    hide IcmpOf, SolicitedNode;
    ProbePayload(target);
  }
}
