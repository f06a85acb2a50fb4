/**
 The per-source traffic table of the network monitor: the counter record kept
 for each source address, the fold of one captured packet into that record, and
 the table itself, which behaves like a Python dictionary (a mapping plus the
 order in which its keys were first inserted).
 */
module Traffic {

  /** A source address as the capture layer renders it, e.g. "10.0.0.7". */
  type Ip = string

  /** The SYN bit of the TCP header's control-bits octet (section 3.1 of RFC 9293). */
  const SynBit: bv8 := 0x02

  /**
   Scapy's `flags.S`: the control bits are, from the most significant, CWR ECE
   URG ACK PSH RST SYN FIN, so SYN is bit 1 counted from the least significant.
   */
  predicate HasSyn(flags: bv8)
    ensures HasSyn(flags) <==> (flags as int / 2) % 2 == 1
  {
    flags & SynBit != 0
  }

  /**
   What the monitor looks at in a captured frame: whether it carries an IP
   layer, the IP source, the frame length, whether it carries a TCP layer (and
   that layer's control bits) and whether it carries a UDP layer.
   */
  datatype Packet = Packet(hasIp: bool, src: Ip, length: nat, hasTcp: bool, tcpFlags: bv8, hasUdp: bool)

  /** One captured packet together with the (whole-second) time it was folded in. */
  datatype Event = Event(packet: Packet, time: int)

  /** The counters kept per source address during one window. */
  datatype Record = Record(
    packetCount: nat,
    totalBytes: nat,
    tcpCount: nat,
    udpCount: nat,
    synCount: nat,
    lastSeen: int)

  /** What a record reads as before its first packet: every counter, and last_seen, is 0. */
  const Zero := Record(0, 0, 0, 0, 0, 0)

  /** Every packet is counted at most once per protocol, and a SYN only on a TCP packet. */
  predicate Consistent(r: Record)
  {
    r.tcpCount + r.udpCount <= r.packetCount && r.synCount <= r.tcpCount
  }

  /** Folds one IP packet seen at time `now` into a source's record. */
  function Count(r: Record, p: Packet, now: int): (r': Record)
    ensures r'.packetCount == r.packetCount + 1
    ensures r'.totalBytes == r.totalBytes + p.length
    ensures r'.lastSeen == now
    ensures p.hasTcp ==>
      && r'.tcpCount == r.tcpCount + 1
      && r'.synCount == (if HasSyn(p.tcpFlags) then r.synCount + 1 else r.synCount)
      && r'.udpCount == r.udpCount
    ensures !p.hasTcp && p.hasUdp ==>
      r'.udpCount == r.udpCount + 1 && r'.tcpCount == r.tcpCount && r'.synCount == r.synCount
    ensures !p.hasTcp && !p.hasUdp ==>
      r'.tcpCount == r.tcpCount && r'.udpCount == r.udpCount && r'.synCount == r.synCount
    ensures Consistent(r) ==> Consistent(r')
  {
    var basic := r.(packetCount := r.packetCount + 1, lastSeen := now, totalBytes := r.totalBytes + p.length);
    if p.hasTcp then
      var tcp := basic.(tcpCount := basic.tcpCount + 1);
      if HasSyn(p.tcpFlags) then tcp.(synCount := tcp.synCount + 1) else tcp
    else if p.hasUdp then
      basic.(udpCount := basic.udpCount + 1)
    else
      basic
  }

  /**
   The traffic table: `stats` maps each source seen this window to its record
   and `order` lists those sources in the order they first appeared, which is
   the order a Python dictionary iterates its keys in.
   */
  datatype Table = Table(order: seq<Ip>, stats: map<Ip, Record>)

  const Empty := Table([], map[])

  predicate Distinct(s: seq<Ip>)
  {
    forall i, j :: 0 <= i < j < |s| ==> s[i] != s[j]
  }

  /** The table's invariant: each key listed once, exactly the mapped keys, every record consistent. */
  predicate WellFormed(t: Table)
  {
    && Distinct(t.order)
    && (forall ip :: ip in t.order ==> ip in t.stats)
    && (forall ip :: ip in t.stats ==> ip in t.order)
    && (forall ip :: ip in t.stats ==> Consistent(t.stats[ip]))
  }

  /** Reading a source's record the way a defaultdict does: a missing record reads as Zero. */
  function Lookup(t: Table, ip: Ip): (r: Record)
    ensures ip in t.stats ==> r == t.stats[ip]
    ensures ip !in t.stats ==> r == Zero && Consistent(r)
    ensures WellFormed(t) ==> Consistent(r)
  {
    if ip in t.stats then t.stats[ip] else Zero
  }

  /**
   The locked part of packet processing: a frame without an IP layer is
   ignored; otherwise its source's record (created on first access, at the end
   of the key order) counts it.
   */
  function Ingest(t: Table, p: Packet, now: int): (t': Table)
    ensures !p.hasIp ==> t' == t
    ensures p.hasIp ==> p.src in t'.stats && t'.stats[p.src] == Count(Lookup(t, p.src), p, now)
    ensures forall ip :: ip != p.src ==> (ip in t'.stats <==> ip in t.stats) && Lookup(t', ip) == Lookup(t, ip)
    ensures p.hasIp && p.src in t.stats ==> t'.order == t.order
    ensures p.hasIp && p.src !in t.stats ==> t'.order == t.order + [p.src]
    ensures WellFormed(t) ==> WellFormed(t')
  {
    if !p.hasIp then
      t
    else
      var order' := if p.src in t.stats then t.order else t.order + [p.src];
      var t' := Table(order', t.stats[p.src := Count(Lookup(t, p.src), p, now)]);
      assert WellFormed(t) ==> Distinct(t'.order) by {
        if WellFormed(t) && p.src !in t.stats {
          assert p.src !in t.order;
        }
      }
      t'
  }

  /** Folds a stream of events into the table, earliest first. */
  function IngestAll(t: Table, events: seq<Event>): Table
    decreases |events|
  {
    if events == [] then t
    else IngestAll(Ingest(t, events[0].packet, events[0].time), events[1..])
  }

  lemma {:induction false} IngestAllWellFormed(t: Table, events: seq<Event>)
    requires WellFormed(t)
    ensures WellFormed(IngestAll(t, events))
    decreases |events|
  {
    if events != [] {
      IngestAllWellFormed(Ingest(t, events[0].packet, events[0].time), events[1..]);
    }
  }

  /** The classes of packet the record counts, defined per packet rather than per fold. */
  datatype Kind = AnyPacket | TcpPacket | SynPacket | UdpPacket

  /** Whether `p` is an IP packet from `ip` of kind `k`; UDP counts only when no TCP layer is present. */
  predicate IsKind(p: Packet, ip: Ip, k: Kind)
  {
    && p.hasIp
    && p.src == ip
    && match k
       case AnyPacket => true
       case TcpPacket => p.hasTcp
       case SynPacket => p.hasTcp && HasSyn(p.tcpFlags)
       case UdpPacket => !p.hasTcp && p.hasUdp
  }

  /** How many events of the stream are IP packets from `ip` of kind `k`. */
  function Tally(events: seq<Event>, ip: Ip, k: Kind): nat
    decreases |events|
  {
    if events == [] then 0
    else (if IsKind(events[0].packet, ip, k) then 1 else 0) + Tally(events[1..], ip, k)
  }

  /** The total length of the IP packets from `ip` in the stream. */
  function BytesFrom(events: seq<Event>, ip: Ip): nat
    decreases |events|
  {
    if events == [] then 0
    else (if IsKind(events[0].packet, ip, AnyPacket) then events[0].packet.length else 0) + BytesFrom(events[1..], ip)
  }

  /** No event is lost or counted twice: each counter grows by exactly the tally of its kind. */
  lemma {:induction false} IngestAllTallies(t: Table, events: seq<Event>, ip: Ip)
    ensures Lookup(IngestAll(t, events), ip).packetCount == Lookup(t, ip).packetCount + Tally(events, ip, AnyPacket)
    ensures Lookup(IngestAll(t, events), ip).totalBytes == Lookup(t, ip).totalBytes + BytesFrom(events, ip)
    ensures Lookup(IngestAll(t, events), ip).tcpCount == Lookup(t, ip).tcpCount + Tally(events, ip, TcpPacket)
    ensures Lookup(IngestAll(t, events), ip).synCount == Lookup(t, ip).synCount + Tally(events, ip, SynPacket)
    ensures Lookup(IngestAll(t, events), ip).udpCount == Lookup(t, ip).udpCount + Tally(events, ip, UdpPacket)
    decreases |events|
  {
    if events != [] {
      var e := events[0];
      IngestAllTallies(Ingest(t, e.packet, e.time), events[1..], ip);
    }
  }

  /** A window that starts from the cleared table holds exactly the tallies of the events it saw. */
  lemma FreshWindowTallies(events: seq<Event>, ip: Ip)
    ensures Lookup(IngestAll(Empty, events), ip).packetCount == Tally(events, ip, AnyPacket)
    ensures Lookup(IngestAll(Empty, events), ip).totalBytes == BytesFrom(events, ip)
    ensures Lookup(IngestAll(Empty, events), ip).tcpCount == Tally(events, ip, TcpPacket)
    ensures Lookup(IngestAll(Empty, events), ip).synCount == Tally(events, ip, SynPacket)
    ensures Lookup(IngestAll(Empty, events), ip).udpCount == Tally(events, ip, UdpPacket)
  {
    IngestAllTallies(Empty, events, ip);
  }

  /** A source has a record after the stream exactly when it sent at least one IP packet. */
  lemma {:induction false} IngestAllKeys(t: Table, events: seq<Event>, ip: Ip)
    ensures ip in IngestAll(t, events).stats <==> ip in t.stats || Tally(events, ip, AnyPacket) > 0
    decreases |events|
  {
    if events != [] {
      var e := events[0];
      IngestAllKeys(Ingest(t, e.packet, e.time), events[1..], ip);
    }
  }

  /**
   The rotation's staleness test, `now - last_seen <= window_size`: a record
   touched at or after `now` is recent for any window.
   */
  predicate Recent(r: Record, now: int, windowSize: int)
    ensures windowSize >= 0 && r.lastSeen >= now ==> Recent(r, now, windowSize)
  {
    now - r.lastSeen <= windowSize
  }

  /** Recency only expires as time moves forward: a record recent now was recent at every earlier time. */
  lemma RecentEarlier(r: Record, earlier: int, now: int, windowSize: int)
    requires earlier <= now && Recent(r, now, windowSize)
    ensures Recent(r, earlier, windowSize)
  {
  }

  /** Every record of `t` was last touched at most `windowSize` seconds before `now`. */
  predicate AllRecent(t: Table, now: int, windowSize: int)
  {
    forall ip :: ip in t.stats ==> Recent(t.stats[ip], now, windowSize)
  }

  /** Folding events that all lie within the window leaves every record recent. */
  lemma {:induction false} IngestAllRecent(t: Table, events: seq<Event>, now: int, windowSize: int)
    requires AllRecent(t, now, windowSize)
    requires forall k :: 0 <= k < |events| ==> now - events[k].time <= windowSize
    ensures AllRecent(IngestAll(t, events), now, windowSize)
    decreases |events|
  {
    if events != [] {
      var e := events[0];
      assert now - e.time <= windowSize;
      var t1 := Ingest(t, e.packet, e.time);
      assert AllRecent(t1, now, windowSize);
      assert forall k :: 0 <= k < |events[1..]| ==> events[1..][k] == events[k + 1];
      IngestAllRecent(t1, events[1..], now, windowSize);
    }
  }
}
