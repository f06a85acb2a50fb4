/**
 What one window rotation hands downstream: for each source of the table, in
 the table's key order, the pair (source, feature vector) — but only for the
 sources whose record was last touched at most `windowSize` seconds ago.
 */
module Window {
  import opened Traffic
  import opened Features

  type Emission = (Ip, seq<real>)

  /** The list the rotation builds from the sources in `order`, read left to right. */
  function Emitted(order: seq<Ip>, stats: map<Ip, Record>, now: int, windowSize: int): (out: seq<Emission>)
    requires windowSize > 0
    requires forall ip :: ip in order ==> ip in stats
    ensures |out| <= |order|
    decreases |order|
  {
    if order == [] then []
    else
      var ip := order[|order| - 1];
      var before := Emitted(order[..|order| - 1], stats, now, windowSize);
      if Recent(stats[ip], now, windowSize) then before + [(ip, Extract(stats[ip], windowSize))] else before
  }

  /**
   The rotation output of a whole table: each pair comes from a recent source
   of the table with that source's features, and no source appears twice.
   */
  function Rotation(t: Table, now: int, windowSize: int): (out: seq<Emission>)
    requires windowSize > 0 && WellFormed(t)
    ensures |out| <= |t.order|
    ensures forall i :: 0 <= i < |out| ==>
      && out[i].0 in t.stats
      && Recent(t.stats[out[i].0], now, windowSize)
      && out[i].1 == Extract(t.stats[out[i].0], windowSize)
    ensures forall i, j :: 0 <= i < j < |out| ==> out[i].0 != out[j].0
  {
    assert forall i :: 0 <= i < |Emitted(t.order, t.stats, now, windowSize)| ==>
      && Emitted(t.order, t.stats, now, windowSize)[i].0 in t.stats
      && Recent(t.stats[Emitted(t.order, t.stats, now, windowSize)[i].0], now, windowSize)
      && Emitted(t.order, t.stats, now, windowSize)[i].1 == Extract(t.stats[Emitted(t.order, t.stats, now, windowSize)[i].0], windowSize)
    by {
      forall i | 0 <= i < |Emitted(t.order, t.stats, now, windowSize)| {
        EmittedFromTable(t.order, t.stats, now, windowSize, i);
      }
    }
    EmittedOncePerSource(t.order, t.stats, now, windowSize);
    Emitted(t.order, t.stats, now, windowSize)
  }

  /**
   A pair is emitted exactly when its source is in the table, its record is
   recent, and the vector is that record's features: stale sources are dropped
   and nothing else is invented.
   */
  lemma {:induction false} EmittedMember(order: seq<Ip>, stats: map<Ip, Record>, now: int, windowSize: int, ip: Ip, f: seq<real>)
    requires windowSize > 0
    requires forall x :: x in order ==> x in stats
    ensures (ip, f) in Emitted(order, stats, now, windowSize)
        <==> ip in order && Recent(stats[ip], now, windowSize) && f == Extract(stats[ip], windowSize)
    decreases |order|
  {
    if order != [] {
      var prefix := order[..|order| - 1];
      assert order == prefix + [order[|order| - 1]];
      EmittedMember(prefix, stats, now, windowSize, ip, f);
    }
  }

  /** Every emitted source comes from the table and was recent. */
  lemma EmittedFromTable(order: seq<Ip>, stats: map<Ip, Record>, now: int, windowSize: int, i: int)
    requires windowSize > 0
    requires forall x :: x in order ==> x in stats
    requires 0 <= i < |Emitted(order, stats, now, windowSize)|
    ensures Emitted(order, stats, now, windowSize)[i].0 in order
    ensures Recent(stats[Emitted(order, stats, now, windowSize)[i].0], now, windowSize)
    ensures Emitted(order, stats, now, windowSize)[i].1 == Extract(stats[Emitted(order, stats, now, windowSize)[i].0], windowSize)
  {
    var e := Emitted(order, stats, now, windowSize)[i];
    EmittedMember(order, stats, now, windowSize, e.0, e.1);
  }

  /** With each key listed once, each source is emitted at most once. */
  lemma {:induction false} EmittedOncePerSource(order: seq<Ip>, stats: map<Ip, Record>, now: int, windowSize: int)
    requires windowSize > 0
    requires forall x :: x in order ==> x in stats
    requires Distinct(order)
    ensures forall i, j :: 0 <= i < j < |Emitted(order, stats, now, windowSize)| ==>
              Emitted(order, stats, now, windowSize)[i].0 != Emitted(order, stats, now, windowSize)[j].0
    decreases |order|
  {
    if order != [] {
      var last := order[|order| - 1];
      var prefix := order[..|order| - 1];
      var before := Emitted(prefix, stats, now, windowSize);
      EmittedOncePerSource(prefix, stats, now, windowSize);
      assert last !in prefix;
      forall i | 0 <= i < |before|
        ensures before[i].0 != last
      {
        EmittedFromTable(prefix, stats, now, windowSize, i);
      }
    }
  }

  /** Sources are emitted in the table's key order, i.e. the order they first sent a packet. */
  lemma {:induction false} EmittedInTableOrder(order: seq<Ip>, stats: map<Ip, Record>, now: int, windowSize: int, a: int, b: int)
    requires windowSize > 0
    requires forall x :: x in order ==> x in stats
    requires 0 <= a < b < |order|
    requires Recent(stats[order[a]], now, windowSize) && Recent(stats[order[b]], now, windowSize)
    ensures exists i, j :: 0 <= i < j < |Emitted(order, stats, now, windowSize)|
              && Emitted(order, stats, now, windowSize)[i].0 == order[a]
              && Emitted(order, stats, now, windowSize)[j].0 == order[b]
    decreases |order|
  {
    var prefix := order[..|order| - 1];
    var before := Emitted(prefix, stats, now, windowSize);
    var out := Emitted(order, stats, now, windowSize);
    assert out[..|before|] == before;
    if b == |order| - 1 {
      EmittedMember(prefix, stats, now, windowSize, order[a], Extract(stats[order[a]], windowSize));
      assert prefix[a] == order[a];
      var i :| 0 <= i < |before| && before[i] == (order[a], Extract(stats[order[a]], windowSize));
      assert out[i].0 == order[a];
      assert out[|before|].0 == order[b];
    } else {
      assert prefix[a] == order[a] && prefix[b] == order[b];
      EmittedInTableOrder(prefix, stats, now, windowSize, a, b);
      var i, j :| 0 <= i < j < |before| && before[i].0 == order[a] && before[j].0 == order[b];
      assert out[i] == before[i] && out[j] == before[j];
    }
  }

  /** When every record is recent, every source of the table is emitted. */
  lemma {:induction false} AllRecentAllEmitted(order: seq<Ip>, stats: map<Ip, Record>, now: int, windowSize: int)
    requires windowSize > 0
    requires forall x :: x in order ==> x in stats
    requires forall x :: x in order ==> Recent(stats[x], now, windowSize)
    ensures |Emitted(order, stats, now, windowSize)| == |order|
    decreases |order|
  {
    if order != [] {
      var prefix := order[..|order| - 1];
      assert forall x :: x in prefix ==> x in order;
      AllRecentAllEmitted(prefix, stats, now, windowSize);
    }
  }

  /** An empty window hands nothing downstream. */
  lemma EmptyWindowEmitsNothing(now: int, windowSize: int)
    requires windowSize > 0
    ensures Rotation(Empty, now, windowSize) == []
  {
  }

  /**
   No event of a window is lost when every event lies within the window: a
   source that sent `n` IP packets since the table was cleared is emitted with
   packet count `n`, and its record's byte and protocol counters are the
   tallies of its events.
   */
  lemma NoEventLost(events: seq<Event>, now: int, windowSize: int, ip: Ip)
    requires windowSize > 0
    requires forall k :: 0 <= k < |events| ==> now - events[k].time <= windowSize
    requires Tally(events, ip, AnyPacket) > 0
    ensures WellFormed(IngestAll(Empty, events))
    ensures (ip, Extract(Lookup(IngestAll(Empty, events), ip), windowSize)) in Rotation(IngestAll(Empty, events), now, windowSize)
    ensures Extract(Lookup(IngestAll(Empty, events), ip), windowSize)[0] == Tally(events, ip, AnyPacket) as real
    ensures Lookup(IngestAll(Empty, events), ip).totalBytes == BytesFrom(events, ip)
    ensures Lookup(IngestAll(Empty, events), ip).tcpCount == Tally(events, ip, TcpPacket)
    ensures Lookup(IngestAll(Empty, events), ip).synCount == Tally(events, ip, SynPacket)
    ensures Lookup(IngestAll(Empty, events), ip).udpCount == Tally(events, ip, UdpPacket)
  {
    var t := IngestAll(Empty, events);
    IngestAllWellFormed(Empty, events);
    IngestAllKeys(Empty, events, ip);
    IngestAllRecent(Empty, events, now, windowSize);
    FreshWindowTallies(events, ip);
    EmittedMember(t.order, t.stats, now, windowSize, ip, Extract(t.stats[ip], windowSize));
  }

  /** A source whose last packet is older than the window is dropped, not deferred: rotation clears it too. */
  lemma StaleSourceDropped(t: Table, now: int, windowSize: int, ip: Ip)
    requires windowSize > 0 && WellFormed(t)
    requires ip in t.stats && !Recent(t.stats[ip], now, windowSize)
    ensures forall i :: 0 <= i < |Rotation(t, now, windowSize)| ==> Rotation(t, now, windowSize)[i].0 != ip
  {
    forall i | 0 <= i < |Rotation(t, now, windowSize)|
      ensures Rotation(t, now, windowSize)[i].0 != ip
    {
      EmittedFromTable(t.order, t.stats, now, windowSize, i);
    }
  }
}
