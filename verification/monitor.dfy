/**
 The network monitor object: the shared traffic table, the configured window
 length and the running flag, with the two critical sections that touch the
 table, packet processing and window rotation, each one atomic step.
 */
module Monitor {
  import opened Traffic
  import opened Features
  import opened Window

  /** The window length, in seconds, when none is configured. */
  const DefaultWindowSize := 60

  class NetworkMonitor {
    const windowSize: int
    /** The table's keys in first-insertion order (the dictionary's iteration order). */
    var order: seq<Ip>
    /** The table's records. */
    var stats: map<Ip, Record>
    var isRunning: bool

    ghost predicate Valid()
      reads this
    {
      windowSize > 0 && WellFormed(Snapshot())
    }

    /** The table as a value. */
    function Snapshot(): Table
      reads this
    {
      Table(order, stats)
    }

    constructor (windowSize: int := DefaultWindowSize)
      requires windowSize > 0
      ensures Valid()
      ensures this.windowSize == windowSize && Snapshot() == Empty && isRunning
    {
      this.windowSize := windowSize;
      order := [];
      stats := map[];
      isRunning := true;
    }

    /** Raises the stop flag; packets folded afterwards are ignored. */
    method StopMonitoring()
      requires Valid()
      modifies this`isRunning
      ensures Valid() && !isRunning
    {
      isRunning := false;
    }

    /**
     Folds one captured frame, seen at time `now`, into the table: nothing
     happens once stopped or when the frame has no IP layer; otherwise the
     source's record counts the packet, its bytes and its protocol.
     */
    method ProcessPacket(p: Packet, now: int)
      requires Valid()
      modifies this`order, this`stats
      ensures Valid()
      ensures Snapshot() == if isRunning then Ingest(old(Snapshot()), p, now) else old(Snapshot())
    {
      if !isRunning {
        return;
      }
      ghost var before := Snapshot();
      if p.hasIp {
        var src := p.src;
        if src !in stats {
          // the defaultdict creates the record, all zero, on first access
          order := order + [src];
          stats := stats[src := Zero];
        }
        var r := stats[src];
        r := r.(packetCount := r.packetCount + 1);
        r := r.(lastSeen := now);
        r := r.(totalBytes := r.totalBytes + p.length);
        if p.hasTcp {
          r := r.(tcpCount := r.tcpCount + 1);
          if HasSyn(p.tcpFlags) {
            r := r.(synCount := r.synCount + 1);
          }
        } else if p.hasUdp {
          r := r.(udpCount := r.udpCount + 1);
        }
        assert r == Count(Lookup(before, src), p, now);
        stats := stats[src := r];
        assert Snapshot() == Ingest(before, p, now);
      }
    }

    /**
     One window rotation at time `now`: walks the table in key order, keeps the
     recent sources with their feature vectors, then clears the table. The
     returned list is what is handed, pair by pair, to the callback.
     */
    method AnalyzeWindow(now: int) returns (featuresList: seq<Emission>)
      requires Valid()
      modifies this`order, this`stats
      ensures Valid() && Snapshot() == Empty
      ensures featuresList == Rotation(old(Snapshot()), now, windowSize)
    {
      featuresList := [];
      var i := 0;
      while i < |order|
        invariant 0 <= i <= |order|
        invariant forall x :: x in order[..i] ==> x in stats
        invariant featuresList == Emitted(order[..i], stats, now, windowSize)
      {
        var ip := order[i];
        var record := stats[ip];
        assert order[..i + 1][..i] == order[..i];
        if now - record.lastSeen <= windowSize {
          featuresList := featuresList + [(ip, Extract(record, windowSize))];
        }
        i := i + 1;
      }
      assert order[..i] == order;
      order := [];
      stats := map[];
    }
  }

  /**
   A caller's view: a source whose packets straddle a rotation starts the new
   window from zero, with nothing carried over.
   */
  method RotateThenFold(m: NetworkMonitor, p: Packet, now: int, later: int)
    returns (featuresList: seq<Emission>)
    requires m.Valid() && m.isRunning && p.hasIp
    modifies m
    ensures m.Valid()
    ensures m.Snapshot() == Table([p.src], map[p.src := Count(Zero, p, later)])
    ensures m.stats[p.src].packetCount == 1 && m.stats[p.src].totalBytes == p.length
  {
    featuresList := m.AnalyzeWindow(now);
    m.ProcessPacket(p, later);
  }
}
