/**
 Feature extraction: one source's counter record, over a window of
 `windowSize` seconds, becomes the ordered 7-element vector handed to the
 anomaly scorer. Division is exact rational division on `real`.
 */
module Features {
  import opened Traffic

  /** The number of features, in this fixed positional order:
      packet count, average size, TCP share, UDP share, SYN share of TCP,
      packet rate, byte rate. */
  const Width := 7

  /** Python's `max(n, 1)`: the divisor of the three count ratios. */
  function AtLeastOne(n: nat): (d: nat)
    ensures d >= 1 && d >= n
    ensures n >= 1 ==> d == n
    ensures n == 0 ==> d == 1
  {
    if n >= 1 then n else 1
  }

  /**
   The feature vector of record `r`. Each quotient is characterised by
   multiplying it back by its divisor: the ratios divide by `max(count, 1)`,
   so no divisor is zero, and the rates divide by the window length.
   */
  function Extract(r: Record, windowSize: int): (f: seq<real>)
    requires windowSize > 0
    ensures |f| == Width
    ensures f[0] == r.packetCount as real
    ensures f[1] * AtLeastOne(r.packetCount) as real == r.totalBytes as real
    ensures f[2] * AtLeastOne(r.packetCount) as real == r.tcpCount as real
    ensures f[3] * AtLeastOne(r.packetCount) as real == r.udpCount as real
    ensures f[4] * AtLeastOne(r.tcpCount) as real == r.synCount as real
    ensures f[5] * windowSize as real == r.packetCount as real
    ensures f[6] * windowSize as real == r.totalBytes as real
  {
    [ r.packetCount as real,
      Ratio(r.totalBytes, AtLeastOne(r.packetCount)),
      Ratio(r.tcpCount, AtLeastOne(r.packetCount)),
      Ratio(r.udpCount, AtLeastOne(r.packetCount)),
      Ratio(r.synCount, AtLeastOne(r.tcpCount)),
      Ratio(r.packetCount, windowSize),
      Ratio(r.totalBytes, windowSize) ]
  }

  /** Exact division of a count by a positive divisor; never negative. */
  function Ratio(a: nat, d: nat): (q: real)
    requires d >= 1
    ensures q * d as real == a as real
    ensures q >= 0.0
  {
    a as real / d as real
  }

  /** A count out of a divisor it does not exceed is at most 1. */
  lemma ShareInUnitInterval(a: nat, d: nat)
    requires 1 <= d && a <= d
    ensures Ratio(a, d) <= 1.0
  {
    var q := Ratio(a, d);
    assert q * d as real <= 1.0 * d as real;
    CancelPositiveBound(q, 1.0, d as real);
  }

  lemma CancelPositiveBound(x: real, y: real, d: real)
    requires d > 0.0 && x * d <= y * d
    ensures x <= y
  {
  }

  /** Every feature is non-negative, whatever the record. */
  lemma FeaturesNonNegative(r: Record, windowSize: int)
    requires windowSize > 0
    ensures forall i :: 0 <= i < Width ==> Extract(r, windowSize)[i] >= 0.0
  {
  }

  /**
   On a consistent record the three shares are proportions: the TCP, UDP and
   SYN shares each lie in [0, 1], and TCP and UDP together never exceed 1.
   */
  lemma SharesAreProportions(r: Record, windowSize: int)
    requires windowSize > 0 && Consistent(r)
    ensures 0.0 <= Extract(r, windowSize)[2] <= 1.0
    ensures 0.0 <= Extract(r, windowSize)[3] <= 1.0
    ensures 0.0 <= Extract(r, windowSize)[4] <= 1.0
    ensures Extract(r, windowSize)[2] + Extract(r, windowSize)[3] <= 1.0
  {
    var d := AtLeastOne(r.packetCount);
    ShareInUnitInterval(r.tcpCount, d);
    ShareInUnitInterval(r.udpCount, d);
    ShareInUnitInterval(r.tcpCount + r.udpCount, d);
    ShareInUnitInterval(r.synCount, AtLeastOne(r.tcpCount));
    RatioSum(r.tcpCount, r.udpCount, d);
  }

  /** Shares of one divisor add up. */
  lemma RatioSum(a: nat, b: nat, d: nat)
    requires d >= 1
    ensures Ratio(a, d) + Ratio(b, d) == Ratio(a + b, d)
  {
    var x, y, z := Ratio(a, d), Ratio(b, d), Ratio(a + b, d);
    assert (x + y) * d as real == x * d as real + y * d as real;
    CancelPositive(x + y, z, d as real);
  }

  lemma CancelPositive(x: real, y: real, d: real)
    requires d > 0.0 && x * d == y * d
    ensures x == y
  {
  }

  /** A source with no TCP packets does not divide by zero: its SYN share is its SYN count over 1. */
  lemma NoTcpSynShare(r: Record, windowSize: int)
    requires windowSize > 0 && r.tcpCount == 0
    ensures Extract(r, windowSize)[4] == r.synCount as real
    ensures Consistent(r) ==> Extract(r, windowSize)[4] == 0.0
  {
  }

  /** With at least one packet, feature 1 is the mean packet size and the shares are plain fractions. */
  lemma AveragesOverPackets(r: Record, windowSize: int)
    requires windowSize > 0 && r.packetCount > 0
    ensures Extract(r, windowSize)[1] == r.totalBytes as real / r.packetCount as real
    ensures Extract(r, windowSize)[2] == r.tcpCount as real / r.packetCount as real
    ensures Extract(r, windowSize)[3] == r.udpCount as real / r.packetCount as real
  {
  }

  /** The rates are the counts spread over the window: packet rate = f0 / window, byte rate = f1 * f0 / window. */
  lemma RatesFromCounts(r: Record, windowSize: int)
    requires windowSize > 0
    ensures Extract(r, windowSize)[5] == Extract(r, windowSize)[0] / windowSize as real
    ensures r.packetCount > 0 ==> Extract(r, windowSize)[6] == Extract(r, windowSize)[1] * Extract(r, windowSize)[0] / windowSize as real
  {
    var f := Extract(r, windowSize);
    if r.packetCount > 0 {
      assert f[1] * f[0] == r.totalBytes as real;
    }
  }

  /**
   A worked window: 10 packets, 6 of them TCP (2 with SYN) and 4 UDP, 1500
   bytes in all, over 60 seconds.
   */
  lemma WorkedExample(lastSeen: int)
    ensures Extract(Record(10, 1500, 6, 4, 2, lastSeen), 60)
         == [10.0, 150.0, 0.6, 0.4, 1.0 / 3.0, 1.0 / 6.0, 25.0]
  {
  }
}
