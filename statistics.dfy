/*
 * Link statistics records of the plexi scheduler interface
 * (examples/rich-EIT-demo-Topology/tools/plexi.c): the dense metainfo word
 * and the exponentially weighted moving average of a statistics value.
 *
 * plexi.h is not part of this model.  Both the metainfo word and
 * plexi_stats_value_t are taken to be 16 bits wide, and
 * plexi_stats_value_st is the signed 16-bit type of the same width.  C's
 * `int` is taken to be at least 32 bits wide, so integer promotion evaluates
 * the moving average in `int` without overflow; with a 16-bit `int` the
 * unsigned sum would wrap modulo 2^16 and the signed one would overflow.  The metric codes RSSI, LQI, ETX and PDR are distinct values
 * whose numbers are left abstract.
 *
 * Only the dense statistics mode is modelled.  The guard
 * `#if PLEXI_STATISTICS_MODE & PLEXI_DENSE_STATISTICS == PLEXI_DENSE_STATISTICS`
 * groups as `MODE & (DENSE == DENSE)`, that is `MODE & 1`, so the dense
 * branch is the one compiled whenever the mode is odd.
 */
module Statistics {

  /** A metainfo word: enable at bit 0, metric at bits 1-4, id at bits 5-9, window at bits 10-15. */
  type Meta = bv16

  /** A plexi_stats_value_t. */
  type Value = v: int | 0 <= v < 0x1_0000

  const IdMask: Meta := 64543      // clears bits 5-9
  const EnableMask: Meta := 65534  // clears bit 0
  const MetricMask: Meta := 65505  // clears bits 1-4
  const WindowMask: Meta := 1023   // keeps bits 0-9

  /** (uint16_t)(-1) and (uint8_t)(-1): what a getter answers for a NULL record. */
  const NoWord: bv16 := 0xFFFF
  const NoByte: bv16 := 0xFF

  /** The sentinel a statistics value holds before its first sample. */
  const Unset: Value := 0xFFFF

  /** A plexi_stats record: only the fields the getters, setters and the average touch. */
  class PlexiStats {
    var metainfo: Meta
    var value: Value

    constructor(metainfo: Meta, value: Value)
      ensures this.metainfo == metainfo && this.value == value
    {
      this.metainfo := metainfo;
      this.value := value;
    }
  }

  // ---------------------------------------------------------------------------
  // The four fields of a metainfo word

  function EnableOf(m: Meta): bv16 { m & 1 }
  function MetricOf(m: Meta): bv16 { (m >> 1) & 15 }
  function IdOf(m: Meta): bv16 { (m >> 5) & 31 }
  function WindowOf(m: Meta): bv16 { m >> 10 }

  /** The word holding the four fields, each in its own bits. */
  function Pack(enable: bv16, metric: bv16, id: bv16, window: bv16): (m: Meta)
    requires enable < 2 && metric < 16 && id < 32 && window < 64
  {
    enable | (metric << 1) | (id << 5) | (window << 10)
  }

  /** The fields cover the whole word: a word is the packing of its fields. */
  lemma FieldsCoverWord(m: Meta)
    ensures EnableOf(m) < 2 && MetricOf(m) < 16 && IdOf(m) < 32 && WindowOf(m) < 64
    ensures Pack(EnableOf(m), MetricOf(m), IdOf(m), WindowOf(m)) == m
  {
  }

  /** Unpacking a packed word gives each field back. */
  lemma PackFields(enable: bv16, metric: bv16, id: bv16, window: bv16)
    requires enable < 2 && metric < 16 && id < 32 && window < 64
    ensures EnableOf(Pack(enable, metric, id, window)) == enable
    ensures MetricOf(Pack(enable, metric, id, window)) == metric
    ensures IdOf(Pack(enable, metric, id, window)) == id
    ensures WindowOf(Pack(enable, metric, id, window)) == window
  {
  }

  // The word a dense setter stores for an in-range value.
  function WithId(m: Meta, id: bv16): Meta { (m & IdMask) | (id << 5) }
  function WithEnable(m: Meta, enable: bv16): Meta { (m & EnableMask) | enable }
  function WithMetric(m: Meta, metric: bv16): Meta { (m & MetricMask) | (metric << 1) }
  function WithWindow(m: Meta, window: bv16): Meta { (m & WindowMask) | (window << 10) }

  /** Setting the id and reading it back gives the id; the other fields keep their values. */
  lemma SetIdGetId(m: Meta, id: bv16)
    requires id < 32
    ensures IdOf(WithId(m, id)) == id
    ensures EnableOf(WithId(m, id)) == EnableOf(m) && MetricOf(WithId(m, id)) == MetricOf(m)
    ensures WindowOf(WithId(m, id)) == WindowOf(m)
  {
  }

  /** Setting the enable bit and reading it back gives it; the other fields keep their values. */
  lemma SetEnableGetEnable(m: Meta, enable: bv16)
    requires enable < 2
    ensures EnableOf(WithEnable(m, enable)) == enable
    ensures MetricOf(WithEnable(m, enable)) == MetricOf(m) && IdOf(WithEnable(m, enable)) == IdOf(m)
    ensures WindowOf(WithEnable(m, enable)) == WindowOf(m)
  {
  }

  /** Setting the metric and reading it back gives it; the other fields keep their values. */
  lemma SetMetricGetMetric(m: Meta, metric: bv16)
    requires metric < 16
    ensures MetricOf(WithMetric(m, metric)) == metric
    ensures EnableOf(WithMetric(m, metric)) == EnableOf(m) && IdOf(WithMetric(m, metric)) == IdOf(m)
    ensures WindowOf(WithMetric(m, metric)) == WindowOf(m)
  {
  }

  /** Setting the window and reading it back gives it; the other fields keep their values. */
  lemma SetWindowGetWindow(m: Meta, window: bv16)
    requires window < 64
    ensures WindowOf(WithWindow(m, window)) == window
    ensures EnableOf(WithWindow(m, window)) == EnableOf(m) && MetricOf(WithWindow(m, window)) == MetricOf(m)
    ensures IdOf(WithWindow(m, window)) == IdOf(m)
  {
  }

  // ---------------------------------------------------------------------------
  // Getters and setters.  A NULL record makes a getter answer all ones and a
  // setter answer 0; an out-of-range value makes a setter answer 0 and change
  // nothing.

  function GetId(stats: PlexiStats?): (r: bv16)
    reads stats
    ensures stats == null ==> r == NoWord
    ensures stats != null ==> r < 32
  {
    if stats == null then NoWord else IdOf(stats.metainfo)
  }

  function GetEnable(stats: PlexiStats?): (r: bv16)
    reads stats
    ensures stats == null ==> r == NoByte
    ensures stats != null ==> r < 2
  {
    if stats == null then NoByte else EnableOf(stats.metainfo)
  }

  function GetMetric(stats: PlexiStats?): (r: bv16)
    reads stats
    ensures stats == null ==> r == NoByte
    ensures stats != null ==> r < 16
  {
    if stats == null then NoByte else MetricOf(stats.metainfo)
  }

  function GetWindow(stats: PlexiStats?): (r: bv16)
    reads stats
    ensures stats == null ==> r == NoWord
    ensures stats != null ==> r < 64
  {
    if stats == null then NoWord else WindowOf(stats.metainfo)
  }

  method SetId(stats: PlexiStats?, id: bv16) returns (r: int)
    modifies stats
    ensures r == (if stats != null && id < 32 then 1 else 0)
    ensures stats != null ==> stats.value == old(stats.value)
    ensures stats != null ==> stats.metainfo == if id < 32 then WithId(old(stats.metainfo), id) else old(stats.metainfo)
    ensures r == 1 ==> (GetId(stats) == id && GetEnable(stats) == old(GetEnable(stats)) &&
      GetMetric(stats) == old(GetMetric(stats)) && GetWindow(stats) == old(GetWindow(stats)))
  {
    if stats == null {
      return 0;
    }
    if id < 32 {
      SetIdGetId(stats.metainfo, id);
      stats.metainfo := WithId(stats.metainfo, id);
      return 1;
    } else {
      return 0;
    }
  }

  /** The enable is a uint8_t, as in the C signature; it is widened into the word. */
  method SetEnable(stats: PlexiStats?, enable: bv8) returns (r: int)
    modifies stats
    ensures r == (if stats != null && enable < 2 then 1 else 0)
    ensures stats != null ==> stats.value == old(stats.value)
    ensures stats != null ==> stats.metainfo == if enable < 2 then WithEnable(old(stats.metainfo), enable as bv16) else old(stats.metainfo)
    ensures r == 1 ==> (GetEnable(stats) == enable as bv16 && GetId(stats) == old(GetId(stats)) &&
      GetMetric(stats) == old(GetMetric(stats)) && GetWindow(stats) == old(GetWindow(stats)))
  {
    if stats == null {
      return 0;
    }
    if enable < 2 {
      SetEnableGetEnable(stats.metainfo, enable as bv16);
      stats.metainfo := WithEnable(stats.metainfo, enable as bv16);
      return 1;
    } else {
      return 0;
    }
  }

  /** The metric is a uint8_t, as in the C signature; it is widened into the word. */
  method SetMetric(stats: PlexiStats?, metric: bv8) returns (r: int)
    modifies stats
    ensures r == (if stats != null && metric < 16 then 1 else 0)
    ensures stats != null ==> stats.value == old(stats.value)
    ensures stats != null ==> stats.metainfo == if metric < 16 then WithMetric(old(stats.metainfo), metric as bv16) else old(stats.metainfo)
    ensures r == 1 ==> (GetMetric(stats) == metric as bv16 && GetId(stats) == old(GetId(stats)) &&
      GetEnable(stats) == old(GetEnable(stats)) && GetWindow(stats) == old(GetWindow(stats)))
  {
    if stats == null {
      return 0;
    }
    if metric < 16 {
      SetMetricGetMetric(stats.metainfo, metric as bv16);
      stats.metainfo := WithMetric(stats.metainfo, metric as bv16);
      return 1;
    } else {
      return 0;
    }
  }

  method SetWindow(stats: PlexiStats?, window: bv16) returns (r: int)
    modifies stats
    ensures r == (if stats != null && window < 64 then 1 else 0)
    ensures stats != null ==> stats.value == old(stats.value)
    ensures stats != null ==> stats.metainfo == if window < 64 then WithWindow(old(stats.metainfo), window) else old(stats.metainfo)
    ensures r == 1 ==> (GetWindow(stats) == window && GetId(stats) == old(GetId(stats)) &&
      GetEnable(stats) == old(GetEnable(stats)) && GetMetric(stats) == old(GetMetric(stats)))
  {
    if stats == null {
      return 0;
    }
    if window < 64 {
      SetWindowGetWindow(stats.metainfo, window);
      stats.metainfo := WithWindow(stats.metainfo, window);
      return 1;
    } else {
      return 0;
    }
  }

  // ---------------------------------------------------------------------------
  // The moving average

  /** The metric a statistics record keeps, as its code names it. */
  datatype Metric = Rssi | Lqi | Etx | Pdr | OtherMetric(code: nat)

  /** The stored bits read as plexi_stats_value_st (two's complement). */
  function Signed(v: Value): (s: int)
    ensures -0x8000 <= s < 0x8000
  {
    if v < 0x8000 then v else v - 0x1_0000
  }

  /** A plexi_stats_value_st stored back as bits. */
  function Bits(s: int): (v: Value)
    requires -0x8000 <= s < 0x8000
    ensures Signed(v) == s
  {
    if s >= 0 then s else s + 0x1_0000
  }

  /** C division of an int by 100: the quotient truncated toward zero. */
  function Div100(x: int): (q: int)
    ensures x >= 0 ==> 0 <= q * 100 <= x < (q + 1) * 100
    ensures x < 0 ==> (q - 1) * 100 < x <= q * 100 <= 0
  {
    if x >= 0 then x / 100 else -((-x) / 100)
  }

  /** A weighted average of two values lies between them, C truncation notwithstanding. */
  lemma BlendBetween(o: int, n: int)
    ensures var q := Div100(n * 10 + o * 90);
      (if o <= n then o else n) <= q <= (if o <= n then n else o)
  {
  }

  /** (new * 10 + old * 90) / 100 on unsigned values, or the new sample when old is unset. */
  function Blend(old_value: Value, new_value: Value): (b: Value)
  {
    if old_value != Unset then
      BlendBetween(old_value, new_value);
      (new_value * 10 + old_value * 90) / 100
    else new_value
  }

  /** The same average in signed arithmetic, as the RSSI branch computes it. */
  function SignedBlend(old_value: Value, new_value: Value): (s: int)
    ensures -0x8000 <= s < 0x8000
  {
    if old_value != Unset then
      BlendBetween(Signed(old_value), Signed(new_value));
      Div100(Signed(new_value) * 10 + Signed(old_value) * 90)
    else Signed(new_value)
  }

  /** PDR is stored as 100*256/v, which C leaves undefined for v == 0. */
  predicate Defined(metric: Metric, old_value: Value, new_value: Value)
  {
    metric == Pdr ==> Blend(old_value, new_value) != 0
  }

  /**
   * The value plexi_update_ewma_statistics leaves in *old_value.  RSSI, LQI
   * and ETX store the average; PDR stores 25600 over it; any other metric
   * leaves the value alone.
   */
  function Ewma(metric: Metric, old_value: Value, new_value: Value): (r: Value)
    requires Defined(metric, old_value, new_value)
  {
    match metric
    case Rssi => Bits(SignedBlend(old_value, new_value))
    case Lqi => Blend(old_value, new_value)
    case Etx => Blend(old_value, new_value)
    case Pdr => 100 * 256 / Blend(old_value, new_value)
    case OtherMetric(_) => old_value
  }

  /** Before the first sample, RSSI, LQI and ETX take the new sample as it is. */
  lemma FirstSample(metric: Metric, new_value: Value)
    requires metric == Rssi || metric == Lqi || metric == Etx
    ensures Ewma(metric, Unset, new_value) == new_value
  {
  }

  /** Afterwards LQI and ETX move to a value between the old value and the sample. */
  lemma UnsignedAverage(metric: Metric, old_value: Value, new_value: Value)
    requires (metric == Lqi || metric == Etx) && old_value != Unset
    ensures var r := Ewma(metric, old_value, new_value);
      (old_value <= new_value ==> old_value <= r <= new_value) &&
      (new_value <= old_value ==> new_value <= r <= old_value)
    ensures 100 * Ewma(metric, old_value, new_value) <= new_value * 10 + old_value * 90
  {
    BlendBetween(old_value, new_value);
  }

  /** RSSI moves, as a signed value, to a value between the old value and the sample. */
  lemma SignedAverage(old_value: Value, new_value: Value)
    requires old_value != Unset
    ensures var r := Signed(Ewma(Rssi, old_value, new_value));
      var o, n := Signed(old_value), Signed(new_value);
      (o <= n ==> o <= r <= n) && (n <= o ==> n <= r <= o)
  {
    BlendBetween(Signed(old_value), Signed(new_value));
  }

  /** PDR stores the quotient of 25600 by the average: the largest q with q * average <= 25600. */
  lemma PdrQuotient(old_value: Value, new_value: Value)
    requires Blend(old_value, new_value) != 0
    ensures var b, q := Blend(old_value, new_value), Ewma(Pdr, old_value, new_value);
      q * b <= 25600 < (q + 1) * b
  {
    QuotientBounds(25600, Blend(old_value, new_value));
  }

  lemma QuotientBounds(x: nat, d: nat)
    requires d > 0
    ensures (x / d) * d <= x < (x / d + 1) * d
  {
    var q, r := x / d, x % d;
    assert x == q * d + r && 0 <= r < d;
    assert (q + 1) * d == q * d + d;
  }

  /** Other metrics (ASN and the rest) keep the old value. */
  lemma OtherMetricsKeep(code: nat, old_value: Value, new_value: Value)
    ensures Ewma(OtherMetric(code), old_value, new_value) == old_value
  {
  }

  /** plexi_update_ewma_statistics(metric, &stats->value, new_value); a NULL pointer does nothing. */
  method UpdateEwma(metric: Metric, stats: PlexiStats?, new_value: Value)
    requires stats != null ==> Defined(metric, stats.value, new_value)
    modifies stats
    ensures stats != null ==> stats.value == Ewma(metric, old(stats.value), new_value)
    ensures stats != null ==> stats.metainfo == old(stats.metainfo)
  {
    if stats == null {
      return;
    }
    if metric == Rssi {
      UpdateSigned(stats, new_value);
    } else {
      UpdateUnsigned(metric, stats, new_value);
    }
  }

  /** The RSSI branch: the average taken on signed values. */
  method UpdateSigned(stats: PlexiStats, new_value: Value)
    modifies stats
    ensures stats.value == Ewma(Rssi, old(stats.value), new_value)
    ensures stats.metainfo == old(stats.metainfo)
  {
    var v := Signed(new_value);
    if stats.value != Unset {
      var o := Signed(stats.value);
      BlendBetween(o, v);
      v := Div100(v * 10 + o * 90);
    }
    stats.value := Bits(v);
  }

  /** The other branch: the average taken on unsigned values, then stored by metric. */
  method UpdateUnsigned(metric: Metric, stats: PlexiStats, new_value: Value)
    requires metric != Rssi && Defined(metric, stats.value, new_value)
    modifies stats
    ensures stats.value == Ewma(metric, old(stats.value), new_value)
    ensures stats.metainfo == old(stats.metainfo)
  {
    var v := Average(stats.value, new_value);
    if metric == Lqi || metric == Etx {
      stats.value := v;
    } else if metric == Pdr {
      stats.value := 100 * 256 / v;
    }
  }

  /** The unsigned average as the source computes it, in the promoted (int) arithmetic of C. */
  method Average(old_value: Value, new_value: Value) returns (v: Value)
    ensures v == Blend(old_value, new_value)
    ensures old_value != Unset ==> 100 * v <= new_value * 10 + old_value * 90 < 100 * (v + 1)
  {
    v := new_value;
    if old_value != Unset {
      BlendBetween(old_value, new_value);
      v := (new_value as int * 10 + old_value as int * 90) / 100;
    }
  }
}
