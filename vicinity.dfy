/*
 * The vicinity monitor of the plexi scheduler interface
 * (examples/rich-EIT-demo-Topology/tools/plexi.c): a bounded list of the
 * neighbours this node has recently heard from or sent to, each with a
 * pheromone level that traffic raises and time wears away.
 *
 * The list `plexi_vicinity` is a sequence that the operations reassign, in
 * list order (list_add appends at the tail).  The clock and the peer
 * address are parameters.  PLEXI_MAX_PROXIMATES, PLEXI_PHEROMONE_WINDOW,
 * PLEXI_PHEROMONE_DECAY and PLEXI_PHEROMONE_CHUNK come from a configuration
 * header that is not part of this model; they are the fields of Params.
 */
module Vicinity {
  import NodeAddress

  type LinkAddr = seq<NodeAddress.byte>

  /** clock_time_t, taken as a 32-bit unsigned count of ticks. */
  type Clock = t: int | 0 <= t < 0x1_0000_0000

  /**
   * A plexi_proximate: the neighbour, when it was last heard of, its
   * pheromone.  The pheromone is an unbounded integer: the width of the C
   * field and its wrap-around are not modelled.
   */
  datatype Proximate = Proximate(proximate: LinkAddr, since: Clock, pheromone: int)

  datatype Params = Params(max: nat, window: nat, decay: int, chunk: int)

  /** now - since in clock_time_t arithmetic. */
  function Elapsed(now: Clock, since: Clock): (d: Clock)
    ensures since <= now ==> d == now - since
  {
    (now - since) % 0x1_0000_0000
  }

  // ---------------------------------------------------------------------------
  // The periodic sweep (plexi_vicinity_updater)

  /** An entry after the decay step: it loses `decay` once it is older than the window. */
  function Decayed(e: Proximate, now: Clock, p: Params): Proximate
  {
    if Elapsed(now, e.since) > p.window then e.(pheromone := e.pheromone - p.decay) else e
  }

  predicate Expired(e: Proximate, now: Clock, p: Params)
  {
    Decayed(e, now, p).pheromone <= 0
  }

  /** The intended sweep: every entry decays, and those left without pheromone go. */
  function Sweep(es: seq<Proximate>, now: Clock, p: Params): (r: seq<Proximate>)
    ensures |r| <= |es|
  {
    if es == [] then []
    else if Expired(es[0], now, p) then Sweep(es[1..], now, p)
    else [Decayed(es[0], now, p)] + Sweep(es[1..], now, p)
  }

  /**
   * The sweep as the loop performs it: after unlinking an entry the loop
   * steps to its successor and then, in the for-increment, past it, so the
   * successor is neither decayed nor removed in this pass.
   */
  function SweepAsWritten(es: seq<Proximate>, now: Clock, p: Params): (r: seq<Proximate>)
    ensures |r| <= |es|
  {
    if es == [] then []
    else if Expired(es[0], now, p) then
      if |es| == 1 then [] else [es[1]] + SweepAsWritten(es[2..], now, p)
    else [Decayed(es[0], now, p)] + SweepAsWritten(es[1..], now, p)
  }

  /** What the intended sweep keeps: exactly the decayed entries with pheromone left, in order. */
  lemma {:induction false} SweepKeepsLive(es: seq<Proximate>, now: Clock, p: Params)
    ensures forall e :: e in Sweep(es, now, p) ==> e.pheromone > 0
    ensures forall k :: 0 <= k < |es| && !Expired(es[k], now, p) ==> Decayed(es[k], now, p) in Sweep(es, now, p)
    ensures forall e :: e in Sweep(es, now, p) ==> exists k :: 0 <= k < |es| && e == Decayed(es[k], now, p)
  {
    if es != [] {
      SweepKeepsLive(es[1..], now, p);
      var r := Sweep(es[1..], now, p);
      forall k | 0 <= k < |es| && !Expired(es[k], now, p)
        ensures Decayed(es[k], now, p) in Sweep(es, now, p)
      {
        if k > 0 {
          assert es[k] == es[1..][k - 1];
        }
      }
      forall e | e in Sweep(es, now, p)
        ensures exists k :: 0 <= k < |es| && e == Decayed(es[k], now, p)
      {
        if e in r {
          var j :| 0 <= j < |es[1..]| && e == Decayed(es[1..][j], now, p);
          assert e == Decayed(es[j + 1], now, p);
        } else {
          assert e == Decayed(es[0], now, p);
        }
      }
    }
  }

  /**
   * Two expired neighbours in a row: the loop removes the first and steps
   * over the second, which keeps its old pheromone; the intended sweep
   * removes both.
   */
  lemma UpdaterSkipsSuccessor(a: LinkAddr, b: LinkAddr)
    ensures var p := Params(4, 10, 1, 5);
      var es := [Proximate(a, 0, 1), Proximate(b, 0, 1)];
      SweepAsWritten(es, 100, p) == [Proximate(b, 0, 1)] && Sweep(es, 100, p) == []
  {
    var p := Params(4, 10, 1, 5);
    var es := [Proximate(a, 0, 1), Proximate(b, 0, 1)];
    assert Expired(es[0], 100, p) && Expired(es[1], 100, p);
    assert es[1..][1..] == [];
  }

  // ---------------------------------------------------------------------------
  // Hearing from a neighbour (plexi_packet_sent / plexi_packet_received)

  /** The entry for `addr` after traffic with it. */
  function Refresh(e: Proximate, addr: LinkAddr, now: Clock, p: Params): Proximate
  {
    if e.proximate == addr then Proximate(addr, now, e.pheromone + p.chunk) else e
  }

  /** The list after the first loop: every entry for `addr` refreshed. */
  function Refreshed(es: seq<Proximate>, addr: LinkAddr, now: Clock, p: Params): (r: seq<Proximate>)
    ensures |r| == |es|
  {
    seq(|es|, k requires 0 <= k < |es| => Refresh(es[k], addr, now, p))
  }

  predicate Known(es: seq<Proximate>, addr: LinkAddr)
  {
    exists k :: 0 <= k < |es| && es[k].proximate == addr
  }

  /** The first entry of es[..n] with the least pheromone, as the second loop finds it. */
  function Weakest(es: seq<Proximate>, n: nat): (w: nat)
    requires 0 < n <= |es|
    ensures w < n
  {
    if n == 1 then 0
    else if es[n - 1].pheromone < es[Weakest(es, n - 1)].pheromone then n - 1
    else Weakest(es, n - 1)
  }

  /** The weakest entry has the least pheromone, and every entry before it has more. */
  lemma {:induction false} WeakestIsFirstMinimum(es: seq<Proximate>, n: nat)
    requires 0 < n <= |es|
    ensures forall k :: 0 <= k < n ==> es[Weakest(es, n)].pheromone <= es[k].pheromone
    ensures forall k :: 0 <= k < Weakest(es, n) ==> es[Weakest(es, n)].pheromone < es[k].pheromone
  {
    if n > 1 {
      WeakestIsFirstMinimum(es, n - 1);
    }
  }

  function RemoveAt(es: seq<Proximate>, w: nat): (r: seq<Proximate>)
    requires w < |es|
    ensures |r| == |es| - 1
  {
    es[..w] + es[w + 1..]
  }

  /**
   * The list after traffic with `addr`: its entries refreshed, then, when
   * `evict` holds, its weakest entry unlinked, then a fresh entry for an
   * unknown `addr` appended.
   */
  function Heard(es: seq<Proximate>, addr: LinkAddr, now: Clock, evict: bool, p: Params): seq<Proximate>
  {
    var r := Refreshed(es, addr, now, p);
    var kept := if evict && r != [] then RemoveAt(r, Weakest(r, |r|)) else r;
    if Known(es, addr) then kept else kept + [Proximate(addr, now, p.chunk)]
  }

  /** The eviction test of the send path: the list already holds PLEXI_MAX_PROXIMATES entries. */
  predicate Full(es: seq<Proximate>, p: Params)
  {
    |es| >= p.max
  }

  /** The eviction test of the receive path as written: `to_remove` = count + 1 - MAX is not zero. */
  predicate EvictsAsWritten(es: seq<Proximate>, p: Params)
  {
    |es| + 1 - p.max != 0
  }

  /** Traffic never takes the list past PLEXI_MAX_PROXIMATES entries. */
  lemma HeardBounded(es: seq<Proximate>, addr: LinkAddr, now: Clock, p: Params)
    requires 0 < p.max && |es| <= p.max
    ensures |Heard(es, addr, now, Full(es, p), p)| <= p.max
    ensures |Heard(es, addr, now, EvictsAsWritten(es, p), p)| <= p.max
  {
  }

  /**
   * Traffic with a known neighbour refreshes it; with an unknown one it
   * appends a fresh entry holding one chunk of pheromone.  Without eviction
   * nothing else changes.
   */
  lemma HeardRefreshesOrAppends(es: seq<Proximate>, addr: LinkAddr, now: Clock, evict: bool, p: Params)
    ensures !Known(es, addr) ==> Heard(es, addr, now, evict, p)[|Heard(es, addr, now, evict, p)| - 1] == Proximate(addr, now, p.chunk)
    ensures !evict && Known(es, addr) ==> Heard(es, addr, now, evict, p) == Refreshed(es, addr, now, p)
    ensures forall k :: 0 <= k < |es| && es[k].proximate == addr ==>
      Refreshed(es, addr, now, p)[k] == Proximate(addr, now, es[k].pheromone + p.chunk)
    ensures forall k :: 0 <= k < |es| && es[k].proximate != addr ==> Refreshed(es, addr, now, p)[k] == es[k]
  {
  }

  /** While the list is not full, the neighbour just heard of is in it afterwards. */
  lemma HeardKeepsPeer(es: seq<Proximate>, addr: LinkAddr, now: Clock, p: Params)
    requires !Full(es, p)
    ensures Known(Heard(es, addr, now, Full(es, p), p), addr)
  {
    var h := Heard(es, addr, now, Full(es, p), p);
    if Known(es, addr) {
      var k :| 0 <= k < |es| && es[k].proximate == addr;
      assert h[k].proximate == addr;
    } else {
      assert h[|h| - 1].proximate == addr;
    }
  }

  /** An eviction removes the first entry of least pheromone after the refresh, and only it. */
  lemma EvictionTakesWeakest(es: seq<Proximate>, addr: LinkAddr, now: Clock, p: Params)
    requires es != []
    ensures var r := Refreshed(es, addr, now, p);
      exists w :: 0 <= w < |r| &&
        (forall k :: 0 <= k < |r| ==> r[w].pheromone <= r[k].pheromone) &&
        (forall k :: 0 <= k < w ==> r[w].pheromone < r[k].pheromone) &&
        Heard(es, addr, now, true, p)[..|r| - 1] == r[..w] + r[w + 1..]
  {
    var r := Refreshed(es, addr, now, p);
    var w := Weakest(r, |r|);
    WeakestIsFirstMinimum(r, |r|);
    assert Heard(es, addr, now, true, p)[..|r| - 1] == r[..w] + r[w + 1..];
  }

  /**
   * The receive path's `if(to_remove)` evicts whenever the list does not
   * hold exactly MAX-1 entries: a lone neighbour is dropped by the very
   * packet that came from it.  Testing `to_remove > 0`, as the send path
   * does, keeps it.
   */
  lemma ReceiveDropsLoneNeighbour(a: LinkAddr, since: Clock, now: Clock)
    ensures var p := Params(4, 10, 1, 5);
      var es := [Proximate(a, since, 5)];
      Heard(es, a, now, EvictsAsWritten(es, p), p) == [] &&
      Heard(es, a, now, Full(es, p), p) == [Proximate(a, now, 10)]
  {
    var p := Params(4, 10, 1, 5);
    var es := [Proximate(a, since, 5)];
    assert Known(es, a) by { assert es[0].proximate == a; }
    assert Refreshed(es, a, now, p) == [Proximate(a, now, 10)];
  }

  /** Removing or replacing the first entry after `done`, for the loops of the updater. */
  lemma Splice(done: seq<Proximate>, rest: seq<Proximate>)
    requires rest != []
    ensures (done + rest)[|done|] == rest[0]
    ensures (done + rest)[..|done|] + (done + rest)[|done| + 1..] == done + rest[1..]
    ensures forall d :: (done + rest)[|done| := d] == (done + [d]) + rest[1..]
    ensures |rest| > 1 ==> done + rest[1..] == (done + [rest[1]]) + rest[2..]
  {
    assert (done + rest)[..|done|] == done;
    assert (done + rest)[|done| + 1..] == rest[1..];
  }

  /** One step of the intended sweep, with the entries already dealt with in front. */
  lemma SweepStep(done: seq<Proximate>, rest: seq<Proximate>, now: Clock, p: Params)
    requires rest != []
    ensures Expired(rest[0], now, p) ==> done + Sweep(rest, now, p) == done + Sweep(rest[1..], now, p)
    ensures !Expired(rest[0], now, p) ==>
      done + Sweep(rest, now, p) == (done + [Decayed(rest[0], now, p)]) + Sweep(rest[1..], now, p)
  {
    if !Expired(rest[0], now, p) {
      Regroup(done, Decayed(rest[0], now, p), Sweep(rest[1..], now, p));
    }
  }

  /** One step of the sweep as written, with the entries already dealt with in front. */
  lemma AsWrittenStep(done: seq<Proximate>, rest: seq<Proximate>, now: Clock, p: Params)
    requires rest != []
    ensures Expired(rest[0], now, p) && |rest| == 1 ==> done + SweepAsWritten(rest, now, p) == done
    ensures Expired(rest[0], now, p) && |rest| > 1 ==>
      done + SweepAsWritten(rest, now, p) == (done + [rest[1]]) + SweepAsWritten(rest[2..], now, p)
    ensures !Expired(rest[0], now, p) ==>
      done + SweepAsWritten(rest, now, p) == (done + [Decayed(rest[0], now, p)]) + SweepAsWritten(rest[1..], now, p)
  {
    if !Expired(rest[0], now, p) {
      Regroup(done, Decayed(rest[0], now, p), SweepAsWritten(rest[1..], now, p));
    } else if |rest| > 1 {
      Regroup(done, rest[1], SweepAsWritten(rest[2..], now, p));
    } else {
      assert done + [] == done;
    }
  }

  lemma Regroup(done: seq<Proximate>, x: Proximate, tail: seq<Proximate>)
    ensures done + ([x] + tail) == (done + [x]) + tail
  {
  }

  // ---------------------------------------------------------------------------
  // The list itself

  class VicinityList {
    const params: Params
    var entries: seq<Proximate>

    ghost predicate Valid()
      reads this
    {
      0 < params.max && |entries| <= params.max
    }

    constructor(p: Params)
      requires 0 < p.max
      ensures Valid() && params == p && entries == []
    {
      params := p;
      entries := [];
    }

    /** plexi_vicinity_updater as written: the successor of a removed entry is stepped over. */
    method UpdaterAsWritten(now: Clock)
      requires Valid()
      modifies this
      ensures Valid()
      ensures entries == SweepAsWritten(old(entries), now, params)
    {
      ghost var done: seq<Proximate> := [];
      ghost var rest := entries;
      var i := 0;
      while i < |entries|
        invariant entries == done + rest && i == |done|
        invariant done + SweepAsWritten(rest, now, params) == SweepAsWritten(old(entries), now, params)
        decreases |rest|
      {
        Splice(done, rest);
        AsWrittenStep(done, rest, now, params);
        var d := Decayed(entries[i], now, params);
        if d.pheromone <= 0 {
          entries := entries[..i] + entries[i + 1..];
          if i < |entries| {
            done, rest := done + [rest[1]], rest[2..];
            i := i + 1;
          } else {
            rest := [];
          }
        } else {
          entries := entries[i := d];
          done, rest := done + [d], rest[1..];
          i := i + 1;
        }
      }
    }

    /** The updater with every entry examined once. */
    method Updater(now: Clock)
      requires Valid()
      modifies this
      ensures Valid()
      ensures entries == Sweep(old(entries), now, params)
    {
      ghost var done: seq<Proximate> := [];
      ghost var rest := entries;
      var i := 0;
      while i < |entries|
        invariant entries == done + rest && i == |done|
        invariant done + Sweep(rest, now, params) == Sweep(old(entries), now, params)
        decreases |rest|
      {
        Splice(done, rest);
        SweepStep(done, rest, now, params);
        var d := Decayed(entries[i], now, params);
        if d.pheromone <= 0 {
          entries := entries[..i] + entries[i + 1..];
          rest := rest[1..];
        } else {
          entries := entries[i := d];
          done, rest := done + [d], rest[1..];
          i := i + 1;
        }
      }
    }

    /** The vicinity update of plexi_packet_sent: only an acknowledged transmission counts. */
    method PacketSent(acked: bool, receiver: LinkAddr, now: Clock)
      requires Valid()
      modifies this
      ensures Valid()
      ensures entries == if acked then Heard(old(entries), receiver, now, Full(old(entries), params), params) else old(entries)
    {
      if acked {
        Observe(receiver, now, false);
      }
    }

    /** The vicinity update of plexi_packet_received as written. */
    method PacketReceivedAsWritten(sender: LinkAddr, now: Clock)
      requires Valid()
      modifies this
      ensures Valid()
      ensures entries == Heard(old(entries), sender, now, EvictsAsWritten(old(entries), params), params)
    {
      Observe(sender, now, true);
    }

    /** The vicinity update of plexi_packet_received with the send path's eviction test. */
    method PacketReceived(sender: LinkAddr, now: Clock)
      requires Valid()
      modifies this
      ensures Valid()
      ensures entries == Heard(old(entries), sender, now, Full(old(entries), params), params)
    {
      Observe(sender, now, false);
    }

    /**
     * The loops the two paths share: refresh and count, find the weakest,
     * unlink it when `to_remove` says so, append an unknown peer.
     * `asReceived` selects the receive path's test `to_remove != 0` over the
     * send path's `to_remove > 0`.
     */
    method Observe(addr: LinkAddr, now: Clock, asReceived: bool)
      requires Valid()
      modifies this
      ensures Valid()
      ensures entries == Heard(old(entries), addr, now,
        if asReceived then EvictsAsWritten(old(entries), params) else Full(old(entries), params), params)
    {
      ghost var es := entries;
      HeardBounded(es, addr, now, params);
      var toAdd, toRemove := RefreshAndCount(addr, now);
      if (if asReceived then toRemove != 0 else toRemove > 0) {
        var w := FindWeakest();
        if w >= 0 {
          entries := entries[..w] + entries[w + 1..];
        }
      }
      if toAdd {
        entries := entries + [Proximate(addr, now, params.chunk)];
      }
    }

    /**
     * The first loop: refresh every entry for `addr`, note whether one was
     * found, and count the entries into `to_remove`, which starts at 1-MAX.
     */
    method RefreshAndCount(addr: LinkAddr, now: Clock) returns (toAdd: bool, toRemove: int)
      modifies this
      ensures entries == Refreshed(old(entries), addr, now, params)
      ensures toAdd == !Known(old(entries), addr)
      ensures toRemove == |old(entries)| + 1 - params.max
    {
      ghost var es := entries;
      toAdd := true;
      toRemove := 1 - params.max;
      var i := 0;
      while i < |entries|
        invariant 0 <= i <= |entries| == |es|
        invariant forall k :: 0 <= k < i ==> entries[k] == Refresh(es[k], addr, now, params)
        invariant forall k :: i <= k < |es| ==> entries[k] == es[k]
        invariant toAdd == !Known(es[..i], addr)
        invariant toRemove == i + 1 - params.max
      {
        if entries[i].proximate == addr {
          entries := entries[i := Proximate(addr, now, entries[i].pheromone + params.chunk)];
          toAdd := false;
        }
        assert es[..i + 1] == es[..i] + [es[i]];
        toRemove := toRemove + 1;
        i := i + 1;
      }
      assert entries == Refreshed(es, addr, now, params);
      assert es[..i] == es;
    }

    /** The second loop: the first entry of least pheromone, or -1 for an empty list. */
    method FindWeakest() returns (w: int)
      ensures entries == [] ==> w == -1
      ensures entries != [] ==> w == Weakest(entries, |entries|)
    {
      w := -1;
      var i := 0;
      while i < |entries|
        invariant 0 <= i <= |entries|
        invariant i == 0 ==> w == -1
        invariant i > 0 ==> w == Weakest(entries, i)
      {
        if w == -1 || entries[i].pheromone < entries[w].pheromone {
          w := i;
        }
        i := i + 1;
      }
    }
  }
}
