/** Time stamps as the handlers use them, and the two elapsed-time formulas of the clients. */
module Clocks {
  import opened Wire

  datatype Timespec = Timespec(sec: int, nsec: int)
  type Time = t: Timespec | 0 <= t.nsec < 1_000_000_000 witness Timespec(0, 0)

  function FloorMs(t: Time): int
  {
    t.sec * 1000 + t.nsec / 1_000_000
  }

  function Nanos(t: Time): int
  {
    t.sec * 1_000_000_000 + t.nsec
  }

  /** The TCP client computes in int64. */
  function ElapsedMs(ts: Time, last: Time): (ms: int)
    ensures ms == FloorMs(ts) - FloorMs(last)
  {
    (ts.sec - last.sec) * 1000 + ts.nsec / 1_000_000 - last.nsec / 1_000_000
  }

  /** The UDP client stores the same sum in a uint32. */
  function ElapsedMs32(ts: Time, last: Time): (ms: uint32)
    ensures ms == (FloorMs(ts) - FloorMs(last)) % TWO_32
  {
    ((ts.sec - last.sec) * 1000 + ts.nsec / 1_000_000 - last.nsec / 1_000_000) % TWO_32
  }

  lemma FloorIsClose(t: Time)
    ensures 0 <= Nanos(t) - FloorMs(t) * 1_000_000 < 1_000_000
  {
    assert t.nsec == t.nsec / 1_000_000 * 1_000_000 + t.nsec % 1_000_000;
  }

  // ---------------------------------------------------------------- UDP against TCP pacing

  predicate SendsTcp(now: Time, last: Time, interval: uint32) {
    ElapsedMs(now, last) >= interval
  }

  predicate SendsUdp(now: Time, last: Time, interval: uint32) {
    ElapsedMs32(now, last) >= interval
  }

  /** The elapsed time is within 2^32 ms; or the clock has gone back, and the wrapped distance misses the
      interval; or it has gone forward further, and the wrapped distance still reaches it. */
  predicate TestsAgree(now: Time, last: Time, interval: uint32)
  {
    var e := FloorMs(now) - FloorMs(last);
    0 <= e < TWO_32 || (e < 0 && e % TWO_32 < interval) || (e >= TWO_32 && e % TWO_32 >= interval)
  }

  /** One tick: exactly when the two tests agree. */
  lemma SameTickIff(now: Time, last: Time, interval: uint32)
    ensures (SendsTcp(now, last, interval) <==> SendsUdp(now, last, interval)) <==> TestsAgree(now, last, interval)
  {
    var e := FloorMs(now) - FloorMs(last);
    if 0 <= e < TWO_32 {
      assert e % TWO_32 == e;
    }
  }

  /** A clock that steps back one millisecond makes the UDP client send and the TCP client wait. */
  lemma BackwardClockDiffers()
    ensures var now, last := Timespec(10, 0), Timespec(10, 1_000_000);
            !SendsTcp(now, last, 1) && SendsUdp(now, last, 1)
  {
    assert (-1) % TWO_32 == TWO_32 - 1;
  }

  /** A clock that goes forward by 2^32 ms makes the TCP client send and the UDP client wait. */
  lemma ForwardClockDiffers(now: Time, last: Time, interval: uint32)
    requires FloorMs(now) - FloorMs(last) == TWO_32 && interval >= 1
    ensures SendsTcp(now, last, interval) && !SendsUdp(now, last, interval)
  {
    assert TWO_32 % TWO_32 == 0;
  }

  /** The send decisions of a run of ticks; every send moves the reference time. */
  function Decisions(ticks: seq<Time>, last: Time, interval: uint32, udp: bool): (ds: seq<bool>)
    ensures |ds| == |ticks|
  {
    if ticks == [] then []
    else
      var sends := if udp then SendsUdp(ticks[0], last, interval) else SendsTcp(ticks[0], last, interval);
      [sends] + Decisions(ticks[1..], if sends then ticks[0] else last, interval, udp)
  }

  /** The tests agree on every tick, each against the last tick on which the TCP client sent. */
  predicate AgreeOnAll(ticks: seq<Time>, last: Time, interval: uint32)
    decreases |ticks|
  {
    ticks == [] ||
    (&& TestsAgree(ticks[0], last, interval)
     && AgreeOnAll(ticks[1..], if SendsTcp(ticks[0], last, interval) then ticks[0] else last, interval))
  }

  /** Whole runs of any length and for any clock: the UDP client sends on exactly the ticks on which the
      TCP client sends if and only if the two tests agree on every tick of that history. */
  lemma {:induction false} SameDecisionsIff(ticks: seq<Time>, last: Time, interval: uint32)
    ensures Decisions(ticks, last, interval, true) == Decisions(ticks, last, interval, false)
            <==> AgreeOnAll(ticks, last, interval)
    decreases |ticks|
  {
    if ticks != [] {
      var now := ticks[0];
      var next := if SendsTcp(now, last, interval) then now else last;
      SameTickIff(now, last, interval);
      SameDecisionsIff(ticks[1..], next, interval);
      hide SendsTcp, SendsUdp, TestsAgree;
      var udp, tcp := Decisions(ticks, last, interval, true), Decisions(ticks, last, interval, false);
      if udp == tcp {
        assert udp[0] == tcp[0] && udp[1..] == tcp[1..];
      }
    }
  }

  /** The clock never goes back between ticks, and a tick plus the interval stays within 2^32 ms. */
  predicate SmallSteps(prev: Time, ticks: seq<Time>, interval: uint32)
    decreases |ticks|
  {
    ticks == [] ||
    (&& 0 <= FloorMs(ticks[0]) - FloorMs(prev) <= TWO_32 - interval
     && SmallSteps(ticks[0], ticks[1..], interval))
  }

  /** With ticks like these the UDP client sends on exactly the ticks on which the TCP client sends. */
  lemma UdpPacingRefinesTcp(ticks: seq<Time>, last: Time, interval: uint32)
    requires SmallSteps(last, ticks, interval)
    ensures Decisions(ticks, last, interval, true) == Decisions(ticks, last, interval, false)
  {
    SmallStepsAgree(ticks, last, last, interval);
    SameDecisionsIff(ticks, last, interval);
  }

  lemma {:induction false} SmallStepsAgree(ticks: seq<Time>, prev: Time, last: Time, interval: uint32)
    requires SmallSteps(prev, ticks, interval)
    requires var d := FloorMs(prev) - FloorMs(last); d == 0 || 0 <= d < interval
    ensures AgreeOnAll(ticks, last, interval)
    decreases |ticks|
  {
    if ticks != [] {
      var now := ticks[0];
      SmallStepsAgree(ticks[1..], now, if SendsTcp(now, last, interval) then now else last, interval);
    }
  }
}
