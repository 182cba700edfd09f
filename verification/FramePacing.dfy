/** Thinning a frame stream to the desired rate, in 64-bit nanosecond arithmetic. */
module FramePacing {
  import opened Bytes
  import opened VideoPacketProtocol

  const NANOS_PER_SECOND := 1_000_000_000
  const WORDS := 0x1_0000_0000_0000_0000
  const UINT64_MAX := 0xffff_ffff_ffff_ffff

  /** A rate whose interval is not zero; every configured rate is at most 60. */
  predicate IsRate(frameRate: u32) { 0 < frameRate <= NANOS_PER_SECOND }

  function Interval(frameRate: u32): (interval: nat)
    requires IsRate(frameRate)
    ensures 1 <= interval <= NANOS_PER_SECOND
  {
    Quotient(frameRate);
    NANOS_PER_SECOND / frameRate
  }

  lemma {:induction false} Quotient(frameRate: nat)
    requires 0 < frameRate <= NANOS_PER_SECOND
    ensures 1 <= NANOS_PER_SECOND / frameRate <= NANOS_PER_SECOND
  {
    var q, r := NANOS_PER_SECOND / frameRate, NANOS_PER_SECOND % frameRate;
    assert NANOS_PER_SECOND == q * frameRate + r;
    assert q * frameRate == (frameRate - 1) * q + q;
    Product(q, frameRate);
    if q > NANOS_PER_SECOND {
      Product(frameRate - 1, q);
    }
  }

  lemma {:induction false} Product(a: int, b: int)
    requires b >= 0
    ensures a >= 0 ==> a * b >= 0
    ensures a <= 0 ==> a * b <= 0
  {
  }

  /** The frame pacer's one field. */
  class Pacer {
    var nextFramePresentationTimeNanos: u64

    constructor ()
      ensures nextFramePresentationTimeNanos == 0
    {
      nextFramePresentationTimeNanos := 0;
    }

    /** Whether to drop the frame at `presentationTimeNanos`. The next slot stays within one
        interval of the last kept frame, whatever the timestamps; sums never wrap around. */
    method ShouldDropFrame(presentationTimeNanos: i64, frameRate: u32) returns (drop: bool)
      requires frameRate != 0 ==> IsRate(frameRate)
      modifies this
      ensures (nextFramePresentationTimeNanos, drop)
              == Pace(old(nextFramePresentationTimeNanos), presentationTimeNanos, frameRate)
    {
      if presentationTimeNanos <= 0 || frameRate == 0 {
        return false;
      }
      var timestamp: u64 := presentationTimeNanos;
      var interval := Interval(frameRate);
      var next := nextFramePresentationTimeNanos;
      if next == 0 || (timestamp + interval) % WORDS < next {
        nextFramePresentationTimeNanos := (timestamp + interval) % WORDS;
        return false;
      }
      if timestamp < next {
        return true;
      }
      var intervals := (timestamp - next) / interval + 1;
      SlotsFit(next, timestamp, interval);
      if intervals > (UINT64_MAX - next) / interval {
        assert false;
      }
      nextFramePresentationTimeNanos := (next + intervals * interval) % WORDS;
      drop := false;
    }
  }

  /** The first slot after `timestamp` on the grid through `next`. */
  function NextSlot(next: nat, timestamp: nat, interval: nat): nat
    requires next <= timestamp && interval > 0
  {
    next + ((timestamp - next) / interval + 1) * interval
  }

  /** The new slot, and whether the frame is dropped. */
  function Pace(next: u64, presentationTimeNanos: i64, frameRate: u32): (u64, bool)
    requires frameRate != 0 ==> IsRate(frameRate)
  {
    if presentationTimeNanos <= 0 || frameRate == 0 then (next, false)
    else
      var timestamp, interval := presentationTimeNanos, Interval(frameRate);
      if next == 0 || timestamp + interval < next then (timestamp + interval, false)
      else if timestamp < next then (next, true)
      else
        SlotIsNear(next, timestamp, interval);
        (NextSlot(next, timestamp, interval), false)
  }

  lemma {:induction false} SlotIsNear(next: nat, timestamp: nat, interval: nat)
    requires next <= timestamp && interval > 0
    ensures timestamp < NextSlot(next, timestamp, interval) <= timestamp + interval
    ensures NextSlot(next, timestamp, interval) >= next + interval
  {
    var q, r := (timestamp - next) / interval, (timestamp - next) % interval;
    assert timestamp - next == q * interval + r;
    assert (q + 1) * interval == q * interval + interval;
    if q < 0 {
      Product(q, interval);
    }
    Product(q, interval);
  }

  /** The overflow branch cannot be taken. */
  lemma {:induction false} SlotsFit(next: u64, timestamp: u64, interval: nat)
    requires next <= timestamp < 0x8000_0000_0000_0000 && 1 <= interval <= NANOS_PER_SECOND
    ensures (timestamp - next) / interval + 1 <= (UINT64_MAX - next) / interval
    ensures NextSlot(next, timestamp, interval) < WORDS
  {
    SlotIsNear(next, timestamp, interval);
    var a, d := (timestamp - next) / interval + 1, UINT64_MAX - next;
    assert a * interval <= d;
    var q, r := d / interval, d % interval;
    assert d == q * interval + r;
    assert (a - q - 1) * interval == a * interval - q * interval - interval;
    Product(a - q - 1, interval);
  }

  /** After a kept frame the next slot lies at most one interval ahead, and a frame is dropped
      exactly when it comes before the slot but not so long before that the pacer starts anew. */
  lemma {:induction false} KeptFrameSetsSlot(next: u64, presentationTimeNanos: i64, frameRate: u32)
    requires IsRate(frameRate) && presentationTimeNanos > 0
    ensures var (after, drop) := Pace(next, presentationTimeNanos, frameRate);
            && (drop <==> presentationTimeNanos < next <= presentationTimeNanos + Interval(frameRate))
            && (drop ==> after == next)
            && (!drop ==> presentationTimeNanos < after <= presentationTimeNanos + Interval(frameRate))
  {
    if next <= presentationTimeNanos {
      SlotIsNear(next, presentationTimeNanos, Interval(frameRate));
    }
  }

  /** Which slot: a pacer that starts anew puts it one interval after the frame, any other keeps its
      grid and takes the first slot after the frame. */
  lemma {:induction false} SlotIsFirstOfGrid(next: u64, presentationTimeNanos: i64, frameRate: u32, m: int)
    requires IsRate(frameRate) && presentationTimeNanos > 0 && !Pace(next, presentationTimeNanos, frameRate).1
    ensures var after, interval := Pace(next, presentationTimeNanos, frameRate).0, Interval(frameRate);
            if next == 0 || next > presentationTimeNanos + interval then after == presentationTimeNanos + interval
            else && next <= presentationTimeNanos < after
                 && (after == next + m * interval
                     <==> presentationTimeNanos < next + m * interval <= presentationTimeNanos + interval)
  {
    if next != 0 && next <= presentationTimeNanos + Interval(frameRate) {
      var t, interval := presentationTimeNanos, Interval(frameRate);
      var slots := (t - next) / interval + 1;
      SlotIsNear(next, t, interval);
      assert NextSlot(next, t, interval) == next + slots * interval;
      hide NextSlot;
      OneSlotInInterval(next, t, interval, slots, m);
    }
  }

  /** An interval holds one slot of a grid. */
  lemma {:induction false} OneSlotInInterval(next: int, t: int, interval: nat, k: int, m: int)
    requires interval > 0 && t < next + k * interval <= t + interval
    ensures next + m * interval == next + k * interval <==> t < next + m * interval <= t + interval
  {
    if m < k {
      Product(k - m - 1, interval);
      assert (k - m - 1) * interval == k * interval - m * interval - interval;
    } else if m > k {
      Product(m - k - 1, interval);
      assert (m - k - 1) * interval == m * interval - k * interval - interval;
    }
  }

  // ---------- a whole stream of frames ----------

  /** The slot and the kept frames after a stream of timestamps at one rate. */
  function Run(timestamps: seq<i64>, frameRate: u32): (u64, seq<i64>)
    requires IsRate(frameRate)
  {
    if timestamps == [] then (0, [])
    else
      var n := |timestamps| - 1;
      var (next, kept) := Run(timestamps[..n], frameRate);
      var (after, drop) := Pace(next, timestamps[n], frameRate);
      (after, if drop then kept else kept + [timestamps[n]])
  }

  /** Positive timestamps that never go back. */
  ghost predicate IsStream(timestamps: seq<i64>) {
    && (forall i :: 0 <= i < |timestamps| ==> timestamps[i] > 0)
    && forall i, j :: 0 <= i <= j < |timestamps| ==> timestamps[i] <= timestamps[j]
  }

  /** Kept frames are spaced: from frame `i` to the next slot there are whole intervals. */
  ghost predicate Spaced(kept: seq<i64>, next: int, interval: nat) {
    && (forall i :: 0 <= i < |kept| ==> kept[i] + (|kept| - 1 - i) * interval < next)
    && (forall i, j :: 0 <= i < j < |kept| ==> kept[j] - kept[i] >= 1 + (j - i - 1) * interval)
  }

  lemma {:induction false} SpacedGrows(kept: seq<i64>, next: int, interval: nat, t: i64, after: int)
    requires Spaced(kept, next, interval)
    requires kept != [] ==> next <= t && next + interval <= after
    requires t < after
    ensures Spaced(kept + [t], after, interval)
  {
    var more := kept + [t];
    forall i | 0 <= i < |more| ensures more[i] + (|more| - 1 - i) * interval < after {
      if i < |kept| {
        assert kept[i] + (|kept| - 1 - i) * interval < next;
        assert (|kept| - i) * interval == (|kept| - 1 - i) * interval + interval;
      }
    }
    forall i, j | 0 <= i < j < |more| ensures more[j] - more[i] >= 1 + (j - i - 1) * interval {
      if j == |kept| {
        assert kept[i] + (|kept| - 1 - i) * interval < next;
      }
    }
  }

  /** In a stream that never goes back the pacer starts anew at no frame but the first, and the
      slot stays within one interval of the last kept frame. */
  lemma {:induction false} RunIsPaced(timestamps: seq<i64>, frameRate: u32)
    requires IsRate(frameRate) && IsStream(timestamps)
    ensures var (next, kept) := Run(timestamps, frameRate);
            && (timestamps == [] <==> kept == [])
            && (kept == [] ==> next == 0)
            && (kept != [] ==> kept[|kept| - 1] < next <= kept[|kept| - 1] + Interval(frameRate))
            && (kept != [] ==> kept[|kept| - 1] <= timestamps[|timestamps| - 1])
            && Spaced(kept, next, Interval(frameRate))
  {
    if timestamps != [] {
      var n := |timestamps| - 1;
      RunIsPaced(timestamps[..n], frameRate);
      var (next, kept) := Run(timestamps[..n], frameRate);
      var t, interval := timestamps[n], Interval(frameRate);
      KeptFrameSetsSlot(next, t, frameRate);
      if kept != [] {
        assert timestamps[n - 1] <= t;
      }
      var (after, drop) := Pace(next, t, frameRate);
      if !drop {
        if kept != [] {
          SlotIsNear(next, t, interval);
        }
        hide Spaced;
        SpacedGrows(kept, next, interval, t, after);
      }
    }
  }

  /** Between `n` kept frames, for any `n` of at least 2, lie more than `n - 2` intervals: the
      output rate never exceeds the desired one. */
  lemma {:induction false} RateIsBounded(timestamps: seq<i64>, frameRate: u32, i: nat, j: nat)
    requires IsRate(frameRate) && IsStream(timestamps)
    requires i < j < |Run(timestamps, frameRate).1|
    ensures var kept, n := Run(timestamps, frameRate).1, j - i + 1;
            kept[j] - kept[i] > (n - 2) * Interval(frameRate)
  {
    hide Run;
    RunIsPaced(timestamps, frameRate);
  }

  /** After the first frame the pacer never starts anew: a frame is dropped exactly when it comes
      before the slot, and a frame at least one interval after the last kept one is kept. */
  lemma {:induction false} LateFramesAreKept(timestamps: seq<i64>, t: i64, frameRate: u32)
    requires IsRate(frameRate) && IsStream(timestamps + [t]) && timestamps != []
    ensures var (next, kept) := Run(timestamps, frameRate);
            && kept != [] && next != 0 && t + Interval(frameRate) >= next
            && (Pace(next, t, frameRate).1 <==> t < next)
            && (t >= kept[|kept| - 1] + Interval(frameRate) ==> !Pace(next, t, frameRate).1)
  {
    var more := timestamps + [t];
    assert IsStream(timestamps) by {
      assert forall i :: 0 <= i < |timestamps| ==> timestamps[i] == more[i];
    }
    RunIsPaced(timestamps, frameRate);
    var (next, kept) := Run(timestamps, frameRate);
    assert more[|timestamps| - 1] <= more[|timestamps|];
    KeptFrameSetsSlot(next, t, frameRate);
    hide Run;
    hide Spaced;
  }
}
