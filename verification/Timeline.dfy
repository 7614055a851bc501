/** The task clock: rate and pause epochs over an inner clock (`timeline.go`). Wall and media times are nanoseconds. */
module Timeline {

  /** One rate/pause segment: the media time at a wall anchor, scaled by the rate, or frozen. */
  datatype Epoch = Epoch(wallAnchor: int, mediaAnchor: int, rate: real, paused: bool)

  datatype Op = SetRate(rate: real) | Pause | Resume

  datatype Event = Event(wall: int, op: Op)

  /** Conversion of a float to an integer, toward zero. */
  function Trunc(x: real): int {
    if x >= 0.0 then x.Floor else -((-x).Floor)
  }

  /** `readingAt`. */
  function Reading(e: Epoch, wall: int): int {
    if e.paused then e.mediaAnchor else e.mediaAnchor + Trunc((wall - e.wallAnchor) as real * e.rate)
  }

  /** The epoch after an operation at a wall time; a rate that is not positive changes nothing. */
  function Apply(e: Epoch, wall: int, op: Op): Epoch {
    match op
    case SetRate(rate) => if rate > 0.0 then Epoch(wall, Reading(e, wall), rate, e.paused) else e
    case Pause => if e.paused then e else Epoch(0, Reading(e, wall), e.rate, true)
    case Resume => if e.paused then Epoch(wall, e.mediaAnchor, e.rate, false) else e
  }

  /** The integer next to an exact value on the side of zero. */
  ghost predicate TowardZero(n: int, x: real) {
    if x >= 0.0 then n as real <= x < n as real + 1.0 else n as real - 1.0 < x <= n as real
  }

  class Clock {
    var epoch: Epoch

    constructor (wall: int)
      ensures epoch == Start(wall)
      ensures forall w :: Reading(epoch, w) == w - wall
    {
      epoch := Epoch(wall, 0, 1.0, false);
    }

    /** The anchor while paused; while running, the anchor and the whole nanoseconds of media time since. */
    method Now(wall: int) returns (reading: int)
      ensures reading == Reading(epoch, wall)
      ensures epoch.paused ==> reading == epoch.mediaAnchor
      ensures !epoch.paused ==> TowardZero(reading - epoch.mediaAnchor, (wall - epoch.wallAnchor) as real * epoch.rate)
    {
      if epoch.paused {
        return epoch.mediaAnchor;
      }
      return epoch.mediaAnchor + Trunc((wall - epoch.wallAnchor) as real * epoch.rate);
    }

    /** The reading does not jump, and from now on it runs at the new rate, or stays frozen. */
    method SetRate(wall: int, rate: real) returns (ok: bool)
      modifies this
      ensures epoch == Apply(old(epoch), wall, Op.SetRate(rate))
      ensures ok == (rate > 0.0) && (!ok ==> epoch == old(epoch))
      ensures ok ==> epoch.rate == rate && epoch.paused == old(epoch.paused)
      ensures Reading(epoch, wall) == old(Reading(epoch, wall))
      ensures ok && !epoch.paused ==> forall w :: TowardZero(Reading(epoch, w) - old(Reading(epoch, wall)), (w - wall) as real * rate)
      ensures ok && epoch.paused ==> forall w :: Reading(epoch, w) == old(Reading(epoch, w))
    {
      if rate <= 0.0 {
        return false;
      }
      var reading := Now(wall);
      Continuous(epoch, wall, Op.SetRate(rate));
      epoch := Epoch(wall, reading, rate, epoch.paused);
      return true;
    }

    /** Every reading from now on is the one at the pause. */
    method Pause(wall: int)
      modifies this
      ensures epoch == Apply(old(epoch), wall, Op.Pause)
      ensures epoch.paused && epoch.rate == old(epoch.rate)
      ensures forall w :: Reading(epoch, w) == old(Reading(epoch, wall))
    {
      if epoch.paused {
        return;
      }
      var reading := Now(wall);
      epoch := Epoch(0, reading, epoch.rate, true);
    }

    /** The reading goes on from where it was frozen, at the rate last set; a running clock is not touched. */
    method Resume(wall: int)
      modifies this
      ensures epoch == Apply(old(epoch), wall, Op.Resume)
      ensures !epoch.paused && epoch.rate == old(epoch.rate) && (!old(epoch.paused) ==> epoch == old(epoch))
      ensures Reading(epoch, wall) == old(Reading(epoch, wall))
      ensures old(epoch.paused) ==> forall w :: TowardZero(Reading(epoch, w) - old(Reading(epoch, wall)), (w - wall) as real * epoch.rate)
    {
      if !epoch.paused {
        return;
      }
      Continuous(epoch, wall, Op.Resume);
      epoch := Epoch(wall, epoch.mediaAnchor, epoch.rate, false);
    }
  }

  function Start(wall: int): Epoch {
    Epoch(wall, 0, 1.0, false)
  }

  // ---------------------------------------------------------------------
  // Histories
  // ---------------------------------------------------------------------

  /** The events come in the order of a nondecreasing inner clock. */
  ghost predicate Ordered(start: int, h: seq<Event>) {
    && (forall i :: 0 <= i < |h| ==> start <= h[i].wall)
    && (forall i, j :: 0 <= i < j < |h| ==> h[i].wall <= h[j].wall)
  }

  function Last(start: int, h: seq<Event>): int {
    if h == [] then start else h[|h|-1].wall
  }

  function After(start: int, h: seq<Event>): Epoch {
    if h == [] then Start(start) else
      var n := |h| - 1;
      Apply(After(start, h[..n]), h[n].wall, h[n].op)
  }

  /** What was asked for: the last positive rate, and whether the last of Pause and Resume was Pause. */
  function RateAfter(h: seq<Event>): real {
    if h == [] then 1.0 else
      var n := |h| - 1;
      if h[n].op.SetRate? && h[n].op.rate > 0.0 then h[n].op.rate else RateAfter(h[..n])
  }

  predicate PausedAfter(h: seq<Event>) {
    if h == [] then false else
      var n := |h| - 1;
      if h[n].op.SetRate? then PausedAfter(h[..n]) else h[n].op.Pause?
  }

  /** An event that changes the rate asked for or the pause. */
  predicate Changes(h: seq<Event>, i: nat)
    requires i < |h|
  {
    match h[i].op
    case SetRate(rate) => rate > 0.0
    case Pause => !PausedAfter(h[..i])
    case Resume => PausedAfter(h[..i])
  }

  function ChangeCount(h: seq<Event>): nat {
    if h == [] then 0 else
      var n := |h| - 1;
      ChangeCount(h[..n]) + if Changes(h, n) then 1 else 0
  }

  function Advance(rate: real, paused: bool, from: int, to: int): real {
    if paused then 0.0 else (to - from) as real * rate
  }

  /** The exact integral of the rate over unpaused time since the start. */
  function Integral(start: int, h: seq<Event>, wall: int): real
    decreases |h|
  {
    if h == [] then Advance(1.0, false, start, wall) else
      var n := |h| - 1;
      Integral(start, h[..n], h[n].wall) + Advance(RateAfter(h), PausedAfter(h), h[n].wall, wall)
  }

  // ---------------------------------------------------------------------
  // Properties
  // ---------------------------------------------------------------------

  lemma ScaleSplits(a: int, b: int, c: int, r: real)
    ensures (c - a) as real * r == (b - a) as real * r + (c - b) as real * r
  {
    assert (c - a) as real == (b - a) as real + (c - b) as real;
  }

  lemma ScaleNonNegative(a: int, r: real)
    requires a >= 0 && r >= 0.0
    ensures a as real * r >= 0.0
  {
  }

  lemma ScaleMonotone(a: int, b: int, r: real)
    requires a <= b && r >= 0.0
    ensures a as real * r <= b as real * r
  {
    assert (b - a) as real * r >= 0.0;
    assert b as real * r == a as real * r + (b - a) as real * r;
  }

  lemma TruncMonotone(x: real, y: real)
    requires 0.0 <= x <= y
    ensures 0 <= Trunc(x) <= Trunc(y)
    ensures Trunc(x) as real <= x < Trunc(x) as real + 1.0
  {
  }

  /** The reading is continuous at every change. */
  lemma Continuous(e: Epoch, wall: int, op: Op)
    ensures Reading(Apply(e, wall, op), wall) == Reading(e, wall)
  {
    assert (wall - wall) as real * e.rate == 0.0;
  }

  /** Within an epoch the reading never decreases, and stands still while paused. */
  lemma EpochMonotone(e: Epoch, v: int, w: int)
    requires e.rate > 0.0 && v <= w && (e.paused || e.wallAnchor <= v)
    ensures Reading(e, v) <= Reading(e, w)
    ensures e.paused ==> Reading(e, v) == Reading(e, w)
  {
    if !e.paused {
      ScaleNonNegative(v - e.wallAnchor, e.rate);
      ScaleMonotone(v - e.wallAnchor, w - e.wallAnchor, e.rate);
      TruncMonotone((v - e.wallAnchor) as real * e.rate, (w - e.wallAnchor) as real * e.rate);
    }
  }

  /** The epoch carries out what was asked for, anchored no later than the last event. */
  lemma {:induction false} AfterIs(start: int, h: seq<Event>)
    requires Ordered(start, h)
    ensures After(start, h).rate == RateAfter(h) > 0.0 && After(start, h).paused == PausedAfter(h)
    ensures !PausedAfter(h) ==> After(start, h).wallAnchor <= Last(start, h)
    ensures start <= Last(start, h)
    decreases |h|
  {
    if h != [] {
      AfterIs(start, h[..|h|-1]);
    }
  }

  /** Over any history the reading never decreases. */
  lemma {:induction false} NeverDecreases(start: int, h: seq<Event>, i: nat, v: int, w: int)
    requires Ordered(start, h) && i <= |h|
    requires Last(start, h[..i]) <= v && Last(start, h) <= w
    requires if i < |h| then v <= h[i].wall else v <= w
    ensures Reading(After(start, h[..i]), v) <= Reading(After(start, h), w)
    decreases |h|
  {
    AfterIs(start, h);
    if i == |h| {
      assert h[..i] == h;
      EpochMonotone(After(start, h), v, w);
    } else {
      var n := |h| - 1;
      assert h[..n][..i] == h[..i];
      NeverDecreases(start, h[..n], i, v, h[n].wall);
      Continuous(After(start, h[..n]), h[n].wall, h[n].op);
      EpochMonotone(After(start, h), h[n].wall, w);
    }
  }

  /** While paused the reading is constant, through any rate changes made during the pause. */
  lemma {:induction false} FrozenWhilePaused(start: int, h: seq<Event>, i: nat, v: int, w: int)
    requires Ordered(start, h) && i <= |h|
    requires forall j :: i <= j <= |h| ==> PausedAfter(h[..j])
    ensures Reading(After(start, h[..i]), v) == Reading(After(start, h), w)
    decreases |h|
  {
    assert h[..|h|] == h;
    AfterIs(start, h);
    if i < |h| {
      var n := |h| - 1;
      assert forall j :: 0 <= j <= n ==> h[..n][..j] == h[..j];
      FrozenWhilePaused(start, h[..n], i, v, h[n].wall);
      Continuous(After(start, h[..n]), h[n].wall, h[n].op);
    }
  }

  /** How far the reading trails the exact integral. */
  ghost function Lag(start: int, h: seq<Event>, wall: int): real {
    Integral(start, h, wall) - Reading(After(start, h), wall) as real
  }

  /** Exact media time since the anchor. */
  function Elapsed(e: Epoch, wall: int): real {
    if e.paused then 0.0 else (wall - e.wallAnchor) as real * e.rate
  }

  lemma ElapsedBounds(e: Epoch, wall: int)
    requires e.rate > 0.0 && (e.paused || e.wallAnchor <= wall)
    ensures 0.0 <= Elapsed(e, wall) && Reading(e, wall) == e.mediaAnchor + Trunc(Elapsed(e, wall))
    ensures 0.0 <= Elapsed(e, wall) - Trunc(Elapsed(e, wall)) as real < 1.0
  {
    if !e.paused {
      ScaleNonNegative(wall - e.wallAnchor, e.rate);
    }
  }

  /** What the anchors have lost to truncation: one fraction per change. */
  ghost function Lost(start: int, h: seq<Event>): real {
    if h == [] then 0.0 else
      var n := |h| - 1;
      var elapsed := Elapsed(After(start, h[..n]), h[n].wall);
      Lost(start, h[..n]) + if Changes(h, n) then elapsed - Trunc(elapsed) as real else 0.0
  }

  lemma {:induction false} LostLittle(start: int, h: seq<Event>)
    requires Ordered(start, h)
    ensures 0.0 <= Lost(start, h) <= ChangeCount(h) as real
    decreases |h|
  {
    if h != [] {
      var n := |h| - 1;
      LostLittle(start, h[..n]);
      AfterIs(start, h[..n]);
      ElapsedBounds(After(start, h[..n]), h[n].wall);
    }
  }

  /** The operation replaces the epoch. */
  predicate Effective(e: Epoch, op: Op) {
    match op
    case SetRate(rate) => rate > 0.0
    case Pause => !e.paused
    case Resume => e.paused
  }

  /** A replaced epoch starts at the reading, and its exact time starts there; otherwise time just goes on. */
  lemma ChangeAt(e: Epoch, w: int, op: Op, wall: int)
    requires e.rate > 0.0 && (e.paused || e.wallAnchor <= w)
    ensures var f := Apply(e, w, op);
      if Effective(e, op) then
        && f.mediaAnchor == e.mediaAnchor + Trunc(Elapsed(e, w))
        && Elapsed(f, wall) == Advance(f.rate, f.paused, w, wall)
      else
        && f == e
        && Elapsed(e, wall) == Elapsed(e, w) + Advance(f.rate, f.paused, w, wall)
  {
    if Effective(e, op) {
      ElapsedBounds(e, w);
    } else {
      ScaleSplits(e.wallAnchor, w, wall, e.rate);
    }
  }

  /** The exact integral is the anchor, what the anchors have lost, and the exact time since. */
  lemma {:induction false} IntegralIs(start: int, h: seq<Event>, wall: int)
    requires Ordered(start, h) && Last(start, h) <= wall
    ensures Integral(start, h, wall) == After(start, h).mediaAnchor as real + Lost(start, h) + Elapsed(After(start, h), wall)
    decreases |h|
  {
    if h != [] {
      var n := |h| - 1;
      AfterIs(start, h[..n]);
      AfterIs(start, h);
      IntegralIs(start, h[..n], h[n].wall);
      ChangeAt(After(start, h[..n]), h[n].wall, h[n].op, wall);
    }
  }

  /** The reading trails the exact integral, by less than one nanosecond more than the changes made. */
  lemma TrailsTheIntegral(start: int, h: seq<Event>, wall: int)
    requires Ordered(start, h) && Last(start, h) <= wall
    ensures 0.0 <= Lag(start, h, wall) < ChangeCount(h) as real + 1.0
  {
    IntegralIs(start, h, wall);
    LostLittle(start, h);
    AfterIs(start, h);
    ElapsedBounds(After(start, h), wall);
  }

  // ---------------------------------------------------------------------
  // Sleep
  // ---------------------------------------------------------------------

  lemma DivMul(remaining: real, rate: real)
    requires rate > 0.0
    ensures remaining / rate * rate == remaining
  {
  }

  lemma LessScaled(a: real, b: real, rate: real)
    requires rate > 0.0 && a <= b
    ensures a * rate <= b * rate
  {
    assert (b - a) * rate >= 0.0;
  }

  lemma ScaledLess(a: real, b: real, rate: real)
    requires rate > 0.0 && a * rate < b * rate
    ensures a < b
  {
    if a >= b {
      LessScaled(b, a, rate);
    }
  }

  /** One wait: the wall time the remaining media time takes, at least one nanosecond. */
  function Wait(remaining: int, rate: real): int
    requires rate > 0.0
  {
    var wall := Trunc(remaining as real / rate);
    if wall <= 0 then 1 else wall
  }

  /** A wait never carries the exact media time a whole step past the target. */
  lemma WaitBounds(remaining: int, rate: real)
    requires rate > 0.0 && remaining > 0
    ensures Fits(Wait(remaining, rate), remaining, rate)
  {
    var q := remaining as real / rate;
    DivMul(remaining as real, rate);
    if q < 1.0 {
      assert rate * (1.0 - q) > 0.0;
    } else {
      LessScaled(Trunc(q) as real, q, rate);
    }
  }

  lemma Overshoot(x: real, s: real, remaining: int, rate: real)
    requires 0.0 <= x && 0.0 < s && remaining >= 1
    requires s <= remaining as real || (s == rate && remaining as real < rate)
    ensures Trunc(x + s) as real < (Trunc(x) + remaining) as real + if rate > 1.0 then rate else 1.0
  {
    TruncMonotone(x, x + s);
    TruncMonotone(x + s, x + s);
    if s <= remaining as real {
      assert x + s < (Trunc(x) + remaining + 1) as real;
    }
  }

  /** A wait of w costs the remaining media time at most, or is one nanosecond worth more than it. */
  ghost predicate Fits(w: int, remaining: int, rate: real) {
    w >= 1 && (w as real * rate <= remaining as real || (w == 1 && remaining as real < rate))
  }

  lemma ElapsedAfter(e: Epoch, wall: int, w: int)
    requires !e.paused
    ensures Elapsed(e, wall + w) == Elapsed(e, wall) + w as real * e.rate
  {
    ScaleSplits(e.wallAnchor, wall, wall + w, e.rate);
  }

  lemma ScaledPositive(w: int, rate: real)
    requires w >= 1 && rate > 0.0
    ensures w as real * rate > 0.0 && (w == 1 ==> w as real * rate == rate)
  {
  }

  /** Inside one running epoch, after one more wait. */
  lemma AfterWait(e: Epoch, wall: int, w: int, target: int)
    requires e.rate > 0.0 && !e.paused && e.wallAnchor <= wall && Reading(e, wall) < target
    requires Fits(w, target - Reading(e, wall), e.rate)
    ensures Reading(e, wall + w) as real < target as real + if e.rate > 1.0 then e.rate else 1.0
  {
    ElapsedBounds(e, wall);
    ElapsedBounds(e, wall + w);
    ElapsedAfter(e, wall, w);
    ScaledPositive(w, e.rate);
    Overshoot(Elapsed(e, wall), w as real * e.rate, target - Reading(e, wall), e.rate);
  }

  /** The wall time by which the target is reached. */
  function Deadline(e: Epoch, target: int): int
    requires e.rate > 0.0
  {
    e.wallAnchor + ((target - e.mediaAnchor) as real / e.rate).Floor + 1
  }

  lemma BeforeDeadline(e: Epoch, wall: int, target: int)
    requires e.rate > 0.0 && !e.paused && e.wallAnchor <= wall && Reading(e, wall) < target
    ensures wall < Deadline(e, target)
  {
    ElapsedBounds(e, wall);
    var need := (target - e.mediaAnchor) as real;
    assert Elapsed(e, wall) < need;
    DivMul(need, e.rate);
    ScaledLess((wall - e.wallAnchor) as real, need / e.rate, e.rate);
  }

  /** `Sleep` in one running epoch with exact inner waits: it ends, just past its target. */
  method Sleep(e: Epoch, start: int, d: int) returns (wall: int)
    requires e.rate > 0.0 && !e.paused && e.wallAnchor <= start
    ensures start <= wall && (d <= 0 ==> wall == start)
    ensures d > 0 ==> Reading(e, wall) >= Reading(e, start) + d
    ensures d > 0 ==> Reading(e, wall) as real < (Reading(e, start) + d) as real + if e.rate > 1.0 then e.rate else 1.0
  {
    wall := start;
    if d <= 0 {
      return;
    }
    var target := Reading(e, start) + d;
    while Reading(e, wall) < target
      invariant start <= wall
      invariant Reading(e, wall) as real < target as real + if e.rate > 1.0 then e.rate else 1.0
      decreases Deadline(e, target) - wall
    {
      BeforeDeadline(e, wall, target);
      WaitBounds(target - Reading(e, wall), e.rate);
      var w := Wait(target - Reading(e, wall), e.rate);
      AfterWait(e, wall, w, target);
      wall := wall + w;
    }
  }
}
