/**
 * What the join's functions mean, in terms of queues, times and spans only:
 * which frames a step drops, which heads it takes, who stamps it, and where
 * the clock goes (`join_sync.go`).
 */
module JoinMeaning {
  import opened Basics
  import opened Arith
  import opened TimeBase
  import opened JoinSpec

  // ---------------------------------------------------------------------
  // One step
  // ---------------------------------------------------------------------

  /** The first n frames end more than half their span before the clock, and the one after them does not. */
  ghost predicate CutAt(s: seq<Frame>, clock: int, n: nat) {
    && n <= |s|
    && (forall k :: 0 <= k < n ==> clock != UNSET && s[k].ns.Some? && s[k].ns.value + s[k].span / 2 < clock)
    && (n < |s| && clock != UNSET && s[n].ns.Some? ==> s[n].ns.value + s[n].span / 2 >= clock)
  }

  ghost predicate Heads(j: Join, h: seq<seq<Frame>>, cut: seq<nat>) {
    && |h| == |cut| == |j.q|
    && forall i :: 0 <= i < |h| ==>
      && (if j.byPts then CutAt(j.q[i], j.next, cut[i]) else cut[i] == 0)
      && cut[i] <= |j.q[i]| && h[i] == j.q[i][cut[i]..]
  }

  ghost predicate HasTime(h: seq<seq<Frame>>, i: nat) {
    i < |h| && h[i] != [] && h[i][0].ns.Some?
  }

  /** The first of the heads with the least time. */
  ghost predicate LeastAt(h: seq<seq<Frame>>, t: nat) {
    && HasTime(h, t)
    && forall i :: 0 <= i < |h| && HasTime(h, i) ==>
      h[t][0].ns.value <= h[i][0].ns.value && (i < t ==> h[t][0].ns.value < h[i][0].ns.value)
  }

  ghost predicate FirstHead(h: seq<seq<Frame>>, t: nat) {
    t < |h| && h[t] != [] && forall i :: 0 <= i < t ==> h[i] == []
  }

  /** A step timed by its earliest head: that head and all without a time or within half its span of it. */
  ghost predicate TimedStep(h: seq<seq<Frame>>, s: JoinStep, clock: int) {
    && s.ref >= 0 && LeastAt(h, s.ref) && |s.slots| == |h|
    && clock == h[s.ref][0].ns.value + h[s.ref][0].span
    && forall i :: 0 <= i < |h| ==> s.slots[i] == if Within(h[i], h[s.ref][0]) then Some(h[i][0]) else None
  }

  /** The head has no time, or one at most half the first's span after the first's. */
  ghost predicate Within(s: seq<Frame>, first: Frame)
    requires first.ns.Some?
  {
    s != [] && (s[0].ns.None? || s[0].ns.value <= first.ns.value + first.span / 2)
  }

  /** A step in arrival order: every head, stamped by the first. */
  ghost predicate ArrivalStep(h: seq<seq<Frame>>, s: JoinStep) {
    && s.ref >= 0 && FirstHead(h, s.ref) && |s.slots| == |h|
    && forall i :: 0 <= i < |h| ==> s.slots[i] == if h[i] != [] then Some(h[i][0]) else None
  }

  lemma {:induction false} PrefixIsCut(s: seq<Frame>, clock: int)
    ensures CutAt(s, clock, StalePrefix(s, clock))
  {
    if s != [] && Stale(s[0], clock) {
      PrefixIsCut(s[1..], clock);
      var n := StalePrefix(s[1..], clock);
      forall k | 0 <= k < n + 1
        ensures s[k].ns.Some? && s[k].ns.value + s[k].span / 2 < clock
      {
        if k > 0 {
          assert s[1..][k-1] == s[k];
        }
      }
      if n < |s[1..]| {
        assert s[1..][n] == s[n+1];
      }
    }
  }

  lemma {:induction false} EarliestIsLeast(q: seq<seq<Frame>>, n: nat, i: nat)
    requires i < n <= |q| && HasTime(q, i)
    ensures Earliest(q, n) >= 0
    ensures q[Earliest(q, n)][0].ns.value <= q[i][0].ns.value
    ensures i < Earliest(q, n) ==> q[Earliest(q, n)][0].ns.value < q[i][0].ns.value
  {
    if i < n - 1 {
      EarliestIsLeast(q, n - 1, i);
    }
  }

  lemma CaughtUp(j: Join) returns (cut: seq<nat>)
    requires j.Valid()
    ensures Heads(j, DropStale(j).q, cut)
  {
    if !j.byPts {
      cut := seq(|j.q|, _ => 0);
    } else {
      cut := seq(|j.q|, i requires 0 <= i < |j.q| => StalePrefix(j.q[i], j.next));
      forall i | 0 <= i < |j.q|
        ensures CutAt(j.q[i], j.next, cut[i])
      {
        PrefixIsCut(j.q[i], j.next);
      }
    }
  }

  lemma TimedBy(d: Join, t: nat)
    requires d.Valid() && d.byPts && Ready(d) && HasTime(d.q, t)
    ensures TimedStep(d.q, JoinStep(Slots(d), RefArm(d)), Popped(d).next)
  {
    EarliestIsLeast(d.q, |d.q|, t);
    forall i | 0 <= i < |d.q| && HasTime(d.q, i)
      ensures d.q[RefArm(d)][0].ns.value <= d.q[i][0].ns.value
      ensures i < RefArm(d) ==> d.q[RefArm(d)][0].ns.value < d.q[i][0].ns.value
    {
      EarliestIsLeast(d.q, |d.q|, i);
    }
  }

  lemma ArrivedBy(d: Join)
    requires d.Valid() && Ready(d) && (d.byPts ==> forall i :: 0 <= i < |d.q| ==> !HasTime(d.q, i))
    ensures ArrivalStep(d.q, JoinStep(Slots(d), RefArm(d))) && Popped(d).next == d.next
  {
    assert TimeArm(d) >= 0 ==> HasTime(d.q, TimeArm(d));
    var p :| 0 <= p < |d.q| && d.q[p] != [];
    FirstPendingFound(d.q, |d.q|, p);
    forall i | 0 <= i < |d.q| && d.q[i] != []
      ensures FirstPending(d.q, |d.q|) <= i
    {
      FirstPendingFound(d.q, |d.q|, i);
    }
  }

  /**
   * `step`, for every state. A PTS join first drops from each arm exactly the leading frames that lie behind the
   * clock. It can step when some head is left and every arm without one has ended. In PTS mode with a timed head the
   * first least time defines the step and the clock; otherwise every head takes part. Heads taken are popped.
   */
  lemma StepMeans(j: Join) returns (cut: seq<nat>, h: seq<seq<Frame>>)
    requires j.Valid()
    ensures Heads(j, h, cut)
    ensures StepOnce(j).1.Some? <==>
      (exists i :: 0 <= i < |h| && h[i] != []) && forall i :: 0 <= i < |h| && h[i] == [] ==> j.eos[i]
    ensures StepOnce(j).1.None? ==> StepOnce(j).0.q == h && StepOnce(j).0.next == j.next
    ensures var (k, s) := StepOnce(j); s.Some? ==>
      if j.byPts && exists i :: 0 <= i < |h| && HasTime(h, i)
      then TimedStep(h, s.value, k.next)
      else ArrivalStep(h, s.value) && k.next == j.next
    ensures var (k, s) := StepOnce(j); s.Some? ==>
      forall i :: 0 <= i < |h| ==> k.q[i] == if s.value.slots[i].Some? then h[i][1..] else h[i]
  {
    cut := CaughtUp(j);
    var d := DropStale(j);
    h := d.q;
    if Ready(d) {
      if t :| 0 <= t < |h| && j.byPts && HasTime(h, t) {
        TimedBy(d, t);
      } else {
        ArrivedBy(d);
      }
    }
  }

  // ---------------------------------------------------------------------
  // Breaks and the clock
  // ---------------------------------------------------------------------

  /** A break empties exactly the named arm, or every arm, of a PTS join and unsets its clock; an arrival join ignores it. */
  lemma BreakMeans(j: Join, which: Option<nat>, i: nat)
    requires j.Valid() && i < |j.q| && ForArms(Break(which), |j.q|)
    ensures !j.byPts ==> Deliver(j, Break(which)) == j
    ensures j.byPts ==> Deliver(j, Break(which)).next == UNSET && Deliver(j, Break(which)).eos == j.eos
    ensures j.byPts && (which == None || which == Some(i)) ==>
      Deliver(j, Break(which)).q[i] == [] && Deliver(j, Break(which)).gone[i] == j.gone[i] + AllDropped(j.q[i])
    ensures j.byPts && which.Some? && which.value != i ==>
      Deliver(j, Break(which)).q[i] == j.q[i] && Deliver(j, Break(which)).gone[i] == j.gone[i]
  {
  }

  /** A frame's time on the nanosecond clock is its timestamp's, truncated, if that can be had. */
  lemma OnClockMeans(f: MediaFrame)
    ensures OnClock(f).body == f.body
    ensures OnClock(f).ns.Some? ==> f.pts.base.Valid() && Truncates(OnClock(f).ns.value, f.pts.value, f.pts.base, Base(1, 1_000_000_000))
    ensures f.pts.base.Valid() && f.pts.value != MIN_INT64 ==>
      forall n: nat, d: nat :: InLowestTerms(n, d, f.pts.value, f.pts.base, Base(1, 1_000_000_000)) ==>
        (OnClock(f).ns.Some? <==> n <= MAX_INT64)
  {
    var ns := Base(1, 1_000_000_000);
    if TimestampNS(f.pts).Some? {
      RescaledTruncates(f.pts.value, f.pts.base, ns);
    }
    if f.pts.base.Valid() && f.pts.value != MIN_INT64 {
      forall n: nat, d: nat | InLowestTerms(n, d, f.pts.value, f.pts.base, ns)
        ensures TimestampNS(f.pts).Some? <==> n <= MAX_INT64
      {
        RescaledIffFits(f.pts.value, f.pts.base, ns, n, d);
      }
    }
  }

  /** The whole nanoseconds that many samples last at that rate. */
  ghost predicate Lasts(span: nat, audio: AudioHeader) {
    span * audio.sampleRate <= 1_000_000_000 * audio.samples < (span + 1) * audio.sampleRate
  }

  /** The span told from the audio header, or none. */
  ghost predicate ByHeader(span: nat, audio: Option<AudioHeader>) {
    if audio.Some? && audio.value.sampleRate > 0 && audio.value.samples > 0 then Lasts(span, audio.value) else span == 0
  }

  lemma HeaderLasts(audio: Option<AudioHeader>)
    ensures ByHeader(HeaderDurationNS(audio), audio)
  {
    if audio.Some? && audio.value.sampleRate > 0 && audio.value.samples > 0 {
      var n, d := 1_000_000_000 * audio.value.samples, audio.value.sampleRate;
      assert n == d * (n / d) + n % d;
      Distrib(d, n / d, 1);
    }
  }

  /** A duration of at least one nanosecond. */
  ghost predicate Lasting(d: MediaDuration) {
    d.value > 0 && d.value * d.base.num * 1_000_000_000 >= d.base.den
  }

  lemma LastingIffPositive(d: MediaDuration, r: int)
    requires d.base.Valid() && Truncates(r, d.value, d.base, Base(1, 1_000_000_000))
    ensures r > 0 <==> Lasting(d)
  {
    if r > 0 {
      MulMono(d.base.den, 1, r);
    }
  }

  /** A frame's span is its duration's, truncated, if that can be had and lasts a nanosecond; else what its samples last. */
  lemma SpanMeans(f: MediaFrame, n: nat, d: nat)
    requires f.duration.base.Valid() && f.duration.value != MIN_INT64
    requires InLowestTerms(n, d, f.duration.value, f.duration.base, Base(1, 1_000_000_000))
    ensures if n <= MAX_INT64 && Lasting(f.duration)
      then Truncates(OnClock(f).span, f.duration.value, f.duration.base, Base(1, 1_000_000_000))
      else ByHeader(OnClock(f).span, f.audio)
  {
    var ns := Base(1, 1_000_000_000);
    RescaledIffFits(f.duration.value, f.duration.base, ns, n, d);
    if DurationNS(f.duration).Some? {
      RescaledTruncates(f.duration.value, f.duration.base, ns);
      LastingIffPositive(f.duration, DurationNS(f.duration).value);
    }
    HeaderLasts(f.audio);
  }

  lemma SpanWithoutDuration(f: MediaFrame)
    requires !f.duration.base.Valid() || f.duration.value == MIN_INT64
    ensures ByHeader(OnClock(f).span, f.audio)
  {
    HeaderLasts(f.audio);
  }
}
