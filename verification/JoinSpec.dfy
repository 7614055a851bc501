/**
 * The convergence engine of `join_sync.go` on values: per-arm queues, the
 * alignment step, and the drain that runs after every message.
 */
module JoinSpec {
  import opened Basics
  import opened TimeBase

  // ---------------------------------------------------------------------
  // Frames on the common nanosecond clock
  // ---------------------------------------------------------------------

  datatype AudioHeader = AudioHeader(sampleRate: int64, samples: int64)

  datatype MediaFrame = MediaFrame(body: nat, pts: Timestamp, duration: MediaDuration, audio: Option<AudioHeader>)

  /** `joinSyncNSUnset`: the step clock is underived. */
  const UNSET: int := MIN_INT64

  /** A presentation time: a rescale never yields the unset marker. */
  type Instant = x: int | UNSET < x witness 0

  /** A buffered frame with its readings on the nanosecond clock. */
  datatype Frame = Frame(body: nat, ns: Option<Instant>, span: nat)

  function FramePTSNS(f: MediaFrame): Option<Instant> {
    match TimestampNS(f.pts)
    case None => None
    case Some(ns) => Some(ns)
  }

  function FrameDurationNS(f: MediaFrame): nat {
    match DurationNS(f.duration)
    case Some(d) => if d > 0 then d else HeaderDurationNS(f.audio)
    case None => HeaderDurationNS(f.audio)
  }

  function HeaderDurationNS(audio: Option<AudioHeader>): nat {
    if audio.Some? && audio.value.sampleRate > 0 && audio.value.samples > 0
    then SECOND * audio.value.samples / audio.value.sampleRate
    else 0
  }

  function OnClock(f: MediaFrame): Frame {
    Frame(f.body, FramePTSNS(f), FrameDurationNS(f))
  }

  // ---------------------------------------------------------------------
  // State
  // ---------------------------------------------------------------------

  /** What became of a frame that left its queue. */
  datatype Fate = Played(frame: Frame) | Dropped(frame: Frame) | Reclaimed(frame: Frame)

  /** Arms are indices into the join's inputs; `gone` is each arm's departures in order. */
  datatype Join = Join(byPts: bool, q: seq<seq<Frame>>, eos: seq<bool>, next: int, gone: seq<seq<Fate>>) {

    ghost predicate Valid() {
      |q| == |eos| == |gone|
    }

    predicate Arm(i: int) {
      0 <= i < |q|
    }

    /** Arm i's queue; an arm the join does not have has an empty one. */
    function Queue(i: int): seq<Frame> {
      if Arm(i) then q[i] else []
    }
  }

  /** States that agree arm by arm are equal. */
  lemma SameJoin(x: Join, y: Join)
    requires |x.q| == |y.q| == |x.gone| == |y.gone|
    requires x.byPts == y.byPts && x.eos == y.eos && x.next == y.next
    requires forall i :: 0 <= i < |x.q| ==> x.q[i] == y.q[i] && x.gone[i] == y.gone[i]
    ensures x == y
  {
    assert x.q == y.q && x.gone == y.gone;
  }

  function Init(byPts: bool, arms: nat): Join {
    Join(byPts, seq(arms, _ => []), seq(arms, _ => false), UNSET, seq(arms, _ => []))
  }

  /** One emitted step: a slot per arm, and the arm whose head stamps the output. */
  datatype JoinStep = JoinStep(slots: seq<Option<Frame>>, ref: int)

  // ---------------------------------------------------------------------
  // Catching up: stale heads
  // ---------------------------------------------------------------------

  predicate Stale(f: Frame, next: int) {
    next != UNSET && f.ns.Some? && f.ns.value < next - f.span / 2
  }

  /** How many leading frames lie behind the emitted timeline. */
  function StalePrefix(s: seq<Frame>, next: int): (n: nat)
    ensures n <= |s|
  {
    if s == [] || !Stale(s[0], next) then 0 else 1 + StalePrefix(s[1..], next)
  }

  function Fresh(s: seq<Frame>, next: int): seq<Frame> {
    s[StalePrefix(s, next)..]
  }

  function AllDropped(s: seq<Frame>): (r: seq<Fate>)
    ensures |r| == |s|
    ensures forall k :: 0 <= k < |s| ==> r[k] == Dropped(s[k])
  {
    seq(|s|, k requires 0 <= k < |s| => Dropped(s[k]))
  }

  function DropStale(j: Join): (r: Join)
    requires j.Valid()
    ensures r.Valid() && |r.q| == |j.q| && r.eos == j.eos && r.next == j.next && r.byPts == j.byPts
  {
    if !j.byPts then j else
      j.(q := seq(|j.q|, i requires 0 <= i < |j.q| => Fresh(j.q[i], j.next)),
         gone := seq(|j.q|, i requires 0 <= i < |j.q| =>
           j.gone[i] + AllDropped(j.q[i][..StalePrefix(j.q[i], j.next)])))
  }

  // ---------------------------------------------------------------------
  // The step
  // ---------------------------------------------------------------------

  predicate AnyPending(j: Join) {
    exists i :: 0 <= i < |j.q| && j.q[i] != []
  }

  predicate NoGap(j: Join)
    requires j.Valid()
  {
    forall i :: 0 <= i < |j.q| && j.q[i] == [] ==> j.eos[i]
  }

  predicate Ready(j: Join)
    requires j.Valid()
  {
    AnyPending(j) && NoGap(j)
  }

  predicate Usable(s: seq<Frame>) {
    s != [] && s[0].ns.Some?
  }

  /** The first of the arms below n whose head has the least usable time; -1 when none has one. */
  function Earliest(q: seq<seq<Frame>>, n: nat): (r: int)
    requires n <= |q|
    ensures -1 <= r < n
    ensures r >= 0 ==> Usable(q[r])
  {
    if n == 0 then -1 else
      var best := Earliest(q, n - 1);
      if Usable(q[n-1]) && (best < 0 || q[n-1][0].ns.value < q[best][0].ns.value) then n - 1 else best
  }

  /** The first of the arms below n with a buffered frame; -1 when none has one. */
  function FirstPending(q: seq<seq<Frame>>, n: nat): (r: int)
    requires n <= |q|
    ensures -1 <= r < n
    ensures r >= 0 ==> q[r] != []
  {
    if n == 0 then -1 else
      var first := FirstPending(q, n - 1);
      if first < 0 && q[n-1] != [] then n - 1 else first
  }

  /** The arm that defines the step's time in PTS mode; -1 when the step runs in arrival order. */
  function TimeArm(j: Join): (r: int)
    ensures -1 <= r < |j.q|
    ensures r >= 0 ==> Usable(j.q[r])
  {
    if j.byPts then Earliest(j.q, |j.q|) else -1
  }

  predicate TakesPart(j: Join, i: int) {
    j.Arm(i) && j.q[i] != [] && (
      var t := TimeArm(j);
      t < 0 || j.q[i][0].ns.None? || j.q[i][0].ns.value <= j.q[t][0].ns.value + j.q[t][0].span / 2)
  }

  function RefArm(j: Join): int {
    var t := TimeArm(j);
    if t >= 0 then t else FirstPending(j.q, |j.q|)
  }

  function Slots(j: Join): seq<Option<Frame>> {
    seq(|j.q|, i requires 0 <= i < |j.q| => if TakesPart(j, i) then Some(j.q[i][0]) else None)
  }

  function Popped(j: Join): (r: Join)
    requires j.Valid()
    ensures r.Valid() && |r.q| == |j.q| && r.eos == j.eos && r.byPts == j.byPts
  {
    var t := TimeArm(j);
    j.(q := seq(|j.q|, i requires 0 <= i < |j.q| => if TakesPart(j, i) then j.q[i][1..] else j.q[i]),
       gone := seq(|j.q|, i requires 0 <= i < |j.q| =>
         if TakesPart(j, i) then j.gone[i] + [Played(j.q[i][0])] else j.gone[i]),
       next := if t >= 0 then j.q[t][0].ns.value + j.q[t][0].span else j.next)
  }

  /** `step`: catch up, then pop one aligned set of heads if the join may advance. */
  function StepOnce(j: Join): (r: (Join, Option<JoinStep>))
    requires j.Valid()
    ensures r.0.Valid() && |r.0.q| == |j.q| && r.0.eos == j.eos && r.0.byPts == j.byPts
  {
    var d := DropStale(j);
    if Ready(d) then (Popped(d), Some(JoinStep(Slots(d), RefArm(d)))) else (d, None)
  }

  // ---------------------------------------------------------------------
  // The reference arm always takes part, so a step makes progress
  // ---------------------------------------------------------------------

  lemma {:induction false} FirstPendingFound(q: seq<seq<Frame>>, n: nat, i: nat)
    requires i < n <= |q| && q[i] != []
    ensures 0 <= FirstPending(q, n) <= i
  {
    if n - 1 != i {
      FirstPendingFound(q, n - 1, i);
    }
  }

  /** The reference: in range, and its own slot is filled. */
  lemma RefTakesPart(j: Join)
    requires AnyPending(j)
    ensures j.Arm(RefArm(j)) && TakesPart(j, RefArm(j))
  {
    var i :| 0 <= i < |j.q| && j.q[i] != [];
    FirstPendingFound(j.q, |j.q|, i);
  }

  function Pending(q: seq<seq<Frame>>): nat {
    if q == [] then 0 else |q[0]| + Pending(q[1..])
  }

  lemma {:induction false} PendingShrinks(q: seq<seq<Frame>>, r: seq<seq<Frame>>)
    requires |q| == |r|
    requires forall i :: 0 <= i < |q| ==> |r[i]| <= |q[i]|
    ensures Pending(r) <= Pending(q)
    ensures (exists i :: 0 <= i < |q| && |r[i]| < |q[i]|) ==> Pending(r) < Pending(q)
  {
    if q != [] {
      PendingShrinks(q[1..], r[1..]);
      if i :| 0 <= i < |q| && |r[i]| < |q[i]| {
        if i > 0 {
          assert |r[1..][i-1]| < |q[1..][i-1]|;
        }
      }
    }
  }

  lemma StepShrinks(j: Join)
    requires j.Valid()
    ensures Pending(StepOnce(j).0.q) <= Pending(j.q)
    ensures StepOnce(j).1.Some? ==> Pending(StepOnce(j).0.q) < Pending(j.q)
  {
    var d := DropStale(j);
    PendingShrinks(j.q, d.q);
    if Ready(d) {
      RefTakesPart(d);
      var p := Popped(d);
      assert |p.q[RefArm(d)]| < |d.q[RefArm(d)]|;
      PendingShrinks(d.q, p.q);
    }
  }

  // ---------------------------------------------------------------------
  // Draining and handling
  // ---------------------------------------------------------------------

  /** `drain`: step until the join cannot advance. */
  function Drain(j: Join): (r: (Join, seq<JoinStep>))
    requires j.Valid()
    ensures r.0.Valid() && |r.0.q| == |j.q| && r.0.eos == j.eos && r.0.byPts == j.byPts
    decreases Pending(j.q)
  {
    StepShrinks(j);
    var (k, s) := StepOnce(j);
    if s.None? then (k, []) else
      var (end, rest) := Drain(k);
      (end, [s.value] + rest)
  }

  /** A message for the join: a frame or the end of one arm, or a timeline break. */
  datatype Message = Arrive(arm: nat, frame: Frame) | End(arm: nat) | Break(which: Option<nat>)

  predicate ForArms(m: Message, arms: nat) {
    match m
    case Arrive(i, _) => i < arms
    case End(i) => i < arms
    case Break(which) => which.Some? ==> which.value < arms
  }

  /** `discontinuity`: PTS joins flush the named arm, or every arm, and forget the step clock. */
  function Flushed(j: Join, which: Option<nat>): (r: Join)
    requires j.Valid()
    ensures r.Valid() && |r.q| == |j.q| && r.eos == j.eos && r.byPts == j.byPts
  {
    if !j.byPts then j else
      j.(q := seq(|j.q|, i requires 0 <= i < |j.q| => if which in {None, Some(i)} then [] else j.q[i]),
         gone := seq(|j.q|, i requires 0 <= i < |j.q| =>
           if which in {None, Some(i)} then j.gone[i] + AllDropped(j.q[i]) else j.gone[i]),
         next := UNSET)
  }

  /** A message's effect on the buffers, before any draining. */
  function Deliver(j: Join, m: Message): (r: Join)
    requires j.Valid() && ForArms(m, |j.q|)
    ensures r.Valid() && |r.q| == |j.q| && r.byPts == j.byPts
  {
    match m
    case Arrive(i, f) => j.(q := j.q[i := j.q[i] + [f]])
    case End(i) => j.(eos := j.eos[i := true])
    case Break(which) => Flushed(j, which)
  }

  /** `Handle`: deliver, then drain; a break is only forwarded. */
  function Handle(j: Join, m: Message): (r: (Join, seq<JoinStep>))
    requires j.Valid() && ForArms(m, |j.q|)
    ensures r.0.Valid() && |r.0.q| == |j.q| && r.0.byPts == j.byPts
  {
    if m.Break? then (Deliver(j, m), []) else Drain(Deliver(j, m))
  }

  predicate AllForArms(ms: seq<Message>, arms: nat) {
    forall k :: 0 <= k < |ms| ==> ForArms(ms[k], arms)
  }

  /** The state and the emitted steps after handling the messages in order. */
  function Run(j: Join, ms: seq<Message>): (r: (Join, seq<JoinStep>))
    requires j.Valid() && AllForArms(ms, |j.q|)
    ensures r.0.Valid() && |r.0.q| == |j.q| && r.0.byPts == j.byPts
  {
    if ms == [] then (j, []) else
      var (k, before) := Run(j, ms[..|ms|-1]);
      var (l, after) := Handle(k, ms[|ms|-1]);
      (l, before + after)
  }

  /** The frames one arm sends, in order. */
  function FramesOf(ms: seq<Message>, i: nat): seq<Frame> {
    if ms == [] then [] else
      var rest := FramesOf(ms[..|ms|-1], i);
      var m := ms[|ms|-1];
      if m.Arrive? && m.arm == i then rest + [m.frame] else rest
  }
}
