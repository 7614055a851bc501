/**
 * Epoch changes against sleepers: `setEpochLocked` stores the epoch, swaps the
 * broadcast channel and closes the old one; `Sleep` loads the channel, then the
 * epoch, then waits (`timeline.go`). Epochs and channels are numbered in the
 * order they are made. Setters hold a mutex, so one is under way at a time.
 */
module SleepProtocol {
  import opened Basics

  datatype Setter = Idle | Stored | Swapped(prior: nat)

  /** A sleeper's registers; it waits once both are loaded. */
  datatype Sleeper = Sleeper(channel: Option<nat>, epoch: Option<nat>, waiting: bool)

  /** `channelFirst` is the order of a sleeper's two loads. */
  datatype State = State(channelFirst: bool, epoch: nat, channel: nat, closed: set<nat>, setter: Setter, sleepers: map<nat, Sleeper>)

  datatype Step =
    | StoreEpoch | SwapChannel | CloseOld
    | LoadChannel(i: nat) | LoadEpoch(i: nat) | Wait(i: nat)
    | Woken(i: nat)       // the channel held is closed
    | Elapsed(i: nat)     // the inner wait ends, or the context does

  const RESTING := Sleeper(None, None, false)

  predicate Enabled(s: State, step: Step) {
    match step
    case StoreEpoch => s.setter.Idle?
    case SwapChannel => s.setter.Stored?
    case CloseOld => s.setter.Swapped?
    case LoadChannel(i) =>
      i in s.sleepers && s.sleepers[i].channel.None? && (s.channelFirst || s.sleepers[i].epoch.Some?)
    case LoadEpoch(i) =>
      i in s.sleepers && s.sleepers[i].epoch.None? && (!s.channelFirst || s.sleepers[i].channel.Some?)
    case Wait(i) => i in s.sleepers && s.sleepers[i].channel.Some? && s.sleepers[i].epoch.Some? && !s.sleepers[i].waiting
    case Woken(i) => i in s.sleepers && s.sleepers[i].waiting && s.sleepers[i].channel.Some? && s.sleepers[i].channel.value in s.closed
    case Elapsed(i) => i in s.sleepers && s.sleepers[i].waiting
  }

  function Apply(s: State, step: Step): State
    requires Enabled(s, step)
  {
    match step
    case StoreEpoch => s.(epoch := s.epoch + 1, setter := Stored)
    case SwapChannel => s.(channel := s.channel + 1, setter := Swapped(s.channel))
    case CloseOld => s.(closed := s.closed + {s.setter.prior}, setter := Idle)
    case LoadChannel(i) => s.(sleepers := s.sleepers[i := s.sleepers[i].(channel := Some(s.channel))])
    case LoadEpoch(i) => s.(sleepers := s.sleepers[i := s.sleepers[i].(epoch := Some(s.epoch))])
    case Wait(i) => s.(sleepers := s.sleepers[i := s.sleepers[i].(waiting := true)])
    case Woken(i) => s.(sleepers := s.sleepers[i := RESTING])
    case Elapsed(i) => s.(sleepers := s.sleepers[i := RESTING])
  }

  ghost predicate Reaches(s: State, steps: seq<Step>, t: State)
    decreases |steps|
  {
    if steps == [] then s == t else Enabled(s, steps[0]) && Reaches(Apply(s, steps[0]), steps[1..], t)
  }

  predicate Fresh(s: State) {
    s.epoch == 0 && s.channel == 0 && s.closed == {} && s.setter.Idle? && forall i :: i in s.sleepers ==> s.sleepers[i] == RESTING
  }

  /** Every channel before the current one is closed, but for the one being closed. */
  ghost predicate Rotation(s: State) {
    match s.setter
    case Idle => s.epoch == s.channel && forall c :: c in s.closed <==> 0 <= c < s.channel
    case Stored => s.epoch == s.channel + 1 && forall c :: c in s.closed <==> 0 <= c < s.channel
    case Swapped(prior) => s.epoch == s.channel == prior + 1 && forall c :: c in s.closed <==> 0 <= c < prior
  }

  /** The epoch a sleeper holds is no older than the channel it holds. */
  predicate Registers(s: State, p: Sleeper) {
    && (p.channel.Some? ==> p.channel.value <= s.channel)
    && (p.epoch.Some? ==> p.channel.Some? && p.channel.value <= p.epoch.value <= s.epoch)
    && (p.waiting ==> p.epoch.Some?)
  }

  ghost predicate Inv(s: State) {
    s.channelFirst && Rotation(s) && forall i :: i in s.sleepers ==> Registers(s, s.sleepers[i])
  }

  lemma StepKeepsInv(s: State, step: Step)
    requires Inv(s) && Enabled(s, step)
    ensures Inv(Apply(s, step))
  {
  }

  lemma {:induction false} RunKeepsInv(s: State, steps: seq<Step>, t: State)
    requires Inv(s) && Reaches(s, steps, t)
    ensures Inv(t)
    decreases |steps|
  {
    if steps != [] {
      StepKeepsInv(s, steps[0]);
      RunKeepsInv(Apply(s, steps[0]), steps[1..], t);
    }
  }

  /** The channel is closed, or the setter under way is about to close it. */
  predicate ClosedOrClosing(s: State, c: nat) {
    c in s.closed || s.setter == Swapped(c) || (s.setter.Stored? && c == s.channel)
  }

  /** A sleeper waiting under a superseded epoch. */
  predicate Superseded(s: State, i: nat) {
    i in s.sleepers && s.sleepers[i].waiting && s.sleepers[i].channel.Some? && s.sleepers[i].epoch.Some?
    && s.sleepers[i].epoch.value < s.epoch
  }

  /** In every interleaving, a sleeper waiting under a superseded epoch holds a channel that is closed or about to be. */
  lemma NoMissedChange(s: State, steps: seq<Step>, t: State, i: nat)
    requires Fresh(s) && s.channelFirst && Reaches(s, steps, t) && Superseded(t, i)
    ensures ClosedOrClosing(t, t.sleepers[i].channel.value)
  {
    RunKeepsInv(s, steps, t);
  }

  lemma RunOnward(s: State, a: Step, rest: seq<Step>, t: State)
    requires Enabled(s, a) && Reaches(Apply(s, a), rest, t)
    ensures Reaches(s, [a] + rest, t)
  {
    assert ([a] + rest)[1..] == rest;
  }

  /** The setter's own next steps, which nothing can hold up, close it: the sleeper can then wake. */
  lemma WakesSoon(s: State, i: nat) returns (steps: seq<Step>, t: State)
    requires Inv(s) && Superseded(s, i)
    ensures Reaches(s, steps, t) && Enabled(t, Woken(i))
    ensures steps == [] || steps == [CloseOld] || steps == [SwapChannel, CloseOld]
  {
    steps, t := [], s;
    if s.setter.Stored? && s.sleepers[i].channel.value == s.channel {
      var u := Apply(s, SwapChannel);
      t := Apply(u, CloseOld);
      RunOnward(u, CloseOld, [], t);
      RunOnward(s, SwapChannel, [CloseOld] + [], t);
      steps := [SwapChannel, CloseOld];
      assert steps == [SwapChannel] + ([CloseOld] + []);
    } else if s.setter.Swapped? && s.sleepers[i].channel.value == s.setter.prior {
      t := Apply(s, CloseOld);
      RunOnward(s, CloseOld, [], t);
      steps := [CloseOld];
      assert steps == [CloseOld] + [];
    }
  }

  /** Loading the epoch before the channel would lose a change made in between. */
  lemma OtherOrderMisses(s: State, i: nat) returns (steps: seq<Step>, t: State)
    requires Fresh(s) && !s.channelFirst && i in s.sleepers
    ensures Reaches(s, steps, t) && Superseded(t, i) && !ClosedOrClosing(t, t.sleepers[i].channel.value)
  {
    var s1 := Apply(s, LoadEpoch(i));
    var s2 := Apply(s1, StoreEpoch);
    var s3 := Apply(s2, SwapChannel);
    var s4 := Apply(s3, CloseOld);
    var s5 := Apply(s4, LoadChannel(i));
    t := Apply(s5, Wait(i));
    RunOnward(s5, Wait(i), [], t);
    RunOnward(s4, LoadChannel(i), [Wait(i)] + [], t);
    steps := [LoadChannel(i)] + ([Wait(i)] + []);
    RunOnward(s3, CloseOld, steps, t);
    RunOnward(s2, SwapChannel, [CloseOld] + steps, t);
    steps := [SwapChannel] + ([CloseOld] + steps);
    RunOnward(s1, StoreEpoch, steps, t);
    RunOnward(s, LoadEpoch(i), [StoreEpoch] + steps, t);
    steps := [LoadEpoch(i)] + ([StoreEpoch] + steps);
  }
}
