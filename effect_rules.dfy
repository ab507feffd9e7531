/** The pure rule of `Effect`: a linger countdown that requests removal once it goes negative. */
module EffectRules {
  import opened BaseRules

  /** The result of one Effect tick: the new `linger`, and whether `kill(leave)` is called. */
  datatype EffectStep = EffectStep(linger: real, kill: bool)

  /** Effect.updateOneTick on `linger`. */
  function LingerStep(linger: real): (r: EffectStep)
    ensures r.linger == linger - TickS
    ensures r.kill <==> linger < TickS
    ensures r.kill <==> r.linger < 0.0
  {
    var left := linger - TickS;
    EffectStep(left, left < 0.0)
  }

  /** With the default `linger` of 0 the very first tick requests the kill. */
  lemma DefaultLingerKillsAtOnce()
    ensures LingerStep(0.0).kill
  {
  }

  /** `linger` after `n` ticks. */
  function LingerAfter(linger: real, n: nat): real
  {
    if n == 0 then linger else LingerStep(LingerAfter(linger, n - 1)).linger
  }

  /** `linger` falls by exactly one tick size per tick. */
  lemma {:induction false} LingerRunsDownLinearly(linger: real, n: nat)
    ensures LingerAfter(linger, n) == linger - n as real * TickS
  {
    if n > 0 {
      LingerRunsDownLinearly(linger, n - 1);
    }
  }

  /** Tick `n + 1` requests a kill exactly when `(n + 1) * 0.01` exceeds the initial linger. */
  lemma {:induction false} KillRequestedOnTick(linger: real, n: nat)
    ensures LingerStep(LingerAfter(linger, n)).kill <==> linger < (n + 1) as real * TickS
  {
    LingerRunsDownLinearly(linger, n);
  }

  /** Once a tick has requested the kill, every later tick requests it again. */
  lemma {:induction false} KillRequestPersists(linger: real, n: nat, m: nat)
    requires LingerStep(LingerAfter(linger, n)).kill
    ensures LingerStep(LingerAfter(linger, n + m)).kill
  {
    KillRequestedOnTick(linger, n);
    KillRequestedOnTick(linger, n + m);
  }
}
