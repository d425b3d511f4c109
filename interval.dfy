/** The repeating BlockCookies timer. The tracker keeps one handle variable;
    setInterval overwrites it and clearInterval stops only the timer it names.
    `running` counts live timers, `handleLive` says whether the handle still
    names one of them. This module stands beside the tracker, whose state
    keeps only a started/stopped sweep flag: it exhibits how two arms and
    one clear leave a timer running, and the single-timer correction. */
module Interval {
  datatype Timers = Timers(running: nat, handleLive: bool)

  /** A live handle names a running timer. */
  predicate Consistent(t: Timers) {
    t.handleLive ==> t.running >= 1
  }

  /** At most one timer, and the handle names it when it runs. */
  predicate Single(t: Timers) {
    t.running <= 1 && (t.running == 1 <==> t.handleLive)
  }

  /** `handle = setInterval(BlockCookies, 5000)`, as the blocking attach and
      setStatus write it: a new timer, the old handle forgotten. */
  function ArmAsWritten(t: Timers): (r: Timers)
    ensures Consistent(r) && r.running == t.running + 1 && r.handleLive
  {
    Timers(t.running + 1, true)
  }

  /** `clearInterval(handle)`, as acceptAction writes it. */
  function Clear(t: Timers): (r: Timers)
    requires Consistent(t)
    ensures Consistent(r) && !r.handleLive
    ensures r.running == if t.handleLive then t.running - 1 else t.running
  {
    if t.handleLive then Timers(t.running - 1, false) else t
  }

  /** Arming twice and accepting once leaves one timer running that no
      handle names any more: the sweep goes on deleting cookies after
      consent. */
  lemma ArmTwiceLeaks()
    ensures Clear(ArmAsWritten(ArmAsWritten(Timers(0, false)))) == Timers(1, false)
  {
  }

  /** Arming with the previous timer cleared first. */
  function Arm(t: Timers): (r: Timers)
    requires Consistent(t)
  {
    ArmAsWritten(Clear(t))
  }

  /** With Arm, however often it runs, there is at most one timer and Clear
      always stops it, so the tracker's one flag `sweep` describes it. */
  lemma ArmKeepsSingle(t: Timers)
    requires Single(t)
    ensures Single(Arm(t)) && Arm(t).running == 1
    ensures Single(Clear(t)) && Clear(t).running == 0
  {
  }
}
