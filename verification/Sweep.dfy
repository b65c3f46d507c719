/**
  What one sweep over the timer queue closes, as a relation on deadlines: the sweep takes deadlines in order
  and reads the clock once for each, until a reading falls short.

  Readings are stamps that wrap, so they may step back.  The sweep is as good as its clock: it closes exactly
  what a reading has reached, whatever the deadlines are, if and only if the readings never step back.
 */
module Sweep {
  import opened Deadline

  /** `gone`, in this order, is what a sweep of `armed` closes when the clock reads clock(0), clock(1), … */
  ghost predicate Swept<C>(armed: map<C, nat>, gone: seq<C>, clock: nat -> nat) {
    && (forall i :: 0 <= i < |gone| ==> gone[i] in armed && armed[gone[i]] <= clock(i))
    && (forall i, j :: 0 <= i < j < |gone| ==> gone[i] != gone[j] && armed[gone[i]] <= armed[gone[j]])
    && (forall i, c :: 0 <= i < |gone| && c in armed && c !in gone ==> armed[gone[i]] <= armed[c])
    && (forall c :: c in armed && c !in gone ==> clock(|gone|) < armed[c])
  }

  /** How often the clock was read: once for each deadline closed, and once more if one is left. */
  function Readings<C>(armed: map<C, nat>, gone: seq<C>): nat {
    |gone| + if forall c :: c in armed ==> c in gone then 0 else 1
  }

  /** One of the first `readings` readings has reached `deadline`. */
  predicate Reached(clock: nat -> nat, readings: nat, deadline: nat) {
    exists i :: 0 <= i < readings && deadline <= clock(i)
  }

  /** Exactly what a reading has reached is closed. */
  predicate Exact<C>(armed: map<C, nat>, gone: seq<C>, clock: nat -> nat) {
    forall c :: c in armed ==> (c in gone <==> Reached(clock, Readings(armed, gone), armed[c]))
  }

  ghost predicate Steady(clock: nat -> nat) {
    forall i: nat, j: nat :: i <= j ==> clock(i) <= clock(j)
  }

  /** What a sweep has closed was reached, and what it has left the last reading has not reached, on any clock. */
  lemma EitherWay<C>(armed: map<C, nat>, gone: seq<C>, clock: nat -> nat)
    requires Swept(armed, gone, clock)
    ensures forall c :: c in gone ==> c in armed && Reached(clock, Readings(armed, gone), armed[c])
    ensures forall c :: c in armed && c !in gone ==>
      Readings(armed, gone) > 0 && clock(Readings(armed, gone) - 1) < armed[c]
  {
    forall c | c in gone
      ensures c in armed && Reached(clock, Readings(armed, gone), armed[c])
    {
      var i :| 0 <= i < |gone| && gone[i] == c;
    }
  }

  lemma SteadyIsExact<C>(armed: map<C, nat>, gone: seq<C>, clock: nat -> nat)
    requires Swept(armed, gone, clock) && Steady(clock)
    ensures Exact(armed, gone, clock)
  {
    EitherWay(armed, gone, clock);
  }

  /** A reading i that a later one j falls behind: the sweep closes j deadlines that are long past, and leaves
      one that reading i had reached. */
  lemma StepsBack(clock: nat -> nat, i: nat, j: nat)
    requires i < j && clock(j) < clock(i)
    ensures exists armed: map<nat, nat>, gone :: Swept(armed, gone, clock) && !Exact(armed, gone, clock)
  {
    var gone: seq<nat> := seq(j, k requires 0 <= k < j => k);
    var armed: map<nat, nat> := map k | k in gone + [j] :: if k == j then clock(i) else 0;
    assert forall k :: 0 <= k < j ==> gone[k] == k;
    forall k | 0 <= k < j
      ensures k in gone
    {
      assert gone[k] == k;
    }
    assert j in gone + [j] && j !in gone;
    assert forall k :: 0 <= k < j ==> gone[k] in gone + [j] && armed[gone[k]] == 0;
    assert forall c :: c in armed && c !in gone ==> c == j;
    assert Swept(armed, gone, clock);
    assert j in armed && Readings(armed, gone) == j + 1;
    assert Reached(clock, j + 1, armed[j]);
    assert !Exact(armed, gone, clock);
  }

  /** The exact condition. */
  lemma ExactIffSteady(clock: nat -> nat)
    ensures (forall armed: map<nat, nat>, gone :: Swept(armed, gone, clock) ==> Exact(armed, gone, clock)) <==> Steady(clock)
  {
    forall armed: map<nat, nat>, gone | Swept(armed, gone, clock) && Steady(clock)
      ensures Exact(armed, gone, clock)
    {
      SteadyIsExact(armed, gone, clock);
    }
    if !Steady(clock) {
      var i: nat, j: nat :| i <= j && clock(i) > clock(j);
      StepsBack(clock, i, j);
    }
  }

  /** For instance: deadlines 2000 and 2005, readings 3000 and 2001.  The second deadline is left, although the
      first reading was beyond it. */
  lemma LeftBehind(clock: nat -> nat)
    requires clock(0) == 3000 && clock(1) == 2001
    ensures var armed := map[0 := 2000, 1 := 2005];
      && Swept(armed, [0], clock) && !Exact(armed, [0], clock)
      && forall gone: seq<int> :: Swept(armed, gone, clock) ==> gone == [0]
  {
    var armed := map[0 := 2000, 1 := 2005];
    assert 1 in armed && 1 !in [0];
    assert Reached(clock, Readings(armed, [0]), armed[1]);
    forall gone: seq<int> | Swept(armed, gone, clock)
      ensures gone == [0]
    {
      assert 0 in armed && 1 in armed;
      assert 0 in gone && 1 !in gone;
      assert |gone| == 1;
    }
  }

  /** What the last reading leaves of a map from connections to deadlines. */
  function Unexpired<C>(armed: map<C, nat>, clock: nat -> nat, readings: nat): map<C, nat> {
    map c | c in armed && (readings > 0 ==> clock(readings - 1) < armed[c]) :: armed[c]
  }

  /** With a clock that never steps back, the sweep is a filter on the deadlines. */
  lemma SteadySweep<C>(armed: map<C, nat>, gone: seq<C>, clock: nat -> nat)
    requires Swept(armed, gone, clock) && Steady(clock)
    ensures armed - (set c | c in gone) == Unexpired(armed, clock, Readings(armed, gone))
  {
    EitherWay(armed, gone, clock);
    forall c | c in gone
      ensures Readings(armed, gone) > 0 && armed[c] <= clock(Readings(armed, gone) - 1)
    {
      var i :| 0 <= i < Readings(armed, gone) && armed[c] <= clock(i);
      assert clock(i) <= clock(Readings(armed, gone) - 1);
    }
  }

  // ----- In real time -----

  datatype Arming = Arming(at: Clock, timeout: nat)

  ghost predicate InWindow(times: nat -> Clock, window: nat) {
    && (forall i :: times(i).Valid() && times(i).Window() == window)
    && forall i: nat, j: nat :: i <= j ==> times(i).Micros() <= times(j).Micros()
  }

  /** The deadlines that timers armed at these times store. */
  function Deadlines<C>(armings: map<C, Arming>): map<C, nat>
    requires forall c :: c in armings ==> armings[c].at.Valid()
  {
    map c | c in armings :: ExpiredTime(armings[c].at, armings[c].timeout)
  }

  /** Within one window of the stamp, a sweep closes exactly the timers whose timeout has elapsed, in whole
      milliseconds, at its last reading. */
  lemma SweepInOneWindow<C>(armings: map<C, Arming>, gone: seq<C>, times: nat -> Clock, clock: nat -> nat, window: nat)
    requires InWindow(times, window) && forall i :: clock(i) == Stamp(times(i))
    requires forall c :: c in armings ==> armings[c].at.Valid() && armings[c].at.Window() == window
    requires Swept(Deadlines(armings), gone, clock)
    ensures var n := Readings(Deadlines(armings), gone);
      forall c :: c in armings ==>
        n > 0 && (c in gone <==> times(n - 1).Millis() - armings[c].at.Millis() >= armings[c].timeout)
  {
    StampsAreSteady(times, clock, window);
    var armed := Deadlines(armings);
    SteadySweep(armed, gone, clock);
    var n := Readings(armed, gone);
    forall c | c in armings
      ensures n > 0 && (c in gone <==> times(n - 1).Millis() - armings[c].at.Millis() >= armings[c].timeout)
    {
      assert c in armed;
      assert c in gone <==> c !in Unexpired(armed, clock, n);
      InvalidWhenElapsed(armings[c].at, times(n - 1), armings[c].timeout);
    }
  }

  lemma StampsAreSteady(times: nat -> Clock, clock: nat -> nat, window: nat)
    requires InWindow(times, window) && forall i :: clock(i) == Stamp(times(i))
    ensures Steady(clock)
  {
    forall i: nat, j: nat | i <= j
      ensures clock(i) <= clock(j)
    {
      StampIsMillis(times(i));
      StampIsMillis(times(j));
    }
  }
}
