/**
  Timer deadlines.  A node stores a millisecond stamp that wraps every 10000 seconds, plus its timeout,
  without wrapping the sum.
 */
module Deadline {

  /** gettimeofday. */
  datatype Clock = Clock(sec: nat, usec: nat)
  {
    predicate Valid() { usec < 1_000_000 }
    function Micros(): nat { sec * 1_000_000 + usec }
    function Millis(): nat { Micros() / 1000 }
    /** The 10000-second window a time falls into. */
    function Window(): nat { sec / 10_000 }
  }

  const WRAP: nat := 10_000_000

  /** The stamp both the constructor and isValid compute. */
  function Stamp(t: Clock): (s: nat)
    requires t.Valid()
    ensures s < WRAP
  {
    (t.sec % 10_000) * 1000 + t.usec / 1000
  }

  function ExpiredTime(created: Clock, timeout: nat): nat
    requires created.Valid()
  {
    Stamp(created) + timeout
  }

  predicate IsValid(now: Clock, expiredTime: nat)
    requires now.Valid()
  {
    Stamp(now) < expiredTime
  }

  lemma StampIsMillis(t: Clock)
    requires t.Valid()
    ensures t.Millis() == t.Window() * WRAP + Stamp(t)
  {
    assert t.sec == t.Window() * 10_000 + t.sec % 10_000;
    assert t.Micros() == 1000 * (t.sec * 1000 + t.usec / 1000) + t.usec % 1000;
  }

  /** Within one window a node becomes invalid exactly when the elapsed whole milliseconds reach its
      timeout. */
  lemma InvalidWhenElapsed(created: Clock, now: Clock, timeout: nat)
    requires created.Valid() && now.Valid() && created.Window() == now.Window()
    ensures !IsValid(now, ExpiredTime(created, timeout)) <==> now.Millis() - created.Millis() >= timeout
  {
    StampIsMillis(created);
    StampIsMillis(now);
  }

  /** In real time that is less than a millisecond early, and never late. */
  lemma WithinAMillisecond(created: Clock, now: Clock, timeout: nat)
    requires created.Valid() && now.Valid() && created.Window() == now.Window()
    ensures !IsValid(now, ExpiredTime(created, timeout)) ==> now.Micros() - created.Micros() > (timeout - 1) * 1000
    ensures now.Micros() - created.Micros() >= timeout * 1000 ==> !IsValid(now, ExpiredTime(created, timeout))
  {
    InvalidWhenElapsed(created, now, timeout);
    var c, n := created.Micros(), now.Micros();
    assert c == 1000 * (c / 1000) + c % 1000 && n == 1000 * (n / 1000) + n % 1000;
  }

  /** Across windows the promise fails: a node whose stored deadline lies beyond the largest stamp never
      becomes invalid, and every other node does. */
  lemma NeverExpires(created: Clock, timeout: nat)
    requires created.Valid()
    ensures (forall now: Clock :: now.Valid() ==> IsValid(now, ExpiredTime(created, timeout)))
       <==> ExpiredTime(created, timeout) >= 10_000_000
  {
    var e := ExpiredTime(created, timeout);
    if e < WRAP {
      var now := Clock(e / 1000, e % 1000 * 1000);
      assert now.sec % 10_000 == now.sec && now.usec / 1000 == e % 1000;
      assert Stamp(now) == e;
      assert !IsValid(now, e);
    }
  }

  /** For instance a connection accepted in the last two seconds of a window. */
  lemma StuckConnection()
    ensures ExpiredTime(Clock(9999, 0), 2000) >= WRAP
    ensures IsValid(Clock(10_001, 0), ExpiredTime(Clock(9999, 0), 2000)) && IsValid(Clock(1_000_000, 0), ExpiredTime(Clock(9999, 0), 2000))
  {
  }

  /** And a node that is not looked at before its window ends is late: it stays valid until the stamp comes
      round again. */
  lemma ValidAgainInTheNextWindow(created: Clock, now: Clock, timeout: nat)
    requires created.Valid() && now.Valid() && now.Window() > created.Window()
    ensures IsValid(now, ExpiredTime(created, timeout)) <==> now.Millis() < now.Window() * WRAP + ExpiredTime(created, timeout)
  {
    StampIsMillis(now);
  }
}
