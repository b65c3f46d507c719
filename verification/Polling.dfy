/**
  What epoll reports and what the poller makes of it: registrations decide which happenings are reported, the
  table decides which connections they belong to, and poll waits until there is something to do.
 */
module Polling {
  import opened Connection

  /** What the kernel holds for a descriptor: the mask of the last successful call, and whether it still
      delivers events, which a one-shot registration stops doing after its first. */
  datatype Interest = Interest(mask: Mask, armed: bool)

  type Report = (int, Mask)

  /** One return of epoll_wait: what happens to descriptors, and whether one of the loop's own channels, the
      eventfd's or the listener's, is among the events. */
  datatype Attempt = Attempt(happenings: seq<Report>, own: bool)

  /** Reports the registrations allow, at most one a descriptor. */
  predicate Reported(kernel: map<int, Interest>, reports: seq<Report>) {
    && (forall i, j :: 0 <= i < j < |reports| ==> reports[i].0 != reports[j].0)
    && forall r :: r in reports ==> r.0 in kernel && Deliverable(kernel[r.0].mask, r.1)
  }

  predicate Reportable(kernel: map<int, Interest>, reports: seq<Report>) {
    Reported(kernel, reports) && forall r :: r in reports ==> kernel[r.0].armed
  }

  /** Whether the kernel adds this to the reports it already has. */
  predicate Allowed(kernel: map<int, Interest>, reports: seq<Report>, r: Report) {
    r.0 in kernel && kernel[r.0].armed && Deliverable(kernel[r.0].mask, r.1) && forall q :: q in reports ==> q.0 != r.0
  }

  function Spend(kernel: map<int, Interest>, fd: int): map<int, Interest>
    requires fd in kernel
  {
    kernel[fd := kernel[fd].(armed := OneShot !in kernel[fd].mask)]
  }

  /** epoll_wait: of everything that happens, what is reported, and the registrations afterwards. */
  function Wait(kernel: map<int, Interest>, happenings: seq<Report>): (seq<Report>, map<int, Interest>) {
    if happenings == [] then ([], kernel)
    else
      var last := happenings[|happenings| - 1];
      var (reports, k) := Wait(kernel, happenings[..|happenings| - 1]);
      if Allowed(k, reports, last) then (reports + [last], Spend(k, last.0)) else (reports, k)
  }

  /** The registered connections among the reported descriptors. */
  function Batch<C>(reports: seq<Report>, table: map<int, C>): seq<(C, Mask)> {
    if reports == [] then []
    else
      var (fd, revents) := reports[|reports| - 1];
      Batch(reports[..|reports| - 1], table) + if fd in table then [(table[fd], revents)] else []
  }

  /** What poll returns, whether it does so at all, and the registrations afterwards. */
  datatype Polled<C> = Polled(batch: seq<(C, Mask)>, returned: bool, kernel: map<int, Interest>)

  /** poll: waits again until a connection has an event, or one of the loop's own channels has. */
  function Poll<C>(attempts: seq<Attempt>, kernel: map<int, Interest>, table: map<int, C>): Polled<C>
    decreases |attempts|
  {
    if attempts == [] then Polled([], false, kernel)
    else
      var (reports, k) := Wait(kernel, attempts[0].happenings);
      var batch := Batch(reports, table);
      if batch != [] || attempts[0].own then Polled(batch, true, k) else Poll(attempts[1..], k, table)
  }

  // ----- What can be relied on -----

  /** Only what happens is reported, only for registrations that still deliver, and only as far as they ask for
      it; and a report spends a one-shot registration and changes nothing else. */
  lemma {:induction false} OnlyAllowed(kernel: map<int, Interest>, happenings: seq<Report>)
    ensures var (reports, k) := Wait(kernel, happenings);
      && Reportable(kernel, reports) && (forall r :: r in reports ==> r in happenings)
      && k.Keys == kernel.Keys
      && forall fd :: fd in kernel ==>
           && k[fd].mask == kernel[fd].mask
           && k[fd].armed == (kernel[fd].armed && !(OneShot in kernel[fd].mask && exists r :: r in reports && r.0 == fd))
  {
    if happenings != [] {
      hide Deliverable;
      OnlyAllowed(kernel, happenings[..|happenings| - 1]);
    }
  }

  /** Everything that happens is reported if the registrations allow it. */
  lemma {:induction false} AllAllowed(kernel: map<int, Interest>, happenings: seq<Report>)
    requires Reportable(kernel, happenings)
    ensures Wait(kernel, happenings).0 == happenings
  {
    if happenings != [] {
      hide Deliverable;
      var init := happenings[..|happenings| - 1];
      AllAllowed(kernel, init);
      OnlyAllowed(kernel, init);
      assert happenings == init + [happenings[|happenings| - 1]];
    }
  }

  /** Whatever else happens, something is reported for a descriptor whose registration allows one of the happenings. */
  lemma {:induction false} NothingSwallowed(kernel: map<int, Interest>, happenings: seq<Report>, r: Report)
    requires r in happenings && r.0 in kernel && kernel[r.0].armed && Deliverable(kernel[r.0].mask, r.1)
    ensures exists q :: q in Wait(kernel, happenings).0 && q.0 == r.0
  {
    hide Deliverable, Wait;
    var init, last := happenings[..|happenings| - 1], happenings[|happenings| - 1];
    WaitStep(kernel, happenings);
    var (reports, k) := Wait(kernel, init);
    if r in init {
      NothingSwallowed(kernel, init, r);
      var q :| q in reports && q.0 == r.0;
      assert q in Wait(kernel, happenings).0;
    } else {
      OnlyAllowed(kernel, init);
      assert r == last;
      if q :| q in reports && q.0 == r.0 {
        assert q in Wait(kernel, happenings).0;
      } else {
        assert Allowed(k, reports, last);
        assert last in Wait(kernel, happenings).0;
      }
    }
  }

  lemma WaitStep(kernel: map<int, Interest>, happenings: seq<Report>)
    requires happenings != []
    ensures var last := happenings[|happenings| - 1];
      var (reports, k) := Wait(kernel, happenings[..|happenings| - 1]);
      Wait(kernel, happenings).0 == reports + if Allowed(k, reports, last) then [last] else []
  {
  }

  /** The batch belongs to events of these reports. */
  ghost predicate BelongsTo<C>(batch: seq<(C, Mask)>, reports: seq<Report>, table: map<int, C>) {
    forall b :: b in batch ==> exists fd :: fd in table && table[fd] == b.0 && (fd, b.1) in reports
  }

  lemma {:induction false} BatchBelongs<C>(reports: seq<Report>, table: map<int, C>)
    ensures BelongsTo(Batch(reports, table), reports, table)
  {
    if reports != [] {
      var init, last := reports[..|reports| - 1], reports[|reports| - 1];
      BatchBelongs(init, table);
      forall b | b in Batch(reports, table)
        ensures exists fd :: fd in table && table[fd] == b.0 && (fd, b.1) in reports
      {
        if b in Batch(init, table) {
          var fd :| fd in table && table[fd] == b.0 && (fd, b.1) in init;
          assert (fd, b.1) in reports;
        } else {
          assert last.0 in table && table[last.0] == b.0 && (last.0, b.1) == last && last in reports;
        }
      }
    }
  }

  /** Batches come in the order of the reports. */
  lemma {:induction false} BatchInOrder<C>(a: seq<Report>, b: seq<Report>, table: map<int, C>)
    ensures Batch(a + b, table) == Batch(a, table) + Batch(b, table)
    decreases |b|
  {
    if b == [] {
      assert a + b == a;
    } else {
      var init := b[..|b| - 1];
      assert (a + b)[..|a + b| - 1] == a + init && (a + b)[|a + b| - 1] == b[|b| - 1];
      BatchInOrder(a, init, table);
    }
  }

  /** Every registered descriptor that is reported has its connection in the batch. */
  lemma {:induction false} BatchCovers<C>(reports: seq<Report>, table: map<int, C>)
    ensures forall r :: r in reports && r.0 in table ==> (table[r.0], r.1) in Batch(reports, table)
  {
    if reports != [] {
      BatchCovers(reports[..|reports| - 1], table);
    }
  }

  /** poll returns if and only if a connection or one of the loop's own channels has an event; the connections it
      returns have events that happened in one attempt; and they still delivered events before. */
  lemma {:induction false} PollHasACause<C>(attempts: seq<Attempt>, kernel: map<int, Interest>, table: map<int, C>)
    ensures var p := Poll(attempts, kernel, table);
      && (p.returned <==> p.batch != [] || exists a :: a in attempts && a.own)
      && (p.batch == [] || exists a :: a in attempts && BelongsTo(p.batch, a.happenings, table))
      && (forall b :: b in p.batch ==> exists fd :: fd in table && table[fd] == b.0 && fd in kernel && kernel[fd].armed)
    decreases |attempts|
  {
    if attempts != [] {
      hide BelongsTo, Batch, Wait;
      var (reports, k) := Wait(kernel, attempts[0].happenings);
      OneAttempt(attempts[0], kernel, table);
      if Batch(reports, table) == [] && !attempts[0].own {
        PollHasACause(attempts[1..], k, table);
        var p := Poll(attempts, kernel, table);
        if p.batch != [] {
          var a :| a in attempts[1..] && BelongsTo(p.batch, a.happenings, table);
          assert a in attempts;
        }
      }
    }
  }

  lemma OneAttempt<C>(a: Attempt, kernel: map<int, Interest>, table: map<int, C>)
    ensures var (reports, k) := Wait(kernel, a.happenings);
      var batch := Batch(reports, table);
      && BelongsTo(batch, a.happenings, table)
      && (forall b :: b in batch ==> exists fd :: fd in table && table[fd] == b.0 && fd in kernel && kernel[fd].armed)
      && k.Keys == kernel.Keys && forall fd :: fd in k && k[fd].armed ==> kernel[fd].armed
  {
    hide Batch, Wait, Deliverable;
    var (reports, k) := Wait(kernel, a.happenings);
    OnlyAllowed(kernel, a.happenings);
    BatchBelongs(reports, table);
    forall b | b in Batch(reports, table)
      ensures exists fd :: fd in table && table[fd] == b.0 && (fd, b.1) in a.happenings && fd in kernel && kernel[fd].armed
    {
      var fd :| fd in table && table[fd] == b.0 && (fd, b.1) in reports;
      assert fd in kernel && kernel[fd].armed;
    }
  }

  /** What the registrations allow of the first attempt is handled, if anything of it is for this loop. */
  lemma PollAtOnce<C>(attempts: seq<Attempt>, kernel: map<int, Interest>, table: map<int, C>)
    requires attempts != [] && Reportable(kernel, attempts[0].happenings)
    requires attempts[0].own || Batch(attempts[0].happenings, table) != []
    ensures var p := Poll(attempts, kernel, table); p.returned && p.batch == Batch(attempts[0].happenings, table)
  {
    AllAllowed(kernel, attempts[0].happenings);
  }
}
