/**
 The stub upstream's delayed replies. The worker keeps them in a priority queue by due
 time and sequence number; with a clock that never goes back and one delay for all, it
 is a first-in first-out delay line.
 */
module DelayLine {

  datatype Reply<T> = Reply(due: real, number: nat, body: T)

  // A packet as it was read: when, and the answer built for it if it was a good query.
  datatype Packet<T> = Good(at: real, body: T) | Bad(at: real)

  // The packets read in one wakeup, and the clock read after them.
  datatype Wakeup<T> = Wakeup(packets: seq<Packet<T>>, now: real)

  predicate Before<T>(a: Reply<T>, b: Reply<T>) {
    a.due < b.due || (a.due == b.due && a.number < b.number)
  }

  // ----- The delay line -----

  datatype Line<T> = Line(queue: seq<Reply<T>>, count: nat)

  function Accept<T>(line: Line<T>, p: Packet<T>, delay: real): Line<T> {
    if p.Bad? then line
    else Line(line.queue + [Reply(p.at + delay, line.count + 1, p.body)], line.count + 1)
  }

  function AcceptAll<T>(line: Line<T>, ps: seq<Packet<T>>, delay: real): Line<T>
    decreases |ps|
  {
    if ps == [] then line else AcceptAll(Accept(line, ps[0], delay), ps[1..], delay)
  }

  // How many replies at the head are due.
  function Due<T>(queue: seq<Reply<T>>, now: real): (n: nat)
    ensures n <= |queue|
    ensures forall i :: 0 <= i < n ==> queue[i].due <= now
    ensures n < |queue| ==> queue[n].due > now
  {
    if queue == [] || queue[0].due > now then 0 else 1 + Due(queue[1..], now)
  }

  // One wakeup: what is sent, and the line after it.
  function Wake<T>(line: Line<T>, w: Wakeup<T>, delay: real): (seq<Reply<T>>, Line<T>) {
    var filled := AcceptAll(line, w.packets, delay);
    var n := Due(filled.queue, w.now);
    (filled.queue[..n], filled.(queue := filled.queue[n..]))
  }

  // ----- The clock -----

  ghost predicate InOrder<T>(ps: seq<Packet<T>>, from: real, to: real)
    decreases |ps|
  {
    if ps == [] then from <= to else from <= ps[0].at && InOrder(ps[1..], ps[0].at, to)
  }

  ghost predicate Ordered<T>(queue: seq<Reply<T>>) {
    forall i, j :: 0 <= i < j < |queue| ==> Before(queue[i], queue[j])
  }

  // In order, and nothing due or numbered later than what may come next.
  ghost predicate Timely<T>(line: Line<T>, clock: real, delay: real) {
    && Ordered(line.queue)
    && forall i :: 0 <= i < |line.queue| ==> line.queue[i].due <= clock + delay && line.queue[i].number <= line.count
  }

  lemma AcceptKeepsTimely<T>(line: Line<T>, clock: real, p: Packet<T>, delay: real)
    requires Timely(line, clock, delay) && clock <= p.at
    ensures Timely(Accept(line, p, delay), p.at, delay)
  {
  }

  lemma {:induction false} AcceptAllKeepsTimely<T>(line: Line<T>, clock: real, ps: seq<Packet<T>>, now: real,
                                                   delay: real)
    requires Timely(line, clock, delay) && InOrder(ps, clock, now)
    ensures Timely(AcceptAll(line, ps, delay), now, delay)
    decreases |ps|
  {
    if ps != [] {
      AcceptKeepsTimely(line, clock, ps[0], delay);
      AcceptAllKeepsTimely(Accept(line, ps[0], delay), ps[0].at, ps[1..], now, delay);
    }
  }

  lemma WakeKeepsTimely<T>(line: Line<T>, clock: real, w: Wakeup<T>, delay: real)
    requires Timely(line, clock, delay) && InOrder(w.packets, clock, w.now)
    ensures Timely(Wake(line, w, delay).1, w.now, delay)
  {
    AcceptAllKeepsTimely(line, clock, w.packets, w.now, delay);
  }

  // ----- The worker -----

  class Worker<T(==)> {
    const delay: real
    var pending: seq<Reply<T>>      // the heap's contents, in whatever order it keeps them
    var count: nat
    ghost var line: Line<T>
    ghost var clock: real

    // The heap holds what the delay line holds.
    ghost predicate Valid()
      reads this
    {
      multiset(pending) == multiset(line.queue) && count == line.count && Timely(line, clock, delay)
    }

    constructor (delay: real, clock: real)
      ensures Valid() && this.delay == delay && line == Line([], 0) && this.clock == clock
    {
      this.delay := delay;
      this.clock := clock;
      pending, count, line := [], 0, Line([], 0);
    }

    method Push(at: real, body: T)
      requires Valid() && clock <= at
      modifies this
      ensures Valid() && line == Accept(old(line), Good(at, body), delay) && clock == at
    {
      AcceptKeepsTimely(line, clock, Good(at, body), delay);
      count := count + 1;
      pending := pending + [Reply(at + delay, count, body)];
      line := Accept(line, Good(at, body), delay);
      clock := at;
    }

    // The position of the reply that no other precedes.
    method Least() returns (k: nat)
      requires Valid() && pending != []
      ensures k < |pending| && line.queue != [] && pending[k] == line.queue[0]
    {
      k := 0;
      for i := 1 to |pending|
        invariant k < i
        invariant forall j :: 0 <= j < i ==> pending[j] == pending[k] || Before(pending[k], pending[j])
      {
        if Before(pending[i], pending[k]) {
          k := i;
        } else {
          Comparable(line, pending, k, i, clock, delay);
        }
      }
      LeastIsFirst(line, pending, k, clock, delay);
    }

    method Pop() returns (r: Reply<T>)
      requires Valid() && pending != []
      modifies this
      ensures old(line).queue != [] && r == old(line).queue[0]
      ensures Valid() && line == old(line).(queue := old(line).queue[1..]) && clock == old(clock)
    {
      var k := Least();
      r := pending[k];
      DropBoth(pending, k, line.queue);
      pending := pending[..k] + pending[k + 1..];
      line := line.(queue := line.queue[1..]);
    }

    // Queue an answer for every good packet.
    method ReadAll(ps: seq<Packet<T>>, ghost now: real)
      requires Valid() && InOrder(ps, clock, now)
      modifies this
      ensures Valid() && clock <= now && line == AcceptAll(old(line), ps, delay)
    {
      for i := 0 to |ps|
        invariant Valid() && InOrder(ps[i..], clock, now)
        invariant AcceptAll(line, ps[i..], delay) == AcceptAll(old(line), ps, delay)
      {
        assert ps[i..][0] == ps[i] && ps[i..][1..] == ps[i + 1..];
        match ps[i]
        case Bad(at) => clock := at;
        case Good(at, body) => Push(at, body);
      }
    }

    // Send while the first reply is due.
    method SendDue(now: real) returns (sent: seq<Reply<T>>)
      requires Valid() && clock == now
      modifies this
      ensures Valid() && clock == now
      ensures var n := Due(old(line).queue, now);
              sent == old(line).queue[..n] && line == old(line).(queue := old(line).queue[n..])
    {
      sent := [];
      ghost var filled := line;
      while pending != []
        invariant Valid() && clock == now
        invariant |sent| <= |filled.queue| && sent == filled.queue[..|sent|]
        invariant line == filled.(queue := filled.queue[|sent|..])
        invariant forall i :: 0 <= i < |sent| ==> filled.queue[i].due <= now
        decreases |line.queue|
      {
        var k := Least();
        if pending[k].due > now { break; }
        var r := Pop();
        sent := sent + [r];
      }
      StopsWhereDue(filled.queue, |sent|, now);
    }

    // Read the packets that wait, then send everything that is due.
    method Serve(w: Wakeup<T>) returns (sent: seq<Reply<T>>)
      requires Valid() && InOrder(w.packets, clock, w.now)
      modifies this
      ensures Valid() && clock == w.now && (sent, line) == Wake(old(line), w, delay)
    {
      ReadAll(w.packets, w.now);
      clock := w.now;
      sent := SendDue(w.now);
    }
  }

  lemma DropBoth<T>(pending: seq<Reply<T>>, k: nat, queue: seq<Reply<T>>)
    requires multiset(pending) == multiset(queue) && k < |pending| && queue != [] && pending[k] == queue[0]
    ensures multiset(pending[..k] + pending[k + 1..]) == multiset(queue[1..])
  {
    var r, rest := pending[k], pending[..k] + pending[k + 1..];
    assert pending == pending[..k] + [r] + pending[k + 1..];
    assert queue == [r] + queue[1..];
    assert multiset(rest) == multiset(pending) - multiset{r};
    assert multiset(queue[1..]) == multiset(queue) - multiset{r};
  }

  lemma MemberOfQueue<T>(queue: seq<Reply<T>>, pending: seq<Reply<T>>, i: nat) returns (j: nat)
    requires multiset(pending) == multiset(queue) && i < |pending|
    ensures j < |queue| && queue[j] == pending[i]
  {
    assert pending[i] in multiset(queue);
    j :| 0 <= j < |queue| && queue[j] == pending[i];
  }

  lemma Comparable<T>(line: Line<T>, pending: seq<Reply<T>>, k: nat, i: nat, clock: real, delay: real)
    requires multiset(pending) == multiset(line.queue) && Timely(line, clock, delay)
    requires k < |pending| && i < |pending| && !Before(pending[i], pending[k])
    ensures pending[i] == pending[k] || Before(pending[k], pending[i])
  {
    var a := MemberOfQueue(line.queue, pending, k);
    var b := MemberOfQueue(line.queue, pending, i);
  }

  lemma LeastIsFirst<T>(line: Line<T>, pending: seq<Reply<T>>, k: nat, clock: real, delay: real)
    requires multiset(pending) == multiset(line.queue) && Timely(line, clock, delay) && k < |pending|
    requires forall j :: 0 <= j < |pending| ==> pending[j] == pending[k] || Before(pending[k], pending[j])
    ensures line.queue != [] && pending[k] == line.queue[0]
  {
    var a := MemberOfQueue(line.queue, pending, k);
    assert line.queue[0] in multiset(line.queue);
    assert line.queue[0] in pending;
    var j :| 0 <= j < |pending| && pending[j] == line.queue[0];
  }

  lemma StopsWhereDue<T>(queue: seq<Reply<T>>, n: nat, now: real)
    requires n <= |queue| && (forall i :: 0 <= i < n ==> queue[i].due <= now) && (n < |queue| ==> queue[n].due > now)
    ensures n == Due(queue, now)
  {
  }

  // ----- Every run -----

  // The replies sent by a run of wakeups, with the line that is left.
  function Run<T>(line: Line<T>, ws: seq<Wakeup<T>>, delay: real): (seq<Reply<T>>, Line<T>)
    decreases |ws|
  {
    if ws == [] then ([], line)
    else
      var (sent, next) := Wake(line, ws[0], delay);
      var (more, last) := Run(next, ws[1..], delay);
      (sent + more, last)
  }

  // The bodies of the good packets, in the order they were read.
  function Bodies<T>(ps: seq<Packet<T>>): seq<T> {
    if ps == [] then []
    else if ps[0].Good? then [ps[0].body] + Bodies(ps[1..])
    else Bodies(ps[1..])
  }

  function Arrivals<T>(ws: seq<Wakeup<T>>): seq<T> {
    if ws == [] then [] else Bodies(ws[0].packets) + Arrivals(ws[1..])
  }

  function Contents<T>(queue: seq<Reply<T>>): (r: seq<T>)
    ensures |r| == |queue| && forall i :: 0 <= i < |queue| ==> r[i] == queue[i].body
  {
    seq(|queue|, i requires 0 <= i < |queue| => queue[i].body)
  }

  lemma {:induction false} AcceptAllAppends<T>(line: Line<T>, ps: seq<Packet<T>>, delay: real)
    ensures Contents(AcceptAll(line, ps, delay).queue) == Contents(line.queue) + Bodies(ps)
    decreases |ps|
  {
    if ps != [] {
      AcceptAllAppends(Accept(line, ps[0], delay), ps[1..], delay);
      if ps[0].Good? {
        assert Contents(Accept(line, ps[0], delay).queue) == Contents(line.queue) + [ps[0].body];
      }
    }
  }

  lemma ContentsOfSum<T>(a: seq<Reply<T>>, b: seq<Reply<T>>)
    ensures Contents(a + b) == Contents(a) + Contents(b)
  {
  }

  lemma Chain<T>(s: seq<T>, m: seq<T>, last: seq<T>, next: seq<T>, first: seq<T>, b: seq<T>, a: seq<T>)
    requires first + b == s + next && m + last == next + a
    ensures (s + m) + last == first + (b + a)
  {
    assert (s + m) + last == s + (m + last) == (s + next) + a == first + (b + a);
  }

  // Nothing is lost, duplicated or reordered: what was waiting and what arrived is what
  // was sent, followed by what waits now.
  lemma {:induction false} RunConserves<T>(line: Line<T>, ws: seq<Wakeup<T>>, delay: real)
    ensures var (sent, last) := Run(line, ws, delay);
            Contents(sent) + Contents(last.queue) == Contents(line.queue) + Arrivals(ws)
    decreases |ws|
  {
    if ws != [] {
      var filled := AcceptAll(line, ws[0].packets, delay);
      var (sent, next) := Wake(line, ws[0], delay);
      var (more, last) := Run(next, ws[1..], delay);
      AcceptAllAppends(line, ws[0].packets, delay);
      RunConserves(next, ws[1..], delay);
      assert filled.queue == sent + next.queue;
      ContentsOfSum(sent, more);
      ContentsOfSum(sent, next.queue);
      Chain(Contents(sent), Contents(more), Contents(last.queue), Contents(next.queue),
            Contents(line.queue), Bodies(ws[0].packets), Arrivals(ws[1..]));
    }
  }

  // The good packets, in the order they were read.
  function Goods<T>(ps: seq<Packet<T>>): (r: seq<Packet<T>>)
    ensures forall i :: 0 <= i < |r| ==> r[i].Good?
  {
    if ps == [] then [] else if ps[0].Good? then [ps[0]] + Goods(ps[1..]) else Goods(ps[1..])
  }

  function Arrived<T>(ws: seq<Wakeup<T>>): (r: seq<Packet<T>>)
    ensures forall i :: 0 <= i < |r| ==> r[i].Good?
  {
    if ws == [] then [] else Goods(ws[0].packets) + Arrived(ws[1..])
  }

  // One reply for each packet: due one delay after it was read, and numbered on from `count`.
  function Timetable<T>(ps: seq<Packet<T>>, count: nat, delay: real): (r: seq<Reply<T>>)
    requires forall i :: 0 <= i < |ps| ==> ps[i].Good?
    ensures |r| == |ps|
    ensures forall i :: 0 <= i < |ps| ==> r[i] == Reply(ps[i].at + delay, count + i + 1, ps[i].body)
  {
    seq(|ps|, i requires 0 <= i < |ps| => Reply(ps[i].at + delay, count + i + 1, ps[i].body))
  }

  lemma {:induction false} AcceptAllSchedules<T>(line: Line<T>, ps: seq<Packet<T>>, delay: real)
    ensures AcceptAll(line, ps, delay).count == line.count + |Goods(ps)|
    ensures AcceptAll(line, ps, delay).queue == line.queue + Timetable(Goods(ps), line.count, delay)
    decreases |ps|
  {
    if ps != [] { AcceptAllSchedules(Accept(line, ps[0], delay), ps[1..], delay); }
  }

  lemma WakeSchedules<T>(line: Line<T>, w: Wakeup<T>, delay: real)
    ensures var (sent, next) := Wake(line, w, delay);
            && sent + next.queue == line.queue + Timetable(Goods(w.packets), line.count, delay)
            && next.count == line.count + |Goods(w.packets)|
  {
    AcceptAllSchedules(line, w.packets, delay);
  }

  lemma TimetableOfSum<T>(a: seq<Packet<T>>, b: seq<Packet<T>>, count: nat, delay: real)
    requires forall i :: 0 <= i < |a| ==> a[i].Good?
    requires forall i :: 0 <= i < |b| ==> b[i].Good?
    ensures Timetable(a + b, count, delay) == Timetable(a, count, delay) + Timetable(b, count + |a|, delay)
  {
  }

  lemma SchedulesOn<T>(line: Line<T>, first: seq<Packet<T>>, delay: real, sent: seq<Reply<T>>, next: Line<T>,
                       rest: seq<Packet<T>>, more: seq<Reply<T>>, last: Line<T>)
    requires forall i :: 0 <= i < |first| ==> first[i].Good?
    requires forall i :: 0 <= i < |rest| ==> rest[i].Good?
    requires sent + next.queue == line.queue + Timetable(first, line.count, delay)
    requires next.count == line.count + |first|
    requires more + last.queue == next.queue + Timetable(rest, next.count, delay)
    ensures sent + more + last.queue == line.queue + Timetable(first + rest, line.count, delay)
  {
    TimetableOfSum(first, rest, line.count, delay);
    Chain(sent, more, last.queue, next.queue, line.queue, Timetable(first, line.count, delay),
          Timetable(rest, next.count, delay));
  }

  // Over every run, what was sent and what waits is what waited before and then one reply
  // for each good packet, in order, each due one delay after it was read.
  lemma {:induction false} RunSchedules<T>(line: Line<T>, ws: seq<Wakeup<T>>, delay: real)
    ensures var (sent, last) := Run(line, ws, delay);
            && sent + last.queue == line.queue + Timetable(Arrived(ws), line.count, delay)
            && last.count == line.count + |Arrived(ws)|
    decreases |ws|
  {
    if ws != [] {
      var (sent, next) := Wake(line, ws[0], delay);
      var (more, last) := Run(next, ws[1..], delay);
      WakeSchedules(line, ws[0], delay);
      RunSchedules(next, ws[1..], delay);
      SchedulesOn(line, Goods(ws[0].packets), delay, sent, next, Arrived(ws[1..]), more, last);
    }
  }

  ghost predicate ClockRuns<T>(ws: seq<Wakeup<T>>, clock: real)
    decreases |ws|
  {
    ws == [] || (InOrder(ws[0].packets, clock, ws[0].now) && ClockRuns(ws[1..], ws[0].now))
  }

  // A wakeup sends nothing early and leaves nothing that is due.
  ghost predicate Punctual<T>(line: Line<T>, w: Wakeup<T>, delay: real) {
    var (sent, next) := Wake(line, w, delay);
    && (forall i :: 0 <= i < |sent| ==> sent[i].due <= w.now)
    && (forall i :: 0 <= i < |next.queue| ==> next.queue[i].due > w.now)
  }

  ghost predicate AllPunctual<T>(line: Line<T>, ws: seq<Wakeup<T>>, delay: real)
    decreases |ws|
  {
    ws == [] || (Punctual(line, ws[0], delay) && AllPunctual(Wake(line, ws[0], delay).1, ws[1..], delay))
  }

  lemma WakeIsPunctual<T>(line: Line<T>, clock: real, w: Wakeup<T>, delay: real)
    requires Timely(line, clock, delay) && InOrder(w.packets, clock, w.now)
    ensures Punctual(line, w, delay)
  {
    AcceptAllKeepsTimely(line, clock, w.packets, w.now, delay);
    var filled := AcceptAll(line, w.packets, delay);
    var n := Due(filled.queue, w.now);
    forall i | n <= i < |filled.queue| ensures filled.queue[i].due > w.now {
      if i > n { assert Before(filled.queue[n], filled.queue[i]); }
    }
  }

  // Over every run on a clock that never goes back.
  lemma {:induction false} RunIsPunctual<T>(line: Line<T>, clock: real, ws: seq<Wakeup<T>>, delay: real)
    requires Timely(line, clock, delay) && ClockRuns(ws, clock)
    ensures AllPunctual(line, ws, delay)
    decreases |ws|
  {
    if ws != [] {
      WakeIsPunctual(line, clock, ws[0], delay);
      WakeKeepsTimely(line, clock, ws[0], delay);
      RunIsPunctual(Wake(line, ws[0], delay).1, ws[0].now, ws[1..], delay);
    }
  }
}
