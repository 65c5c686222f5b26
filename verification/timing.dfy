/** Two things paced by a clock: intervals that never tick too often, and UDP hole punching with a
    growing retry interval. Times are integers; a clock never goes back. */
module Throttle {
  import opened Wrappers

  /** A poll of the underlying interval: its tick, if one is due, and the clock at the poll. */
  datatype Poll = Poll(ready: Option<int>, now: int)

  /** Whether a poll emits a tick, and when the next one may come. */
  function Polled(nextTick: int, min: nat, p: Poll): (bool, int) {
    if p.ready.Some? && nextTick <= p.now then (true, p.now + min) else (false, nextTick)
  }

  class ThrottledInterval {
    const minInterval: nat
    var nextTick: int

    constructor (minInterval: nat, now: int)
      ensures this.minInterval == minInterval && nextTick == now
    {
      this.minInterval := minInterval;
      nextTick := now;
    }

    method PollTick(p: Poll) returns (r: Option<int>)
      modifies this
      ensures (r.Some?, nextTick) == Polled(old(nextTick), minInterval, p) && (r.Some? ==> r == p.ready)
    {
      match p.ready
      case Some(instant) =>
        if nextTick <= p.now {
          nextTick := p.now + minInterval;
          return Some(instant);
        } else {
          return None;
        }
      case None =>
        return None;
    }
  }

  /** When ticks are emitted over a run of polls. */
  function Emitted(nextTick: int, min: nat, polls: seq<Poll>): seq<int>
    decreases |polls|
  {
    if polls == [] then []
    else
      var (emits, next) := Polled(nextTick, min, polls[0]);
      (if emits then [polls[0].now] else []) + Emitted(next, min, polls[1..])
  }

  lemma {:induction false} EmittedAfter(nextTick: int, min: nat, polls: seq<Poll>, i: nat)
    requires i < |Emitted(nextTick, min, polls)|
    ensures Emitted(nextTick, min, polls)[i] >= nextTick + i * min
    decreases |polls|
  {
    if polls[0].ready.Some? && nextTick <= polls[0].now {
      if i > 0 {
        EmittedAfter(polls[0].now + min, min, polls[1..], i - 1);
        assert min + (i - 1) * min == i * min;
      }
    } else {
      EmittedAfter(nextTick, min, polls[1..], i);
    }
  }

  /** However the polls fall, the j-th emitted tick comes at least (j - i) intervals after the i-th:
      k ticks within a period of time need (k - 1) intervals. */
  lemma {:induction false} NeverTooOften(nextTick: int, min: nat, polls: seq<Poll>, i: nat, j: nat)
    requires i < j < |Emitted(nextTick, min, polls)|
    ensures var e := Emitted(nextTick, min, polls); e[j] - e[i] >= (j - i) * min
    decreases |polls|
  {
    if polls[0].ready.Some? && nextTick <= polls[0].now {
      if i == 0 {
        EmittedAfter(polls[0].now + min, min, polls[1..], j - 1);
        assert min + (j - 1) * min == j * min;
      } else {
        NeverTooOften(polls[0].now + min, min, polls[1..], i - 1, j - 1);
      }
    } else {
      NeverTooOften(nextTick, min, polls[1..], i, j);
    }
  }

  /** When the underlying interval had a tick due. */
  function ReadyTimes(polls: seq<Poll>): seq<int> {
    if polls == [] then []
    else (if polls[0].ready.Some? then [polls[0].now] else []) + ReadyTimes(polls[1..])
  }

  /** The n-th underlying tick is polled at its deadline or at most `slack` later, whatever polls find
      none due. */
  ghost predicate OnTime(polls: seq<Poll>, deadline: int, period: nat, slack: int) {
    polls == [] ||
    if polls[0].ready.None? then OnTime(polls[1..], deadline, period, slack)
    else deadline <= polls[0].now <= deadline + slack && OnTime(polls[1..], deadline + period, period, slack)
  }

  /** No tick is suppressed when each is polled within the period less the minimal interval. */
  lemma {:induction false} NoneSuppressed(nextTick: int, min: nat, period: nat, polls: seq<Poll>, deadline: int)
    requires OnTime(polls, deadline, period, period - min) && nextTick <= deadline
    ensures Emitted(nextTick, min, polls) == ReadyTimes(polls)
    decreases |polls|
  {
    if polls != [] {
      if polls[0].ready.Some? {
        NoneSuppressed(polls[0].now + min, min, period, polls[1..], deadline + period);
      } else {
        NoneSuppressed(nextTick, min, period, polls[1..], deadline);
      }
    }
  }
}

module UdpPunch {
  import opened Wrappers

  const MAX_INTERVAL := 200
  const MAX_TIME := 20000

  /** What ends a wait: the timer, with the three clock readings that follow it, or the socket. */
  datatype Wake =
    | Timer(t1: int, t2: int, t3: int)
    | RecvError
    | Received(data: seq<byte>)

  datatype Outcome = Waiting | TimedOut | RecvFailed | Punched(data: Option<seq<byte>>)

  datatype Punch = Punch(retry: nat, packets: nat, lastSend: int, outcome: Outcome)

  function Longer(retry: nat): nat {
    if retry * 3 / 2 <= MAX_INTERVAL then retry * 3 / 2 else MAX_INTERVAL
  }

  function Woken(p: Punch, tm: int, listen: bool, w: Wake): Punch {
    if !p.outcome.Waiting? then p
    else
      match w
      case Timer(t1, t2, t3) =>
        if t1 - tm > MAX_TIME then p.(outcome := TimedOut)
        else if t2 - p.lastSend >= p.retry then p.(packets := p.packets + 1, retry := Longer(p.retry), lastSend := t3)
        else p
      case RecvError => p.(outcome := RecvFailed)
      case Received(data) =>
        if !listen then p.(outcome := Punched(None))
        else if data == [] then p
        else p.(outcome := Punched(Some(data)))
  }

  function Run(sent: int, tm: int, listen: bool, wakes: seq<Wake>): Punch
    decreases |wakes|
  {
    if wakes == [] then Punch(20, 1, sent, Waiting)
    else Woken(Run(sent, tm, listen, wakes[..|wakes| - 1]), tm, listen, wakes[|wakes| - 1])
  }

  lemma {:induction false} RunEnds(sent: int, tm: int, listen: bool, wakes: seq<Wake>, n: nat)
    requires n <= |wakes| && !Run(sent, tm, listen, wakes[..n]).outcome.Waiting?
    ensures Run(sent, tm, listen, wakes) == Run(sent, tm, listen, wakes[..n])
    decreases |wakes|
  {
    if n == |wakes| {
      assert wakes[..n] == wakes;
    } else {
      assert wakes[..|wakes| - 1][..n] == wakes[..n];
      RunEnds(sent, tm, listen, wakes[..|wakes| - 1], n);
    }
  }

  /** The first packet is sent at `sent`, the run is timed from `tm`; `wakes` is what happens. */
  method PunchUdp(listen: bool, sent: int, tm: int, wakes: seq<Wake>) returns (p: Punch)
    ensures p == Run(sent, tm, listen, wakes)
  {
    var retryInterval: nat, packetsSent: nat, lastSendTime := 20, 1, sent;
    assert wakes[..0] == [];
    for i := 0 to |wakes|
      invariant Punch(retryInterval, packetsSent, lastSendTime, Waiting) == Run(sent, tm, listen, wakes[..i])
    {
      assert wakes[..i + 1][..i] == wakes[..i];
      ghost var after := Run(sent, tm, listen, wakes[..i + 1]);
      if !after.outcome.Waiting? {
        RunEnds(sent, tm, listen, wakes, i + 1);
      }
      match wakes[i]
      case Timer(t1, t2, t3) =>
        if t1 - tm > MAX_TIME {
          return Punch(retryInterval, packetsSent, lastSendTime, TimedOut);
        }
        var elapsed := t2 - lastSendTime;
        if elapsed >= retryInterval {
          packetsSent := packetsSent + 1;
          retryInterval := if retryInterval * 3 / 2 <= MAX_INTERVAL then retryInterval * 3 / 2 else MAX_INTERVAL;
          lastSendTime := t3;
        }
      case RecvError =>
        return Punch(retryInterval, packetsSent, lastSendTime, RecvFailed);
      case Received(data) =>
        if listen {
          if data != [] {
            return Punch(retryInterval, packetsSent, lastSendTime, Punched(Some(data)));
          }
        } else {
          return Punch(retryInterval, packetsSent, lastSendTime, Punched(None));
        }
    }
    assert wakes[..|wakes|] == wakes;
    return Punch(retryInterval, packetsSent, lastSendTime, Waiting);
  }

  // ----- how it ends

  /** What ends the run: a timer more than 20 s after the start, an error, or a datagram; when listening,
      one that is not empty. */
  predicate Decides(tm: int, listen: bool, w: Wake) {
    match w
    case Timer(t1, _, _) => t1 > tm + 20000
    case RecvError => true
    case Received(data) => !listen || data != []
  }

  /** The run goes on as long as nothing ends it. */
  lemma {:induction false} Undecided(sent: int, tm: int, listen: bool, wakes: seq<Wake>)
    requires forall w :: w in wakes ==> !Decides(tm, listen, w)
    ensures Run(sent, tm, listen, wakes).outcome == Waiting
    decreases |wakes|
  {
    if wakes != [] {
      assert wakes[|wakes| - 1] in wakes && forall w :: w in wakes[..|wakes| - 1] ==> w in wakes;
      Undecided(sent, tm, listen, wakes[..|wakes| - 1]);
    }
  }

  /** The first that does decides how, and nothing is sent after it. */
  lemma {:induction false} FirstDecides(sent: int, tm: int, listen: bool, wakes: seq<Wake>, k: nat)
    requires k < |wakes| && Decides(tm, listen, wakes[k])
    requires forall i :: 0 <= i < k ==> !Decides(tm, listen, wakes[i])
    ensures var p := Run(sent, tm, listen, wakes);
            && p.packets == Run(sent, tm, listen, wakes[..k]).packets
            && match wakes[k]
               case Timer(_, _, _) => p.outcome == TimedOut
               case RecvError => p.outcome == RecvFailed
               case Received(data) => p.outcome == Punched(if listen then Some(data) else None)
  {
    Undecided(sent, tm, listen, wakes[..k]);
    assert wakes[..k + 1][..k] == wakes[..k];
    RunEnds(sent, tm, listen, wakes, k + 1);
  }

  // ----- how many packets

  /** The retry interval after `n` retries. */
  function Interval(n: nat): (r: nat)
    ensures 20 <= r <= MAX_INTERVAL
  {
    if n == 0 then 20 else Longer(Interval(n - 1))
  }

  /** The time `n` retries take at least. */
  function Waited(n: nat): nat {
    if n == 0 then 0 else Waited(n - 1) + Interval(n - 1)
  }

  /** The retry intervals are 20, 30, 45, 67, 100, 150 and then 200 ms. */
  lemma {:induction false} IntervalsSettle(n: nat)
    requires n >= 6
    ensures Interval(n) == 200 && Waited(n) == 412 + 200 * (n - 6)
  {
    if n == 6 {
      assert Interval(1) == 30 && Interval(2) == 45 && Interval(3) == 67;
      assert Interval(4) == 100 && Interval(5) == 150 && Interval(6) == 200;
      assert Waited(1) == 20 && Waited(2) == 50 && Waited(3) == 95;
      assert Waited(4) == 162 && Waited(5) == 262;
    } else {
      IntervalsSettle(n - 1);
    }
  }

  lemma {:induction false} IntervalGrows(m: nat, n: nat)
    requires m <= n
    ensures Interval(m) <= Interval(n)
  {
    if m < n {
      IntervalGrows(m, n - 1);
    }
  }

  lemma {:induction false} WaitedGrows(m: nat, n: nat)
    requires m < n
    ensures Waited(m) + 20 <= Waited(n)
  {
    if m < n - 1 {
      WaitedGrows(m, n - 1);
    }
  }

  lemma {:induction false} RetryIsInterval(sent: int, tm: int, listen: bool, wakes: seq<Wake>)
    ensures var p := Run(sent, tm, listen, wakes); p.packets > 0 && p.retry == Interval(p.packets - 1)
    decreases |wakes|
  {
    if wakes != [] {
      RetryIsInterval(sent, tm, listen, wakes[..|wakes| - 1]);
    }
  }

  /** Whatever happens and whatever the clock shows, the retry interval never shrinks. */
  lemma {:induction false} RetryGrows(sent: int, tm: int, listen: bool, wakes: seq<Wake>, n: nat)
    requires n <= |wakes|
    ensures Run(sent, tm, listen, wakes[..n]).packets <= Run(sent, tm, listen, wakes).packets
    ensures Run(sent, tm, listen, wakes[..n]).retry <= Run(sent, tm, listen, wakes).retry
    decreases |wakes|
  {
    if n == |wakes| {
      assert wakes[..n] == wakes;
    } else {
      var front := wakes[..|wakes| - 1];
      assert front[..n] == wakes[..n];
      RetryGrows(sent, tm, listen, front, n);
      RetryIsInterval(sent, tm, listen, front);
      RetryIsInterval(sent, tm, listen, wakes);
      var p := Run(sent, tm, listen, front);
      IntervalGrows(p.packets - 1, p.packets);
    }
  }

  /** The clock readings of a run do not go back. */
  ghost predicate Clocked(since: int, wakes: seq<Wake>)
    decreases |wakes|
  {
    wakes == [] ||
    if wakes[0].Timer? then since <= wakes[0].t1 <= wakes[0].t2 <= wakes[0].t3 && Clocked(wakes[0].t3, wakes[1..])
    else Clocked(since, wakes[1..])
  }

  /** The last reading of a run. */
  function Latest(since: int, wakes: seq<Wake>): int
    decreases |wakes|
  {
    if wakes == [] then since else Latest(if wakes[0].Timer? then wakes[0].t3 else since, wakes[1..])
  }

  lemma {:induction false} ClockedFront(since: int, wakes: seq<Wake>)
    requires wakes != [] && Clocked(since, wakes)
    ensures var (front, w) := (wakes[..|wakes| - 1], wakes[|wakes| - 1]);
            Clocked(since, front) &&
            (w.Timer? ==> Latest(since, front) <= w.t1 <= w.t2 <= w.t3 && Latest(since, wakes) == w.t3) &&
            (!w.Timer? ==> Latest(since, wakes) == Latest(since, front))
    decreases |wakes|
  {
    if |wakes| > 1 {
      assert wakes[1..][..|wakes[1..]| - 1] == wakes[..|wakes| - 1][1..];
      ClockedFront(if wakes[0].Timer? then wakes[0].t3 else since, wakes[1..]);
    }
  }

  /** One reading serves for the cut-off and for the retry test. */
  ghost predicate OneReading(wakes: seq<Wake>) {
    forall w :: w in wakes && w.Timer? ==> w.t1 == w.t2
  }

  lemma {:induction false} LastSendStays(sent: int, tm: int, listen: bool, wakes: seq<Wake>, n: nat)
    requires n <= |wakes|
    requires Run(sent, tm, listen, wakes).packets == Run(sent, tm, listen, wakes[..n]).packets
    ensures Run(sent, tm, listen, wakes).lastSend == Run(sent, tm, listen, wakes[..n]).lastSend
    decreases |wakes|
  {
    if n == |wakes| {
      assert wakes[..n] == wakes;
    } else {
      var front := wakes[..|wakes| - 1];
      assert front[..n] == wakes[..n];
      RetryGrows(sent, tm, listen, front, n);
      LastSendStays(sent, tm, listen, front, n);
    }
  }

  /** From the reading after one packet to the reading before the next passes at least the interval. */
  lemma {:induction false} PacketsApart(sent: int, tm: int, listen: bool, wakes: seq<Wake>, i: nat, j: nat)
    requires i < j < |wakes|
    requires Run(sent, tm, listen, wakes[..i]).packets < Run(sent, tm, listen, wakes[..i + 1]).packets
    requires Run(sent, tm, listen, wakes[..i + 1]).packets == Run(sent, tm, listen, wakes[..j]).packets
    requires Run(sent, tm, listen, wakes[..j]).packets < Run(sent, tm, listen, wakes[..j + 1]).packets
    ensures wakes[i].Timer? && wakes[j].Timer?
    ensures wakes[j].t2 >= wakes[i].t3 + Interval(Run(sent, tm, listen, wakes[..j]).packets - 1)
  {
    assert wakes[..i + 1][..i] == wakes[..i] && wakes[..j + 1][..j] == wakes[..j];
    assert wakes[..j][..i + 1] == wakes[..i + 1];
    LastSendStays(sent, tm, listen, wakes[..j], i + 1);
    RetryIsInterval(sent, tm, listen, wakes[..j]);
  }

  // ----- at most how many, whenever the timer fires

  /** When the retries begin to count: the first comes 20 ms after the first packet, and after `tm`. */
  function Start(sent: int, tm: int): int {
    if sent <= tm - 20 then tm - 20 else sent
  }

  /** After n retries the interval is the n-th, the last packet left at least the sum of the intervals
      after the start, and all but the last retry fit into the time allowed; all of them do when one
      reading serves for both tests. */
  ghost predicate IsPaced(p: Punch, sent: int, tm: int, latest: int, oneReading: bool) {
    && p.packets > 0 && p.retry == Interval(p.packets - 1) && tm <= latest
    && sent <= p.lastSend <= latest
    && (p.packets > 1 ==> Start(sent, tm) + Waited(p.packets - 1) <= p.lastSend)
    && (p.packets > 1 ==> Waited(p.packets - 2) <= MAX_TIME + (tm - Start(sent, tm)))
    && (oneReading ==> Waited(p.packets - 1) <= MAX_TIME + (tm - Start(sent, tm)))
  }

  lemma {:induction false} WokenPaced(p: Punch, sent: int, tm: int, listen: bool, w: Wake, latest: int,
                                      oneReading: bool)
    requires sent <= tm && IsPaced(p, sent, tm, latest, oneReading)
    requires w.Timer? ==> latest <= w.t1 <= w.t2 <= w.t3 && (oneReading ==> w.t1 == w.t2)
    ensures IsPaced(Woken(p, tm, listen, w), sent, tm, if w.Timer? then w.t3 else latest, oneReading)
  {
    if w.Timer? && p.outcome.Waiting? && w.t1 - tm <= MAX_TIME && w.t2 - p.lastSend >= p.retry {
      SentIsPaced(p, sent, tm, w, oneReading);
    }
  }

  lemma {:induction false} SentIsPaced(p: Punch, sent: int, tm: int, w: Wake, oneReading: bool)
    requires w.Timer? && sent <= tm && IsPaced(p, sent, tm, w.t1, oneReading)
    requires w.t1 <= w.t2 <= w.t3 && (oneReading ==> w.t1 == w.t2)
    requires w.t1 - tm <= MAX_TIME && w.t2 - p.lastSend >= p.retry
    ensures var q := p.(packets := p.packets + 1, retry := Longer(p.retry), lastSend := w.t3);
            IsPaced(q, sent, tm, w.t3, oneReading)
  {
    var n := p.packets;
    SentPaced(n, p.lastSend, sent, tm, w.t2);
    assert Interval(n) == Longer(Interval(n - 1));
  }

  /** One more retry, at `t`. */
  lemma {:induction false} SentPaced(n: nat, lastSend: int, sent: int, tm: int, t: int)
    requires n > 0 && sent <= lastSend && tm <= t && t - lastSend >= Interval(n - 1)
    requires n > 1 ==> Start(sent, tm) + Waited(n - 1) <= lastSend
    ensures Start(sent, tm) + Waited(n) <= t
  {
    assert Waited(n) == Waited(n - 1) + Interval(n - 1);
  }

  lemma {:induction false} Paced(sent: int, tm: int, listen: bool, wakes: seq<Wake>, oneReading: bool)
    requires sent <= tm && Clocked(tm, wakes) && (oneReading ==> OneReading(wakes))
    ensures IsPaced(Run(sent, tm, listen, wakes), sent, tm, Latest(tm, wakes), oneReading)
    decreases |wakes|
  {
    if wakes != [] {
      var front, w := wakes[..|wakes| - 1], wakes[|wakes| - 1];
      ClockedFront(tm, wakes);
      assert w in wakes && forall x :: x in front ==> x in wakes;
      Paced(sent, tm, listen, front, oneReading);
      WokenPaced(Run(sent, tm, listen, front), sent, tm, listen, w, Latest(tm, front), oneReading);
    }
  }

  /** The most packets: 104, one more when the timing starts 12 ms or more after the first packet, and
      one more when the clock is read twice in an iteration. */
  function MostPackets(sent: int, tm: int, oneReading: bool): nat {
    104 + (if tm - sent >= 12 then 1 else 0) + if oneReading then 0 else 1
  }

  lemma {:induction false} PacketLimit(sent: int, tm: int, listen: bool, wakes: seq<Wake>)
    requires sent <= tm && Clocked(tm, wakes)
    ensures Run(sent, tm, listen, wakes).packets <= MostPackets(sent, tm, OneReading(wakes))
  {
    var p := Run(sent, tm, listen, wakes);
    Paced(sent, tm, listen, wakes, OneReading(wakes));
    if p.packets >= 8 {
      IntervalsSettle(p.packets - 1);
      IntervalsSettle(p.packets - 2);
    }
  }

  /** Timers that fire as early as retries are due, counted from `start`. */
  function Steady(start: int, n: nat): seq<Wake> {
    if n == 0 then [] else
      var t := start + Waited(n);
      Steady(start, n - 1) + [Timer(t, t, t)]
  }

  lemma {:induction false} SteadyClock(start: int, since: int, n: nat)
    requires start <= since <= start + 20
    ensures Clocked(since, Steady(start, n)) && OneReading(Steady(start, n))
    ensures Latest(since, Steady(start, n)) == if n == 0 then since else start + Waited(n)
  {
    if n > 0 {
      var front, t := Steady(start, n - 1), start + Waited(n);
      SteadyClock(start, since, n - 1);
      WaitedGrows(0, n);
      ClockedBehind(since, front, Timer(t, t, t));
    }
  }

  lemma {:induction false} ClockedBehind(since: int, front: seq<Wake>, w: Wake)
    requires Clocked(since, front) && w.Timer? && Latest(since, front) <= w.t1 <= w.t2 <= w.t3
    ensures Clocked(since, front + [w]) && Latest(since, front + [w]) == w.t3
    decreases |front|
  {
    if front != [] {
      assert (front + [w])[1..] == front[1..] + [w];
      ClockedBehind(if front[0].Timer? then front[0].t3 else since, front[1..], w);
    }
  }

  lemma {:induction false} SteadyRun(sent: int, tm: int, listen: bool, start: int, n: nat)
    requires sent <= start <= tm && start + Waited(n) - tm <= MAX_TIME
    ensures Run(sent, tm, listen, Steady(start, n)) ==
            Punch(Interval(n), n + 1, if n == 0 then sent else start + Waited(n), Waiting)
  {
    if n > 0 {
      assert Steady(start, n)[..n - 1] == Steady(start, n - 1) by { SteadyLength(start, n - 1); }
      SteadyLength(start, n);
      SteadyRun(sent, tm, listen, start, n - 1);
    }
  }

  lemma {:induction false} SteadyLength(start: int, n: nat)
    ensures |Steady(start, n)| == n
  {
    if n > 0 {
      SteadyLength(start, n - 1);
    }
  }

  /** The limit is reached, with one reading and with two. */
  lemma {:induction false} LimitReached(sent: int, tm: int, listen: bool, oneReading: bool) returns (wakes: seq<Wake>)
    requires sent <= tm
    ensures Clocked(tm, wakes) && OneReading(wakes) == oneReading
    ensures Run(sent, tm, listen, wakes).packets == MostPackets(sent, tm, oneReading)
  {
    var start, n := Start(sent, tm), MostPackets(sent, tm, true) - 1;
    IntervalsSettle(n);
    IntervalsSettle(n + 1);
    SteadyClock(start, tm, n);
    SteadyRun(sent, tm, listen, start, n);
    wakes := Steady(start, n);
    if !oneReading {
      var w := Timer(tm + MAX_TIME, start + Waited(n + 1), start + Waited(n + 1));
      ClockedBehind(tm, wakes, w);
      assert (wakes + [w])[..|wakes + [w]| - 1] == wakes;
      assert w in wakes + [w];
      wakes := wakes + [w];
    }
  }

  // ----- how many, when the timer sleeps as long as it should

  /** The timer of an iteration fires when the retry interval has passed since the iteration began. */
  ghost predicate Slept(sent: int, tm: int, listen: bool, wakes: seq<Wake>)
    decreases |wakes|
  {
    wakes == [] ||
    var front, w := wakes[..|wakes| - 1], wakes[|wakes| - 1];
    Slept(sent, tm, listen, front) &&
    (w.Timer? ==> Latest(tm, front) + Run(sent, tm, listen, front).retry <= w.t1)
  }

  /** After n retries at least the sum of the intervals has passed, within the time allowed. */
  predicate IsSlept(p: Punch, tm: int, latest: int) {
    && p.packets > 0 && p.retry == Interval(p.packets - 1)
    && tm + Waited(p.packets - 1) <= latest && Waited(p.packets - 1) <= MAX_TIME
  }

  lemma {:induction false} WokenSlept(p: Punch, tm: int, listen: bool, w: Wake, latest: int)
    requires IsSlept(p, tm, latest)
    requires w.Timer? ==> latest + p.retry <= w.t1 <= w.t2 <= w.t3
    ensures IsSlept(Woken(p, tm, listen, w), tm, if w.Timer? then w.t3 else latest)
  {
    assert Waited(p.packets) == Waited(p.packets - 1) + Interval(p.packets - 1);
  }

  lemma {:induction false} SleptPaced(sent: int, tm: int, listen: bool, wakes: seq<Wake>)
    requires Clocked(tm, wakes) && Slept(sent, tm, listen, wakes)
    ensures IsSlept(Run(sent, tm, listen, wakes), tm, Latest(tm, wakes))
    decreases |wakes|
  {
    if wakes != [] {
      var front, w := wakes[..|wakes| - 1], wakes[|wakes| - 1];
      ClockedFront(tm, wakes);
      SleptPaced(sent, tm, listen, front);
      WokenSlept(Run(sent, tm, listen, front), tm, listen, w, Latest(tm, front));
    }
  }

  /** Then 104 packets are the most, however often the clock is read and however long after the first
      packet the timing starts. */
  lemma {:induction false} AtMost104Packets(sent: int, tm: int, listen: bool, wakes: seq<Wake>)
    requires Clocked(tm, wakes) && Slept(sent, tm, listen, wakes)
    ensures Run(sent, tm, listen, wakes).packets <= 104
  {
    var p := Run(sent, tm, listen, wakes);
    SleptPaced(sent, tm, listen, wakes);
    if p.packets >= 8 {
      IntervalsSettle(p.packets - 1);
    }
  }

  lemma {:induction false} SteadySlept(sent: int, tm: int, listen: bool, n: nat)
    requires sent <= tm && Waited(n) <= MAX_TIME
    ensures Slept(sent, tm, listen, Steady(tm, n))
  {
    if n > 0 {
      SteadySlept(sent, tm, listen, n - 1);
      SteadyRun(sent, tm, listen, tm, n - 1);
      SteadyClock(tm, tm, n - 1);
      SteadyLength(tm, n);
      SteadyLength(tm, n - 1);
      assert Steady(tm, n)[..n - 1] == Steady(tm, n - 1);
    }
  }

  /** And 104 packets are sent when every timer is punctual and nothing arrives. */
  lemma {:induction false} Sends104Packets(sent: int, tm: int, listen: bool) returns (wakes: seq<Wake>)
    requires sent <= tm
    ensures Clocked(tm, wakes) && Slept(sent, tm, listen, wakes)
    ensures Run(sent, tm, listen, wakes).packets == 104
  {
    IntervalsSettle(103);
    wakes := Steady(tm, 103);
    SteadyClock(tm, tm, 103);
    SteadySlept(sent, tm, listen, 103);
    SteadyRun(sent, tm, listen, tm, 103);
  }
}
