/** Audio playback: the buffer between the decoder and the output device, and the statistics that
    decide every twelve seconds how much of it to drop. */
module AudioPlayback {
  import opened RingBuffer
  import opened Occupancy

  const BUFFER_MS := 3000
  const PASS_MS := 12000

  /** Played positions increase and all lie before the oldest sample still buffered. */
  ghost predicate PlayedBefore(played: seq<nat>, front: nat) {
    (forall i, j :: 0 <= i < j < |played| ==> played[i] < played[j]) &&
    (forall i :: 0 <= i < |played| ==> played[i] < front)
  }

  /** Drops samples only when more than three times as many are buffered. */
  method DropOldest(ring: HeapRb, drop: nat) returns (skip: nat)
    requires ring.Valid()
    modifies ring
    ensures ring.Valid() && skip == if old(ring.len) > drop * 3 then drop else 0
    ensures skip <= old(ring.len) && ring.contents == old(ring.contents)[skip..]
    ensures skip > 0 ==> ring.len > 2 * skip
  {
    skip := 0;
    if ring.len > drop * 3 && drop > 0 {
      skip := ring.Skip(drop);
    }
  }

  lemma {:induction false} PlayedLater(played: seq<nat>, front: nat, later: nat)
    requires PlayedBefore(played, front) && front <= later
    ensures PlayedBefore(played, later)
  {
  }

  lemma {:induction false} PlayedMore(played: seq<nat>, front: nat, n: nat)
    requires PlayedBefore(played, front)
    ensures PlayedBefore(played + seq(n, i => front + i), front + n)
  {
  }

  /** The oldest samples make room for new ones; returns how many samples are then buffered. */
  method PushBounded(ring: HeapRb, buffer: seq<real>) returns (having: nat)
    requires ring.Valid()
    modifies ring, ring.data
    ensures ring.Valid() && having == ring.len
    ensures ring.contents == Last(old(ring.contents) + buffer, ring.data.Length)
  {
    var cap := ring.data.Length;
    if |buffer| > cap {
      ring.PushSliceOverwrite(buffer);
      return cap;
    }
    having := ring.len + |buffer|;
    if having > cap {
      var _ := ring.Skip(having - cap);
    }
    ring.PushSliceOverwrite(buffer);
    return ring.len;
  }

  /** What leaves in front makes room for what comes behind, and nothing else changes. */
  lemma {:induction false} AppendKeepsAll(gone: seq<real>, contents: seq<real>, buffer: seq<real>,
                                          cap: nat, kept: seq<real>) returns (left: seq<real>)
    requires kept == Last(contents + buffer, cap)
    ensures (gone + left) + kept == (gone + contents) + buffer
    ensures |kept| == Min(|contents| + |buffer|, cap)
    ensures |gone + left| == |gone| + |contents| + |buffer| - |kept|
  {
    var all := contents + buffer;
    left := all[..|all| - |kept|];
    assert left + kept == all;
    assert gone + (left + kept) == (gone + left) + kept;
    assert gone + (contents + buffer) == (gone + contents) + buffer;
  }

  lemma {:induction false} TakeKeepsAll(gone: seq<real>, contents: seq<real>, n: nat)
    requires n <= |contents|
    ensures (gone + contents[..n]) + contents[n..] == gone + contents
  {
  }

  // ----- positions over a whole run

  /** What the operations do to the number of samples appended and the position of the oldest one. */
  datatype Move = Appended(n: nat, skip: nat) | Read(n: nat)

  datatype Positions = Positions(total: nat, front: nat)

  predicate CanMove(cap: nat, p: Positions, m: Move) {
    p.front <= p.total &&
    match m
    case Appended(n, skip) => skip <= Min(p.total - p.front + n, cap)
    case Read(n) => n <= p.total - p.front
  }

  function After(cap: nat, p: Positions, m: Move): (q: Positions)
    requires CanMove(cap, p, m)
    ensures p.front <= q.front <= q.total
  {
    match m
    case Appended(n, skip) =>
      Positions(p.total + n, p.total + n - Min(p.total - p.front + n, cap) + skip)
    case Read(n) => Positions(p.total, p.front + n)
  }

  /** An append that leaves `having` samples and a drop of `skip` of them, as a move of the positions. */
  lemma {:induction false} AppendedPositions(cap: nat, p: Positions, n: nat, having: nat, skip: nat, q: Positions)
    requires p.front <= p.total && having == Min(p.total - p.front + n, cap) && skip <= having
    requires q == Positions(p.total + n, p.total + n - having + skip)
    ensures CanMove(cap, p, Appended(n, skip)) && q == After(cap, p, Appended(n, skip))
  {
  }

  ghost predicate IsRun(cap: nat, p: Positions, moves: seq<Move>, q: Positions)
    decreases |moves|
  {
    if moves == [] then p == q
    else CanMove(cap, p, moves[0]) && IsRun(cap, After(cap, p, moves[0]), moves[1..], q)
  }

  predicate EvenMove(m: Move) {
    IsEven(m.n) && (m.Appended? ==> IsEven(m.skip))
  }

  lemma {:induction false} StereoMove(cap: nat, p: Positions, m: Move)
    requires cap % 2 == 0 && p.front % 2 == 0 && p.total % 2 == 0 && CanMove(cap, p, m) && EvenMove(m)
    ensures After(cap, p, m).front % 2 == 0 && After(cap, p, m).total % 2 == 0
  {
  }

  /** Stereo samples never swap channels: with an even capacity and even appends and reads, the
      oldest sample is always at an even position, so the next one read is a left one. Drops are even
      by themselves. */
  lemma {:induction false} StereoRun(cap: nat, p: Positions, moves: seq<Move>, q: Positions)
    requires cap % 2 == 0 && p.front % 2 == 0 && p.total % 2 == 0
    requires forall m :: m in moves ==> EvenMove(m)
    requires IsRun(cap, p, moves, q)
    ensures q.front % 2 == 0
    decreases |moves|
  {
    if moves != [] {
      assert moves[0] in moves;
      StereoMove(cap, p, moves[0]);
      StereoRun(cap, After(cap, p, moves[0]), moves[1..], q);
    }
  }

  /** Silence from position `n` on. */
  method FillSilence(out: array<real>, n: nat)
    requires n <= out.Length
    modifies out
    ensures out[..n] == old(out[..n]) && forall i :: n <= i < out.Length ==> out[i] == 0.0
  {
    for i := n to out.Length
      invariant out[..n] == old(out[..n]) && forall k :: n <= k < i ==> out[k] == 0.0
    {
      out[i] := 0.0;
    }
  }

  /** The samples on their way to the device, and their past. */
  class SampleStream {
    const ring: HeapRb
    ghost var gone: seq<real>     // the samples that have left the buffer: played, dropped or overwritten
    ghost var played: seq<nat>    // positions in the history of the samples played, in playing order

    ghost predicate Valid()
      reads this, ring, ring.data
    {
      ring.Valid() && PlayedBefore(played, |gone|)
    }

    /** Everything ever appended. */
    ghost function History(): seq<real>
      reads this, ring
    {
      gone + ring.contents
    }

    /** How many samples were appended, and the position of the oldest one still buffered. */
    ghost function Position(): Positions
      reads this, ring
    {
      Positions(|gone| + |ring.contents|, |gone|)
    }

    constructor (capacity: nat)
      requires capacity > 0
      ensures Valid() && ring.data.Length == capacity && fresh(ring) && fresh(ring.data)
      ensures gone == [] && played == [] && ring.contents == []
    {
      ring := new HeapRb(capacity);
      gone, played := [], [];
    }

    method Append(buffer: seq<real>) returns (having: nat)
      requires Valid()
      modifies this`gone, ring, ring.data
      ensures Valid() && History() == old(History()) + buffer
      ensures having == ring.len == Min(old(ring.len) + |buffer|, ring.data.Length)
      ensures Position() == Positions(old(Position()).total + |buffer|, old(Position()).total + |buffer| - having)
    {
      ghost var before := ring.contents;
      having := PushBounded(ring, buffer);
      ghost var left := AppendKeepsAll(gone, before, buffer, ring.data.Length, ring.contents);
      PlayedLater(played, |gone|, |gone + left|);
      gone := gone + left;
    }

    method Drop(drop: nat) returns (skip: nat)
      requires Valid()
      modifies this`gone, ring
      ensures Valid() && History() == old(History()) && ring.len == old(ring.len) - skip
      ensures Position() == Positions(old(Position()).total, old(Position()).front + skip)
      ensures skip == if old(ring.len) > drop * 3 then drop else 0
      ensures skip > 0 ==> ring.len > 2 * skip
    {
      ghost var before := ring.contents;
      skip := DropOldest(ring, drop);
      PlayedLater(played, |gone|, |gone| + skip);
      TakeKeepsAll(gone, before, skip);
      gone := gone + before[..skip];
    }

    /** Takes the `n` oldest samples out, noting them as played. */
    method Pop(out: array<real>, n: nat)
      requires Valid() && out != ring.data && n <= ring.len && n <= out.Length
      modifies this, ring, out
      ensures Valid() && History() == old(History()) && ring.len == old(ring.len) - n
      ensures |gone| == old(|gone|) + n && out[..n] == gone[old(|gone|)..]
      ensures played == old(played) + seq(n, i => old(|gone|) + i)
    {
      ghost var before, front := ring.contents, |gone|;
      ring.PopSlice(out, n);
      PlayedMore(played, front, n);
      TakeKeepsAll(gone, before, n);
      gone, played := gone + before[..n], played + seq(n, i => front + i);
    }
  }

  /** When a pass last ran, in milliseconds; 0 before the first occupancy is recorded. */
  class PassTimer {
    var tms: int

    constructor ()
      ensures tms == 0
    {
      tms := 0;
    }
  }

  class AudioBuffer {
    var stream: SampleStream
    const stats: Statistics
    const timer: PassTimer

    ghost predicate Valid()
      reads this, stream, stream.ring, stream.ring.data, stats, stats.hist
    {
      stream.Valid() && stats.Valid() && stream.ring.data.Length == 3 * stats.rate
    }

    constructor (timer: PassTimer)
      ensures Valid() && this.timer == timer && fresh(stream) && fresh(stream.ring) && fresh(stream.ring.data)
      ensures fresh(stats) && fresh(stats.hist)
      ensures stream.History() == [] && stats.window == [] && stats.rate == 96000
    {
      var capacity := Capacity(48000 * 2);
      stream := new SampleStream(capacity);
      stats := new Statistics(48000 * 2);
      this.timer := timer;
    }

    /** A new capacity starts an empty buffer and, with it, a new history; the counters stay. */
    method Resize(sampleRate: nat, channels: nat)
      requires Valid() && sampleRate > 0 && channels > 0
      modifies this, stats
      ensures Valid() && stats.rate == sampleRate * channels && stats.appends == old(stats.appends)
      ensures if stats.rate == old(stats.rate) then stream == old(stream) && stats.window == old(stats.window)
              else fresh(stream) && fresh(stream.ring) && fresh(stream.ring.data) &&
                   stream.History() == [] && stats.window == []
    {
      var samples := Product(sampleRate, channels);
      var capacity := Capacity(samples);
      if capacity != stream.ring.data.Length {
        stream := new SampleStream(capacity);
        stats.SetRate(samples);
      }
    }

    /** Empties the statistics and drops what they show was never needed. */
    method Pass() returns (skip: nat)
      requires Valid()
      modifies stats`window, stats`appends, stats.hist, stream`gone, stream.ring
      ensures Valid() && stream.History() == old(stream.History()) && stats.window == [] && stats.appends == 0
      ensures skip == Dropped(old(stats.hist[..]), stream.ring.data.Length, old(stream.ring.len))
      ensures stream.ring.len == old(stream.ring.len) - skip
      ensures stream.Position() == Positions(old(stream.Position()).total, old(stream.Position()).front + skip)
      ensures skip > 0 ==> stream.ring.len > 2 * skip
      ensures NeverNeeded(skip, old(stats.window))
    {
      var zero, max := stats.ScanAndClear();
      var drop := SkipFor(zero, max, stream.ring.data.Length);
      skip := stream.Drop(drop);
    }

    /** Records an occupancy and, once twelve seconds have passed since the last pass, runs a pass. */
    method TryShrink(having: nat, now: int) returns (skip: nat)
      requires Valid()
      modifies stats`window, stats`appends, stats.hist, timer, stream`gone, stream.ring
      ensures Valid() && stream.History() == old(stream.History())
      ensures var pass := old(timer.tms) != 0 && now >= old(timer.tms) + 12000;
              var h := Tallied(old(stats.hist[..]), stats.rate, having);
              if pass then
                timer.tms == now && stats.window == [] && stats.appends == 0 &&
                skip == Dropped(h, stream.ring.data.Length, old(stream.ring.len))
              else
                timer.tms == (if old(timer.tms) == 0 then now else old(timer.tms)) && skip == 0 &&
                stats.hist[..] == h &&
                stats.window == old(stats.window) + [having] && stats.appends == old(stats.appends) + 1
      ensures stream.ring.len == old(stream.ring.len) - skip
      ensures stream.Position() == Positions(old(stream.Position()).total, old(stream.Position()).front + skip)
      ensures IsEven(skip) && (skip > 0 ==> stream.ring.len > 2 * skip)
      ensures NeverNeeded(skip, old(stats.window) + [having])
    {
      skip := 0;
      stats.Record(having);
      if timer.tms == 0 {
        timer.tms := now;
        return;
      } else if now < timer.tms + PASS_MS {
        return;
      }
      timer.tms := now;
      skip := Pass();
    }

    /** Appends decoded samples, keeping at most three seconds: the oldest make room. */
    method AppendPcm2(buffer: seq<real>) returns (having: nat)
      requires Valid()
      modifies stream`gone, stream.ring, stream.ring.data
      ensures Valid() && stream.History() == old(stream.History()) + buffer
      ensures having == stream.ring.len == Min(old(stream.ring.len) + |buffer|, stream.ring.data.Length)
      ensures var p := old(stream.Position());
              stream.Position() == Positions(p.total + |buffer|, p.total + |buffer| - having)
    {
      having := stream.Append(buffer);
    }

    /** Appends, records the new occupancy, and drops now and then what was never needed. */
    method AppendPcm(buffer: seq<real>, now: int) returns (skip: nat, ghost having: nat)
      requires Valid()
      modifies stream`gone, stats`window, stats`appends, stats.hist, timer, stream.ring, stream.ring.data
      ensures Valid() && stream.History() == old(stream.History()) + buffer
      ensures having == stream.ring.len + skip == Min(old(stream.ring.len) + |buffer|, stream.ring.data.Length)
      ensures CanMove(stream.ring.data.Length, old(stream.Position()), Appended(|buffer|, skip))
      ensures stream.Position() ==
              After(stream.ring.data.Length, old(stream.Position()), Appended(|buffer|, skip))
      ensures IsEven(skip) && (skip > 0 ==> stream.ring.len > 2 * skip)
      ensures NeverNeeded(skip, old(stats.window) + [having])
      ensures old(timer.tms) != 0 && now >= old(timer.tms) + 12000 && stats.rate > 20 &&
              old(stats.appends) == |old(stats.window)| ==>
                DropsSteady(stats.rate, old(stats.window) + [having], skip)
      ensures var pass := old(timer.tms) != 0 && now >= old(timer.tms) + 12000;
              var h := Tallied(old(stats.hist[..]), stats.rate, having);
              if pass then
                timer.tms == now && stats.window == [] && stats.appends == 0 &&
                skip == Dropped(h, stream.ring.data.Length, having)
              else
                timer.tms == (if old(timer.tms) == 0 then now else old(timer.tms)) && skip == 0 &&
                stats.hist[..] == h &&
                stats.window == old(stats.window) + [having] && stats.appends == old(stats.appends) + 1
    {
      ghost var p := stream.Position();
      var n := AppendPcm2(buffer);
      having := n;
      assert stats.hist[..] == old(stats.hist[..]);
      if stats.rate > 20 {
        SteadyPass(stats.rate, stats.window, having);
      }
      skip := TryShrink(n, now);
      AppendedPositions(stream.ring.data.Length, p, |buffer|, having, skip, stream.Position());
    }

    /** The device callback: the oldest samples, in order, and silence when there are too few. */
    method Fill(out: array<real>) returns (n: nat)
      requires Valid() && out != stream.ring.data
      modifies stream, stream.ring, out
      ensures Valid() && stream.History() == old(stream.History()) && n == Min(out.Length, old(stream.ring.len))
      ensures CanMove(stream.ring.data.Length, old(stream.Position()), Read(n))
      ensures stream.Position() == After(stream.ring.data.Length, old(stream.Position()), Read(n))
      ensures forall i :: n <= i < out.Length ==> out[i] == 0.0
      ensures |stream.gone| == old(|stream.gone|) + n && out[..n] == stream.gone[old(|stream.gone|)..]
      ensures stream.played == old(stream.played) + seq(n, i => old(|stream.gone|) + i)
    {
      n := Min(out.Length, stream.ring.len);
      stream.Pop(out, n);
      FillSilence(out, n);
    }
  }

  /** Three seconds of samples. */
  method Capacity(samples: nat) returns (capacity: nat)
    ensures capacity == 3 * samples
  {
    capacity := samples * BUFFER_MS / 1000;
  }

  method Product(a: nat, b: nat) returns (c: nat)
    requires a > 0 && b > 0
    ensures c == a * b && c > 0
  {
    c := a * b;
    assert c > 0;
  }
}
