/** The request window of the name proof server, with times in nanoseconds. */
module ProofRate {
  import opened Basics

  const SECOND := 1_000_000_000
  const DEFAULT_MAX_PROOF_RPS := 100
  const MAX_UINT32 := 0xffff_ffff

  datatype Request = Request(at: int, ok: bool)

  /** How many requests came at times from a up to b, and how many of them were let through. */
  function Seen(h: seq<Request>, a: int, b: int): nat
  {
    if h == [] then 0 else Seen(h[..|h| - 1], a, b) + if a <= h[|h| - 1].at < b then 1 else 0
  }

  function Passed(h: seq<Request>, a: int, b: int): nat
  {
    if h == [] then 0 else Passed(h[..|h| - 1], a, b) + if h[|h| - 1].ok && a <= h[|h| - 1].at < b then 1 else 0
  }

  function Cap(n: nat): nat
  {
    if n < MAX_UINT64 then n else MAX_UINT64
  }

  lemma {:induction false} PassedAreSeen(h: seq<Request>, a: int, b: int)
    ensures Passed(h, a, b) <= Seen(h, a, b)
    decreases |h|
  {
    if h != [] {
      PassedAreSeen(h[..|h| - 1], a, b);
    }
  }

  lemma {:induction false} PassedSplits(h: seq<Request>, a: int, b: int, c: int)
    requires a <= b <= c
    ensures Passed(h, a, c) == Passed(h, a, b) + Passed(h, b, c)
    decreases |h|
  {
    if h != [] {
      PassedSplits(h[..|h| - 1], a, b, c);
    }
  }

  lemma {:induction false} NothingSince(h: seq<Request>, a: int, b: int)
    requires forall r :: r in h ==> r.at < a
    ensures Seen(h, a, b) == 0 && Passed(h, a, b) == 0
    decreases |h|
  {
    if h != [] {
      NothingSince(h[..|h| - 1], a, b);
    }
  }

  lemma OneMore(h: seq<Request>, r: Request, a: int, b: int)
    ensures Seen(h + [r], a, b) == Seen(h, a, b) + if a <= r.at < b then 1 else 0
    ensures Passed(h + [r], a, b) == Passed(h, a, b) + if r.ok && a <= r.at < b then 1 else 0
  {
    assert (h + [r])[..|h|] == h;
  }

  /** The requests let through in the second that ends with `now`. */
  function Trailing(h: seq<Request>, now: int): nat
  {
    Passed(h, now - SECOND + 1, now + 1)
  }

  /** They are the late ones of the previous second and the ones of the current second. */
  lemma TrailingParts(h: seq<Request>, start: int, now: int)
    requires start <= now < start + SECOND
    ensures Trailing(h, now) <= Passed(h, start - SECOND, start) + Passed(h, start, start + SECOND)
  {
    PassedSplits(h, start - SECOND, now - SECOND + 1, start);
    PassedSplits(h, now - SECOND + 1, start, now + 1);
    PassedSplits(h, start, now + 1, start + SECOND);
  }

  /** The weighted count, in requests times nanoseconds, is below the limit. */
  predicate Below(previous: nat, current: nat, elapsed: int, limit: nat)
  {
    previous * (SECOND - elapsed) + current * SECOND < limit * SECOND
  }

  lemma BelowLimit(previous: nat, current: nat, elapsed: int, limit: nat)
    requires Below(previous, current, elapsed, limit) && elapsed <= SECOND
    ensures current < limit
  {
    assert previous * (SECOND - elapsed) >= 0;
  }

  /** If the weighted count is below the limit, the trailing second exceeds the limit by no more
      than the share of the previous second that the weight leaves out. */
  lemma WeightedBound(a: nat, b: nat, previous: nat, current: nat, elapsed: nat, limit: nat)
    requires a <= previous && b <= current && a <= limit - 1 && elapsed <= SECOND
    requires Below(previous, current, elapsed, limit)
    ensures SlightlyOver(a + b, limit, elapsed)
  {
    Times(a, previous, SECOND - elapsed);
    Times(a, limit - 1, elapsed);
    assert a * (SECOND - elapsed) == a * SECOND - a * elapsed;
  }

  /** Over the limit by less than the elapsed share of limit - 1: below it where a second of the
      window begins. */
  ghost predicate SlightlyOver(n: nat, limit: nat, elapsed: int)
    requires limit >= 1
  {
    n * SECOND < limit * SECOND + (limit - 1) * elapsed
  }

  lemma Times(a: nat, b: nat, c: nat)
    requires a <= b
    ensures a * c <= b * c
  {
  }

  /** The counters of the second that starts at `start` and of the one before. */
  ghost predicate Counters(h: seq<Request>, start: int, limit: nat, previous: nat, current: nat)
  {
    && (forall r :: r in h ==> r.at < start + SECOND)
    && current == Cap(Seen(h, start, start + SECOND))
    && previous == Cap(Seen(h, start - SECOND, start))
    && Passed(h, start, start + SECOND) <= limit - 1
    && Passed(h, start - SECOND, start) <= limit - 1
  }

  /** A request counted and judged leaves the counters right and the trailing second bounded. */
  lemma Recorded(h: seq<Request>, start: int, limit: nat, previous: nat, current: nat, now: int, ok: bool)
    requires Counters(h, start, limit, previous, current) && start <= now < start + SECOND && 1 <= limit <= MAX_UINT32
    requires var c := Cap(current + 1); ok == Below(previous, c, now - start, limit)
    ensures Counters(h + [Request(now, ok)], start, limit, previous, Cap(current + 1))
  {
    var r := Request(now, ok);
    OneMore(h, r, start, start + SECOND);
    OneMore(h, r, start - SECOND, start);
    if ok {
      BelowLimit(previous, Cap(current + 1), now - start, limit);
      PassedAreSeen(h, start, start + SECOND);
    }
  }

  lemma TrailingBound(h: seq<Request>, start: int, limit: nat, previous: nat, current: nat, now: int)
    requires Counters(h, start, limit, previous, current) && start <= now < start + SECOND && 1 <= limit <= MAX_UINT32
    ensures Trailing(h, now) <= 2 * limit - 2
    ensures Below(previous, current, now - start, limit) ==> SlightlyOver(Trailing(h, now), limit, now - start)
  {
    TrailingParts(h, start, now);
    if Below(previous, current, now - start, limit) {
      PassedAreSeen(h, start - SECOND, start);
      PassedAreSeen(h, start, start + SECOND);
      WeightedBound(Passed(h, start - SECOND, start), Passed(h, start, start + SECOND), previous, current,
                    now - start, limit);
    }
  }

  // ---------- the window as a value ----------

  /** Where the window starts and what it counts. */
  datatype Window = Window(start: int, previous: nat, current: nat)

  /** A first request, or a clock that steps back before the window, starts it afresh. */
  predicate Resets(v: Option<Window>, now: int)
  {
    v.None? || now < v.value.start
  }

  /** The window that `now` is in: the same one, the next, or one further on with nothing before it. */
  function MoveOn(v: Window, now: int): (w: Window)
    requires v.start <= now
    ensures w.start <= now < w.start + SECOND && v.start <= w.start && (w.start - v.start) % SECOND == 0
  {
    var windows := (now - v.start) / SECOND;
    if windows == 0 then v
    else Window(v.start + windows * SECOND, if windows == 1 then v.current else 0, 0)
  }

  function Begin(v: Option<Window>, now: int): (w: Window)
    ensures w.start <= now < w.start + SECOND
  {
    if Resets(v, now) then Window(now, 0, 0) else MoveOn(v.value, now)
  }

  /** The window after a request at `now`. */
  function Next(v: Option<Window>, now: int): (w: Window)
    ensures w.start <= now < w.start + SECOND
  {
    var w := Begin(v, now);
    w.(current := Cap(w.current + 1))
  }

  predicate Passes(w: Window, now: int, limit: nat)
  {
    Below(w.previous, w.current, now - w.start, limit)
  }

  /** The window after requests at the given times, and which of them are let through. */
  function After(limit: nat, times: seq<int>): Option<Window>
  {
    if times == [] then None else Some(Next(After(limit, times[..|times| - 1]), times[|times| - 1]))
  }

  function Decision(limit: nat, times: seq<int>): Request
    requires times != []
  {
    var now := times[|times| - 1];
    Request(now, Passes(After(limit, times).value, now, limit))
  }

  function Decisions(limit: nat, times: seq<int>): (h: seq<Request>)
    ensures |h| == |times|
  {
    if times == [] then [] else Decisions(limit, times[..|times| - 1]) + [Decision(limit, times)]
  }

  /** The decisions since the window last started afresh. */
  function Kept(limit: nat, times: seq<int>): seq<Request>
  {
    if times == [] then []
    else
      var before := times[..|times| - 1];
      (if Resets(After(limit, before), times[|times| - 1]) then [] else Kept(limit, before)) + [Decision(limit, times)]
  }

  // ---------- the counters of every run ----------

  lemma MoveCounters(h: seq<Request>, v: Window, limit: nat, now: int)
    requires Counters(h, v.start, limit, v.previous, v.current) && v.start <= now && limit >= 1
    ensures var w := MoveOn(v, now); Counters(h, w.start, limit, w.previous, w.current)
  {
    var windows := (now - v.start) / SECOND;
    if windows > 0 {
      var start := v.start + windows * SECOND;
      NothingSince(h, start, start + SECOND);
      if windows > 1 {
        NothingSince(h, start - SECOND, start);
      }
    }
  }

  /** The counters are those of the requests in the current second and in the one before it, of those since the window
      last started afresh. */
  lemma {:induction false} KeptCounters(limit: nat, times: seq<int>)
    requires 1 <= limit <= MAX_UINT32 && times != []
    ensures var w := After(limit, times).value;
      Counters(Kept(limit, times), w.start, limit, w.previous, w.current)
    decreases |times|
  {
    var before, now := times[..|times| - 1], times[|times| - 1];
    var v := After(limit, before);
    var h: seq<Request> := [];
    if !Resets(v, now) {
      KeptCounters(limit, before);
      h := Kept(limit, before);
      MoveCounters(h, v.value, limit, now);
    }
    var w := Begin(v, now);
    assert Counters(h, w.start, limit, w.previous, w.current);
    Recorded(h, w.start, limit, w.previous, w.current, now, Decision(limit, times).ok);
  }

  /** Whatever the clock does, at every request the second that ends with it has no more than twice the limit less
      two let through since the window started afresh, and hardly more than the limit if it is let through. */
  lemma AtEveryRequest(limit: nat, times: seq<int>, h: seq<Request>, w: Window, now: int)
    requires 1 <= limit <= MAX_UINT32 && times != []
    requires h == Kept(limit, times) && w == After(limit, times).value && now == times[|times| - 1]
    ensures Trailing(h, now) <= 2 * limit - 2
    ensures Passes(w, now, limit) ==> SlightlyOver(Trailing(h, now), limit, now - w.start)
  {
    KeptCounters(limit, times);
    AtRequest(h, w, limit, now);
  }

  lemma AtRequest(h: seq<Request>, w: Window, limit: nat, now: int)
    requires Counters(h, w.start, limit, w.previous, w.current) && w.start <= now < w.start + SECOND
    requires 1 <= limit <= MAX_UINT32
    ensures Trailing(h, now) <= 2 * limit - 2
    ensures Passes(w, now, limit) ==> SlightlyOver(Trailing(h, now), limit, now - w.start)
  {
    TrailingBound(h, w.start, limit, w.previous, w.current, now);
  }

  // ---------- runs by a clock that does not step back ----------

  ghost predicate Sorted(times: seq<int>)
  {
    forall i, j :: 0 <= i < j < |times| ==> times[i] <= times[j]
  }

  /** The window never starts afresh, and its seconds are counted from the first request. */
  lemma {:induction false} SortedKeeps(limit: nat, times: seq<int>)
    requires Sorted(times) && times != []
    ensures Kept(limit, times) == Decisions(limit, times)
    ensures var w := After(limit, times).value;
      times[0] <= w.start <= times[|times| - 1] && (w.start - times[0]) % SECOND == 0
    decreases |times|
  {
    if |times| > 1 {
      SortedKeeps(limit, times[..|times| - 1]);
    }
  }

  /** A whole number of seconds apart; sealed. */
  ghost predicate Aligned(a: int, b: int)
  {
    forall x: int {:trigger Unseal(x)} :: x == a ==> (x - b) % SECOND == 0
  }

  /** What the last of some requests does, with a clock that does not step back. */
  lemma LastOfSorted(limit: nat, times: seq<int>) returns (h: seq<Request>, r: Request, w: Window)
    requires 1 <= limit <= MAX_UINT32 && Sorted(times) && times != []
    ensures h == Decisions(limit, times[..|times| - 1]) && Decisions(limit, times) == h + [r]
    ensures w.start <= r.at < w.start + SECOND && Aligned(w.start, times[0])
    ensures Counters(h + [r], w.start, limit, w.previous, w.current)
  {
    h, r, w := Decisions(limit, times[..|times| - 1]), Decision(limit, times), After(limit, times).value;
    assert Kept(limit, times) == Decisions(limit, times) && Aligned(w.start, times[0]) by {
      SortedKeeps(limit, times);
    }
    KeptCounters(limit, times);
  }

  /** No request is later than the last one. */
  lemma {:induction false} NoneLater(limit: nat, times: seq<int>)
    requires Sorted(times) && times != []
    ensures forall r :: r in Decisions(limit, times) ==> r.at <= times[|times| - 1]
    decreases |times|
  {
    if |times| > 1 {
      NoneLater(limit, times[..|times| - 1]);
    }
  }

  /** How much of the window's second has passed at a moment. */
  function Elapsed(first: int, t: int): int
  {
    (t - first) % SECOND
  }

  /** At every moment, hardly more than the limit were let through in the second before it. */
  ghost predicate Sharp(h: seq<Request>, first: int, limit: nat)
    requires limit >= 1
  {
    forall t :: t >= first ==> SlightlyOver(Trailing(h, t), limit, Elapsed(first, t))
  }

  lemma ElapsedIs(first: int, start: int, t: int)
    requires (start - first) % SECOND == 0 && start <= t < start + SECOND
    ensures Elapsed(first, t) == t - start
  {
  }

  lemma SlightlyOverMore(n: nat, m: nat, limit: nat, e: int, f: int)
    requires limit >= 1 && SlightlyOver(m, limit, e) && n <= m && e <= f
    ensures SlightlyOver(n, limit, f)
  {
    Times(n, m, SECOND);
    assert (limit - 1) * e <= (limit - 1) * f;
  }

  lemma FewPassed(n: nat, limit: nat, e: int)
    requires n <= limit - 1 && 0 <= e
    ensures SlightlyOver(n, limit, e)
  {
    Times(n, limit - 1, SECOND);
    assert (limit - 1) * e >= 0;
  }

  /** One request more: nothing changes before it, nor a second after it; within its own second of the window the bound
      grows with the moment, and in the next one only requests of its own second remain. */
  lemma SharpAt(h: seq<Request>, r: Request, w: Window, first: int, limit: nat, t: int)
    requires 1 <= limit <= MAX_UINT32 && first <= t && (w.start - first) % SECOND == 0
    requires SlightlyOver(Trailing(h, t), limit, Elapsed(first, t))
    requires forall q :: q in h ==> q.at <= r.at
    requires w.start <= r.at < w.start + SECOND && Counters(h + [r], w.start, limit, w.previous, w.current)
    requires r.ok ==> SlightlyOver(Trailing(h + [r], r.at), limit, r.at - w.start)
    ensures SlightlyOver(Trailing(h + [r], t), limit, Elapsed(first, t))
  {
    var longer := h + [r];
    OneMore(h, r, t - SECOND + 1, t + 1);
    if r.ok && r.at <= t < r.at + SECOND {
      if t < w.start + SECOND {
        ElapsedIs(first, w.start, t);
        TrailingFades(longer, r.at, t);
        SlightlyOverMore(Trailing(longer, t), Trailing(longer, r.at), limit, r.at - w.start, t - w.start);
      } else {
        PassedSplits(longer, w.start, t - SECOND + 1, t + 1);
        PassedSplits(longer, w.start, w.start + SECOND, t + 1);
        NothingSince(longer, w.start + SECOND, t + 1);
        FewPassed(Trailing(longer, t), limit, Elapsed(first, t));
      }
    }
  }

  /** Without later requests the trailing second only empties. */
  lemma TrailingFades(h: seq<Request>, now: int, t: int)
    requires now <= t < now + SECOND && forall r :: r in h ==> r.at <= now
    ensures Trailing(h, t) <= Trailing(h, now)
  {
    PassedSplits(h, now - SECOND + 1, t - SECOND + 1, now + 1);
    PassedSplits(h, t - SECOND + 1, now + 1, t + 1);
    NothingSince(h, now + 1, t + 1);
  }

  /** With a clock that does not step back: at every moment, whether a request comes then or not, the second before it
      has fewer than the limit and the elapsed share of limit - 1 let through. */
  lemma {:induction false} SharpAlways(limit: nat, times: seq<int>)
    requires 1 <= limit <= MAX_UINT32 && Sorted(times) && times != []
    ensures Sharp(Decisions(limit, times), times[0], limit)
    decreases |times|
  {
    var before, r := times[..|times| - 1], Decision(limit, times);
    var h := Decisions(limit, before);
    var w := After(limit, times).value;
    SortedKeeps(limit, times);
    KeptCounters(limit, times);
    AtRequest(Kept(limit, times), w, limit, r.at);
    if before == [] {
      NobodyYet(times[0], limit);
    } else {
      SharpAlways(limit, before);
      NoneLater(limit, before);
    }
    SharpStep(h, r, w, times[0], limit);
    assert Decisions(limit, times) == h + [r];
  }

  lemma NobodyYet(first: int, limit: nat)
    requires limit >= 1
    ensures Sharp([], first, limit)
  {
    forall t | t >= first
      ensures SlightlyOver(Trailing([], t), limit, Elapsed(first, t))
    {
      FewPassed(Trailing([], t), limit, Elapsed(first, t));
    }
  }

  lemma SharpStep(h: seq<Request>, r: Request, w: Window, first: int, limit: nat)
    requires 1 <= limit <= MAX_UINT32 && (w.start - first) % SECOND == 0 && Sharp(h, first, limit)
    requires forall q :: q in h ==> q.at <= r.at
    requires w.start <= r.at < w.start + SECOND && Counters(h + [r], w.start, limit, w.previous, w.current)
    requires r.ok ==> SlightlyOver(Trailing(h + [r], r.at), limit, r.at - w.start)
    ensures Sharp(h + [r], first, limit)
  {
    forall t | t >= first
      ensures SlightlyOver(Trailing(h + [r], t), limit, Elapsed(first, t))
    {
      assert SlightlyOver(Trailing(h, t), limit, Elapsed(first, t));
      SharpAt(h, r, w, first, limit, t);
    }
  }

  /** The requests let through in the second that begins at a. */
  function InSecond(h: seq<Request>, a: int): nat
  {
    Passed(h, a, a + SECOND)
  }

  /** So no second at all has more than twice the limit less two let through. */
  lemma NeverMore(limit: nat, times: seq<int>, a: int)
    requires 1 <= limit <= MAX_UINT32 && Sorted(times)
    ensures InSecond(Decisions(limit, times), a) <= 2 * limit - 2
  {
    var t, h := a + SECOND - 1, Decisions(limit, times);
    if times != [] {
      SharpAlways(limit, times);
      if t >= times[0] {
        var n, e := Trailing(h, t), Elapsed(times[0], t);
        assert SlightlyOver(n, limit, e);
        ShareBelow(n, limit, e);
      } else {
        NoneEarlier(limit, times, a, a + SECOND);
      }
    }
  }

  lemma ShareBelow(n: nat, limit: nat, e: int)
    requires limit >= 1 && SlightlyOver(n, limit, e) && e < SECOND
    ensures n <= 2 * limit - 2
  {
    assert (limit - 1) * e <= (limit - 1) * SECOND;
    assert n * SECOND < (2 * limit - 1) * SECOND;
  }

  lemma {:induction false} NoneEarlier(limit: nat, times: seq<int>, a: int, b: int)
    requires Sorted(times) && times != [] && b <= times[0]
    ensures Passed(Decisions(limit, times), a, b) == 0
    decreases |times|
  {
    if |times| > 1 {
      NoneEarlier(limit, times[..|times| - 1], a, b);
    }
  }

  // ---------- two bursts ----------

  /** All of n requests at one moment are let through. */
  predicate AllPass(limit: nat, v: Option<Window>, t: int, n: nat)
    decreases n
  {
    n == 0 || (var w := Next(v, t); Passes(w, t, limit) && AllPass(limit, Some(w), t, n - 1))
  }

  /** Within one moment only the last request decides. */
  lemma {:induction false} LastDecides(limit: nat, w: Window, t: int, n: nat)
    requires w.start <= t < w.start + SECOND && w.current + n < MAX_UINT64
    ensures AllPass(limit, Some(w), t, n) <==> n == 0 || Below(w.previous, w.current + n, t - w.start, limit)
    decreases n
  {
    if n > 0 {
      var x := Next(Some(w), t);
      assert x == w.(current := w.current + 1);
      LastDecides(limit, x, t, n - 1);
      if Below(w.previous, w.current + n, t - w.start, limit) {
        FewerBelow(w.previous, w.current + 1, w.current + n, t - w.start, limit);
      }
    }
  }

  lemma FewerBelow(previous: nat, current: nat, most: nat, elapsed: int, limit: nat)
    requires Below(previous, most, elapsed, limit) && current <= most
    ensures Below(previous, current, elapsed, limit)
  {
  }

  /** After limit - 1 requests counted in one second, as many again at one moment of the next are all let through
      exactly if the rest of that second, limit - 1 times, is less than a second. */
  lemma SecondBurst(limit: nat, v: Window, t: int)
    requires 1 <= limit <= MAX_UINT32 && v.current == limit - 1 && v.start + SECOND <= t < v.start + 2 * SECOND
    ensures AllPass(limit, Some(v), t, limit - 1) <==> (limit - 1) * (v.start + 2 * SECOND - t) < SECOND
  {
    var w := Window(v.start + SECOND, limit - 1, 0);
    assert (t - v.start) / SECOND == 1;
    if limit > 1 {
      assert Next(Some(v), t) == Next(Some(w), t) == w.(current := 1);
      LastDecides(limit, w, t, limit - 1);
      assert limit * SECOND == (limit - 1) * SECOND + SECOND;
    }
  }

  // ---------- when twice the limit less two is reached ----------

  /** No second of the window itself has limit requests let through. */
  lemma {:induction false} EveryWindow(limit: nat, times: seq<int>, start: int)
    requires 1 <= limit <= MAX_UINT32 && Sorted(times) && times != [] && (start - times[0]) % SECOND == 0
    ensures InSecond(Decisions(limit, times), start) <= limit - 1
    decreases |times|
  {
    var before := times[..|times| - 1];
    var h, r, w := LastOfSorted(limit, times);
    if before != [] {
      EveryWindow(limit, before, start);
    } else {
      assert InSecond([], start) == 0;
    }
    WindowStep(h, r, w, limit, times[0], start);
  }

  lemma WindowStep(h: seq<Request>, r: Request, w: Window, limit: nat, first: int, start: int)
    requires limit >= 1 && (start - first) % SECOND == 0 && Aligned(w.start, first)
    requires Counters(h + [r], w.start, limit, w.previous, w.current) && w.start <= r.at < w.start + SECOND
    requires InSecond(h, start) <= limit - 1
    ensures InSecond(h + [r], start) <= limit - 1
  {
    OneMore(h, r, start, start + SECOND);
    if start != w.start {
      assert Unseal(w.start) == w.start;
      OneWindow(first, start, w.start, r.at);
    }
  }

  lemma OneWindow(first: int, a: int, b: int, t: int)
    requires (a - first) % SECOND == 0 && (b - first) % SECOND == 0 && a != b && b <= t < b + SECOND
    ensures !(a <= t < a + SECOND)
  {
    ElapsedIs(first, b, t);
    if a <= t < a + SECOND {
      ElapsedIs(first, a, t);
    }
  }

  lemma RoomArithmetic(limit: nat, e: int)
    requires limit >= 2 && SlightlyOver(2 * limit - 2, limit, e) && 0 <= e <= SECOND - 2
    ensures 2 * (limit - 1) < SECOND
  {
    var x := limit - 1;
    Times(e, SECOND - 2, x);
    assert x * e == e * x;
  }

  lemma NeedsRoom(limit: nat, times: seq<int>, a: int)
    requires 2 <= limit <= MAX_UINT32 && Sorted(times)
    requires InSecond(Decisions(limit, times), a) == 2 * limit - 2
    ensures 2 * (limit - 1) < SECOND
  {
    var h, t := Decisions(limit, times), a + SECOND - 1;
    if t < times[0] {
      NoneEarlier(limit, times, a, a + SECOND);
    }
    var e := Elapsed(times[0], t);
    EveryWindow(limit, times, t - e);
    if a < t - e {
      assert SlightlyOver(Trailing(h, t), limit, e) by {
        SharpAlways(limit, times);
      }
      RoomArithmetic(limit, e);
    } else {
      PassedSplits(h, t - e, a, a + SECOND);
    }
  }

  function Repeat(t: int, n: nat): (s: seq<int>)
    ensures |s| == n && forall i :: 0 <= i < n ==> s[i] == t
  {
    seq(n, _ => t)
  }

  function Many(v: Option<Window>, t: int, n: nat): Option<Window>
    decreases n
  {
    if n == 0 then v else Many(Some(Next(v, t)), t, n - 1)
  }

  lemma {:induction false} ManyIn(w: Window, t: int, n: nat)
    requires w.start <= t < w.start + SECOND && w.current + n < MAX_UINT64
    ensures Many(Some(w), t, n) == Some(w.(current := w.current + n))
    decreases n
  {
    if n > 0 {
      assert Next(Some(w), t) == w.(current := w.current + 1);
      ManyIn(w.(current := w.current + 1), t, n - 1);
    }
  }

  /** A burst that is let through whole. */
  lemma {:induction false} Burst(limit: nat, times: seq<int>, t: int, n: nat, a: int, b: int)
    requires AllPass(limit, After(limit, times), t, n)
    ensures After(limit, times + Repeat(t, n)) == Many(After(limit, times), t, n)
    ensures Passed(Decisions(limit, times + Repeat(t, n)), a, b)
         == Passed(Decisions(limit, times), a, b) + if a <= t < b then n else 0
    decreases n
  {
    if n == 0 {
      assert times + Repeat(t, 0) == times;
    } else {
      var more := times + [t];
      assert more[..|times|] == times;
      Burst(limit, more, t, n - 1, a, b);
      assert times + Repeat(t, n) == more + Repeat(t, n - 1);
      OneMore(Decisions(limit, times), Decision(limit, more), a, b);
    }
  }

  /** One request, then a burst at the end of the next second of the window and one just before the end of the one
      after that: they are less than a second apart. */
  function TwoBursts(limit: nat): seq<int>
    requires limit >= 1
  {
    [0] + Repeat(2 * SECOND - 1, limit - 1) + Repeat(3 * SECOND - 2, limit - 1)
  }

  lemma FirstBurst(limit: nat)
    requires 2 <= limit <= MAX_UINT32
    ensures After(limit, [0]) == Some(Window(0, 0, 1)) && AllPass(limit, After(limit, [0]), 2 * SECOND - 1, limit - 1)
    ensures Many(After(limit, [0]), 2 * SECOND - 1, limit - 1) == Some(Window(SECOND, 1, limit - 1))
  {
    var v, w, t := Window(0, 0, 1), Window(SECOND, 1, 0), 2 * SECOND - 1;
    assert After(limit, []) == None;
    assert After(limit, [0]) == Some(v);
    assert Next(Some(v), t) == Next(Some(w), t) == w.(current := 1);
    LastDecides(limit, w, t, limit - 1);
    ManyIn(w, t, limit - 1);
  }

  ghost predicate Attains(limit: nat, times: seq<int>, a: int)
  {
    Sorted(times) && InSecond(Decisions(limit, times), a) == 2 * limit - 2
  }

  lemma AfterFirstBurst(limit: nat)
    requires 2 <= limit <= MAX_UINT32
    ensures var times := [0] + Repeat(2 * SECOND - 1, limit - 1);
      && After(limit, times) == Some(Window(SECOND, 1, limit - 1))
      && Passed(Decisions(limit, times), 2 * SECOND - 1, 3 * SECOND - 1) == limit - 1
  {
    FirstBurst(limit);
    Burst(limit, [0], 2 * SECOND - 1, limit - 1, 2 * SECOND - 1, 3 * SECOND - 1);
    OnlyRequest(limit, 2 * SECOND - 1, 3 * SECOND - 1);
  }

  lemma Reached(limit: nat)
    requires 2 <= limit <= MAX_UINT32 && 2 * (limit - 1) < SECOND
    ensures Attains(limit, TwoBursts(limit), 2 * SECOND - 1)
  {
    var times, t := [0] + Repeat(2 * SECOND - 1, limit - 1), 3 * SECOND - 2;
    AfterFirstBurst(limit);
    SecondPasses(limit);
    Burst(limit, times, t, limit - 1, 2 * SECOND - 1, 3 * SECOND - 1);
    assert TwoBursts(limit) == times + Repeat(t, limit - 1);
    TwoBurstsSorted(limit);
  }

  lemma SecondPasses(limit: nat)
    requires 2 <= limit <= MAX_UINT32 && 2 * (limit - 1) < SECOND
    ensures AllPass(limit, Some(Window(SECOND, 1, limit - 1)), 3 * SECOND - 2, limit - 1)
  {
    SecondBurst(limit, Window(SECOND, 1, limit - 1), 3 * SECOND - 2);
  }

  lemma OnlyRequest(limit: nat, a: int, b: int)
    requires 0 < a
    ensures Passed(Decisions(limit, [0]), a, b) == 0
  {
    var h := Decisions(limit, [0]);
    assert [0][..0] == [] && h == [] + [Decision(limit, [0])];
    NothingSince(h, a, b);
  }

  lemma TwoBurstsSorted(limit: nat)
    requires limit >= 1
    ensures Sorted(TwoBursts(limit))
  {
  }

  /** Twice the limit less two are let through within some second of some run exactly if twice limit - 1 nanoseconds are
      less than a second. */
  lemma ReachedExactly(limit: nat)
    requires 1 <= limit <= MAX_UINT32
    ensures (exists times, a :: Attains(limit, times, a)) <==> 2 * (limit - 1) < SECOND
  {
    if limit == 1 {
      var none: seq<int> := [];
      assert Attains(limit, none, 0);
    } else {
      if 2 * (limit - 1) < SECOND {
        Reached(limit);
      }
      if times, a :| Attains(limit, times, a) {
        NeedsRoom(limit, times, a);
      }
    }
  }

  // ---------- the code ----------

  // ---------- a clock that steps back ----------

  /** How often the window is started afresh after the first request. */
  function Backs(limit: nat, times: seq<int>): nat
  {
    if |times| <= 1 then 0
    else
      var before := times[..|times| - 1];
      Backs(limit, before) + if Resets(After(limit, before), times[|times| - 1]) then 1 else 0
  }

  /** At the last request no more than twice the limit less two were let through in the second before. */
  predicate Obeys(limit: nat, times: seq<int>)
    requires times != []
  {
    Trailing(Decisions(limit, times), times[|times| - 1]) <= 2 * limit - 2
  }

  lemma {:induction false} NeverBackKeeps(limit: nat, times: seq<int>)
    requires Backs(limit, times) == 0
    ensures Kept(limit, times) == Decisions(limit, times)
    decreases |times|
  {
    if |times| > 1 {
      NeverBackKeeps(limit, times[..|times| - 1]);
    } else if |times| == 1 {
      assert Kept(limit, times[..0]) == [];
    }
  }

  /** Bursts in two seconds of the window, then one before the second of them. */
  function SteppingBack(limit: nat): seq<int>
    requires limit >= 1
  {
    [0] + Repeat(2 * SECOND - 1, limit - 1) + [2 * SECOND + 1] + Repeat(2 * SECOND - 2, limit - 1) + [2 * SECOND + 1]
  }

  lemma BackBurst(limit: nat, v: Window)
    requires 2 <= limit <= MAX_UINT32 && v.start == 2 * SECOND
    ensures AllPass(limit, Some(v), 2 * SECOND - 2, limit - 1)
    ensures Many(Some(v), 2 * SECOND - 2, limit - 1) == Some(Window(2 * SECOND - 2, 0, limit - 1))
  {
    var w, t := Window(2 * SECOND - 2, 0, 0), 2 * SECOND - 2;
    assert Next(Some(v), t) == Next(Some(w), t) == w.(current := 1);
    LastDecides(limit, w, t, limit - 1);
    ManyIn(w, t, limit - 1);
  }

  lemma {:induction false} SortedNeverBack(limit: nat, times: seq<int>)
    requires Sorted(times)
    ensures Backs(limit, times) == 0
    decreases |times|
  {
    if |times| > 1 {
      var before := times[..|times| - 1];
      SortedNeverBack(limit, before);
      SortedKeeps(limit, before);
    }
  }

  lemma {:induction false} BurstBacks(limit: nat, times: seq<int>, t: int, n: nat)
    requires times != []
    ensures Backs(limit, times + Repeat(t, n)) <= Backs(limit, times) + 1
    ensures n > 0 ==> After(limit, times + Repeat(t, n)).value.start <= t
    decreases n
  {
    var all := times + Repeat(t, n);
    if n == 0 {
      assert all == times;
    } else {
      BurstBacks(limit, times, t, n - 1);
      assert all[..|all| - 1] == times + Repeat(t, n - 1) && all[|all| - 1] == t;
      if n == 1 {
        assert times + Repeat(t, 0) == times;
      }
    }
  }

  /** The first three parts: all let through, without a step back. */
  lemma BeforeStep(limit: nat, times: seq<int>, a: int)
    requires 2 <= limit <= MAX_UINT32 && 0 < a <= 2 * SECOND - 1
    requires times == [0] + Repeat(2 * SECOND - 1, limit - 1) + [2 * SECOND + 1]
    ensures Backs(limit, times) == 0 && After(limit, times) == Some(Window(2 * SECOND, limit - 1, 1))
    ensures Passed(Decisions(limit, times), a, 2 * SECOND + 2) == limit
  {
    var before, r := times[..|times| - 1], Decision(limit, times);
    assert before == [0] + Repeat(2 * SECOND - 1, limit - 1);
    SortedNeverBack(limit, times);
    FirstBurst(limit);
    Burst(limit, [0], 2 * SECOND - 1, limit - 1, a, 2 * SECOND + 2);
    OnlyRequest(limit, a, 2 * SECOND + 2);
    assert After(limit, before) == Some(Window(SECOND, 1, limit - 1));
    assert r == Request(2 * SECOND + 1, true);
    OneMore(Decisions(limit, before), r, a, 2 * SECOND + 2);
  }

  lemma AfterStep(limit: nat, first: seq<int>, times: seq<int>, a: int)
    requires 2 <= limit <= MAX_UINT32 && 0 < a <= 2 * SECOND - 2
    requires first == [0] + Repeat(2 * SECOND - 1, limit - 1) + [2 * SECOND + 1]
    requires times == first + Repeat(2 * SECOND - 2, limit - 1)
    ensures Backs(limit, times) <= 1 && After(limit, times).Some? && After(limit, times).value.start <= 2 * SECOND - 2
    ensures Passed(Decisions(limit, times), a, 2 * SECOND + 2) == 2 * limit - 1
  {
    BeforeStep(limit, first, a);
    BackBurst(limit, Window(2 * SECOND, limit - 1, 1));
    Burst(limit, first, 2 * SECOND - 2, limit - 1, a, 2 * SECOND + 2);
    BurstBacks(limit, first, 2 * SECOND - 2, limit - 1);
  }

  lemma OneRequestMore(limit: nat, times: seq<int>, now: int, a: int)
    requires times != [] && After(limit, times).value.start <= now
    ensures Backs(limit, times + [now]) == Backs(limit, times)
    ensures Passed(Decisions(limit, times + [now]), a, now + 1) >= Passed(Decisions(limit, times), a, now + 1)
  {
    var all := times + [now];
    assert all[..|times|] == times;
    OneMore(Decisions(limit, times), Decision(limit, all), a, now + 1);
  }

  /** With one step back before the window more than twice the limit less two pass within one second. */
  lemma OneBackBreaks(limit: nat)
    requires 2 <= limit <= MAX_UINT32
    ensures Backs(limit, SteppingBack(limit)) <= 1 && !Obeys(limit, SteppingBack(limit))
  {
    var first := [0] + Repeat(2 * SECOND - 1, limit - 1) + [2 * SECOND + 1];
    var times := first + Repeat(2 * SECOND - 2, limit - 1);
    var now := 2 * SECOND + 1;
    AfterStep(limit, first, times, now - SECOND + 1);
    OneRequestMore(limit, times, now, now - SECOND + 1);
    assert SteppingBack(limit) == times + [now];
  }

  /** Some number of steps back before the window. */
  ghost predicate Allows(limit: nat, backs: nat)
  {
    forall times {:trigger Obeys(limit, times)} :: times != [] && Backs(limit, times) <= backs ==> Obeys(limit, times)
  }

  /** The bound on the second before a request holds of all requests whatever the clock does exactly if it never steps
      back before the window. */
  lemma NeverBackExactly(limit: nat, backs: nat)
    requires 2 <= limit <= MAX_UINT32
    ensures Allows(limit, backs) <==> backs == 0
  {
    if backs > 0 {
      OneBackBreaks(limit);
    } else {
      forall times | times != [] && Backs(limit, times) == 0
        ensures Obeys(limit, times)
      {
        NeverBackKeeps(limit, times);
        AtEveryRequest(limit, times, Kept(limit, times), After(limit, times).value, times[|times| - 1]);
      }
    }
  }

  class ProofRequestWindow {
    const limit: nat
    var started: bool
    var start: int
    var current: nat
    var previous: nat

    constructor (limit: nat)
      requires limit <= MAX_UINT32
      ensures this.limit == (if limit == 0 then DEFAULT_MAX_PROOF_RPS else limit) && State() == None
    {
      this.limit := if limit == 0 then DEFAULT_MAX_PROOF_RPS else limit;
      started, start, current, previous := false, 0, 0, 0;
    }

    ghost function State(): Option<Window>
      reads this
    {
      if started then Some(Window(start, previous, current)) else None
    }

    /** Counts the request and lets it through if the weighted count is below the limit. */
    method Allow(now: int) returns (ok: bool)
      requires current <= MAX_UINT64
      modifies this
      ensures State() == Some(Next(old(State()), now)) && ok == Passes(State().value, now, limit)
      ensures current <= MAX_UINT64
    {
      if !started || now < start {
        started, start, current, previous := true, now, 0, 0;
      }
      var elapsed := now - start;
      if elapsed >= SECOND {
        var windows := elapsed / SECOND;
        if windows == 1 {
          previous := current;
        } else {
          previous := 0;
        }
        current := 0;
        start := start + windows * SECOND;
        elapsed := now - start;
      }
      if current != MAX_UINT64 {
        current := current + 1;
      }
      var remaining := SECOND - elapsed;
      ok := previous * remaining + current * SECOND < limit * SECOND;
    }
  }

  /** Requests at any times: exactly those that Decisions lets through are let through. */
  method Run(w: ProofRequestWindow, times: seq<int>) returns (h: seq<Request>)
    requires w.State() == None && w.current <= MAX_UINT64
    modifies w
    ensures h == Decisions(w.limit, times) && w.State() == After(w.limit, times)
    ensures Sorted(times) && times != [] && 1 <= w.limit <= MAX_UINT32 ==> Sharp(h, times[0], w.limit)
  {
    h := [];
    for i := 0 to |times|
      invariant h == Decisions(w.limit, times[..i]) && w.State() == After(w.limit, times[..i])
                && w.current <= MAX_UINT64
    {
      assert times[..i + 1][..i] == times[..i];
      var ok := w.Allow(times[i]);
      h := h + [Request(times[i], ok)];
    }
    assert times[..|times|] == times;
    if Sorted(times) && times != [] && 1 <= w.limit <= MAX_UINT32 {
      SharpAlways(w.limit, times);
    }
  }
}
