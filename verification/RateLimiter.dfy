/**
 The per-credential fixed-window limiter of the ingest endpoint (`IngestRateLimiter` in
 src/operations.rs). Instants are nanoseconds; a window lasts sixty seconds from the first
 request that opens it.
 */
module RateLimiter {
  const WINDOW_LENGTH: int := 60_000_000_000

  type Key = string

  datatype Window = Window(started: int, count: nat)

  type Windows = map<Key, Window>

  datatype Request = Request(key: Key, at: int)

  /** `Instant::duration_since`, which saturates at zero. */
  function Elapsed(now: int, since: int): nat
  {
    if now >= since then now - since else 0
  }

  /** The window a request at `now` is counted in. */
  function Current(windows: Windows, key: Key, now: int): Window
  {
    if key in windows && Elapsed(now, windows[key].started) < WINDOW_LENGTH then windows[key]
    else Window(now, 0)
  }

  predicate Admits(limit: nat, windows: Windows, key: Key, now: int)
  {
    Current(windows, key, now).count < limit
  }

  function After(limit: nat, windows: Windows, key: Key, now: int): Windows
  {
    var w := Current(windows, key, now);
    windows[key := if w.count < limit then w.(count := w.count + 1) else w]
  }

  class IngestRateLimiter {
    const limit: nat
    var windows: Windows

    ghost predicate Valid()
      reads this
    {
      limit >= 1 && forall k :: k in windows ==> 1 <= windows[k].count <= limit
    }

    constructor (requested: nat)
      ensures Valid() && windows == map[]
      ensures limit == if requested == 0 then 1 else requested
    {
      limit := if requested < 1 then 1 else requested;
      windows := map[];
    }

    method Check(key: Key, now: int) returns (ok: bool)
      requires Valid()
      modifies this
      ensures Valid()
      ensures ok == Admits(limit, old(windows), key, now)
      ensures windows == After(limit, old(windows), key, now)
    {
      if key !in windows {
        windows := windows[key := Window(now, 0)];
      }
      if Elapsed(now, windows[key].started) >= WINDOW_LENGTH {
        windows := windows[key := Window(now, 0)];
      }
      if windows[key].count >= limit {
        return false;
      }
      windows := windows[key := windows[key].(count := windows[key].count + 1)];
      return true;
    }

    /** Serves a whole trace of requests, in order. */
    method Serve(trace: seq<Request>) returns (answers: seq<bool>)
      requires Valid()
      modifies this
      ensures Valid()
      ensures answers == Answers(limit, old(windows), trace)
    {
      answers := [];
      ghost var start := windows;
      for i := 0 to |trace|
        invariant Valid()
        invariant answers + Answers(limit, windows, trace[i..]) == Answers(limit, start, trace)
      {
        var ok := Check(trace[i].key, trace[i].at);
        assert trace[i..][1..] == trace[i + 1..];
        answers := answers + [ok];
      }
    }
  }

  // ----- whole runs -----

  function Answers(limit: nat, windows: Windows, trace: seq<Request>): (r: seq<bool>)
    ensures |r| == |trace|
    decreases |trace|
  {
    if trace == [] then []
    else
      var q := trace[0];
      [Admits(limit, windows, q.key, q.at)] + Answers(limit, After(limit, windows, q.key, q.at), trace[1..])
  }

  predicate Nondecreasing(trace: seq<Request>)
  {
    forall i, j :: 0 <= i < j < |trace| ==> trace[i].at <= trace[j].at
  }

  /** How many requests of `key` were admitted at times in the half-open interval [from, until). */
  function Admitted(key: Key, trace: seq<Request>, answers: seq<bool>, from: int, until: int): nat
    requires |answers| == |trace|
  {
    if trace == [] then 0
    else
      (if answers[0] && trace[0].key == key && from <= trace[0].at < until then 1 else 0)
      + Admitted(key, trace[1..], answers[1..], from, until)
  }

  /** The number of whole or partial windows in a span. */
  function CeilWindows(length: nat): nat
  {
    (length + WINDOW_LENGTH - 1) / WINDOW_LENGTH
  }

  /**
   The state between two requests: a window was opened by a request, so it has counted one at least, none is counted
   beyond the limit, and no window was opened in the future.
   */
  ghost predicate Coherent(limit: nat, windows: Windows, now: int)
  {
    forall k :: k in windows ==> 1 <= windows[k].count <= limit && windows[k].started <= now
  }

  /**
   The most that an interval can see of a key. Besides the windows that can open in it, one that opened earlier can
   reach into it, but for the request that opened it; and it costs a whole window when the interval exceeds a number of
   windows by a single nanosecond.
   */
  function Most(limit: nat, length: nat): int
  {
    if length % WINDOW_LENGTH == 1 then limit * CeilWindows(length) else limit * (CeilWindows(length) + 1) - 1
  }

  /** Sixty seconds after a window opened, a request is admitted whatever the count was. */
  lemma AdmittedOnceWindowIsOver(limit: nat, windows: Windows, key: Key, now: int)
    requires limit >= 1
    requires key in windows ==> now >= windows[key].started + WINDOW_LENGTH
    ensures Admits(limit, windows, key, now)
    ensures After(limit, windows, key, now)[key] == Window(now, 1)
  {
  }

  /**
   How many requests the interval [from, until) can still admit, given the current window of the key:
   the windows that can still open before `until`, plus what is left of the current one.
   */
  ghost function Room(limit: nat, windows: Windows, key: Key, from: int, until: int): int
    requires from < until
  {
    if key !in windows || windows[key].started + WINDOW_LENGTH <= from then Most(limit, until - from)
    else limit * Spans(windows[key].started, until) - windows[key].count
  }

  /** The windows that fit before `until` from one that started. */
  function Spans(started: int, until: int): int
  {
    (until - 1 - started) / WINDOW_LENGTH + 1
  }

  /** A window that started before the interval, and one that starts in it. */
  lemma SpansFit(limit: nat, started: int, from: int, until: int)
    requires limit >= 1 && from < until && from < started + WINDOW_LENGTH
    ensures limit * Spans(started, until) - 1 <= Most(limit, until - from)
    ensures started >= from ==> limit * Spans(started, until) <= Most(limit, until - from)
  {
    var length, k := until - from, CeilWindows(until - from);
    if started >= from {
      assert Spans(started, until) <= k;
      MulMono(limit, Spans(started, until), k);
      assert limit * (k + 1) == limit * k + limit;
    } else if length % WINDOW_LENGTH == 1 {
      assert until - 1 - started <= length + WINDOW_LENGTH - 2;
      assert Spans(started, until) <= k;
      MulMono(limit, Spans(started, until), k);
    } else {
      assert Spans(started, until) <= k + 1;
      MulMono(limit, Spans(started, until), k + 1);
    }
  }

  lemma MostIsPositive(limit: nat, length: nat)
    requires limit >= 1 && length >= 1
    ensures limit <= Most(limit, length) <= limit * (CeilWindows(length) + 1)
  {
    assert CeilWindows(length) >= 1;
    MulMono(limit, 1, CeilWindows(length));
    assert limit * (CeilWindows(length) + 1) == limit * CeilWindows(length) + limit;
  }

  lemma MulMono(limit: nat, a: int, b: int)
    requires a <= b
    ensures limit * a <= limit * b
  {
  }

  /** One request at a time inside or before the interval uses up room exactly when it is admitted inside it. */
  lemma RoomShrinks(limit: nat, windows: Windows, key: Key, at: int, from: int, until: int)
    requires limit >= 1 && from < until && at < until
    requires Coherent(limit, windows, at)
    ensures var used := if Admits(limit, windows, key, at) && from <= at then 1 else 0;
            Room(limit, After(limit, windows, key, at), key, from, until) + used <=
                Room(limit, windows, key, from, until)
  {
    if key in windows && at - windows[key].started < WINDOW_LENGTH {
      assert After(limit, windows, key, at)[key].started == windows[key].started;
    } else {
      FreshWindowShrinks(limit, windows, key, at, from, until);
    }
  }

  lemma FreshWindowShrinks(limit: nat, windows: Windows, key: Key, at: int, from: int, until: int)
    requires limit >= 1 && from < until && at < until
    requires Coherent(limit, windows, at) && (key in windows ==> at >= windows[key].started + WINDOW_LENGTH)
    ensures After(limit, windows, key, at)[key] == Window(at, 1)
    ensures Room(limit, After(limit, windows, key, at), key, from, until) + (if from <= at then 1 else 0)
            <= Room(limit, windows, key, from, until)
  {
    if from < at + WINDOW_LENGTH {
      SpansFit(limit, at, from, until);
      if key in windows && windows[key].started + WINDOW_LENGTH > from {
        var before := Spans(windows[key].started, until);
        assert Spans(at, until) + 1 <= before;
        MulMono(limit, Spans(at, until) + 1, before);
        assert limit * (Spans(at, until) + 1) == limit * Spans(at, until) + limit;
      }
    }
  }

  lemma RoomIsBounded(limit: nat, windows: Windows, key: Key, now: int, from: int, until: int)
    requires limit >= 1 && from < until
    requires Coherent(limit, windows, now)
    ensures now < until ==> 0 <= Room(limit, windows, key, from, until)
    ensures Room(limit, windows, key, from, until) <= Most(limit, until - from)
  {
    MostIsPositive(limit, until - from);
    if key in windows && windows[key].started + WINDOW_LENGTH > from {
      SpansFit(limit, windows[key].started, from, until);
      if now < until {
        MulMono(limit, 1, Spans(windows[key].started, until));
      }
    }
  }

  lemma {:induction false} NothingAdmittedLate(key: Key, trace: seq<Request>, answers: seq<bool>, from: int, until: int)
    requires |answers| == |trace|
    requires forall i :: 0 <= i < |trace| ==> trace[i].at >= until
    ensures Admitted(key, trace, answers, from, until) == 0
  {
    if trace != [] {
      NothingAdmittedLate(key, trace[1..], answers[1..], from, until);
    }
  }

  lemma {:induction false} AdmissionsFitRoom(limit: nat, windows: Windows, key: Key, trace: seq<Request>,
                                             now: int, from: int, until: int)
    requires limit >= 1 && from < until && now < until
    requires Coherent(limit, windows, now)
    requires Nondecreasing(trace) && (trace != [] ==> now <= trace[0].at)
    ensures Admitted(key, trace, Answers(limit, windows, trace), from, until) <= Room(limit, windows, key, from, until)
    decreases |trace|
  {
    RoomIsBounded(limit, windows, key, now, from, until);
    if trace != [] {
      var q := trace[0];
      if q.at >= until {
        NothingAdmittedLate(key, trace, Answers(limit, windows, trace), from, until);
      } else {
        var next := After(limit, windows, q.key, q.at);
        RoomShrinks(limit, windows, key, q.at, from, until);
        AdmissionsFitRoom(limit, next, key, trace[1..], q.at, from, until);
      }
    }
  }

  /**
   Over any run of a limiter, with any mix of keys, the interval [from, until) sees at most what `Most` says, which is
   less than the limit for each window that covers its length and for one more.
   */
  lemma AdmissionsAreBounded(limit: nat, windows: Windows, key: Key, trace: seq<Request>, from: int, until: int)
    requires limit >= 1 && from < until
    requires Nondecreasing(trace)
    requires trace != [] ==> Coherent(limit, windows, trace[0].at)
    ensures Admitted(key, trace, Answers(limit, windows, trace), from, until) <= Most(limit, until - from)
    ensures Most(limit, until - from) <= limit * (CeilWindows(until - from) + 1)
  {
    MostIsPositive(limit, until - from);
    if trace == [] || trace[0].at >= until {
      NothingAdmittedLate(key, trace, Answers(limit, windows, trace), from, until);
    } else {
      AdmissionsFitRoom(limit, windows, key, trace, trace[0].at, from, until);
      RoomIsBounded(limit, windows, key, trace[0].at, from, until);
    }
  }

  // ----- the bound is the best there is -----

  function WindowsAfter(limit: nat, windows: Windows, trace: seq<Request>): Windows
    decreases |trace|
  {
    if trace == [] then windows else WindowsAfter(limit, After(limit, windows, trace[0].key, trace[0].at), trace[1..])
  }

  lemma {:induction false} AdmittedAppend(limit: nat, windows: Windows, key: Key, a: seq<Request>, b: seq<Request>,
                                          from: int, until: int)
    ensures Admitted(key, a + b, Answers(limit, windows, a + b), from, until) ==
            Admitted(key, a, Answers(limit, windows, a), from, until)
            + Admitted(key, b, Answers(limit, WindowsAfter(limit, windows, a), b), from, until)
    decreases |a|
  {
    if a == [] {
      assert a + b == b;
    } else {
      assert (a + b)[1..] == a[1..] + b;
      AdmittedAppend(limit, After(limit, windows, a[0].key, a[0].at), key, a[1..], b, from, until);
    }
  }

  /** Some requests of a key at one instant. */
  function Burst(key: Key, at: int, n: nat): (trace: seq<Request>)
    ensures |trace| == n && forall i :: 0 <= i < n ==> trace[i] == Request(key, at)
  {
    seq(n, i requires 0 <= i < n => Request(key, at))
  }

  lemma {:induction false} BurstIsAdmitted(limit: nat, windows: Windows, key: Key, at: int, n: nat, from: int,
                                           until: int)
    requires n > 0 && Current(windows, key, at).count + n <= limit && Current(windows, key, at).started <= at
    ensures Admitted(key, Burst(key, at, n), Answers(limit, windows, Burst(key, at, n)), from, until) ==
            if from <= at < until then n else 0
    ensures key in WindowsAfter(limit, windows, Burst(key, at, n))
    ensures WindowsAfter(limit, windows, Burst(key, at, n))[key] ==
            Window(Current(windows, key, at).started, Current(windows, key, at).count + n)
    decreases n
  {
    var next := After(limit, windows, key, at);
    var trace := Burst(key, at, n);
    assert Current(next, key, at) == next[key];
    if n > 1 {
      assert trace[1..] == Burst(key, at, n - 1);
      BurstIsAdmitted(limit, next, key, at, n - 1, from, until);
    } else {
      assert trace[1..] == [];
    }
  }

  /** As many requests as the limit allows, whenever a window can open, from the i-th to the k-th one. */
  function Bursts(limit: nat, key: Key, i: nat, k: nat): seq<Request>
    decreases k - i
  {
    if i >= k then [] else Burst(key, i * WINDOW_LENGTH, limit) + Bursts(limit, key, i + 1, k)
  }

  lemma BurstThen(limit: nat, windows: Windows, key: Key, at: int, rest: seq<Request>, from: int, until: int)
    requires limit >= 1 && from <= at < until && (key in windows ==> windows[key].started + WINDOW_LENGTH <= at)
    ensures var next := WindowsAfter(limit, windows, Burst(key, at, limit));
            && key in next && next[key].started == at
            && Admitted(key, Burst(key, at, limit) + rest, Answers(limit, windows, Burst(key, at, limit) + rest),
                        from, until) ==
               limit + Admitted(key, rest, Answers(limit, next, rest), from, until)
  {
    BurstIsAdmitted(limit, windows, key, at, limit, from, until);
    AdmittedAppend(limit, windows, key, Burst(key, at, limit), rest, from, until);
  }

  lemma OneFewer(limit: nat, n: nat)
    requires n > 0
    ensures limit * n == limit + limit * (n - 1)
  {
  }

  lemma {:induction false} BurstsAreAdmitted(limit: nat, windows: Windows, key: Key, i: nat, k: nat, from: int,
                                             until: int)
    requires limit >= 1 && i <= k && from <= i * WINDOW_LENGTH && (i < k ==> (k - 1) * WINDOW_LENGTH < until)
    requires key in windows ==> windows[key].started + WINDOW_LENGTH <= i * WINDOW_LENGTH
    ensures Admitted(key, Bursts(limit, key, i, k), Answers(limit, windows, Bursts(limit, key, i, k)), from, until) ==
            limit * (k - i)
    decreases k - i
  {
    if i < k {
      BurstThen(limit, windows, key, i * WINDOW_LENGTH, Bursts(limit, key, i + 1, k), from, until);
      BurstsAreAdmitted(limit, WindowsAfter(limit, windows, Burst(key, i * WINDOW_LENGTH, limit)), key, i + 1, k,
                        from, until);
      OneFewer(limit, k - i);
    }
  }

  /** All times of a trace lie at or after one, in order. */
  predicate OrderedFrom(trace: seq<Request>, at: int)
  {
    Nondecreasing(trace) && forall i :: 0 <= i < |trace| ==> trace[i].at >= at
  }

  lemma OrderedAppend(a: seq<Request>, b: seq<Request>, at: int, later: int)
    requires at <= later && OrderedFrom(a, at) && OrderedFrom(b, later) && forall i :: 0 <= i < |a| ==> a[i].at <= later
    ensures OrderedFrom(a + b, at)
  {
  }

  lemma {:induction false} BurstsAreOrdered(limit: nat, key: Key, i: nat, k: nat)
    ensures OrderedFrom(Bursts(limit, key, i, k), i * WINDOW_LENGTH)
    decreases k - i
  {
    if i < k {
      BurstsAreOrdered(limit, key, i + 1, k);
      OrderedAppend(Burst(key, i * WINDOW_LENGTH, limit), Bursts(limit, key, i + 1, k), i * WINDOW_LENGTH,
                    (i + 1) * WINDOW_LENGTH);
    }
  }

  /** A run of a new limiter whose interval of a given length sees as much as any can. */
  predicate Attains(limit: nat, key: Key, trace: seq<Request>, from: int, length: nat)
  {
    Nondecreasing(trace) && Admitted(key, trace, Answers(limit, map[], trace), from, from + length) ==
        Most(limit, length)
  }

  /** One request opens a window, and the rest of it is used up in its last nanosecond. */
  function FirstWindow(limit: nat, key: Key): seq<Request>
    requires limit >= 1
  {
    Burst(key, 0, 1) + Burst(key, WINDOW_LENGTH - 1, limit - 1)
  }

  lemma FirstWindowIsUsedUp(limit: nat, key: Key, until: int)
    requires limit >= 1 && until >= WINDOW_LENGTH
    ensures var trace := FirstWindow(limit, key);
            Admitted(key, trace, Answers(limit, map[], trace), WINDOW_LENGTH - 1, until) == limit - 1
    ensures var windows := WindowsAfter(limit, map[], FirstWindow(limit, key));
            key in windows && windows[key].started == 0
    ensures OrderedFrom(FirstWindow(limit, key), 0)
  {
    var one, last := Burst(key, 0, 1), Burst(key, WINDOW_LENGTH - 1, limit - 1);
    OrderedAppend(one, last, 0, WINDOW_LENGTH - 1);
    BurstIsAdmitted(limit, map[], key, 0, 1, WINDOW_LENGTH - 1, until);
    if limit == 1 {
      assert one + last == one;
    } else {
      var next := WindowsAfter(limit, map[], one);
      AdmittedAppend(limit, map[], key, one, last, WINDOW_LENGTH - 1, until);
      WindowsAppend(limit, map[], one, last);
      BurstIsAdmitted(limit, next, key, WINDOW_LENGTH - 1, limit - 1, WINDOW_LENGTH - 1, until);
    }
  }

  lemma {:induction false} WindowsAppend(limit: nat, windows: Windows, a: seq<Request>, b: seq<Request>)
    ensures WindowsAfter(limit, windows, a + b) == WindowsAfter(limit, WindowsAfter(limit, windows, a), b)
    decreases |a|
  {
    if a == [] {
      assert a + b == b;
    } else {
      assert (a + b)[1..] == a[1..] + b;
      WindowsAppend(limit, After(limit, windows, a[0].key, a[0].at), a[1..], b);
    }
  }

  /** Such a window, and later ones used up as they open. */
  lemma LateInterval(limit: nat, key: Key, length: nat) returns (trace: seq<Request>)
    requires limit >= 1 && length >= 1 && length % WINDOW_LENGTH != 1
    ensures Attains(limit, key, trace, WINDOW_LENGTH - 1, length)
  {
    var from, until, k := WINDOW_LENGTH - 1, WINDOW_LENGTH - 1 + length, CeilWindows(length);
    var first, rest := FirstWindow(limit, key), Bursts(limit, key, 1, k + 1);
    trace := first + rest;
    assert k * WINDOW_LENGTH < until;
    FirstWindowIsUsedUp(limit, key, until);
    BurstsAreOrdered(limit, key, 1, k + 1);
    OrderedAppend(first, rest, 0, WINDOW_LENGTH);
    AdmittedAppend(limit, map[], key, first, rest, from, until);
    BurstsAreAdmitted(limit, WindowsAfter(limit, map[], first), key, 1, k + 1, from, until);
    OneFewer(limit, k + 1);
  }

  lemma WholeInterval(limit: nat, key: Key, length: nat) returns (trace: seq<Request>)
    requires limit >= 1 && length % WINDOW_LENGTH == 1
    ensures Attains(limit, key, trace, 0, length)
  {
    var k := CeilWindows(length);
    trace := Bursts(limit, key, 0, k);
    BurstsAreOrdered(limit, key, 0, k);
    assert (k - 1) * WINDOW_LENGTH < length;
    BurstsAreAdmitted(limit, map[], key, 0, k, 0, length);
  }

  /** For every limit and every length, some run of a new limiter attains the bound. */
  lemma BoundIsAttained(limit: nat, key: Key, length: nat) returns (trace: seq<Request>, from: int)
    requires limit >= 1 && length >= 1
    ensures Attains(limit, key, trace, from, length)
  {
    if length % WINDOW_LENGTH == 1 {
      trace := WholeInterval(limit, key, length);
      from := 0;
    } else {
      trace := LateInterval(limit, key, length);
      from := WINDOW_LENGTH - 1;
    }
  }

  /** The starts of the windows that a run opens for a key. */
  function Opened(limit: nat, windows: Windows, key: Key, trace: seq<Request>): seq<int>
    decreases |trace|
  {
    if trace == [] then []
    else
      var q := trace[0];
      (if q.key == key && (key !in windows || Elapsed(q.at, windows[key].started) >= WINDOW_LENGTH) then [q.at] else [])
      + Opened(limit, After(limit, windows, q.key, q.at), key, trace[1..])
  }

  /** In every run, whatever its times, two consecutive windows of a key open at least sixty seconds apart. */
  lemma {:induction false} OpenedWindowsAreSpaced(limit: nat, windows: Windows, key: Key, trace: seq<Request>)
    ensures var starts := Opened(limit, windows, key, trace);
            && (forall i :: 0 < i < |starts| ==> starts[i] >= starts[i - 1] + WINDOW_LENGTH)
            && (key in windows && starts != [] ==> starts[0] >= windows[key].started + WINDOW_LENGTH)
    decreases |trace|
  {
    if trace != [] {
      var q := trace[0];
      OpenedWindowsAreSpaced(limit, After(limit, windows, q.key, q.at), key, trace[1..]);
    }
  }

  // ----- one key never affects another -----

  function Only(key: Key, trace: seq<Request>): seq<Request>
  {
    if trace == [] then []
    else (if trace[0].key == key then [trace[0]] else []) + Only(key, trace[1..])
  }

  function AnswersOf(key: Key, trace: seq<Request>, answers: seq<bool>): seq<bool>
    requires |answers| == |trace|
  {
    if trace == [] then []
    else (if trace[0].key == key then [answers[0]] else []) + AnswersOf(key, trace[1..], answers[1..])
  }

  /** What a key is answered in a mixed run is what it would be answered alone. */
  lemma {:induction false} KeysAreIndependent(limit: nat, mixed: Windows, alone: Windows, key: Key, trace: seq<Request>)
    requires key in mixed <==> key in alone
    requires key in mixed ==> mixed[key] == alone[key]
    ensures AnswersOf(key, trace, Answers(limit, mixed, trace)) == Answers(limit, alone, Only(key, trace))
    decreases |trace|
  {
    if trace != [] {
      var q := trace[0];
      var next := After(limit, mixed, q.key, q.at);
      if q.key == key {
        KeysAreIndependent(limit, next, After(limit, alone, key, q.at), key, trace[1..]);
        assert Only(key, trace)[1..] == Only(key, trace[1..]);
      } else {
        KeysAreIndependent(limit, next, alone, key, trace[1..]);
        assert Only(key, trace) == Only(key, trace[1..]);
      }
    }
  }
}
