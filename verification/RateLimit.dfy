/** The fixed-window rate limiter (app/ratelimit.py). Times are integer microseconds since the epoch. */
module RateLimit {

  const SECOND := 1_000_000

  datatype Config = Config(requests: nat, windowSeconds: nat) {
    predicate Valid() { 1 <= requests && 1 <= windowSeconds }
    function Length(): nat { windowSeconds * SECOND }
  }

  /** One row per identity and aligned window. */
  datatype Key = Key(identity: string, window: int)

  datatype Result = Result(allowed: bool, remaining: nat, retryAfter: int, limit: nat, windowSeconds: nat)

  /** The aligned start of the window, rounding down also before the epoch. */
  function WindowStart(now: int, length: nat): int
    requires 1 <= length
  {
    now / length * length
  }

  function Ceiling(micros: int): int {
    (micros + SECOND - 1) / SECOND
  }

  function ResultFor(count: nat, c: Config, now: int): Result
    requires c.Valid()
  {
    var allowed := count <= c.requests;
    var left := Ceiling(WindowStart(now, c.Length()) + c.Length() - now);
    Result(allowed, if count <= c.requests then c.requests - count else 0,
           if allowed then 0 else if left < 1 then 1 else left, c.requests, c.windowSeconds)
  }

  // ----- the table -----

  /** The sweep, then one more request of `key`. */
  function Recorded(rows: map<Key, nat>, key: Key, length: nat): map<Key, nat> {
    var kept := map k | k in rows && k.window >= key.window - 2 * length :: rows[k];
    kept[key := (if key in kept then kept[key] else 0) + 1]
  }

  class RateLimiter {
    var rows: map<Key, nat>

    constructor ()
      ensures rows == map[]
    {
      rows := map[];
    }

    method CheckRateLimit(identity: string, c: Config, now: int) returns (r: Result)
      requires c.Valid()
      modifies this
      ensures rows == Recorded(old(rows), Key(identity, WindowStart(now, c.Length())), c.Length())
      ensures r == ResultFor(rows[Key(identity, WindowStart(now, c.Length()))], c, now)
    {
      var windowStart := WindowStart(now, c.Length());
      var staleBefore := windowStart - 2 * c.Length();
      rows := map k | k in rows && !(k.window < staleBefore) :: rows[k];
      var key := Key(identity, windowStart);
      if key !in rows {
        rows := rows[key := 0];
      }
      rows := rows[key := rows[key] + 1];
      var count := rows[key];
      var allowed := count <= c.requests;
      var remaining := if c.requests >= count then c.requests - count else 0;
      var retryAfter := 0;
      if !allowed {
        var left := Ceiling(windowStart + c.Length() - now);
        retryAfter := if left < 1 then 1 else left;
      }
      r := Result(allowed, remaining, retryAfter, c.requests, c.windowSeconds);
    }
  }

  // ----- runs of requests under one configuration -----

  datatype Request = Request(identity: string, now: int)

  function KeyOf(r: Request, length: nat): Key
    requires 1 <= length
  {
    Key(r.identity, WindowStart(r.now, length))
  }

  /** The table after a run of calls. */
  function TableAfter(run: seq<Request>, length: nat): map<Key, nat>
    requires 1 <= length
  {
    if run == [] then map[]
    else Recorded(TableAfter(run[..|run| - 1], length), KeyOf(run[|run| - 1], length), length)
  }

  function Counted(rows: map<Key, nat>, key: Key): nat {
    if key in rows then rows[key] else 0
  }

  /** The counter that is never swept: how many requests of the run have this key. */
  function Total(run: seq<Request>, key: Key, length: nat): nat
    requires 1 <= length
  {
    if run == [] then 0
    else Total(run[..|run| - 1], key, length) + if KeyOf(run[|run| - 1], length) == key then 1 else 0
  }

  /** A request of `key` was followed by one sampled more than two windows later. */
  ghost predicate SweptAway(run: seq<Request>, key: Key, length: nat)
    requires 1 <= length
  {
    exists i, k :: 0 <= i < k < |run| && KeyOf(run[i], length) == key
                && KeyOf(run[k], length).window - 2 * length > key.window
  }

  lemma {:induction false} SweptAwayStep(run: seq<Request>, r: Request, key: Key, length: nat)
    requires 1 <= length
    ensures SweptAway(run + [r], key, length) <==>
              SweptAway(run, key, length)
              || (Total(run, key, length) > 0 && KeyOf(r, length).window - 2 * length > key.window)
  {
    hide WindowStart;
    var all := run + [r];
    if SweptAway(run, key, length) {
      var i, k :| 0 <= i < k < |run| && KeyOf(run[i], length) == key
               && KeyOf(run[k], length).window - 2 * length > key.window;
      assert all[i] == run[i] && all[k] == run[k];
    }
    TotalWitness(run, key, length);
    if i :| 0 <= i < |run| && KeyOf(run[i], length) == key {
      assert all[i] == run[i] && all[|run|] == r;
    }
    if SweptAway(all, key, length) {
      var i, k :| 0 <= i < k < |all| && KeyOf(all[i], length) == key
               && KeyOf(all[k], length).window - 2 * length > key.window;
      assert all[i] == run[i];
      assert k < |run| ==> all[k] == run[k];
    }
  }

  lemma {:induction false} TotalWitness(run: seq<Request>, key: Key, length: nat)
    requires 1 <= length
    ensures Total(run, key, length) > 0 <==> exists i :: 0 <= i < |run| && KeyOf(run[i], length) == key
  {
    hide WindowStart;
    if run != [] {
      var before := run[..|run| - 1];
      TotalWitness(before, key, length);
      if i :| 0 <= i < |before| && KeyOf(before[i], length) == key { assert run[i] == before[i]; }
      if i :| 0 <= i < |run| && KeyOf(run[i], length) == key { assert i < |before| ==> before[i] == run[i]; }
    }
  }

  /** The swept table counts like the unswept counter exactly for the keys that were not swept away. */
  lemma {:induction false} SweptCount(run: seq<Request>, key: Key, length: nat)
    requires 1 <= length
    ensures Counted(TableAfter(run, length), key) <= Total(run, key, length)
    ensures Counted(TableAfter(run, length), key) == Total(run, key, length) <==> !SweptAway(run, key, length)
  {
    hide WindowStart, SweptAway;
    if run == [] {
      NothingSwept(key, length);
    } else {
      var before, r := run[..|run| - 1], run[|run| - 1];
      assert run == before + [r];
      SweptCount(before, key, length);
      SweptAwayStep(before, r, key, length);
    }
  }

  lemma NothingSwept(key: Key, length: nat)
    requires 1 <= length
    ensures !SweptAway([], key, length)
  {
  }

  predicate FarLater(r: Request, key: Key, length: nat)
    requires 1 <= length
  {
    KeyOf(r, length).window - 2 * length > key.window
  }

  /** The requests of `key` since it was last swept: no later one was sampled more than two windows later. */
  ghost function Kept(run: seq<Request>, key: Key, length: nat): set<nat>
    requires 1 <= length
  {
    set i: nat | i < |run| && KeyOf(run[i], length) == key && NoneFarLater(run, i, key, length)
  }

  ghost predicate NoneFarLater(run: seq<Request>, i: nat, key: Key, length: nat)
    requires 1 <= length
  {
    forall k :: i < k < |run| ==> !FarLater(run[k], key, length)
  }

  lemma NoneFarLaterStep(run: seq<Request>, r: Request, i: nat, key: Key, length: nat)
    requires 1 <= length && i < |run|
    ensures NoneFarLater(run + [r], i, key, length) <==> NoneFarLater(run, i, key, length) && !FarLater(r, key, length)
  {
    hide FarLater;
    var all := run + [r];
    assert all[|run|] == r;
    assert forall k :: 0 <= k < |run| ==> all[k] == run[k];
  }

  lemma KeptStep(run: seq<Request>, r: Request, key: Key, length: nat)
    requires 1 <= length
    ensures Kept(run + [r], key, length)
         == if FarLater(r, key, length) then {}
            else Kept(run, key, length) + if KeyOf(r, length) == key then {|run|} else {}
  {
    hide WindowStart, NoneFarLater;
    var all := run + [r];
    forall i: nat | i < |run| ensures all[i] == run[i]
      && (NoneFarLater(all, i, key, length) <==> NoneFarLater(run, i, key, length) && !FarLater(r, key, length))
    {
      NoneFarLaterStep(run, r, i, key, length);
    }
    assert NoneFarLater(all, |run|, key, length) by { LastHasNoLater(all, key, length); }
  }

  lemma LastHasNoLater(run: seq<Request>, key: Key, length: nat)
    requires 1 <= length && run != []
    ensures NoneFarLater(run, |run| - 1, key, length)
  {
  }

  /** The limiter's count is the number of requests of the key since it was last swept. */
  lemma {:induction false} CountIsKept(run: seq<Request>, key: Key, length: nat)
    requires 1 <= length
    ensures Counted(TableAfter(run, length), key) == |Kept(run, key, length)|
  {
    hide WindowStart, Kept;
    if run == [] {
      NothingKept(key, length);
    } else {
      var before, r := run[..|run| - 1], run[|run| - 1];
      assert run == before + [r];
      CountIsKept(before, key, length);
      KeptStep(before, r, key, length);
      KeptIsEarlier(before, key, length);
    }
  }

  lemma NothingKept(key: Key, length: nat)
    requires 1 <= length
    ensures Kept([], key, length) == {}
  {
  }

  lemma KeptIsEarlier(run: seq<Request>, key: Key, length: nat)
    requires 1 <= length
    ensures |run| !in Kept(run, key, length)
  {
  }

  /** What the `j`-th call of the run answers: the limiter's count, and the unswept counter's. */
  function CountAt(run: seq<Request>, j: nat, length: nat): nat
    requires 1 <= length && j < |run|
  {
    Counted(TableAfter(run[..j + 1], length), KeyOf(run[j], length))
  }

  function TotalAt(run: seq<Request>, j: nat, length: nat): nat
    requires 1 <= length && j < |run|
  {
    Total(run[..j + 1], KeyOf(run[j], length), length)
  }

  /** No call samples a time more than two windows before an earlier call's. */
  ghost predicate Steady(run: seq<Request>, length: nat)
    requires 1 <= length
  {
    forall i, j :: 0 <= i < j < |run| ==> KeyOf(run[j], length).window >= KeyOf(run[i], length).window - 2 * length
  }

  /** The sweep changes an answer exactly when an earlier request of the same identity and window was followed,
      before this call, by one sampled more than two windows later, and the requests since then are within the
      limit; beyond it both counters refuse alike. It never makes an answer stricter. */
  lemma SweepIsInvisibleExactlyWhen(run: seq<Request>, j: nat, c: Config)
    requires c.Valid() && j < |run|
    ensures var length, key := c.Length(), KeyOf(run[j], c.Length());
            ResultFor(CountAt(run, j, length), c, run[j].now) == ResultFor(TotalAt(run, j, length), c, run[j].now) <==>
              !SweptAway(run[..j + 1], key, length) || c.requests < |Kept(run[..j + 1], key, length)|
    ensures ResultFor(CountAt(run, j, c.Length()), c, run[j].now).remaining
              >= ResultFor(TotalAt(run, j, c.Length()), c, run[j].now).remaining
    ensures ResultFor(TotalAt(run, j, c.Length()), c, run[j].now).allowed ==>
              ResultFor(CountAt(run, j, c.Length()), c, run[j].now).allowed
    ensures Steady(run, c.Length()) ==>
              ResultFor(CountAt(run, j, c.Length()), c, run[j].now) == ResultFor(TotalAt(run, j, c.Length()), c, run[j].now)
  {
    hide WindowStart, Ceiling, Kept, SweptAway;
    var length := c.Length();
    SweptCount(run[..j + 1], KeyOf(run[j], length), length);
    CountIsKept(run[..j + 1], KeyOf(run[j], length), length);
    if Steady(run, length) {
      SteadyIsNotSwept(run, j, length);
    }
  }

  lemma SteadyIsNotSwept(run: seq<Request>, j: nat, length: nat)
    requires 1 <= length && j < |run| && Steady(run, length)
    ensures !SweptAway(run[..j + 1], KeyOf(run[j], length), length)
    ensures CountAt(run, j, length) == TotalAt(run, j, length)
  {
    hide WindowStart;
    SweptCount(run[..j + 1], KeyOf(run[j], length), length);
    var prefix := run[..j + 1];
    forall k | 0 <= k < |prefix| ensures KeyOf(prefix[k], length).window - 2 * length <= KeyOf(run[j], length).window {
      assert prefix[k] == run[k];
      assert k < j ==> KeyOf(run[j], length).window >= KeyOf(run[k], length).window - 2 * length;
    }
  }

  /** A clock that steps back three windows does reset the limit: with one request allowed per window, the
      same identity is admitted twice in the window at the epoch. */
  lemma SteppingBackResets(c: Config)
    requires c.Valid()
    ensures var run := [Request("a", 0), Request("b", 3 * c.Length()), Request("a", 0)];
            CountAt(run, 2, c.Length()) == 1 && TotalAt(run, 2, c.Length()) == 2
  {
    var length := c.Length();
    var run := [Request("a", 0), Request("b", 3 * length), Request("a", 0)];
    WindowOf(0, 0, length);
    WindowOf(3 * length, 3, length);
    hide WindowStart;
    assert run[..3] == run && run[..2] == [run[0], run[1]] && run[..2][..1] == [run[0]] && run[..1][..0] == [];
    assert run[..3][..2] == run[..2];
    var k := Key("a", 0);
    assert Total([run[0]], k, length) == 1;
    assert Total(run[..2], k, length) == 1;
    assert Total(run, k, length) == 2;
    assert k !in TableAfter(run[..2], length);
  }

  // ----- admission -----

  predicate Admitted(run: seq<Request>, j: nat, c: Config)
    requires c.Valid() && j < |run|
  {
    ResultFor(CountAt(run, j, c.Length()), c, run[j].now).allowed
  }

  /** How many requests of `key` were admitted. */
  function AdmittedFor(run: seq<Request>, key: Key, c: Config): nat
    requires c.Valid()
  {
    if run == [] then 0
    else
      AdmittedFor(run[..|run| - 1], key, c)
        + if KeyOf(run[|run| - 1], c.Length()) == key && Admitted(run, |run| - 1, c) then 1 else 0
  }

  /** How many requests of `identity` sampled in the window's length from `from` on were admitted. */
  function AdmittedDuring(run: seq<Request>, identity: string, from: int, c: Config): nat
    requires c.Valid()
  {
    if run == [] then 0
    else
      var r := run[|run| - 1];
      AdmittedDuring(run[..|run| - 1], identity, from, c)
        + if r.identity == identity && from <= r.now < from + c.Length() && Admitted(run, |run| - 1, c) then 1 else 0
  }

  /** Each identity is admitted in each window as often as it asks, up to the limit and no further. */
  lemma {:induction false} AdmissionIsCapped(run: seq<Request>, key: Key, c: Config)
    requires c.Valid() && Steady(run, c.Length())
    ensures var total := Total(run, key, c.Length());
            AdmittedFor(run, key, c) == if total <= c.requests then total else c.requests
  {
    hide WindowStart, Ceiling;
    if run != [] {
      var before := run[..|run| - 1];
      assert Steady(before, c.Length()) by {
        forall i, j | 0 <= i < j < |before|
          ensures KeyOf(before[j], c.Length()).window >= KeyOf(before[i], c.Length()).window - 2 * c.Length()
        {
          assert before[i] == run[i] && before[j] == run[j];
        }
      }
      AdmissionIsCapped(before, key, c);
      SteadyIsNotSwept(run, |run| - 1, c.Length());
      assert run[..|run|] == run;
    }
  }

  /** An interval as long as a window meets at most two windows. */
  lemma TwoWindows(from: int, now: int, length: nat)
    requires 1 <= length && from <= now < from + length
    ensures WindowStart(now, length) == WindowStart(from, length) || WindowStart(now, length) == WindowStart(from, length) + length
  {
    var q := from / length;
    WindowBounds(from, length);
    if now < (q + 1) * length {
      WindowOf(now, q, length);
    } else {
      WindowOf(now, q + 1, length);
    }
  }

  lemma WindowBounds(now: int, length: nat)
    requires 1 <= length
    ensures now / length * length <= now < (now / length + 1) * length
    ensures (now / length + 1) * length == WindowStart(now, length) + length
  {
  }

  lemma WindowOf(now: int, q: int, length: nat)
    requires 1 <= length && q * length <= now < (q + 1) * length
    ensures WindowStart(now, length) == q * length
  {
    var p := now / length;
    WindowBounds(now, length);
    if p < q {
      Monotone(p + 1, q, length);
    } else if q < p {
      Monotone(q + 1, p, length);
    }
  }

  lemma Monotone(a: int, b: int, length: nat)
    requires a <= b
    ensures a * length <= b * length
  {
  }

  lemma {:induction false} DuringIsTwoKeys(run: seq<Request>, identity: string, from: int, c: Config)
    requires c.Valid()
    ensures var w := WindowStart(from, c.Length());
            AdmittedDuring(run, identity, from, c)
              <= AdmittedFor(run, Key(identity, w), c) + AdmittedFor(run, Key(identity, w + c.Length()), c)
  {
    hide WindowStart, Admitted;
    if run != [] {
      DuringIsTwoKeys(run[..|run| - 1], identity, from, c);
      var r := run[|run| - 1];
      if from <= r.now < from + c.Length() {
        TwoWindows(from, r.now, c.Length());
      }
    }
  }

  /** In any interval of one window's length an identity is admitted at most twice the limit. */
  lemma AdmissionIsBounded(run: seq<Request>, identity: string, from: int, c: Config)
    requires c.Valid() && Steady(run, c.Length())
    ensures AdmittedDuring(run, identity, from, c) <= 2 * c.requests
  {
    hide AdmittedDuring, AdmittedFor, Steady, WindowStart;
    var w := WindowStart(from, c.Length());
    DuringIsTwoKeys(run, identity, from, c);
    AdmissionIsCapped(run, Key(identity, w), c);
    AdmissionIsCapped(run, Key(identity, w + c.Length()), c);
  }

  /** A refused caller is told to wait between one second and a window, and lands in the next window. */
  lemma RetryLandsInNextWindow(count: nat, c: Config, now: int)
    requires c.Valid() && !ResultFor(count, c, now).allowed
    ensures var retry := ResultFor(count, c, now).retryAfter;
            && 1 <= retry <= c.windowSeconds
            && WindowStart(now + retry * SECOND, c.Length()) == WindowStart(now, c.Length()) + c.Length()
  {
    var length, retry := c.Length(), ResultFor(count, c, now).retryAfter;
    WindowBounds(now, length);
    var q := now / length;
    var left := (q + 1) * length - now;
    assert 1 <= left <= length;
    assert retry == Ceiling(left) && left <= retry * SECOND < left + SECOND;
    assert SECOND <= length;
    assert (q + 2) * length == (q + 1) * length + length;
    WindowOf(now + retry * SECOND, q + 1, length);
  }

  /** What an answer says: a request within the limit is told how many are left, a refused one that none is and a
      positive wait, and both are told the limit itself. */
  lemma AnswerFields(count: nat, c: Config, now: int)
    requires c.Valid()
    ensures var r := ResultFor(count, c, now);
            && (r.allowed <==> count <= c.requests)
            && (r.allowed ==> r.remaining + count == c.requests && r.retryAfter == 0)
            && (!r.allowed ==> r.remaining == 0 && r.retryAfter >= 1)
            && r.limit == c.requests && r.windowSeconds == c.windowSeconds
  {
  }
}
