/**
 What whole runs of the rate limiter guarantee. A run is the sequence of calls, over all
 keys, in the order the lock serialises them.
 */
module RateLimiterRuns {
  import opened RateLimiter

  datatype Call = Call(key: string, now: int)

  function StateAfter(c: Config, calls: seq<Call>): State {
    if calls == [] then EMPTY
    else
      var x := calls[|calls| - 1];
      Allowed(c, StateAfter(c, calls[..|calls| - 1]), x.key, x.now).0
  }

  /** Whether the limiter admits the call x made after the given calls. */
  predicate Admits(c: Config, calls: seq<Call>, x: Call) {
    Allowed(c, StateAfter(c, calls), x.key, x.now).1
  }

  lemma NoCallsYet(c: Config)
    ensures StateAfter(c, []) == EMPTY
  {
  }

  lemma AdmitsStep(c: Config, before: seq<Call>, x: Call)
    ensures Allowed(c, StateAfter(c, before), x.key, x.now) == (StateAfter(c, before + [x]), Admits(c, before, x))
  {
    assert (before + [x])[..|before|] == before;
    hide Allowed;
  }

  /** A limiter's whole life: the decisions it makes are those the theorems speak of. */
  method Serve(config: Config, calls: seq<Call>) returns (answers: seq<bool>)
    ensures |answers| == |calls|
    ensures forall i :: 0 <= i < |calls| ==> answers[i] == Admits(config, calls[..i], calls[i])
    ensures Nondecreasing(calls) ==>
              forall i :: 0 <= i < |calls| ==> answers[i] == FullLogAdmits(config, calls[..i], calls[i])
  {
    hide Allowed, Admits, FullLogAdmits, StateAfter;
    NoCallsYet(config);
    var limiter := new Limiter(config);
    answers := [];
    for i := 0 to |calls|
      invariant limiter.Valid() && limiter.config == config && fresh(limiter) && fresh(limiter.Repr)
      invariant limiter.Abs() == StateAfter(config, calls[..i])
      invariant |answers| == i
      invariant forall j :: 0 <= j < i ==> answers[j] == Admits(config, calls[..j], calls[j])
    {
      assert calls[..i + 1] == calls[..i] + [calls[i]];
      AdmitsStep(config, calls[..i], calls[i]);
      var ok := limiter.Allow(calls[i].key, calls[i].now);
      answers := answers + [ok];
    }
    if Nondecreasing(calls) {
      forall i | 0 <= i < |calls|
        ensures answers[i] == FullLogAdmits(config, calls[..i], calls[i])
      {
        DecidesAsFullLog(config, calls[..i], calls[i]);
      }
    }
  }

  /** The log the limiter does not keep: every admitted event of a key. */
  function Admitted(c: Config, calls: seq<Call>, key: string): seq<int> {
    if calls == [] then []
    else
      var before, x := calls[..|calls| - 1], calls[|calls| - 1];
      Admitted(c, before, key) + if x.key == key && Admits(c, before, x) then [x.now] else []
  }

  /** How many of a's entries are later than t. */
  function CountLater(a: seq<int>, t: int): nat {
    if a == [] then 0 else CountLater(a[1..], t) + if a[0] > t then 1 else 0
  }

  /** What the limiter promises: fewer than limit admitted events later than the window's start. */
  predicate FullLogAdmits(c: Config, calls: seq<Call>, x: Call) {
    CountLater(Admitted(c, calls, x.key), x.now - c.window) < c.limit
  }

  lemma {:induction false} CountLaterStep(a: seq<int>, x: int, t: int)
    ensures CountLater(a + [x], t) == CountLater(a, t) + if x > t then 1 else 0
  {
    if a == [] {
      assert a + [x] == [x] && [x][1..] == [];
    } else {
      assert (a + [x])[1..] == a[1..] + [x];
      CountLaterStep(a[1..], x, t);
    }
  }

  lemma {:induction false} AfterCounts(a: seq<int>, t: int)
    ensures |After(a, t)| == CountLater(a, t)
  {
    if a == [] {
    } else {
      AfterCounts(a[..|a| - 1], t);
      CountLaterStep(a[..|a| - 1], a[|a| - 1], t);
      assert a == a[..|a| - 1] + [a[|a| - 1]];
    }
  }

  predicate Nondecreasing(calls: seq<Call>) {
    forall i, j :: 0 <= i < j < |calls| ==> calls[i].now <= calls[j].now
  }

  predicate NotBefore(calls: seq<Call>, t: int) {
    forall i :: 0 <= i < |calls| ==> calls[i].now <= t
  }

  lemma PrefixIsOrdered(calls: seq<Call>)
    requires Nondecreasing(calls) && calls != []
    ensures var before := calls[..|calls| - 1];
            Nondecreasing(before) && (before != [] ==> before[|before| - 1].now <= calls[|calls| - 1].now)
  {
  }

  // ---- filtering facts ----

  lemma {:induction false} AfterConcat(a: seq<int>, b: seq<int>, cutoff: int)
    ensures After(a + b, cutoff) == After(a, cutoff) + After(b, cutoff)
  {
    if b == [] {
      assert a + b == a;
    } else {
      var b' := b[..|b| - 1];
      AfterConcat(a, b', cutoff);
      assert (a + b)[..|a + b| - 1] == a + b';
    }
  }

  lemma AfterOne(t: int, cutoff: int)
    ensures After([t], cutoff) == if t > cutoff then [t] else []
  {
    assert [t][..0] == [];
  }

  /** Filtering twice is filtering at the later cutoff. */
  lemma {:induction false} AfterAfter(s: seq<int>, a: int, b: int)
    ensures After(After(s, a), b) == After(s, if a <= b then b else a)
  {
    if s == [] {
    } else {
      var s', t := s[..|s| - 1], s[|s| - 1];
      AfterAfter(s', a, b);
      AfterConcat(After(s', a), if t > a then [t] else [], b);
      AfterOne(t, b);
    }
  }

  lemma {:induction false} AfterShrinks(s: seq<int>, a: int, b: int)
    requires a <= b
    ensures |After(s, b)| <= |After(s, a)|
  {
    if s == [] {
    } else {
      AfterShrinks(s[..|s| - 1], a, b);
    }
  }

  /** A sweep hides nothing a later cutoff would show. */
  lemma SweepIsInvisible(c: Config, s: State, key: string, now: int)
    ensures After(Swept(c, s, now).Events(key), now - c.window) == After(s.Events(key), now - c.window)
  {
  }

  // ---- one step of a run ----

  lemma StateStep(c: Config, before: seq<Call>, x: Call)
    ensures StateAfter(c, before + [x]) == Allowed(c, StateAfter(c, before), x.key, x.now).0
  {
    assert (before + [x])[..|before|] == before;
    hide Allowed;
  }

  lemma AdmittedStep(c: Config, before: seq<Call>, x: Call, key: string)
    ensures Admitted(c, before + [x], key) ==
            Admitted(c, before, key) + if x.key == key && Admits(c, before, x) then [x.now] else []
  {
    assert (before + [x])[..|before|] == before;
    hide Admits;
  }

  /** A decision reads only the key's own slice. */
  lemma AdmitsIs(c: Config, calls: seq<Call>, x: Call)
    ensures Admits(c, calls, x) <==> |After(StateAfter(c, calls).Events(x.key), x.now - c.window)| < c.limit
  {
    SweepIsInvisible(c, StateAfter(c, calls), x.key, x.now);
    hide After, StateAfter, Swept;
  }

  /** A call rewrites its own key's slice; any other slice is left alone or, holding nothing current, evicted. */
  lemma EventsStep(c: Config, s: State, x: Call, key: string)
    ensures var t, kept := Allowed(c, s, x.key, x.now).0, After(s.Events(key), x.now - c.window);
            if key == x.key
            then t.Events(key) == kept + if |kept| < c.limit then [x.now] else []
            else t.Events(key) == s.Events(key) || (t.Events(key) == [] && kept == [])
  {
    SweepIsInvisible(c, s, key, x.now);
    SweptEvents(c, s, key, x.now);
    hide After, Swept;
  }

  lemma SweptEvents(c: Config, s: State, key: string, now: int)
    ensures var e := Swept(c, s, now).Events(key);
            e == s.Events(key) || (e == [] && After(s.Events(key), now - c.window) == [])
  {
    hide After;
  }

  // ---- the lossy cache decides as the full log would ----

  /** From the last cutoff on, a key's slice shows exactly what its full log shows. */
  lemma {:induction false} CacheShowsLog(c: Config, calls: seq<Call>, key: string, cutoff: int)
    requires Nondecreasing(calls)
    requires calls != [] ==> calls[|calls| - 1].now - c.window <= cutoff
    ensures After(StateAfter(c, calls).Events(key), cutoff) == After(Admitted(c, calls, key), cutoff)
  {
    hide StateAfter, Admitted, After, Allowed, Admits, State.Events, Nondecreasing;
    if calls == [] {
      EmptyRun(c, key);
      return;
    }
    var before, x := calls[..|calls| - 1], calls[|calls| - 1];
    assert calls == before + [x];
    var ct := x.now - c.window;
    PrefixIsOrdered(calls);
    CacheShowsLog(c, before, key, ct);
    var e, log := StateAfter(c, before).Events(key), Admitted(c, before, key);
    StateStep(c, before, x);
    AdmittedStep(c, before, x, key);
    EventsStep(c, StateAfter(c, before), x, key);
    AdmitsIs(c, before, x);
    AfterAfter(e, ct, cutoff);
    AfterAfter(log, ct, cutoff);
    AfterNone(cutoff);
    AfterConcat(After(e, ct), [x.now], cutoff);
    AfterConcat(log, [x.now], cutoff);
    assert After(e, ct) + [] == After(e, ct) && log + [] == log;
  }

  lemma EmptyRun(c: Config, key: string)
    ensures StateAfter(c, []) == EMPTY && EMPTY.Events(key) == [] == Admitted(c, [], key)
  {
  }

  /** While time does not go backwards, every decision is the full log's. */
  lemma DecidesAsFullLog(c: Config, calls: seq<Call>, x: Call)
    requires Nondecreasing(calls) && NotBefore(calls, x.now)
    ensures Admits(c, calls, x) <==> FullLogAdmits(c, calls, x)
  {
    hide Admits, StateAfter, Admitted, After, State.Events;
    CacheShowsLog(c, calls, x.key, x.now - c.window);
    AfterCounts(Admitted(c, calls, x.key), x.now - c.window);
    AdmitsIs(c, calls, x);
  }

  lemma {:induction false} CacheNeverExceedsLog(c: Config, calls: seq<Call>, key: string, cutoff: int)
    ensures |After(StateAfter(c, calls).Events(key), cutoff)| <= |After(Admitted(c, calls, key), cutoff)|
  {
    hide StateAfter, Admitted, After, Allowed, Admits, State.Events;
    if calls == [] {
      EmptyRun(c, key);
      return;
    }
    var before, x := calls[..|calls| - 1], calls[|calls| - 1];
    assert calls == before + [x];
    var ct := x.now - c.window;
    CacheNeverExceedsLog(c, before, key, cutoff);
    var e, log := StateAfter(c, before).Events(key), Admitted(c, before, key);
    StateStep(c, before, x);
    AdmittedStep(c, before, x, key);
    EventsStep(c, StateAfter(c, before), x, key);
    AdmitsIs(c, before, x);
    AfterAfter(e, ct, cutoff);
    AfterShrinks(e, cutoff, if ct <= cutoff then cutoff else ct);
    AfterNone(cutoff);
    AfterConcat(After(e, ct), [x.now], cutoff);
    AfterConcat(log, [x.now], cutoff);
    assert After(e, ct) + [] == After(e, ct) && log + [] == log;
  }

  /** Whatever the clock does, the limiter never refuses a call the full log would admit. */
  lemma NeverStricter(c: Config, calls: seq<Call>, x: Call)
    ensures FullLogAdmits(c, calls, x) ==> Admits(c, calls, x)
  {
    hide Admits, StateAfter, Admitted, After, State.Events;
    CacheNeverExceedsLog(c, calls, x.key, x.now - c.window);
    AfterCounts(Admitted(c, calls, x.key), x.now - c.window);
    AdmitsIs(c, calls, x);
  }

  // ---- when time goes backwards ----

  function Burst(key: string, e: int, n: nat): seq<Call> { seq(n, _ => Call(key, e)) }

  function Copies(e: int, n: nat): seq<int> { seq(n, _ => e) }

  lemma {:induction false} AfterCopies(e: int, n: nat, cutoff: int)
    ensures After(Copies(e, n), cutoff) == if e > cutoff then Copies(e, n) else []
  {
    if n == 0 {
    } else {
      assert Copies(e, n)[..n - 1] == Copies(e, n - 1);
      AfterCopies(e, n - 1, cutoff);
    }
  }

  lemma {:induction false} BurstIsAdmitted(c: Config, key: string, e: int, n: nat)
    requires c.Sensible() && n <= c.limit && e >= 0
    ensures var s := StateAfter(c, Burst(key, e, n));
            && s.Events(key) == Copies(e, n) == Admitted(c, Burst(key, e, n), key)
            && s.hits.Keys <= {key} && s.lastSweep <= e
  {
    hide StateAfter, Admitted, After, Allowed, Admits, State.Events;
    if n == 0 {
      assert Burst(key, e, 0) == [] && Copies(e, 0) == [];
      EmptyRun(c, key);
      return;
    }
    var b, x := Burst(key, e, n - 1), Call(key, e);
    assert Burst(key, e, n) == b + [x];
    assert Copies(e, n) == Copies(e, n - 1) + [e];
    BurstIsAdmitted(c, key, e, n - 1);
    AfterCopies(e, n - 1, e - c.window);
    StateStep(c, b, x);
    AdmittedStep(c, b, x, key);
    EventsStep(c, StateAfter(c, b), x, key);
    AdmitsIs(c, b, x);
    AllowedKeys(c, StateAfter(c, b), x);
  }

  lemma AllowedKeys(c: Config, s: State, x: Call)
    ensures var t := Allowed(c, s, x.key, x.now).0;
            && t.hits.Keys <= s.hits.Keys + {x.key}
            && t.lastSweep == if Sub(x.now, s.lastSweep) < c.window then s.lastSweep else x.now
  {
    hide After;
  }

  /** A sweep evicts a key with nothing current. */
  lemma Evicted(c: Config, s: State, key: string, x: Call)
    requires key != x.key && Sub(x.now, s.lastSweep) >= c.window
    requires After(s.Events(key), x.now - c.window) == []
    ensures Allowed(c, s, x.key, x.now).0.Events(key) == []
  {
    hide After;
  }

  /**
   The hypothesis on time is needed: for every sensible limiter and every step back from t1
   to t2, there is a run whose only step back is that one and which ends in a decision the
   full log would not have made.
   */
  lemma StepBackBreaks(c: Config, key: string, other: string, t1: int, t2: int) returns (calls: seq<Call>)
    requires c.Sensible() && key != other && t2 < t1 && c.window <= t1
    ensures Nondecreasing(calls) && NotBefore(calls, t1)
    ensures Admits(c, calls, Call(key, t2)) && !FullLogAdmits(c, calls, Call(key, t2))
  {
    hide StateAfter, Admitted, After, Allowed, Admits, State.Events;
    var e, y := t1 - c.window, Call(other, t1);
    var burst := Burst(key, e, c.limit);
    calls := burst + [y];
    BurstIsAdmitted(c, key, e, c.limit);
    AfterCopies(e, c.limit, t1 - c.window);
    AfterCopies(e, c.limit, t2 - c.window);
    StateStep(c, burst, y);
    AdmittedStep(c, burst, y, key);
    assert Admitted(c, calls, key) == Copies(e, c.limit);
    Evicted(c, StateAfter(c, burst), key, y);
    AfterNone(t2 - c.window);
    AfterCounts(Copies(e, c.limit), t2 - c.window);
    AdmitsIs(c, calls, Call(key, t2));
  }

  // ---- keys do not interfere ----

  /** The calls of one key. */
  function Only(calls: seq<Call>, key: string): seq<Call> {
    if calls == [] then []
    else Only(calls[..|calls| - 1], key) + if calls[|calls| - 1].key == key then [calls[|calls| - 1]] else []
  }

  /** The answers one key gets, in order. */
  function Answers(c: Config, calls: seq<Call>, key: string): seq<bool> {
    if calls == [] then []
    else
      var before, x := calls[..|calls| - 1], calls[|calls| - 1];
      Answers(c, before, key) + if x.key == key then [Admits(c, before, x)] else []
  }

  lemma {:induction false} OnlyStaysOrdered(calls: seq<Call>, key: string, t: int)
    requires Nondecreasing(calls) && NotBefore(calls, t)
    ensures Nondecreasing(Only(calls, key)) && NotBefore(Only(calls, key), t)
  {
    if calls == [] {
    } else {
      var before, x := calls[..|calls| - 1], calls[|calls| - 1];
      OnlyStaysOrdered(before, key, x.now);
    }
  }

  /** A key's answers and admitted events in a run are those of the run without every other key's calls. */
  lemma {:induction false} KeysDoNotInterfere(c: Config, calls: seq<Call>, key: string)
    requires Nondecreasing(calls)
    ensures Answers(c, calls, key) == Answers(c, Only(calls, key), key)
    ensures Admitted(c, calls, key) == Admitted(c, Only(calls, key), key)
  {
    hide Admits, Admitted, Only, Answers, Nondecreasing, NotBefore;
    if calls == [] {
      NoCalls(key);
      return;
    }
    var before, x := calls[..|calls| - 1], calls[|calls| - 1];
    assert calls == before + [x];
    var mine := Only(before, key);
    EndsLast(before, x);
    KeysDoNotInterfere(c, before, key);
    OnlyStaysOrdered(before, key, x.now);
    AdmittedStep(c, before, x, key);
    AnswersStep(c, before, x, key);
    if x.key == key {
      SameDecision(c, before, mine, x);
      AdmittedStep(c, mine, x, key);
      AnswersStep(c, mine, x, key);
    } else {
      assert mine + [] == mine && Answers(c, before, key) + [] == Answers(c, before, key)
             && Admitted(c, before, key) + [] == Admitted(c, before, key);
    }
  }

  lemma NoCalls(key: string)
    ensures Only([], key) == []
  {
  }

  lemma EndsLast(before: seq<Call>, x: Call)
    requires Nondecreasing(before + [x])
    ensures Nondecreasing(before) && NotBefore(before, x.now)
  {
    var calls := before + [x];
    assert forall i :: 0 <= i < |before| ==> before[i] == calls[i];
    assert calls[|before|] == x;
  }

  lemma AnswersStep(c: Config, before: seq<Call>, x: Call, key: string)
    ensures Answers(c, before + [x], key) ==
            Answers(c, before, key) + if x.key == key then [Admits(c, before, x)] else []
    ensures Only(before + [x], key) == Only(before, key) + if x.key == key then [x] else []
  {
    assert (before + [x])[..|before|] == before;
    hide Admits;
  }

  lemma SameDecision(c: Config, calls: seq<Call>, mine: seq<Call>, x: Call)
    requires Nondecreasing(calls) && NotBefore(calls, x.now)
    requires Nondecreasing(mine) && NotBefore(mine, x.now)
    requires Admitted(c, calls, x.key) == Admitted(c, mine, x.key)
    ensures Admits(c, calls, x) <==> Admits(c, mine, x)
  {
    hide Admits, Admitted, After;
    DecidesAsFullLog(c, calls, x);
    DecidesAsFullLog(c, mine, x);
  }

  // ---- no window holds more than limit events ----

  predicate Sorted(a: seq<int>) { forall i, j :: 0 <= i < j < |a| ==> a[i] <= a[j] }

  lemma {:induction false} AdmittedIsSorted(c: Config, calls: seq<Call>, key: string, t: int)
    requires Nondecreasing(calls) && NotBefore(calls, t)
    ensures Sorted(Admitted(c, calls, key))
    ensures forall i :: 0 <= i < |Admitted(c, calls, key)| ==> Admitted(c, calls, key)[i] <= t
  {
    hide Admits, Admitted;
    if calls == [] {
      EmptyRun(c, key);
      return;
    }
    var before, x := calls[..|calls| - 1], calls[|calls| - 1];
    assert calls == before + [x];
    AdmittedStep(c, before, x, key);
    AdmittedIsSorted(c, before, key, x.now);
  }

  /** In a sorted sequence the filter keeps a suffix, so one small enough leaves its elder out. */
  lemma {:induction false} ElderIsOut(a: seq<int>, cutoff: int, n: nat)
    requires Sorted(a) && |After(a, cutoff)| < n <= |a|
    ensures a[|a| - n] <= cutoff
  {
    var last := a[|a| - 1];
    if last <= cutoff {
    } else if n > 1 {
      ElderIsOut(a[..|a| - 1], cutoff, n - 1);
    }
  }

  /** limit admissions later, at least a window has passed. */
  lemma {:induction false} AdmissionsAreSpaced(c: Config, calls: seq<Call>, key: string, i: nat)
    requires Nondecreasing(calls) && c.limit >= 1
    requires i + c.limit < |Admitted(c, calls, key)|
    ensures Admitted(c, calls, key)[i + c.limit] >= Admitted(c, calls, key)[i] + c.window
  {
    hide Admits, Admitted, After;
    if calls == [] {
      EmptyRun(c, key);
      return;
    }
    var before, x := calls[..|calls| - 1], calls[|calls| - 1];
    assert calls == before + [x];
    AdmittedStep(c, before, x, key);
    var a := Admitted(c, before, key);
    if i + c.limit < |a| {
      AdmissionsAreSpaced(c, before, key, i);
    } else {
      DecidesAsFullLog(c, before, x);
      AdmittedIsSorted(c, before, key, x.now);
      AfterCounts(a, x.now - c.window);
      ElderIsOut(a, x.now - c.window, c.limit);
    }
  }

  /** How many of a's entries lie in [x, x + width). */
  function CountIn(a: seq<int>, x: int, width: int): nat {
    if a == [] then 0
    else CountIn(a[..|a| - 1], x, width) + if x <= a[|a| - 1] < x + width then 1 else 0
  }

  lemma {:induction false} CountTail(a: seq<int>, x: int, width: int, n: nat)
    requires n <= |a|
    ensures CountIn(a, x, width) <= CountIn(a[..|a| - n], x, width) + n
  {
    if n == 0 {
      assert a[..|a|] == a;
    } else {
      assert a[..|a| - n] == a[..|a| - 1][..|a| - n];
      CountTail(a[..|a| - 1], x, width, n - 1);
    }
  }

  lemma {:induction false} CountBefore(a: seq<int>, x: int, width: int)
    requires forall i :: 0 <= i < |a| ==> a[i] < x
    ensures CountIn(a, x, width) == 0
  {
    if a == [] {
    } else {
      CountBefore(a[..|a| - 1], x, width);
    }
  }

  lemma {:induction false} SpacedMeansFew(a: seq<int>, x: int, width: int, limit: nat)
    requires Sorted(a) && limit >= 1
    requires forall i {:trigger a[i]} :: 0 <= i < |a| - limit ==> a[i + limit] >= a[i] + width
    ensures CountIn(a, x, width) <= limit
  {
    if a == [] {
    } else if !(x <= a[|a| - 1] < x + width) {
      var a' := a[..|a| - 1];
      assert forall i {:trigger a'[i]} :: 0 <= i < |a'| - limit ==> a'[i + limit] >= a'[i] + width by {
        forall i | 0 <= i < |a'| - limit
          ensures a'[i + limit] >= a'[i] + width
        {
          assert a[i + limit] >= a[i] + width;
        }
      }
      SpacedMeansFew(a', x, width, limit);
    } else if |a| <= limit {
      CountTail(a, x, width, |a|);
    } else {
      var old' := a[..|a| - limit];
      var i := |a| - 1 - limit;
      assert a[i + limit] >= a[i] + width;
      forall j | 0 <= j < |old'|
        ensures old'[j] < x
      {
        assert a[j] <= a[i];
      }
      CountTail(a, x, width, limit);
      CountBefore(old', x, width);
    }
  }

  /** Whole-run safety: no half-open window, wherever it starts, holds more than limit admissions of a key. */
  lemma AtMostLimitPerWindow(c: Config, calls: seq<Call>, key: string, x: int)
    requires Nondecreasing(calls) && c.limit >= 1
    ensures CountIn(Admitted(c, calls, key), x, c.window) <= c.limit
  {
    var a := Admitted(c, calls, key);
    AdmittedIsSorted(c, calls, key, if calls == [] then 0 else calls[|calls| - 1].now);
    forall i {:trigger a[i]} | 0 <= i < |a| - c.limit
      ensures a[i + c.limit] >= a[i] + c.window
    {
      AdmissionsAreSpaced(c, calls, key, i);
    }
    SpacedMeansFew(a, x, c.window, c.limit);
  }

  // ---- what one call touches ----

  predicate HasLater(a: seq<int>, t: int) { exists i :: 0 <= i < |a| && a[i] > t }

  lemma HasLaterIs(a: seq<int>, t: int)
    ensures After(a, t) != [] <==> HasLater(a, t)
  {
    if After(a, t) != [] {
      var x := After(a, t)[0];
      var i :| 0 <= i < |a| && a[i] == x;
    }
    if i :| 0 <= i < |a| && a[i] > t {
      AfterHasFresh(a, i, t);
    }
  }

  /**
   Sweeps are at least a window apart, and one evicts exactly the other keys with no event in the window;
   between sweeps a call leaves every other key alone.
   */
  lemma CallTouches(c: Config, s: State, key: string, now: int, other: string)
    requires c.Sensible() && other != key
    ensures var t := Allowed(c, s, key, now).0;
            if now - s.lastSweep < c.window then
              t.lastSweep == s.lastSweep
              && (other in t.hits <==> other in s.hits) && (other in s.hits ==> t.hits[other] == s.hits[other])
            else
              t.lastSweep == now
              && (other in t.hits <==> other in s.hits && HasLater(s.hits[other], now - c.window))
              && (other in t.hits ==> t.hits[other] == s.hits[other])
  {
    hide After, HasLater;
    if other in s.hits {
      HasLaterIs(s.hits[other], now - c.window);
    }
  }

  // ---- what the map retains ----

  /** Some event of a is later than t. */
  predicate SomeAfter(a: seq<int>, t: int) { exists i :: 0 <= i < |a| && a[i] > t }

  predicate GoodSlice(c: Config, a: seq<int>, now: int) {
    Sorted(a) && 1 <= |a| <= c.limit && forall i :: 0 <= i < |a| ==> a[i] <= now
  }

  /** Between calls: sorted slices of at most limit entries, each with an event in the window of the last sweep. */
  predicate Retained(c: Config, s: State, now: int) {
    && 0 <= s.lastSweep <= now
    && now - s.lastSweep < c.window
    && forall k :: k in s.hits ==> GoodSlice(c, s.hits[k], now) && SomeAfter(s.hits[k], s.lastSweep - c.window)
  }

  lemma {:induction false} AfterStaysSorted(a: seq<int>, cutoff: int, now: int)
    requires Sorted(a) && forall i :: 0 <= i < |a| ==> a[i] <= now
    ensures Sorted(After(a, cutoff)) && forall i :: 0 <= i < |After(a, cutoff)| ==> After(a, cutoff)[i] <= now
  {
    if a == [] {
    } else {
      AfterStaysSorted(a[..|a| - 1], cutoff, a[|a| - 1]);
    }
  }

  lemma SweptRetains(c: Config, s: State, now: int)
    requires c.Sensible() && 0 <= s.lastSweep <= now
    requires forall k :: k in s.hits ==> GoodSlice(c, s.hits[k], now) && SomeAfter(s.hits[k], s.lastSweep - c.window)
    ensures Retained(c, Swept(c, s, now), now)
  {
    hide GoodSlice;
    var s' := Swept(c, s, now);
    forall k | k in s'.hits
      ensures SomeAfter(s'.hits[k], s'.lastSweep - c.window)
    {
      if s' != s {
        var kept := After(s.hits[k], now - c.window);
        assert kept[0] in s.hits[k] && kept[0] > now - c.window;
      }
    }
  }

  lemma DecidedRetains(c: Config, s: State, key: string, now: int)
    requires c.Sensible() && Retained(c, s, now)
    ensures Retained(c, Decided(c, s, key, now).0, now)
  {
    hide After, SomeAfter;
    var kept := After(s.Events(key), now - c.window);
    AfterStaysSorted(s.Events(key), now - c.window, now);
    var a := if |kept| >= c.limit then kept else kept + [now];
    assert a[|a| - 1] > now - c.window;
    LastIsAfter(a, s.lastSweep - c.window);
  }

  lemma LastIsAfter(a: seq<int>, t: int)
    requires a != [] && a[|a| - 1] > t
    ensures SomeAfter(a, t)
  {
  }

  /** In every run from the zero time on, the map keeps short sorted slices with an event younger than two windows. */
  lemma {:induction false} RetentionBound(c: Config, calls: seq<Call>)
    requires c.Sensible() && Nondecreasing(calls) && calls != [] && calls[0].now >= 0
    ensures var s, now := StateAfter(c, calls), calls[|calls| - 1].now;
            && Retained(c, s, now)
            && forall k :: k in s.hits ==> SomeAfter(s.hits[k], now - 2 * c.window)
  {
    hide Swept, Decided, GoodSlice;
    var before, x := calls[..|calls| - 1], calls[|calls| - 1];
    var s := StateAfter(c, before);
    if before != [] {
      RetentionBound(c, before);
      forall k | k in s.hits
        ensures GoodSlice(c, s.hits[k], x.now)
      {
        GoodSliceLater(c, s.hits[k], before[|before| - 1].now, x.now);
      }
    }
    SweptRetains(c, s, x.now);
    DecidedRetains(c, Swept(c, s, x.now), x.key, x.now);
  }

  lemma GoodSliceLater(c: Config, a: seq<int>, t: int, now: int)
    requires GoodSlice(c, a, t) && t <= now
    ensures GoodSlice(c, a, now)
  {
  }
}
