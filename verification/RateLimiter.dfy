/**
 The sliding-window rate limiter. Times and durations are integers (nanoseconds from the
 zero time); time.Time subtraction saturates at 64 bits as the library's does.

 The specification is a pure state (State, Allowed); the class is the mutable map of slices,
 pruned in place over their own backing arrays. The theorems compare the limiter with the
 log of every event it ever admitted, which it does not keep.
 */
module RateLimiter {

  const MAX_DURATION: int := 0x7FFF_FFFF_FFFF_FFFF
  const MIN_DURATION: int := -0x8000_0000_0000_0000

  /** time.Time.Sub */
  function Sub(t: int, u: int): (d: int)
    ensures -0x8000_0000_0000_0000 <= d <= 0x7FFF_FFFF_FFFF_FFFF
    ensures -0x8000_0000_0000_0000 <= t - u <= 0x7FFF_FFFF_FFFF_FFFF ==> d == t - u
    ensures t - u > 0x7FFF_FFFF_FFFF_FFFF ==> d == 0x7FFF_FFFF_FFFF_FFFF
    ensures t - u < -0x8000_0000_0000_0000 ==> d == -0x8000_0000_0000_0000
  {
    if t - u > MAX_DURATION then MAX_DURATION else if t - u < MIN_DURATION then MIN_DURATION else t - u
  }

  /** The events strictly later than cutoff, in order. */
  function After(events: seq<int>, cutoff: int): (r: seq<int>)
    ensures |r| <= |events|
    ensures forall i :: 0 <= i < |r| ==> r[i] in events && r[i] > cutoff
  {
    if events == [] then []
    else
      var t := events[|events| - 1];
      After(events[..|events| - 1], cutoff) + if t > cutoff then [t] else []
  }

  lemma AfterNone(cutoff: int)
    ensures After([], cutoff) == []
  {
  }

  lemma AfterGrows(events: seq<int>, i: nat, cutoff: int)
    requires i < |events|
    ensures After(events[..i + 1], cutoff) ==
            After(events[..i], cutoff) + if events[i] > cutoff then [events[i]] else []
  {
    assert events[..i + 1][..i] == events[..i];
  }

  // ---- specification ----

  datatype Config = Config(limit: int, window: int) {
    /** What the server builds limiters with. */
    predicate Sensible() { limit >= 1 && 0 < window <= MAX_DURATION }
  }

  datatype State = State(hits: map<string, seq<int>>, lastSweep: int) {
    function Events(key: string): seq<int> { if key in hits then hits[key] else [] }
  }

  const EMPTY: State := State(map[], 0)

  function Swept(c: Config, s: State, now: int): State {
    if Sub(now, s.lastSweep) < c.window then s
    else State(map k | k in s.hits && After(s.hits[k], now - c.window) != [] :: s.hits[k], now)
  }

  function Decided(c: Config, s: State, key: string, now: int): (State, bool) {
    var kept := After(s.Events(key), now - c.window);
    if |kept| >= c.limit then (s.(hits := s.hits[key := kept]), false)
    else (s.(hits := s.hits[key := kept + [now]]), true)
  }

  /** One call: the state it leaves and whether it admits. */
  function Allowed(c: Config, s: State, key: string, now: int): (State, bool) {
    Decided(c, Swept(c, s, now), key, now)
  }

  // ---- implementation ----

  /** A Go slice: a prefix of a backing array. */
  datatype Slice = Slice(buf: array<int>, len: nat)

  ghost predicate Holds(s: Slice, evs: seq<int>)
    reads s.buf
  {
    s.len <= s.buf.Length && s.buf[..s.len] == evs
  }

  /** Each slice holds its key's events, in a backing array of the representation. */
  ghost predicate Holding(hits: map<string, Slice>, events: map<string, seq<int>>, repr: set<array<int>>)
    reads repr
  {
    && hits.Keys == events.Keys
    && forall k :: k in hits ==> hits[k].buf in repr && Holds(hits[k], events[k])
  }

  lemma HoldingUpdate(hits: map<string, Slice>, events: map<string, seq<int>>, repr: set<array<int>>,
                      key: string, s: Slice, evs: seq<int>)
    requires hits.Keys == events.Keys && Holds(s, evs)
    requires forall k :: k in hits && k != key ==> hits[k].buf in repr && Holds(hits[k], events[k])
    ensures Holding(hits[key := s], events[key := evs], repr + {s.buf})
  {
  }

  lemma HoldingSubset(hits: map<string, Slice>, events: map<string, seq<int>>, repr: set<array<int>>,
                      fewer: map<string, Slice>, remaining: map<string, seq<int>>)
    requires Holding(hits, events, repr)
    requires fewer.Keys == remaining.Keys <= hits.Keys
    requires forall k :: k in fewer ==> fewer[k] == hits[k] && remaining[k] == events[k]
    ensures Holding(fewer, remaining, repr)
  {
  }

  /** No two keys share a backing array. */
  ghost predicate Unshared(hits: map<string, Slice>) {
    forall k, k' :: k in hits && k' in hits && k != k' ==> hits[k].buf != hits[k'].buf
  }

  lemma UnsharedSubset(hits: map<string, Slice>, fewer: map<string, Slice>)
    requires Unshared(hits) && fewer.Keys <= hits.Keys
    requires forall k :: k in fewer ==> fewer[k] == hits[k]
    ensures Unshared(fewer)
  {
  }

  lemma UnsharedUpdate(hits: map<string, Slice>, key: string, s: Slice)
    requires Unshared(hits)
    requires forall k :: k in hits && k != key ==> hits[k].buf != s.buf
    ensures Unshared(hits[key := s])
  {
  }

  class Limiter {
    const config: Config
    var hits: map<string, Slice>
    var lastSweep: int

    ghost var events: map<string, seq<int>>  // what the slices hold
    ghost var Repr: set<array<int>>          // the backing arrays

    ghost predicate Valid()
      reads this, Repr
    {
      Holding(hits, events, Repr) && Unshared(hits)
    }

    ghost function Abs(): State
      reads this
    {
      State(events, lastSweep)
    }

    constructor (config: Config)
      ensures Valid() && this.config == config && Abs() == EMPTY && Repr == {}
    {
      this.config := config;
      hits := map[];
      lastSweep := 0;
      events := map[];
      Repr := {};
    }

    /** Filters a slice in place: the kept events overwrite the front of the same backing array. */
    static method Prune(buf: array<int>, len: nat, cutoff: int) returns (kept: Slice)
      requires len <= buf.Length
      modifies buf
      ensures kept.buf == buf && Holds(kept, After(old(buf[..len]), cutoff))
    {
      hide After;
      ghost var was := buf[..len];
      var n, i := 0, 0;
      AfterNone(cutoff);
      while i < len
        invariant n <= i <= len
        invariant buf[..n] == After(was[..i], cutoff)
        invariant forall j :: i <= j < len ==> buf[j] == was[j]
      {
        var t := buf[i];
        AfterGrows(was, i, cutoff);
        if t > cutoff {
          buf[n] := t;
          n := n + 1;
          assert buf[..n] == buf[..n - 1] + [t];
        }
        i := i + 1;
      }
      assert was[..len] == was;
      kept := Slice(buf, n);
    }

    /** The inner scan of the sweep: stops at the first event inside the window. */
    static method AnyAfter(s: Slice, ghost evs: seq<int>, cutoff: int) returns (live: bool)
      requires Holds(s, evs)
      ensures live <==> After(evs, cutoff) != []
    {
      live := false;
      var i := 0;
      while i < s.len
        invariant 0 <= i <= s.len
        invariant After(evs[..i], cutoff) == []
      {
        assert evs[..i + 1][..i] == evs[..i];
        if s.buf[i] > cutoff {
          live := true;
          AfterHasFresh(evs, i, cutoff);
          return;
        }
        i := i + 1;
      }
      assert evs[..s.len] == evs;
    }

    /** Deletes, in no particular order, the keys with nothing in the window. */
    method Evict(cutoff: int)
      requires Valid()
      modifies `hits
      ensures hits.Keys == set k | k in events && After(events[k], cutoff) != []
      ensures hits.Keys <= old(hits).Keys == events.Keys
      ensures forall k :: k in hits ==> hits[k] == old(hits)[k]
    {
      hide After, Holds, Unshared;
      ghost var was := hits;
      var todo := hits.Keys;
      while todo != {}
        invariant todo <= hits.Keys <= events.Keys
        invariant forall k :: k in hits ==> hits[k] == was[k]
        invariant forall k :: k in events && k !in todo ==> (k in hits <==> After(events[k], cutoff) != [])
        decreases todo
      {
        var k :| k in todo;
        var live := AnyAfter(hits[k], events[k], cutoff);
        if !live {
          hits := map j | j in hits && j != k :: hits[j];
        }
        todo := todo - {k};
      }
    }

    /** At most once per window. */
    method Sweep(now: int, cutoff: int)
      requires Valid() && cutoff == now - config.window
      modifies this
      ensures Valid() && Repr == old(Repr)
      ensures Abs() == Swept(config, old(Abs()), now)
    {
      hide After, Sub, Holds, Holding, Unshared;
      if Sub(now, lastSweep) < config.window {
        return;
      }
      lastSweep := now;
      Evict(cutoff);
      ghost var remaining := map k | k in events && After(events[k], cutoff) != [] :: events[k];
      UnsharedSubset(old(hits), hits);
      HoldingSubset(old(hits), events, Repr, hits, remaining);
      events := remaining;
    }

    /** append: in place when the backing array has room, else in a new one. */
    static method Append(s: Slice, ghost evs: seq<int>, x: int) returns (r: Slice)
      requires Holds(s, evs)
      modifies s.buf
      ensures Holds(r, evs + [x]) && (r.buf == s.buf || fresh(r.buf))
    {
      if s.len < s.buf.Length {
        s.buf[s.len] := x;
        r := Slice(s.buf, s.len + 1);
      } else {
        var grown := new int[2 * s.len + 1];
        forall i | 0 <= i < s.len {
          grown[i] := s.buf[i];
        }
        grown[s.len] := x;
        r := Slice(grown, s.len + 1);
      }
      assert r.buf[..r.len] == evs + [x];
    }

    method Allow(key: string, now: int) returns (ok: bool)
      requires Valid()
      modifies this, Repr
      ensures Valid() && fresh(Repr - old(Repr))
      ensures (Abs(), ok) == Allowed(config, old(Abs()), key, now)
    {
      hide After, Swept, Holds, Sub;
      var cutoff := now - config.window;
      Sweep(now, cutoff);
      ghost var evs := After(Abs().Events(key), cutoff);
      var s := Lookup(key);
      var kept := Prune(s.buf, s.len, cutoff);
      HeldLength(kept, evs);
      if kept.len >= config.limit {
        Store(key, kept, evs);
        return false;
      }
      kept := Append(kept, evs, now);
      Store(key, kept, evs + [now]);
      return true;
    }

    /** rl.hits[key] = s, for a backing array no other key uses. */
    method Store(key: string, s: Slice, ghost evs: seq<int>)
      requires hits.Keys == events.Keys && Holds(s, evs) && Unshared(hits)
      requires forall k :: k in hits && k != key ==>
                 hits[k].buf in Repr && hits[k].buf != s.buf && Holds(hits[k], events[k])
      modifies this
      ensures Valid() && Repr == old(Repr) + {s.buf}
      ensures Abs() == old(Abs()).(hits := old(events)[key := evs])
    {
      hide Holds, Holding, Unshared;
      UnsharedUpdate(hits, key, s);
      HoldingUpdate(hits, events, Repr, key, s, evs);
      hits := hits[key := s];
      events := events[key := evs];
      Repr := Repr + {s.buf};
    }

    static lemma HeldLength(s: Slice, evs: seq<int>)
      requires Holds(s, evs)
      ensures s.len == |evs|
    {
    }

    /** rl.hits[key]: a missing key reads as an empty slice of its own. */
    method Lookup(key: string) returns (s: Slice)
      requires Valid()
      ensures s.len <= s.buf.Length && s.buf[..s.len] == Abs().Events(key)
      ensures if key in hits then s == hits[key] else fresh(s.buf)
    {
      if key in hits {
        s := hits[key];
      } else {
        var none := new int[0];
        s := Slice(none, 0);
      }
    }
  }

  lemma {:induction false} AfterHasFresh(events: seq<int>, i: nat, cutoff: int)
    requires i < |events| && events[i] > cutoff
    ensures events[i] in After(events, cutoff)
  {
    if i < |events| - 1 {
      AfterHasFresh(events[..|events| - 1], i, cutoff);
    }
  }
}
