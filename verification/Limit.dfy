/** The sliding-window limiter and the duplicate table of clubd/internal/limit/limit.go. */
module Limit {
  import opened Prelude

  /** The times strictly after a cutoff, in order. */
  function Recent(times: seq<int>, cutoff: int): seq<int> {
    if times == [] then []
    else
      var front, last := Recent(times[..|times| - 1], cutoff), times[|times| - 1];
      if last > cutoff then front + [last] else front
  }

  /** How many times fall in the half-open window (t - window, t]. */
  function InWindow(times: seq<int>, window: int, t: int): nat {
    if times == [] then 0
    else
      var last := times[|times| - 1];
      InWindow(times[..|times| - 1], window, t) + (if t - window < last <= t then 1 else 0)
  }

  /** The grants in a window, one by one. */
  lemma {:induction false} WindowCounts(times: seq<int>, window: int, t: int)
    ensures InWindow(times, window, t) == |set i | 0 <= i < |times| && t - window < times[i] <= t|
  {
    if times != [] {
      var n := |times| - 1;
      WindowCounts(times[..n], window, t);
      var front := set i | 0 <= i < n && t - window < times[..n][i] <= t;
      var all := set i | 0 <= i < |times| && t - window < times[i] <= t;
      assert all == front + (if t - window < times[n] <= t then {n} else {});
      assert n !in front;
    }
  }

  ghost predicate NoneAfter(times: seq<int>, now: int) {
    forall i :: 0 <= i < |times| ==> times[i] <= now
  }

  ghost predicate Bounded(times: seq<int>, window: int, max: nat) {
    forall t :: InWindow(times, window, t) <= max
  }

  lemma RecentSnoc(times: seq<int>, x: int, cutoff: int)
    ensures Recent(times + [x], cutoff) ==
            if x > cutoff then Recent(times, cutoff) + [x] else Recent(times, cutoff)
  {
    assert (times + [x])[..|times|] == times;
  }

  /** Filtering what was already filtered loses nothing more than filtering once. */
  lemma {:induction false} RecentTwice(times: seq<int>, c: int, d: int)
    requires c <= d
    ensures Recent(Recent(times, c), d) == Recent(times, d)
    ensures |Recent(times, d)| <= |Recent(times, c)|
  {
    if times != [] {
      var front, last := times[..|times| - 1], times[|times| - 1];
      RecentTwice(front, c, d);
      RecentSnoc(Recent(front, c), last, d);
    }
  }

  /** A window that ends after the last time is what the filter keeps. */
  lemma {:induction false} WindowIsRecent(times: seq<int>, window: int, t: int)
    requires NoneAfter(times, t)
    ensures InWindow(times, window, t) == |Recent(times, t - window)|
  {
    if times != [] {
      WindowIsRecent(times[..|times| - 1], window, t);
      assert times[|times| - 1] <= t;
    }
  }

  /** Granting one more message keeps every window within the bound. */
  lemma GrantKeepsBound(granted: seq<int>, window: int, max: nat, now: int)
    requires window > 0 && NoneAfter(granted, now) && Bounded(granted, window, max)
    requires |Recent(granted, now - window)| < max
    ensures Bounded(granted + [now], window, max) && NoneAfter(granted + [now], now)
  {
    var g := granted + [now];
    assert g[..|granted|] == granted;
    forall t
      ensures InWindow(g, window, t) <= max
    {
      assert InWindow(g, window, t) ==
             InWindow(granted, window, t) + (if t - window < now <= t then 1 else 0);
      if t >= now {
        WindowIsRecent(granted, window, t);
        RecentTwice(granted, now - window, t - window);
      }
    }
  }

  /**
   The slice filter of `Allow`: `kept` shares the array it reads from, and never
   overtakes the read position.
   */
  method FilterInPlace(a: array<int>, cutoff: int) returns (n: nat)
    modifies a
    ensures n <= a.Length && a[..n] == Recent(old(a[..]), cutoff)
  {
    n := 0;
    ghost var was := a[..];
    for i := 0 to a.Length
      invariant n <= i
      invariant a[i..] == was[i..]
      invariant a[..n] == Recent(was[..i], cutoff)
    {
      var t := a[i];
      assert t == was[i];
      assert was[..i + 1] == was[..i] + [t];
      RecentSnoc(was[..i], t, cutoff);
      if t > cutoff {
        a[n] := t;
        n := n + 1;
      }
    }
    assert was[..a.Length] == was;
  }

  /** The messages of one publisher that get through, of those asked for at `times`. */
  function Grants(window: int, max: nat, times: seq<int>): seq<int> {
    if times == [] then []
    else
      var g, now := Grants(window, max, times[..|times| - 1]), times[|times| - 1];
      if InWindow(g, window, now) < max then g + [now] else g
  }

  ghost predicate Ordered(times: seq<int>) {
    forall i, j :: 0 <= i < j < |times| ==> times[i] <= times[j]
  }

  lemma {:induction false} GrantsFromTimes(window: int, max: nat, times: seq<int>, now: int)
    requires NoneAfter(times, now)
    ensures NoneAfter(Grants(window, max, times), now)
  {
    if times != [] {
      assert times[|times| - 1] <= now;
      GrantsFromTimes(window, max, times[..|times| - 1], now);
    }
  }

  /** In every run with a clock that does not go back, no window holds more than `max` grants. */
  lemma {:induction false} RunIsBounded(window: int, max: nat, times: seq<int>)
    requires window > 0 && Ordered(times)
    ensures Bounded(Grants(window, max, times), window, max)
  {
    if times == [] {
    } else {
      var front, last := times[..|times| - 1], times[|times| - 1];
      RunIsBounded(window, max, front);
      assert forall i :: 0 <= i < |front| ==> front[i] == times[i] <= last;
      GrantsFromTimes(window, max, front, last);
      OneMoreGrant(window, max, Grants(window, max, front), last);
    }
  }

  lemma OneMoreGrant(window: int, max: nat, g: seq<int>, now: int)
    requires window > 0 && NoneAfter(g, now) && Bounded(g, window, max)
    ensures Bounded(if InWindow(g, window, now) < max then g + [now] else g, window, max)
  {
    WindowIsRecent(g, window, now);
    if InWindow(g, window, now) < max {
      GrantKeepsBound(g, window, max, now);
    }
  }

  /** What is stored for a publisher holds every grant that can still matter. */
  ghost predicate Tracks(kept: seq<int>, all: seq<int>, window: int, max: nat, clock: int) {
    && window > 0 && NoneAfter(all, clock) && Bounded(all, window, max)
    && forall cutoff :: cutoff >= clock - window ==> Recent(kept, cutoff) == Recent(all, cutoff)
  }

  ghost predicate AllTracked(hits: map<Peer, seq<int>>, granted: map<Peer, seq<int>>, window: int, max: nat,
                             clock: int) {
    hits.Keys == granted.Keys && forall p :: p in hits ==> Tracks(hits[p], granted[p], window, max, clock)
  }

  lemma TracksLater(kept: seq<int>, all: seq<int>, window: int, max: nat, clock: int, now: int)
    requires Tracks(kept, all, window, max, clock) && clock <= now
    ensures Tracks(kept, all, window, max, now)
  {
  }

  lemma AllTrackedPut(hits: map<Peer, seq<int>>, granted: map<Peer, seq<int>>, window: int, max: nat, clock: int,
                      now: int, p: Peer, kept: seq<int>, all: seq<int>)
    requires AllTracked(hits, granted, window, max, clock) && clock <= now && Tracks(kept, all, window, max, now)
    ensures AllTracked(hits[p := kept], granted[p := all], window, max, now)
  {
    forall q | q in hits
      ensures Tracks(hits[q], granted[q], window, max, now)
    {
      TracksLater(hits[q], granted[q], window, max, clock, now);
    }
  }

  /** What one question does to a publisher's stored times. */
  lemma Asked(cur: seq<int>, all: seq<int>, window: int, max: nat, now: int)
    requires Tracks(cur, all, window, max, now)
    ensures var kept := Recent(cur, now - window);
            && |kept| == InWindow(all, window, now)
            && Tracks(kept, all, window, max, now)
            && (|kept| < max ==> Tracks(kept + [now], all + [now], window, max, now))
  {
    var cutoff := now - window;
    var kept := Recent(cur, cutoff);
    WindowIsRecent(all, window, now);
    KeptTracks(cur, kept, all, cutoff, now);
    if |kept| < max {
      GrantKeepsBound(all, window, max, now);
    }
  }

  function Stored(m: map<Peer, seq<int>>, p: Peer): seq<int> {
    if p in m then m[p] else []
  }

  /** The same for the whole table. */
  lemma AskedTable(hits: map<Peer, seq<int>>, granted: map<Peer, seq<int>>, window: int, max: nat, clock: int, now: int,
                   p: Peer)
    requires window > 0 && AllTracked(hits, granted, window, max, clock) && clock <= now
    ensures var kept, all := Recent(Stored(hits, p), now - window), Stored(granted, p);
            && |kept| == InWindow(all, window, now)
            && AllTracked(hits[p := kept], granted[p := all], window, max, now)
            && (|kept| < max ==> AllTracked(hits[p := kept + [now]], granted[p := all + [now]], window, max, now))
  {
    var cur, all := Stored(hits, p), Stored(granted, p);
    if p in hits {
      TracksLater(cur, all, window, max, clock, now);
    }
    Asked(cur, all, window, max, now);
    var kept := Recent(cur, now - window);
    AllTrackedPut(hits, granted, window, max, clock, now, p, kept, all);
    if |kept| < max {
      AllTrackedPut(hits, granted, window, max, clock, now, p, kept + [now], all + [now]);
    }
  }

  // ---------------------------------------------------------------- the duplicate table

  /** Hashes not older than the cutoff. */
  function Thinned(hashes: map<string, int>, cutoff: int): map<string, int> {
    map x | x in hashes && hashes[x] >= cutoff :: hashes[x]
  }

  /** The table with room for one more: thinned when full, dropped when thinning does not help. */
  function MadeRoom(hashes: map<string, int>, cap: nat, cutoff: int): map<string, int> {
    if |hashes| < cap then hashes
    else if |Thinned(hashes, cutoff)| < cap then Thinned(hashes, cutoff)
    else map[]
  }

  function Remember(hashes: map<string, int>, cap: nat, window: int, h: string, now: int): map<string, int> {
    if h == "" || h in hashes then hashes else MadeRoom(hashes, cap, now - window)[h := now]
  }

  /** The table never outgrows its cap. */
  lemma RememberFits(hashes: map<string, int>, cap: nat, window: int, h: string, now: int)
    requires |hashes| <= cap && cap > 0
    ensures |Remember(hashes, cap, window, h, now)| <= cap
    ensures |Remember(hashes, cap, window, h, now)| <= |hashes| + 1
    ensures h != "" ==> h in Remember(hashes, cap, window, h, now)
  {
    var room := MadeRoom(hashes, cap, now - window);
    ThinnedIsSmaller(hashes, now - window);
    assert room[h := now].Keys == room.Keys + {h};
  }

  lemma ThinnedIsSmaller(hashes: map<string, int>, cutoff: int)
    ensures |Thinned(hashes, cutoff)| <= |hashes|
  {
    SubsetCount(Thinned(hashes, cutoff).Keys, hashes.Keys);
  }

  lemma SubsetCount(a: set<string>, b: set<string>)
    requires a <= b
    ensures |a| <= |b|
  {
    assert b == a + (b - a);
  }

  /** A new hash costs `x` its place: the table is full, and `x` is old or nothing in it is. */
  predicate Flushes(hashes: map<string, int>, cap: nat, window: int, x: string, h: string, now: int)
    requires x in hashes
  {
    h != "" && h !in hashes && |hashes| >= cap &&
    (hashes[x] < now - window || |Thinned(hashes, now - window)| >= cap)
  }

  /** Exactly then it is forgotten; otherwise its time stays too. */
  lemma KeptUnlessFlushed(hashes: map<string, int>, cap: nat, window: int, x: string, h: string, now: int)
    requires x in hashes && x != h
    ensures var after := Remember(hashes, cap, window, h, now);
            if Flushes(hashes, cap, window, x, h, now) then x !in after else x in after && after[x] == hashes[x]
  {
  }

  /** A table full of recent hashes is dropped whole: one other payload is enough to forget this one. */
  lemma FullTableForgets(hashes: map<string, int>, cap: nat, window: int, x: string, h: string, now: int)
    requires x in hashes && |hashes| >= cap && h != "" && h !in hashes
    requires forall y :: y in hashes ==> hashes[y] >= now - window
    ensures Remember(hashes, cap, window, h, now) == map[h := now]
  {
    assert Thinned(hashes, now - window) == hashes;
  }

  /** A full table with anything old in it loses exactly what is old. */
  lemma FullTableThins(hashes: map<string, int>, cap: nat, window: int, h: string, now: int, stale: string)
    requires |hashes| == cap && h != "" && h !in hashes
    requires stale in hashes && hashes[stale] < now - window
    ensures forall x :: x in Remember(hashes, cap, window, h, now) <==>
                        x == h || (x in hashes && hashes[x] >= now - window)
  {
    var left := Thinned(hashes, now - window);
    assert left.Keys <= hashes.Keys - {stale};
    SubsetCount(left.Keys, hashes.Keys - {stale});
  }

  datatype Arrival = Arrival(hash: string, at: int)

  function Table(start: map<string, int>, cap: nat, window: int, run: seq<Arrival>): map<string, int> {
    if run == [] then start
    else
      var a := run[|run| - 1];
      Remember(Table(start, cap, window, run[..|run| - 1]), cap, window, a.hash, a.at)
  }

  /** Somewhere in the run `x` lost its place. */
  predicate FlushedIn(start: map<string, int>, cap: nat, window: int, x: string, run: seq<Arrival>) {
    run != [] &&
    var front, a := run[..|run| - 1], run[|run| - 1];
    var before := Table(start, cap, window, front);
    FlushedIn(start, cap, window, x, front) || (x in before && Flushes(before, cap, window, x, a.hash, a.at))
  }

  ghost predicate NotAmong(x: string, run: seq<Arrival>) {
    forall i :: 0 <= i < |run| ==> run[i].hash != x
  }

  /** Over a run of other hashes, a remembered hash is still tabled exactly when no full table flushed it. */
  lemma {:induction false} TabledIffNotFlushed(start: map<string, int>, cap: nat, window: int, x: string,
                                               run: seq<Arrival>)
    requires x in start && NotAmong(x, run)
    ensures x in Table(start, cap, window, run) <==> !FlushedIn(start, cap, window, x, run)
  {
    if run != [] {
      var front, a := run[..|run| - 1], run[|run| - 1];
      TabledIffNotFlushed(start, cap, window, x, front);
      var before := Table(start, cap, window, front);
      if x in before {
        KeptUnlessFlushed(before, cap, window, x, a.hash, a.at);
      } else {
        assert x !in MadeRoom(before, cap, a.at - window);
      }
    }
  }

  /** While the table has room for every arrival, nothing is flushed. */
  lemma {:induction false} RoomMeansKept(start: map<string, int>, cap: nat, window: int, x: string, run: seq<Arrival>)
    requires x in start && |start| + |run| <= cap
    ensures !FlushedIn(start, cap, window, x, run) && |Table(start, cap, window, run)| <= |start| + |run|
  {
    if run != [] {
      var front, a := run[..|run| - 1], run[|run| - 1];
      RoomMeansKept(start, cap, window, x, front);
      RememberFits(Table(start, cap, window, front), cap, window, a.hash, a.at);
    }
  }

  /** The slice of stored times, filtered in its own backing array. */
  method FilterTimes(cur: seq<int>, cutoff: int) returns (kept: seq<int>)
    ensures kept == Recent(cur, cutoff)
  {
    var a := new int[|cur|](i requires 0 <= i < |cur| => cur[i]);
    assert a[..] == cur;
    var n := FilterInPlace(a, cutoff);
    kept := a[..n];
  }

  class Limiter {
    const window: int
    const max: nat
    const hashCap: nat
    var hits: map<Peer, seq<int>>
    var hashes: map<string, int>
    // Every time a publisher was let through, and the last time anyone asked.
    ghost var granted: map<Peer, seq<int>>
    ghost var clock: int

    ghost predicate Valid()
      reads this
    {
      && window > 0 && max > 0 && hashCap > 0
      && AllTracked(hits, granted, window, max, clock)
    }

    constructor (maxPerWindow: int, window: int, ghost start: int)
      ensures Valid() && granted == map[] && hashes == map[] && clock == start
      ensures max == (if maxPerWindow <= 0 then 60 else maxPerWindow)
      ensures this.window == (if window <= 0 then 60 else window)
    {
      max := if maxPerWindow <= 0 then 60 else maxPerWindow;
      this.window := if window <= 0 then 60 else window;
      hashCap := 20000;
      hits, hashes, granted, clock := map[], map[], map[], start;
    }

    ghost function History(p: Peer): seq<int>
      reads this
    {
      Stored(granted, p)
    }

    /** Seen before?  A new hash is remembered at once; a full table is thinned, then dropped. */
    method Duplicate(h: string, now: int) returns (dup: bool)
      requires |hashes| <= hashCap
      modifies this`hashes
      ensures dup <==> h != "" && h in old(hashes)
      ensures hashes == Remember(old(hashes), hashCap, window, h, now)
    {
      if h == "" {
        return false;
      }
      if h in hashes {
        return true;
      }
      if |hashes| >= hashCap {
        hashes := Thinned(hashes, now - window);
        if |hashes| >= hashCap {
          hashes := map[];
        }
      }
      hashes := hashes[h := now];
      return false;
    }

    /**
     One more message from `p`?  Exactly when fewer than `max` of its granted messages lie
     in the window that ends now; so no window ever holds more than `max`.
     */
    method Allow(p: Peer, now: int) returns (ok: bool)
      requires Valid() && now >= clock
      modifies this`hits, this`granted, this`clock
      ensures Valid() && clock == (if p == "" then old(clock) else now)
      ensures ok <==> p != "" && InWindow(old(History(p)), window, now) < max
      ensures History(p) == old(History(p)) + (if ok then [now] else [])
      ensures forall q :: q != p ==> History(q) == old(History(q))
    {
      if p == "" {
        return false;
      }
      var cutoff := now - window;
      var kept := FilterTimes(Stored(hits, p), cutoff);
      AskedTable(hits, granted, window, max, clock, now, p);
      ghost var all := History(p);
      ok := |kept| < max;
      if ok {
        Put(p, kept + [now], all + [now], now);
      } else {
        assert all + [] == all;
        Put(p, kept, all, now);
      }
    }

    method Put(p: Peer, kept: seq<int>, ghost all: seq<int>, ghost now: int)
      requires window > 0 && max > 0 && hashCap > 0
      requires AllTracked(hits[p := kept], granted[p := all], window, max, now)
      modifies this`hits, this`granted, this`clock
      ensures Valid() && clock == now && hits == old(hits)[p := kept] && granted == old(granted)[p := all]
    {
      hits, granted := hits[p := kept], granted[p := all];
      clock := now;
    }
  }

  /** Filtering loses nothing that can still matter, and neither does a grant after it. */
  lemma KeptTracks(cur: seq<int>, kept: seq<int>, all: seq<int>, cutoff: int, now: int)
    requires kept == Recent(cur, cutoff) == Recent(all, cutoff)
    ensures forall c :: c >= cutoff ==> Recent(kept, c) == Recent(all, c)
    ensures forall c :: c >= cutoff ==> Recent(kept + [now], c) == Recent(all + [now], c)
  {
    forall c | c >= cutoff
      ensures Recent(kept, c) == Recent(all, c) && Recent(kept + [now], c) == Recent(all + [now], c)
    {
      RecentTwice(all, cutoff, c);
      RecentSnoc(kept, now, c);
      RecentSnoc(all, now, c);
    }
  }
}
