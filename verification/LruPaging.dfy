/** Page replacement by last-use timestamps, against the order of most recent use. */
module LruPaging {
  import opened Pigeonholes

  const EMPTY: int := -1

  // ---------------------------------------------------------------- most recent use

  function Without(s: seq<int>, p: int): (r: seq<int>)
    ensures forall x :: x in r <==> x in s && x != p
    ensures |r| <= |s|
  {
    if s == [] then [] else (if s[0] == p then [] else [s[0]]) + Without(s[1..], p)
  }

  /** The distinct pages requested, most recently used first. */
  function Recent(reqs: seq<int>): (r: seq<int>)
    ensures forall x :: x in r <==> x in reqs
  {
    if reqs == [] then []
    else
      var last := reqs[|reqs| - 1];
      assert reqs == reqs[..|reqs| - 1] + [last];
      [last] + Without(Recent(reqs[..|reqs| - 1]), last)
  }

  /** What `n` frames hold: the `n` most recently used pages. */
  function Front(s: seq<int>, n: nat): seq<int> {
    if |s| <= n then s else s[..n]
  }

  function Misses(reqs: seq<int>, n: nat): nat {
    if reqs == [] then 0
    else
      var before := reqs[..|reqs| - 1];
      Misses(before, n) + if reqs[|reqs| - 1] in Front(Recent(before), n) then 0 else 1
  }

  /** The last time a page was requested. */
  function LastUse(reqs: seq<int>, p: int): (i: int)
    ensures -1 <= i < |reqs| && (i >= 0 <==> p in reqs)
    ensures i >= 0 ==> reqs[i] == p
    ensures forall j :: i < j < |reqs| ==> reqs[j] != p
  {
    if reqs == [] then -1
    else
      var n := |reqs| - 1;
      assert reqs == reqs[..n] + [reqs[n]];
      if reqs[n] == p then n else LastUse(reqs[..n], p)
  }

  ghost predicate ByUse(reqs: seq<int>, s: seq<int>) {
    forall i, j :: 0 <= i < j < |s| ==> LastUse(reqs, s[i]) > LastUse(reqs, s[j])
  }

  lemma {:induction false} WithoutByUse(reqs: seq<int>, s: seq<int>, p: int)
    requires ByUse(reqs, s)
    ensures ByUse(reqs, Without(s, p))
  {
    if s != [] {
      assert ByUse(reqs, s[1..]);
      WithoutByUse(reqs, s[1..], p);
      var r := Without(s[1..], p);
      forall j | 0 <= j < |r| ensures LastUse(reqs, s[0]) > LastUse(reqs, r[j]) {
        assert r[j] in s[1..];
        var k :| 0 <= k < |s[1..]| && s[1..][k] == r[j];
        assert s[k + 1] == r[j];
      }
    }
  }

  /** One more request at the end moves only its own page. */
  lemma UseAppend(before: seq<int>, last: int, x: int)
    ensures LastUse(before + [last], x) == if x == last then |before| else LastUse(before, x)
  {
    assert (before + [last])[..|before|] == before;
  }

  lemma ByUseAppend(before: seq<int>, last: int, r: seq<int>)
    requires ByUse(before, r) && last !in r
    ensures ByUse(before + [last], [last] + r)
  {
    var s := [last] + r;
    forall i, j | 0 <= i < j < |s| ensures LastUse(before + [last], s[i]) > LastUse(before + [last], s[j]) {
      assert s[j] == r[j - 1] && (i > 0 ==> s[i] == r[i - 1]);
      UseAppend(before, last, s[i]);
      UseAppend(before, last, s[j]);
    }
  }

  /** The order of `Recent` is the order of last use; in particular no page occurs twice. */
  lemma {:induction false} RecentByUse(reqs: seq<int>)
    ensures ByUse(reqs, Recent(reqs))
  {
    if reqs != [] {
      var last, before := reqs[|reqs| - 1], reqs[..|reqs| - 1];
      RecentByUse(before);
      WithoutByUse(before, Recent(before), last);
      ByUseAppend(before, last, Without(Recent(before), last));
      assert reqs == before + [last];
    }
  }

  // ---------------------------------------------------------------- no anomaly

  /** More frames hold all that fewer frames hold. */
  lemma Inclusion(reqs: seq<int>, n: nat, m: nat)
    requires n <= m
    ensures forall p :: p in Front(Recent(reqs), n) ==> p in Front(Recent(reqs), m)
  {
    var s := Recent(reqs);
    assert forall i :: 0 <= i < |Front(s, n)| ==> Front(s, n)[i] == Front(s, m)[i];
  }

  /** More frames never mean more misses. */
  lemma {:induction false} NoAnomaly(reqs: seq<int>, n: nat, m: nat)
    requires n <= m
    ensures Misses(reqs, m) <= Misses(reqs, n)
    decreases |reqs|
  {
    if reqs != [] {
      var before := reqs[..|reqs| - 1];
      NoAnomaly(before, n, m);
      Inclusion(before, n, m);
    }
  }

  // ---------------------------------------------------------------- the frames

  /** The pages in the frames, their timestamps, and the clock. */
  datatype Frames = Frames(buffer: seq<int>, time: seq<int>, counter: int)

  /** The first place of a number, or -1. */
  function IndexOf(s: seq<int>, x: int): (i: int)
    ensures -1 <= i < |s| && (i >= 0 ==> s[i] == x)
    ensures forall j :: 0 <= j < (if i >= 0 then i else |s|) ==> s[j] != x
  {
    if s == [] then -1
    else
      var n := |s| - 1;
      var i := IndexOf(s[..n], x);
      if i >= 0 then i else if s[n] == x then n else -1
  }

  /** The first frame with the smallest timestamp. */
  function Oldest(time: seq<int>): (i: nat)
    requires time != []
    ensures i < |time| && (forall j :: 0 <= j < |time| ==> time[i] <= time[j])
    ensures forall j :: 0 <= j < i ==> time[i] < time[j]
  {
    var n := |time| - 1;
    if n == 0 then 0
    else
      var i := Oldest(time[..n]);
      if time[n] < time[i] then n else i
  }

  /** The frame of a page; for a page that is not there, the first empty frame, else the oldest. */
  function FrameFor(f: Frames, page: int): (i: nat)
    requires |f.buffer| == |f.time| > 0
    ensures i < |f.buffer|
  {
    var pos, empty := IndexOf(f.buffer, page), IndexOf(f.buffer, EMPTY);
    if pos != -1 then pos else if empty != -1 then empty else Oldest(f.time)
  }

  /** Frame `i` gets a page and the newest timestamp. */
  function InFrame(f: Frames, i: nat, page: int): Frames
    requires i < |f.buffer| == |f.time|
  {
    Frames(f.buffer[i := page], f.time[i := f.counter + 1], f.counter + 1)
  }

  /** The frames after a request. */
  function Requested(f: Frames, page: int): Frames
    requires |f.buffer| == |f.time| > 0
  {
    InFrame(f, FrameFor(f, page), page)
  }

  /** The frames after all requests, from empty frames on. */
  function Simulated(pages: seq<int>, n: nat): (f: Frames)
    requires n > 0
    ensures |f.buffer| == |f.time| == n
  {
    if pages == [] then Frames(seq(n, _ => EMPTY), seq(n, _ => 0), 0)
    else Requested(Simulated(pages[..|pages| - 1], n), pages[|pages| - 1])
  }

  /** How many requests the simulation counts as misses. */
  function Missed(pages: seq<int>, n: nat): nat
    requires n > 0
  {
    if pages == [] then 0
    else
      var before := pages[..|pages| - 1];
      Missed(before, n) + if pages[|pages| - 1] in Simulated(before, n).buffer then 0 else 1
  }

  lemma SimulatedOne(pages: seq<int>, i: nat, n: nat)
    requires i < |pages| && n > 0
    ensures Simulated(pages[..i + 1], n) == Requested(Simulated(pages[..i], n), pages[i])
    ensures Missed(pages[..i + 1], n) ==
              Missed(pages[..i], n) + if pages[i] in Simulated(pages[..i], n).buffer then 0 else 1
  {
    assert pages[..i + 1][..i] == pages[..i];
  }

  lemma RecentOne(pages: seq<int>, i: nat, n: nat)
    requires i < |pages|
    ensures Recent(pages[..i + 1]) == [pages[i]] + Without(Recent(pages[..i]), pages[i])
    ensures Misses(pages[..i + 1], n) ==
              Misses(pages[..i], n) + if pages[i] in Front(Recent(pages[..i]), n) then 0 else 1
  {
    assert pages[..i + 1][..i] == pages[..i];
  }

  // ---------------------------------------------------------------- following the policy

  /** Different frames `at` hold the pages `front`, later use with a larger timestamp. */
  ghost predicate Placed(buffer: seq<int>, time: seq<int>, counter: int, at: seq<nat>, front: seq<int>) {
    && |buffer| == |time| && |at| == |front| && Different(at)
    && (forall k :: 0 <= k < |at| ==> at[k] < |buffer| && buffer[at[k]] == front[k] && time[at[k]] <= counter)
    && (forall j, k :: 0 <= j < k < |at| ==> time[at[j]] > time[at[k]])
  }

  /** All frames outside `at` are empty. */
  ghost predicate OnlyAt(buffer: seq<int>, at: seq<nat>) {
    forall f: nat :: f < |buffer| && buffer[f] != EMPTY ==> f in at
  }

  /**
   The frames hold the most recently used pages; `at[k]` is the frame of the `k`-th.  The page with the number
   of the marker has been requested only if all frames are in use.
   */
  ghost predicate Tracks(f: Frames, at: seq<nat>, recent: seq<int>) {
    && Placed(f.buffer, f.time, f.counter, at, Front(recent, |f.buffer|)) && OnlyAt(f.buffer, at)
    && MarkerLate(recent, |f.buffer|) && Different(recent)
  }

  predicate MarkerLate(recent: seq<int>, n: nat) {
    EMPTY in recent ==> |recent| >= n
  }

  lemma RecentDistinct(reqs: seq<int>)
    ensures Different(Recent(reqs))
  {
    RecentByUse(reqs);
  }

  // ---------------------------------------------------------------- what one request does to the frames

  lemma {:induction false} WithoutAt(s: seq<int>, k: nat)
    requires k < |s| && Different(s)
    ensures Without(s, s[k]) == s[..k] + s[k + 1..]
  {
    if k == 0 {
      WithoutNone(s[1..], s[0]);
    } else {
      WithoutAt(s[1..], k - 1);
    }
  }

  lemma {:induction false} WithoutNone(s: seq<int>, p: int)
    requires p !in s
    ensures Without(s, p) == s
  {
    if s != [] { WithoutNone(s[1..], p); }
  }

  lemma WithoutSize(s: seq<int>, p: int)
    requires Different(s)
    ensures |Without(s, p)| == |s| - if p in s then 1 else 0
  {
    if p in s {
      var k :| 0 <= k < |s| && s[k] == p;
      WithoutAt(s, k);
    } else {
      WithoutNone(s, p);
    }
  }

  /** Putting a page into frame `f`, with the newest timestamp, in front of what is in other frames. */
  lemma Promote(buffer: seq<int>, time: seq<int>, counter: int, rest: seq<nat>, front: seq<int>, f: nat, p: int)
    requires Placed(buffer, time, counter, rest, front) && f < |buffer| && f !in rest
    requires forall g: nat :: g < |buffer| && buffer[g] != EMPTY && g != f ==> g in rest
    ensures Placed(buffer[f := p], time[f := counter + 1], counter + 1, [f] + rest, [p] + front)
    ensures OnlyAt(buffer[f := p], [f] + rest)
  {
    assert forall k :: 0 <= k < |rest| ==> rest[k] != f;
  }

  lemma CutPlaced(buffer: seq<int>, time: seq<int>, counter: int, at: seq<nat>, front: seq<int>, k: nat)
    requires Placed(buffer, time, counter, at, front) && k < |at|
    ensures Placed(buffer, time, counter, Cut(at, k), front[..k] + front[k + 1..]) && at[k] !in Cut(at, k)
  { }

  lemma CutOnly(buffer: seq<int>, at: seq<nat>, k: nat)
    requires OnlyAt(buffer, at) && k < |at|
    ensures forall g: nat :: g < |buffer| && buffer[g] != EMPTY && g != at[k] ==> g in Cut(at, k)
  {
    forall g: nat | g < |buffer| && buffer[g] != EMPTY && g != at[k] ensures g in Cut(at, k) { CutKeeps(at, k, g); }
  }

  lemma {:induction false} WithoutDistinct(s: seq<int>, p: int)
    requires Different(s)
    ensures Different([p] + Without(s, p))
  {
    if s == [] {
      assert [p] + Without(s, p) == [p];
    } else {
      var r := Without(s[1..], p);
      DistinctTail(s);
      WithoutDistinct(s[1..], p);
      assert ([p] + r)[1..] == r;
      DistinctTail([p] + r);
      if s[0] != p { DistinctMore(s[0], r); }
      DistinctMore(p, Without(s, p));
    }
  }

  lemma DistinctTail(s: seq<int>)
    requires Different(s) && s != []
    ensures Different(s[1..]) && s[0] !in s[1..]
  { }

  lemma DistinctMore(x: int, s: seq<int>)
    requires Different(s) && x !in s
    ensures Different([x] + s)
  { }

  lemma FrontHit(s: seq<int>, k: nat, n: nat)
    requires k < |Front(s, n)|
    ensures Front([s[k]] + (s[..k] + s[k + 1..]), n) == [s[k]] + (Front(s, n)[..k] + Front(s, n)[k + 1..])
  {
    if |s| > n {
      var a, b := Front([s[k]] + (s[..k] + s[k + 1..]), n), [s[k]] + (s[..n][..k] + s[..n][k + 1..]);
      assert |a| == |b|;
      forall i | 0 <= i < n ensures a[i] == b[i] { }
    }
  }

  lemma FrontEvict(first: seq<int>, others: seq<int>, p: int, n: nat)
    requires 0 < n == |first| <= |others| && others[..n] == first
    ensures Front([p] + others, n) == [p] + first[..n - 1]
  {
    assert ([p] + others)[..n] == [p] + others[..n - 1];
    assert others[..n - 1] == first[..n - 1];
  }

  lemma DropLast(buffer: seq<int>, time: seq<int>, counter: int, at: seq<nat>, front: seq<int>)
    requires Placed(buffer, time, counter, at, front) && OnlyAt(buffer, at) && at != []
    ensures var n := |at| - 1; Placed(buffer, time, counter, at[..n], front[..n]) && at[n] !in at[..n]
    ensures var n := |at| - 1; forall g: nat :: g < |buffer| && buffer[g] != EMPTY && g != at[n] ==> g in at[..n]
  {
    var n := |at| - 1;
    assert at == at[..n] + [at[n]];
  }

  lemma MovedFirst(recent: seq<int>, p: int, n: nat)
    requires MarkerLate(recent, n) && Different(recent) && (p != EMPTY || |recent| >= n)
    ensures MarkerLate([p] + Without(recent, p), n) && Different([p] + Without(recent, p))
  {
    WithoutDistinct(recent, p);
    WithoutSize(recent, p);
  }

  /** Page `p` in frame `i`, in front of what the frames `rest` hold. */
  lemma PromoteTracks(f: Frames, rest: seq<nat>, front: seq<int>, i: nat, p: int, recent: seq<int>)
    requires Placed(f.buffer, f.time, f.counter, rest, front) && i < |f.buffer| && i !in rest
    requires forall g: nat :: g < |f.buffer| && f.buffer[g] != EMPTY && g != i ==> g in rest
    requires Front(recent, |f.buffer|) == [p] + front && MarkerLate(recent, |f.buffer|) && Different(recent)
    ensures Tracks(InFrame(f, i, p), [i] + rest, recent)
  {
    Promote(f.buffer, f.time, f.counter, rest, front, i, p);
  }

  /** When there are as many places as frames, every frame has its place. */
  lemma EveryFrame(at: seq<nat>, n: nat, f: nat)
    requires Different(at) && |at| == n && (forall k :: 0 <= k < |at| ==> at[k] < n) && f < n
    ensures f in at
  {
    if f !in at { Pigeonhole([f] + at, n); }
  }

  /** The place of a frame with a page of the front. */
  lemma PlaceOf(f: Frames, at: seq<nat>, recent: seq<int>, i: nat) returns (k: nat)
    requires Tracks(f, at, recent) && i < |f.buffer| && (f.buffer[i] != EMPTY || |recent| >= |f.buffer|)
    ensures k < |at| && at[k] == i && k < |recent| && recent[k] == f.buffer[i]
  {
    if f.buffer[i] == EMPTY { EveryFrame(at, |f.buffer|, i); }
    k :| 0 <= k < |at| && at[k] == i;
    assert Front(recent, |f.buffer|)[k] == f.buffer[i];
  }

  /** The frames hold exactly the pages of the front. */
  lemma HitIffFront(f: Frames, at: seq<nat>, recent: seq<int>, p: int)
    requires Tracks(f, at, recent) && (p != EMPTY || |recent| >= |f.buffer|)
    ensures p in f.buffer <==> p in Front(recent, |f.buffer|)
  {
    var front := Front(recent, |f.buffer|);
    if p in f.buffer {
      var i: nat :| i < |f.buffer| && f.buffer[i] == p;
      var k := PlaceOf(f, at, recent, i);
      assert front[k] == p;
    }
  }

  lemma HitTracks(f: Frames, at: seq<nat>, recent: seq<int>, k: nat)
    requires Tracks(f, at, recent) && k < |at|
    ensures at[k] < |f.time| && k < |recent|
    ensures Tracks(InFrame(f, at[k], recent[k]), [at[k]] + Cut(at, k), [recent[k]] + Without(recent, recent[k]))
  {
    var front, p := Front(recent, |f.buffer|), recent[k];
    CutPlaced(f.buffer, f.time, f.counter, at, front, k);
    CutOnly(f.buffer, at, k);
    WithoutAt(recent, k);
    MovedFirst(recent, p, |f.buffer|);
    FrontHit(recent, k, |f.buffer|);
    PromoteTracks(f, Cut(at, k), front[..k] + front[k + 1..], at[k], p, [p] + Without(recent, p));
  }

  /** A frame that is empty and not in use: fewer pages than frames have been requested. */
  lemma FreeFrame(f: Frames, at: seq<nat>, recent: seq<int>, e: nat)
    requires Tracks(f, at, recent) && e < |f.buffer| && e !in at
    ensures Front(recent, |f.buffer|) == recent && |recent| < |f.buffer|
  {
    Pigeonhole([e] + at, |f.buffer|);
  }

  /** A page in a free frame. */
  lemma LoadTracks(f: Frames, at: seq<nat>, recent: seq<int>, e: nat, p: int)
    requires Tracks(f, at, recent) && e < |f.buffer| && e !in at && f.buffer[e] == EMPTY && p != EMPTY && p !in f.buffer
    ensures Tracks(InFrame(f, e, p), [e] + at, [p] + Without(recent, p))
  {
    FreeFrame(f, at, recent, e);
    HitIffFront(f, at, recent, p);
    WithoutNone(recent, p);
    MovedFirst(recent, p, |f.buffer|);
    PromoteTracks(f, at, recent, e, p, [p] + Without(recent, p));
  }

  /** A page in the frame of the last of the front, with all frames in use. */
  lemma ReplaceTracks(f: Frames, at: seq<nat>, recent: seq<int>, p: int)
    requires Tracks(f, at, recent) && |at| == |f.buffer| > 0 && p !in Front(recent, |f.buffer|)
    ensures at[|at| - 1] < |f.time|
    ensures Tracks(InFrame(f, at[|at| - 1], p), [at[|at| - 1]] + at[..|at| - 1], [p] + Without(recent, p))
  {
    var n := |f.buffer|;
    var front := Front(recent, n);
    DropLast(f.buffer, f.time, f.counter, at, front);
    FrontDrops(recent, p, n);
    MovedFirst(recent, p, n);
    PromoteTracks(f, at[..n - 1], front[..n - 1], at[n - 1], p, [p] + Without(recent, p));
  }

  /** A new page drops the last of a full front. */
  lemma FrontDrops(recent: seq<int>, p: int, n: nat)
    requires 0 < n <= |recent| && p !in Front(recent, n) && Different(recent)
    ensures Front([p] + Without(recent, p), n) == [p] + Front(recent, n)[..n - 1]
  {
    var front := Front(recent, n);
    assert front == recent[..n];
    forall i | 0 <= i < n ensures recent[i] != p { assert front[i] == recent[i]; }
    WithoutLater(recent, p, n);
    FrontEvict(front, Without(recent, p), p, n);
  }

  /** Taking out a page that is not among the first `n` leaves those as they are. */
  lemma WithoutLater(s: seq<int>, p: int, n: nat)
    requires n <= |s| && (forall i :: 0 <= i < n ==> s[i] != p) && Different(s)
    ensures |Without(s, p)| >= n && Without(s, p)[..n] == s[..n]
  {
    if k :| 0 <= k < |s| && s[k] == p {
      WithoutAt(s, k);
    } else {
      WithoutNone(s, p);
    }
  }

  lemma OldestLast(buffer: seq<int>, time: seq<int>, counter: int, at: seq<nat>, front: seq<int>, lru: nat)
    requires Placed(buffer, time, counter, at, front) && lru in at
    requires lru < |time| && forall j :: 0 <= j < |time| ==> time[lru] <= time[j]
    ensures at[|at| - 1] == lru
  {
    var k :| 0 <= k < |at| && at[k] == lru;
    assert time[at[|at| - 1]] >= time[lru];
  }

  /** No empty frame: the frame with the smallest timestamp holds the page that drops out of the front. */
  lemma EvictTracks(f: Frames, at: seq<nat>, recent: seq<int>, lru: nat, p: int)
    requires Tracks(f, at, recent) && EMPTY !in f.buffer && p !in f.buffer
    requires lru < |f.buffer| && forall j :: 0 <= j < |f.time| ==> f.time[lru] <= f.time[j]
    ensures at != []
    ensures Tracks(InFrame(f, lru, p), [lru] + at[..|at| - 1], [p] + Without(recent, p))
  {
    var front := Front(recent, |f.buffer|);
    assert forall i: nat :: i < |f.buffer| ==> f.buffer[i] in f.buffer;
    Covers(at, |f.buffer|);
    Pigeonhole(at, |f.buffer|);
    OldestLast(f.buffer, f.time, f.counter, at, front, lru);
    forall k | 0 <= k < |front| ensures front[k] != p { assert f.buffer[at[k]] == front[k]; }
    ReplaceTracks(f, at, recent, p);
  }

  // ---------------------------------------------------------------- the marker as a page

  /**
   A request for `p` after the pages `recent` does no harm: `p` is there; or it is the marker and all frames are in
   use; or the marker is not there, or is the page to drop.
   */
  predicate Harmless(recent: seq<int>, p: int, n: nat) {
    || p in Front(recent, n)
    || (if p == EMPTY then |recent| >= n
        else EMPTY !in Front(recent, n) || (|recent| >= n > 0 && recent[n - 1] == EMPTY))
  }

  /** The frame of the marker when it is the page to drop. */
  lemma MarkerLast(f: Frames, at: seq<nat>, recent: seq<int>, e: nat)
    requires Tracks(f, at, recent) && e < |f.buffer| <= |recent| && f.buffer[e] == EMPTY
             && recent[|f.buffer| - 1] == EMPTY
    ensures |at| == |f.buffer| && at[|at| - 1] == e
  {
    var k := PlaceOf(f, at, recent, e);
    assert recent[k] == recent[|f.buffer| - 1];
  }

  /** A harmless request that finds its page. */
  lemma StepHit(f: Frames, at: seq<nat>, recent: seq<int>, p: int) returns (at': seq<nat>)
    requires Tracks(f, at, recent) && |f.buffer| > 0 && p in Front(recent, |f.buffer|)
    ensures Tracks(Requested(f, p), at', [p] + Without(recent, p)) && p in f.buffer
  {
    assert p in recent;
    HitIffFront(f, at, recent, p);
    var i := FrameFor(f, p);
    assert f.buffer[i] == p && Requested(f, p) == InFrame(f, i, p);
    var k := PlaceOf(f, at, recent, i);
    HitTracks(f, at, recent, k);
    at' := [at[k]] + Cut(at, k);
  }

  /** A harmless request that does not. */
  lemma StepMiss(f: Frames, at: seq<nat>, recent: seq<int>, p: int) returns (at': seq<nat>)
    requires Tracks(f, at, recent) && |f.buffer| > 0 && p !in Front(recent, |f.buffer|)
             && Harmless(recent, p, |f.buffer|)
    ensures Tracks(Requested(f, p), at', [p] + Without(recent, p)) && p !in f.buffer
  {
    HitIffFront(f, at, recent, p);
    assert FrameFor(f, p) == if EMPTY in f.buffer then IndexOf(f.buffer, EMPTY) else Oldest(f.time);
    if EMPTY !in f.buffer {
      EvictTracks(f, at, recent, Oldest(f.time), p);
      at' := [Oldest(f.time)] + at[..|at| - 1];
    } else {
      at' := StepEmpty(f, at, recent, IndexOf(f.buffer, EMPTY), p);
    }
  }

  /** And takes an empty frame, or the frame of the marker. */
  lemma StepEmpty(f: Frames, at: seq<nat>, recent: seq<int>, e: nat, p: int) returns (at': seq<nat>)
    requires Tracks(f, at, recent) && p !in Front(recent, |f.buffer|) && Harmless(recent, p, |f.buffer|)
             && p !in f.buffer
    requires e < |f.buffer| && f.buffer[e] == EMPTY
    ensures Tracks(InFrame(f, e, p), at', [p] + Without(recent, p))
  {
    assert f.buffer[e] in f.buffer;
    if EMPTY in Front(recent, |f.buffer|) {
      MarkerLast(f, at, recent, e);
      ReplaceTracks(f, at, recent, p);
      at' := [e] + at[..|at| - 1];
    } else {
      NotPlaced(f, at, recent, e);
      LoadTracks(f, at, recent, e, p);
      at' := [e] + at;
    }
  }

  lemma NotPlaced(f: Frames, at: seq<nat>, recent: seq<int>, e: nat)
    requires Tracks(f, at, recent) && e < |f.buffer| && f.buffer[e] !in Front(recent, |f.buffer|)
    ensures e !in at
  {
    forall k | 0 <= k < |at| ensures at[k] != e { assert Front(recent, |f.buffer|)[k] in Front(recent, |f.buffer|); }
  }

  /** A request for the marker while a frame is free is taken for a hit. */
  lemma MarkerHit(f: Frames, at: seq<nat>, recent: seq<int>)
    requires Tracks(f, at, recent) && |recent| < |f.buffer|
    ensures EMPTY in f.buffer && EMPTY !in Front(recent, |f.buffer|)
  {
    if EMPTY !in f.buffer {
      assert forall i: nat :: i < |f.buffer| ==> f.buffer[i] in f.buffer;
      Covers(at, |f.buffer|);
    }
  }

  /** A page that takes the frame of the marker lets the page stay that should drop. */
  lemma MarkerGone(f: Frames, at: seq<nat>, recent: seq<int>, p: int)
    requires Tracks(f, at, recent) && |f.buffer| > 0 && p !in Front(recent, |f.buffer|) && p != EMPTY
    requires EMPTY in Front(recent, |f.buffer|) && |recent| >= |f.buffer| && recent[|f.buffer| - 1] != EMPTY
    ensures var q := recent[|f.buffer| - 1];
            q in Requested(f, p).buffer && q !in Front([p] + Without(recent, p), |f.buffer|)
  {
    var n := |f.buffer|;
    var q := recent[n - 1];
    HitIffFront(f, at, recent, p);
    HitIffFront(f, at, recent, EMPTY);
    assert Front(recent, n)[n - 1] == q;
    assert f.buffer[at[n - 1]] == q;
    assert Requested(f, p).buffer[at[n - 1]] == q;
    FrontDrops(recent, p, n);
    LastOnce(Front(recent, n), p, q);
  }

  lemma LastOnce(front: seq<int>, p: int, q: int)
    requires front != [] && Different(front) && q == front[|front| - 1] != p
    ensures q !in [p] + front[..|front| - 1]
  { }

  /** Apart from the marker, the pages in the frames are those of the front. */
  ghost predicate SameContents(buffer: seq<int>, recent: seq<int>) {
    forall p :: p != EMPTY ==> (p in buffer <==> p in Front(recent, |buffer|))
  }

  /** The `i`-th request is a hit, and leaves the pages in the frames, as the policy says. */
  ghost predicate FollowsAt(pages: seq<int>, n: nat, i: nat)
    requires n > 0 && i < |pages|
  {
    && (pages[i] in Simulated(pages[..i], n).buffer <==> pages[i] in Front(Recent(pages[..i]), n))
    && SameContents(Simulated(pages[..i + 1], n).buffer, Recent(pages[..i + 1]))
  }

  ghost predicate Follows(pages: seq<int>, n: nat)
    requires n > 0
  {
    forall i: nat :: i < |pages| ==> FollowsAt(pages, n, i)
  }

  predicate HarmlessAt(pages: seq<int>, n: nat, i: nat)
    requires i < |pages|
  {
    Harmless(Recent(pages[..i]), pages[i], n)
  }

  predicate AllHarmless(pages: seq<int>, n: nat) {
    forall i: nat :: i < |pages| ==> HarmlessAt(pages, n, i)
  }

  lemma StepTracks(f: Frames, at: seq<nat>, recent: seq<int>, p: int) returns (at': seq<nat>)
    requires Tracks(f, at, recent) && |f.buffer| > 0 && Harmless(recent, p, |f.buffer|)
    ensures Tracks(Requested(f, p), at', [p] + Without(recent, p))
            && (p in f.buffer <==> p in Front(recent, |f.buffer|))
  {
    if p in Front(recent, |f.buffer|) { at' := StepHit(f, at, recent, p); } else { at' := StepMiss(f, at, recent, p); }
  }

  /** After harmless requests the frames hold the most recently used pages. */
  lemma {:induction false} RunTracks(pages: seq<int>, n: nat, m: nat) returns (at: seq<nat>)
    requires n > 0 && m <= |pages| && forall i: nat :: i < m ==> HarmlessAt(pages, n, i)
    ensures Tracks(Simulated(pages[..m], n), at, Recent(pages[..m]))
  {
    if m == 0 {
      at := [];
    } else {
      at := RunTracks(pages, n, m - 1);
      SimulatedOne(pages, m - 1, n);
      RecentOne(pages, m - 1, n);
      assert HarmlessAt(pages, n, m - 1);
      at := StepTracks(Simulated(pages[..m - 1], n), at, Recent(pages[..m - 1]), pages[m - 1]);
    }
  }

  lemma TracksContents(f: Frames, at: seq<nat>, recent: seq<int>)
    requires Tracks(f, at, recent)
    ensures SameContents(f.buffer, recent)
  {
    forall p | p != EMPTY ensures p in f.buffer <==> p in Front(recent, |f.buffer|) { HitIffFront(f, at, recent, p); }
  }

  lemma HarmlessFollows(pages: seq<int>, n: nat, i: nat)
    requires n > 0 && i < |pages| && forall j: nat :: j <= i ==> HarmlessAt(pages, n, j)
    ensures FollowsAt(pages, n, i)
  {
    var at := RunTracks(pages, n, i);
    assert HarmlessAt(pages, n, i);
    var at' := StepTracks(Simulated(pages[..i], n), at, Recent(pages[..i]), pages[i]);
    at' := RunTracks(pages, n, i + 1);
    TracksContents(Simulated(pages[..i + 1], n), at', Recent(pages[..i + 1]));
  }

  /** The first request that does harm makes a difference at once. */
  lemma HarmShows(pages: seq<int>, n: nat, i: nat)
    requires n > 0 && i < |pages| && (forall j: nat :: j < i ==> HarmlessAt(pages, n, j)) && !HarmlessAt(pages, n, i)
    ensures !FollowsAt(pages, n, i)
  {
    var f, recent, p := Simulated(pages[..i], n), Recent(pages[..i]), pages[i];
    var at := RunTracks(pages, n, i);
    if p == EMPTY {
      MarkerHit(f, at, recent);
    } else {
      MarkerGone(f, at, recent, p);
      SimulatedOne(pages, i, n);
      RecentOne(pages, i, n);
    }
  }

  lemma {:induction false} FirstHarm(pages: seq<int>, n: nat, m: nat) returns (i: nat)
    requires m < |pages| && !HarmlessAt(pages, n, m)
    ensures i < |pages| && !HarmlessAt(pages, n, i) && forall j: nat :: j < i ==> HarmlessAt(pages, n, j)
    decreases m
  {
    if j: nat :| j < m && !HarmlessAt(pages, n, j) { i := FirstHarm(pages, n, j); } else { i := m; }
  }

  /**
   The simulation is right about every request and about the pages in the frames after it, if and only if every
   request is harmless.
   */
  lemma FollowsIff(pages: seq<int>, n: nat)
    requires n > 0
    ensures Follows(pages, n) <==> AllHarmless(pages, n)
  {
    if AllHarmless(pages, n) {
      forall i: nat | i < |pages| ensures FollowsAt(pages, n, i) { HarmlessFollows(pages, n, i); }
    } else {
      var m: nat :| m < |pages| && !HarmlessAt(pages, n, m);
      var i := FirstHarm(pages, n, m);
      HarmShows(pages, n, i);
    }
  }

  /** Then its misses are those of the policy. */
  lemma {:induction false} FollowsMisses(pages: seq<int>, n: nat, m: nat)
    requires n > 0 && m <= |pages| && Follows(pages, n)
    ensures Missed(pages[..m], n) == Misses(pages[..m], n)
  {
    if m > 0 {
      FollowsMisses(pages, n, m - 1);
      SimulatedOne(pages, m - 1, n);
      RecentOne(pages, m - 1, n);
      assert FollowsAt(pages, n, m - 1);
    }
  }

  /** So the simulation has no anomaly either. */
  lemma SimulatedNoAnomaly(pages: seq<int>, n: nat, m: nat)
    requires 0 < n <= m && AllHarmless(pages, n) && AllHarmless(pages, m)
    ensures Missed(pages, m) <= Missed(pages, n)
  {
    assert pages[..|pages|] == pages;
    FollowsIff(pages, n);
    FollowsIff(pages, m);
    FollowsMisses(pages, n, |pages|);
    FollowsMisses(pages, m, |pages|);
    NoAnomaly(pages, n, m);
  }

  /** Requests for other pages than the marker are harmless. */
  lemma NoMarkerHarmless(pages: seq<int>, n: nat)
    requires EMPTY !in pages
    ensures AllHarmless(pages, n)
  {
    forall i: nat | i < |pages| ensures HarmlessAt(pages, n, i) {
      assert pages[i] in pages;
      assert forall x :: x in Recent(pages[..i]) ==> x in pages;
    }
  }

  /** A first request for the marker is taken for a hit. */
  lemma MarkerFirst(n: nat)
    requires n > 0
    ensures Missed([EMPTY], n) == 0 && Misses([EMPTY], n) == 1
  {
    assert [EMPTY][..0] == [];
    assert Simulated([], n).buffer[0] == EMPTY;
  }

  /** If it is the only page requested, all requests are. */
  lemma {:induction false} MarkerOnly(pages: seq<int>, n: nat)
    requires n > 0 && forall i :: 0 <= i < |pages| ==> pages[i] == EMPTY
    ensures Missed(pages, n) == 0 && EMPTY in Simulated(pages, n).buffer
  {
    if pages == [] {
      assert Simulated([], n).buffer[0] == EMPTY;
    } else {
      var f := Simulated(pages[..|pages| - 1], n);
      MarkerOnly(pages[..|pages| - 1], n);
      assert Simulated(pages, n).buffer[FrameFor(f, EMPTY)] == EMPTY;
    }
  }

  /** Two frames and the pages 1, 2, -1, 3: page 2 stays, and the marker goes. */
  lemma MarkerBetween()
    ensures Simulated([1, 2, EMPTY, 3], 2).buffer == [3, 2] && Front(Recent([1, 2, EMPTY, 3]), 2) == [3, EMPTY]
  {
    MarkerBetweenFrames();
    MarkerBetweenRecent();
  }

  lemma MarkerBetweenFrames()
    ensures Simulated([1, 2, EMPTY, 3], 2).buffer == [3, 2]
  {
    var f0, f1 := Frames([EMPTY, EMPTY], [0, 0], 0), Frames([1, EMPTY], [1, 0], 1);
    var f2, f3 := Frames([1, 2], [1, 2], 2), Frames([EMPTY, 2], [3, 2], 3);
    assert Simulated([], 2) == f0;
    LoadNext([], [1], 1, 2, f0, 0, f1);
    LoadNext([1], [1, 2], 2, 2, f1, 1, f2);
    EvictNext([1, 2], [1, 2, EMPTY], EMPTY, 2, f2, 0, f3);
    LoadNext([1, 2, EMPTY], [1, 2, EMPTY, 3], 3, 2, f3, 0, Frames([3, 2], [4, 2], 4));
  }

  lemma MarkerBetweenRecent()
    ensures Front(Recent([1, 2, EMPTY, 3]), 2) == [3, EMPTY]
  {
    RecentNext([], 1);
    assert [] + [1] == [1] && Recent([1]) == [1];
    RecentNext([1], 2);
    assert [1] + [2] == [1, 2] && Recent([1, 2]) == [2, 1];
    RecentNext([1, 2], EMPTY);
    assert [1, 2] + [EMPTY] == [1, 2, EMPTY] && Recent([1, 2, EMPTY]) == [EMPTY, 2, 1];
    RecentNext([1, 2, EMPTY], 3);
    assert [1, 2, EMPTY] + [3] == [1, 2, EMPTY, 3];
  }

  /** One more request, for a page that is not there: into the first empty frame, or into the oldest. */
  lemma LoadNext(before: seq<int>, after: seq<int>, p: int, n: nat, f: Frames, e: nat, g: Frames)
    requires n > 0 && f == Simulated(before, n) && after == before + [p] && p !in f.buffer
    requires e < n && f.buffer[e] == EMPTY && EMPTY !in f.buffer[..e] && g == InFrame(f, e, p)
    ensures Simulated(after, n) == g
  {
    assert after[..|before|] == before;
    FoundAt(f.buffer, EMPTY, e);
  }

  lemma EvictNext(before: seq<int>, after: seq<int>, p: int, n: nat, f: Frames, v: nat, g: Frames)
    requires n > 0 && f == Simulated(before, n) && after == before + [p] && p !in f.buffer && EMPTY !in f.buffer
    requires v < n && (forall j :: 0 <= j < n && j != v ==> f.time[v] < f.time[j]) && g == InFrame(f, v, p)
    ensures Simulated(after, n) == g
  {
    assert after[..|before|] == before;
  }

  lemma RecentNext(before: seq<int>, p: int)
    ensures Recent(before + [p]) == [p] + Without(Recent(before), p)
  {
    assert (before + [p])[..|before|] == before;
  }

  // ---------------------------------------------------------------- the program

  method FindPage(buffer: array<int>, page: int) returns (pos: int)
    ensures pos == IndexOf(buffer[..], page)
  {
    for i := 0 to buffer.Length
      invariant page !in buffer[..i]
    {
      if buffer[i] == page {
        FoundAt(buffer[..], page, i);
        return i;
      }
    }
    assert buffer[..buffer.Length] == buffer[..];
    return -1;
  }

  lemma FoundAt(s: seq<int>, x: int, i: nat)
    requires i < |s| && s[i] == x && x !in s[..i]
    ensures IndexOf(s, x) == i
  {
    forall j | 0 <= j < i ensures s[j] != x { assert s[..i][j] == s[j]; }
  }

  method OldestFrame(time: array<int>) returns (lru: nat)
    requires time.Length > 0
    ensures lru == Oldest(time[..])
  {
    lru := 0;
    for j := 1 to time.Length
      invariant lru < j && (forall i :: 0 <= i < j ==> time[lru] <= time[i])
                && forall i :: 0 <= i < lru ==> time[lru] < time[i]
    {
      if time[j] < time[lru] { lru := j; }
    }
  }

  /** One request. */
  method Request(buffer: array<int>, time: array<int>, counter: int, page: int) returns (hit: bool)
    requires buffer != time && buffer.Length == time.Length > 0
    modifies buffer, time
    ensures hit == old(page in buffer[..])
    ensures Frames(buffer[..], time[..], counter + 1) == old(Requested(Frames(buffer[..], time[..], counter), page))
  {
    var pos := FindPage(buffer, page);
    hit := pos != -1;
    if hit {
      assert buffer[..][pos := page] == buffer[..];
      time[pos] := counter + 1;
    } else {
      var empty := FindPage(buffer, EMPTY);
      if empty != -1 {
        buffer[empty], time[empty] := page, counter + 1;
      } else {
        var lru := OldestFrame(time);
        buffer[lru], time[lru] := page, counter + 1;
      }
    }
  }

  /** The whole simulation; when every request is harmless its hits, misses and contents are those of the policy. */
  method Simulate(pages: seq<int>, n: nat) returns (hits: nat, misses: nat, buffer: array<int>)
    requires n > 0
    ensures hits + misses == |pages| && misses == Missed(pages, n) && buffer[..] == Simulated(pages, n).buffer
    ensures AllHarmless(pages, n) ==> misses == Misses(pages, n) && SameContents(buffer[..], Recent(pages))
    ensures EMPTY !in pages ==> AllHarmless(pages, n)
    ensures (forall i :: 0 <= i < |pages| ==> pages[i] == EMPTY) ==> misses == 0
  {
    buffer := new int[n](_ => EMPTY);
    var time := new int[n](_ => 0);
    hits, misses := 0, 0;
    var counter := 0;
    for i := 0 to |pages|
      invariant buffer != time && buffer.Length == time.Length == n && hits + misses == i
      invariant Frames(buffer[..], time[..], counter) == Simulated(pages[..i], n) && misses == Missed(pages[..i], n)
    {
      SimulatedOne(pages, i, n);
      var hit := Request(buffer, time, counter, pages[i]);
      counter := counter + 1;
      if hit { hits := hits + 1; } else { misses := misses + 1; }
    }
    assert pages[..|pages|] == pages;
    SimulateFacts(pages, n);
  }

  lemma SimulateFacts(pages: seq<int>, n: nat)
    requires n > 0
    ensures AllHarmless(pages, n) ==>
              Missed(pages, n) == Misses(pages, n) && SameContents(Simulated(pages, n).buffer, Recent(pages))
    ensures EMPTY !in pages ==> AllHarmless(pages, n)
    ensures (forall i :: 0 <= i < |pages| ==> pages[i] == EMPTY) ==> Missed(pages, n) == 0
  {
    assert pages[..|pages|] == pages;
    if forall i :: 0 <= i < |pages| ==> pages[i] == EMPTY { MarkerOnly(pages, n); }
    if AllHarmless(pages, n) {
      FollowsIff(pages, n);
      FollowsMisses(pages, n, |pages|);
      var at := RunTracks(pages, n, |pages|);
      TracksContents(Simulated(pages, n), at, Recent(pages));
    }
    if EMPTY !in pages { NoMarkerHarmless(pages, n); }
  }
}
