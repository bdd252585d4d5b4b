/** client/lib/lru_cache.c and its use by the simulator: an LRU list with a capacity and
    hit and miss counters, and the stack property of LRU. */
module Lru {
  import opened Types

  // --------------------------------------------------- most recently used names

  function Remove<X(==)>(s: seq<X>, x: X): seq<X> {
    if s == [] then [] else if s[0] == x then s[1..] else [s[0]] + Remove(s[1..], x)
  }

  function Take<X>(s: seq<X>, k: nat): seq<X> {
    if k <= |s| then s[..k] else s
  }

  /** The distinct names of a trace, the most recently used first. */
  ghost function Recent<X>(trace: seq<X>): seq<X> {
    if trace == [] then [] else
      var last := trace[|trace| - 1];
      [last] + Remove(Recent(trace[..|trace| - 1]), last)
  }

  lemma {:induction false} RemoveMembers<X>(s: seq<X>, x: X)
    requires Distinct(s)
    ensures Distinct(Remove(s, x))
    ensures forall y :: y in Remove(s, x) <==> y in s && y != x
    ensures |Remove(s, x)| == if x in s then |s| - 1 else |s|
  {
    if s == [] {
    } else {
      DistinctTail(s);
      assert forall y :: y in s <==> y == s[0] || y in s[1..];
      RemoveMembers(s[1..], x);
    }
  }

  lemma {:induction false} RecentIsTrace<X>(trace: seq<X>)
    ensures Distinct(Recent(trace))
    ensures forall x :: x in Recent(trace) <==> x in trace
  {
    if trace != [] {
      var init, last := trace[..|trace| - 1], trace[|trace| - 1];
      RecentIsTrace(init);
      RemoveMembers(Recent(init), last);
      assert trace == init + [last];
    }
  }

  /** Removing takes the name out of its position and leaves the others in order. */
  lemma {:induction false} RemoveAt<X>(s: seq<X>, i: nat)
    requires i < |s| && s[i] !in s[..i]
    ensures Remove(s, s[i]) == s[..i] + s[i + 1..]
  {
    if i > 0 {
      var t := s[1..];
      assert t[i - 1] == s[i] && t[..i - 1] == s[..i][1..] && s[0] == s[..i][0];
      RemoveAt(t, i - 1);
      assert s[..i] == [s[0]] + t[..i - 1] && s[i + 1..] == t[i..];
    }
  }

  /** Of two names the one nearer to the front was used last: there is a use of it after which the
      other does not occur. */
  lemma {:induction false} RecentOrder<X>(trace: seq<X>, i: nat, j: nat) returns (p: nat)
    requires i < j < |Recent(trace)|
    ensures p < |trace| && trace[p] == Recent(trace)[i] && Recent(trace)[j] !in trace[p..]
  {
    var init, last := trace[..|trace| - 1], trace[|trace| - 1];
    RecentIsTrace(init);
    RecentIsTrace(trace);
    assert Recent(trace)[0] == last != Recent(trace)[j];
    p := |init|;
    if i > 0 {
      var i', j' := RemovedFrom(Recent(init), last, i - 1, j - 1);
      p := RecentOrder(init, i', j');
      assert trace[p..] == init[p..] + [last];
    } else {
      assert trace[p..] == [last];
    }
  }

  /** Where two names were before the removal of a third. */
  lemma RemovedFrom<X>(s: seq<X>, x: X, i: nat, j: nat) returns (i': nat, j': nat)
    requires Distinct(s) && i < j < |Remove(s, x)|
    ensures i' < j' < |s| && s[i'] == Remove(s, x)[i] && s[j'] == Remove(s, x)[j]
  {
    i', j' := i, j;
    if k :| 0 <= k < |s| && s[k] == x {
      RemoveAt(s, k);
      i', j' := if i < k then i else i + 1, if j < k then j else j + 1;
    } else {
      RemoveAbsent(s, x);
    }
  }

  lemma DistinctTail<X>(s: seq<X>)
    requires Distinct(s) && s != []
    ensures Distinct(s[1..]) && s[0] !in s[1..]
  {
    assert forall i, j :: 0 <= i < j < |s[1..]| ==> s[1..][i] != s[1..][j];
  }

  /** Position by position: removing shifts only what lies behind the removed name. */
  lemma RemoveTake<X>(s: seq<X>, x: X, k: nat)
    requires Distinct(s)
    ensures x in Take(s, k) ==> Take(Remove(s, x), k - 1) == Remove(Take(s, k), x)
    ensures x !in Take(s, k) && k > 0 ==> Take(Remove(s, x), k - 1) == Take(s, k - 1)
  {
    hide Distinct;
    if x in Take(s, k) {
      RemoveWithin(s, x, k);
    } else if k > 0 {
      RemoveBeyond(s, x, k);
    }
  }

  lemma {:induction false} RemoveWithin<X>(s: seq<X>, x: X, k: nat)
    requires Distinct(s) && x in Take(s, k)
    ensures k > 0 && Take(Remove(s, x), k - 1) == Remove(Take(s, k), x)
  {
    hide Distinct;
    var t := s[1..];
    DistinctTail(s);
    assert Take(s, k) == [s[0]] + Take(t, k - 1);
    if s[0] != x {
      RemoveWithin(t, x, k - 1);
      assert Take(Remove(s, x), k - 1) == [s[0]] + Take(Remove(t, x), k - 2);
    }
  }

  lemma {:induction false} RemoveBeyond<X>(s: seq<X>, x: X, k: nat)
    requires k > 0 && x !in Take(s, k)
    ensures Take(Remove(s, x), k - 1) == Take(s, k - 1)
  {
    if s != [] && k > 1 {
      var t := s[1..];
      assert Take(s, k) == [s[0]] + Take(t, k - 1);
      RemoveBeyond(t, x, k - 1);
      assert Take(s, k - 1) == [s[0]] + Take(t, k - 2);
      assert Take(Remove(s, x), k - 1) == [s[0]] + Take(Remove(t, x), k - 2);
    }
  }

  /** The content of an LRU cache of the given size, zero or less meaning unbounded. */
  ghost function Content<X>(trace: seq<X>, size: int): seq<X> {
    if size > 0 then Take(Recent(trace), size) else Recent(trace)
  }

  /** One use of `x`: a hit moves it to the front, a miss may push out the last name. */
  function Touch<X(==)>(cache: seq<X>, size: int, x: X): seq<X> {
    if x in cache then [x] + Remove(cache, x)
    else if size > 0 && |cache| >= size then [x] + cache[..size - 1]
    else [x] + cache
  }

  /** A cache that starts empty holds exactly the most recently used names. */
  lemma TouchIsContent<X>(trace: seq<X>, size: int, x: X)
    ensures Touch(Content(trace, size), size, x) == Content(trace + [x], size)
  {
    var r := Recent(trace);
    RecentIsTrace(trace);
    assert (trace + [x])[..|trace|] == trace;
    assert Recent(trace + [x]) == [x] + Remove(r, x);
    if size > 0 {
      RemoveTake(r, x, size);
      RemoveMembers(r, x);
      assert Take([x] + Remove(r, x), size) == [x] + Take(Remove(r, x), size - 1);
      if x !in Take(r, size) {
        if |r| >= size {
          assert Take(r, size)[..size - 1] == Take(r, size - 1);
        } else {
          assert Take(r, size) == r && Take(r, size - 1) == r;
        }
      }
    } else {
      RemoveAbsent(r, x);
    }
  }

  lemma {:induction false} RemoveAbsent<X>(s: seq<X>, x: X)
    ensures x !in s ==> Remove(s, x) == s
  {
    if s != [] {
      RemoveAbsent(s[1..], x);
    }
  }

  /** How often a cache of this size misses along the trace. */
  ghost function Misses<X>(trace: seq<X>, size: int): nat {
    if trace == [] then 0 else
      var init := trace[..|trace| - 1];
      Misses(init, size) + if trace[|trace| - 1] in Content(init, size) then 0 else 1
  }

  /** Stack property: the content of a cache is a prefix of the content of a larger one. */
  lemma ContentInclusion<X>(trace: seq<X>, size: int, larger: int)
    requires 0 < size && (larger <= 0 || size <= larger)
    ensures Content(trace, size) <= Content(trace, larger)
  {
  }

  /** No anomaly: a larger cache never misses more often. */
  lemma {:induction false} MissesMonotone<X>(trace: seq<X>, size: int, larger: int)
    requires 0 < size && (larger <= 0 || size <= larger)
    ensures Misses(trace, larger) <= Misses(trace, size)
  {
    if trace != [] {
      var init := trace[..|trace| - 1];
      MissesMonotone(init, size, larger);
      ContentInclusion(init, size, larger);
      var a, b := Content(init, size), Content(init, larger);
      assert forall x :: x in a ==> x in b by {
        assert forall i :: 0 <= i < |a| ==> a[i] == b[i];
      }
    }
  }

  /** An unbounded cache misses once for every distinct name, and no cache misses less. */
  lemma {:induction false} MissesUnbounded<X>(trace: seq<X>)
    ensures Misses(trace, 0) == |Recent(trace)|
  {
    if trace != [] {
      var init, last := trace[..|trace| - 1], trace[|trace| - 1];
      MissesUnbounded(init);
      RecentIsTrace(init);
      RemoveMembers(Recent(init), last);
    }
  }

  // ------------------------------------------------------------------ the cache

  class LruCache<T(==)> {
    /** The glib list, the most recently used element first. */
    var queue: seq<T>
    const maxSize: int
    var size: nat
    var hitCount: nat
    var missCount: nat
    /** The accesses so far. */
    ghost var trace: seq<T>

    ghost predicate Valid()
      reads this
    {
      && queue == Content(trace, maxSize)
      && size == |queue|
      && missCount == Misses(trace, maxSize)
      && hitCount + missCount == |trace|
    }

    constructor (size: int)
      ensures Valid() && maxSize == size && trace == []
    {
      queue, maxSize, this.size := [], size, 0;
      hitCount, missCount, trace := 0, 0, [];
    }

    /** `lru_cache_lookup`: a hit moves the element to the front. */
    method Lookup(x: T) returns (hit: bool)
      modifies this`queue, this`hitCount, this`missCount
      ensures hit <==> x in old(queue)
      ensures queue == if hit then [x] + Remove(old(queue), x) else old(queue)
      ensures hitCount == old(hitCount) + if hit then 1 else 0
      ensures missCount == old(missCount) + if hit then 0 else 1
    {
      hit := x in queue;
      if hit {
        queue := [x] + Remove(queue, x);
        hitCount := hitCount + 1;
      } else {
        missCount := missCount + 1;
      }
    }

    /** `lru_cache_insert` of an element that is not in the cache. */
    method Insert(x: T) returns (evicted: Option<T>)
      requires size == |queue| && (maxSize > 0 ==> |queue| <= maxSize)
      modifies this`queue, this`size
      ensures size == |queue|
      ensures if maxSize > 0 && |old(queue)| == maxSize
              then evicted == Some(old(queue)[maxSize - 1]) && queue == [x] + old(queue)[..maxSize - 1]
              else evicted == None && queue == [x] + old(queue)
    {
      evicted := None;
      if maxSize > 0 && size == maxSize {
        evicted := Some(queue[|queue| - 1]);
        queue := queue[..|queue| - 1];
        size := size - 1;
      }
      queue := [x] + queue;
      size := size + 1;
    }

    /** The simulator's access: look the address up, insert it if it is missing. */
    method Access(x: T) returns (hit: bool)
      requires Valid()
      modifies this
      ensures Valid() && trace == old(trace) + [x]
      ensures hit <==> x in Content(old(trace), maxSize)
      ensures missCount == old(missCount) + if hit then 0 else 1
    {
      TouchIsContent(trace, maxSize, x);
      RecentIsTrace(trace);
      assert (trace + [x])[..|trace|] == trace;
      hit := Lookup(x);
      if !hit {
        var evicted := Insert(x);
      } else {
        RemoveUnique(trace, maxSize, x);
      }
      trace := trace + [x];
    }
  }

  lemma RemoveUnique<X>(trace: seq<X>, size: int, x: X)
    requires x in Content(trace, size)
    ensures |[x] + Remove(Content(trace, size), x)| == |Content(trace, size)|
  {
    RecentIsTrace(trace);
    RemoveMembers(Content(trace, size), x);
  }
}
