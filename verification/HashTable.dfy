/** client/lib/htable.c: the chained hash table whose bucket index depends on the
    current number of buckets, with in-place growth. */
module HashTable {
  import opened Types

  /** What one key octet adds to the hash; the C expression is an `int` that may be
      negative before it is added to the unsigned 64-bit accumulator. */
  function Digit(c: Byte): int {
    if c < 57 then c as int - 48 else 10 + c as int - 65
  }

  /** The accumulator loop of `hash_index`, from octet `i` downwards. It stops early once
      the accumulator reaches the bucket count, and never looks at octet 0. */
  function HashFrom(key: Bytes, i: int, hash: nat, buckets: nat): nat
    requires i < |key|
    decreases i
  {
    if hash < buckets && i > 0
    then HashFrom(key, i - 1, (hash + hash * 16 + Digit(key[i])) % TWO64, buckets)
    else hash
  }

  /** The bucket that a key selects in a table of `buckets` buckets. The source masks with
      `buckets - 1`, which is the remainder because `buckets` is a power of two. */
  function Bucket(key: Bytes, buckets: nat): (index: nat)
    requires buckets > 0
    ensures index < buckets
  {
    HashFrom(key, |key| - 1, 0, buckets) % buckets
  }

  /** The octets count as the digits of base 17 that a hexadecimal numeral in the characters of the
      key would have, except that `9` counts 2, and that other octets count whatever the formula gives. */
  lemma DigitValues(c: Byte)
    ensures Digit(48) == 0 && Digit(56) == 8 && Digit(57) == 2 && Digit(65) == 10 && Digit(70) == 15
    ensures 48 <= c < 57 || 65 <= c <= 70 ==> 0 <= Digit(c) < 16
    ensures c < 255 && c != 56 ==> Digit(c + 1) == Digit(c) + 1
  {
  }

  /** A key as a numeral in base 17, its last octet being the most significant. */
  function Numeral(key: Bytes): int {
    if key == [] then 0 else 17 * Numeral(key[1..]) + Digit(key[0])
  }

  /** What 64 bits keep of a number. */
  function Low(n: int): nat {
    n % TWO64
  }

  /** What is kept of a sum does not depend on reducing it early. */
  lemma ReduceEarly(n: int, d: int)
    ensures (Low(n) + Low(n) * 16 + d) % TWO64 == Low(17 * n + d)
  {
    var q, r := n / TWO64, n % TWO64;
    assert n == q * TWO64 + r;
    SameRest(17 * r + d, 17 * q);
  }

  lemma SameRest(a: int, k: int)
    ensures (a + k * TWO64) % TWO64 == a % TWO64
  {
    var q, r := a / TWO64, a % TWO64;
    assert a + k * TWO64 == (q + k) * TWO64 + r;
    UniqueRest(a + k * TWO64, q + k, r);
  }

  lemma UniqueRest(a: int, q: int, r: int)
    requires a == q * TWO64 + r && 0 <= r < TWO64
    ensures a % TWO64 == r
  {
  }

  lemma NumeralTail(key: Bytes, i: nat)
    requires i < |key|
    ensures Numeral(key[i..]) == 17 * Numeral(key[i + 1..]) + Digit(key[i])
  {
    assert key[i..][1..] == key[i + 1..];
  }

  lemma HashStep(key: Bytes, i: nat, hash: nat, buckets: nat)
    requires 0 < i < |key| && hash < buckets
    ensures HashFrom(key, i, hash, buckets)
            == HashFrom(key, i - 1, (hash + hash * 16 + Digit(key[i])) % TWO64, buckets)
  {
  }

  /** The loop stops at the shortest tail of the key whose numeral reaches the bucket count, and at
      the latest before octet 0. */
  lemma {:induction false} HashIsNumeral(key: Bytes, i: nat, buckets: nat) returns (p: nat)
    requires i < |key|
    ensures 1 <= p <= i + 1
    ensures HashFrom(key, i, Low(Numeral(key[i + 1..])), buckets) == Low(Numeral(key[p..]))
    ensures p == 1 || buckets <= Low(Numeral(key[p..]))
    ensures forall q :: p < q <= i + 1 ==> Low(Numeral(key[q..])) < buckets
  {
    hide Low, Numeral, Digit;
    p := i + 1;
    var hash := Low(Numeral(key[i + 1..]));
    if hash < buckets && i > 0 {
      hide HashFrom;
      HashStep(key, i, hash, buckets);
      NumeralTail(key, i);
      ReduceEarly(Numeral(key[i + 1..]), Digit(key[i]));
      p := HashIsNumeral(key, i - 1, buckets);
    }
  }

  /** The bucket of a key, from the definition of the numeral alone. */
  lemma BucketIsNumeral(key: Bytes, buckets: nat) returns (p: nat)
    requires buckets > 0 && key != []
    ensures 1 <= p <= |key| && Bucket(key, buckets) == Numeral(key[p..]) % TWO64 % buckets
    ensures p == 1 || buckets <= Numeral(key[p..]) % TWO64
    ensures forall q :: p < q <= |key| ==> Numeral(key[q..]) % TWO64 < buckets
  {
    assert Numeral(key[|key|..]) == 0;
    hide HashFrom, Numeral, Bucket;
    p := HashIsNumeral(key, |key| - 1, buckets);
    BucketLow(key, p, buckets);
  }

  lemma BucketLow(key: Bytes, p: nat, buckets: nat)
    requires buckets > 0 && key != [] && p <= |key|
    requires HashFrom(key, |key| - 1, 0, buckets) == Low(Numeral(key[p..]))
    ensures Bucket(key, buckets) == Numeral(key[p..]) % TWO64 % buckets
  {
    hide HashFrom, Numeral;
  }

  /** Octet 0 never matters. */
  lemma BucketIgnoresFirst(key: Bytes, other: Bytes, buckets: nat)
    requires buckets > 0 && key != [] && other != [] && key[1..] == other[1..]
    ensures Bucket(key, buckets) == Bucket(other, buckets)
  {
    HashIgnoresFirst(key, other, |key| - 1, 0, buckets);
  }

  lemma {:induction false} HashIgnoresFirst(key: Bytes, other: Bytes, i: nat, hash: nat, buckets: nat)
    requires i < |key| && other != [] && key[1..] == other[1..]
    ensures i < |other| && HashFrom(key, i, hash, buckets) == HashFrom(other, i, hash, buckets)
  {
    assert |key[1..]| == |key| - 1 && |other[1..]| == |other| - 1;
    if i > 0 {
      assert key[i] == key[1..][i - 1] == other[i];
      HashIgnoresFirst(key, other, i - 1, (hash + hash * 16 + Digit(key[i])) % TWO64, buckets);
    }
  }

  class HLink<T> {
    var key: Bytes
    var next: HLink?<T>
    const item: T

    constructor (item: T)
      ensures this.item == item && next == null && key == []
    {
      this.item := item;
      key, next := [], null;
    }
  }

  ghost predicate Within<X>(s: seq<X>, all: set<X>) {
    forall x :: x in s ==> x in all
  }

  /** `s` is the chain of links that starts at `head`. */
  ghost predicate IsChain<T>(head: HLink?<T>, s: seq<HLink<T>>)
    reads s
  {
    && (if s == [] then head == null else head == s[0])
    && forall i {:trigger s[i].next} :: 0 <= i < |s| ==> s[i].next == if i + 1 < |s| then s[i + 1] else null
  }

  /** `s` is the duplicate-free chain from `head`, made of items whose keys select `b`. */
  ghost predicate BucketOk<T>(head: HLink?<T>, s: seq<HLink<T>>, items: set<HLink<T>>, b: nat, buckets: nat)
    requires buckets > 0
    reads s
  {
    && Distinct(s)
    && IsChain(head, s)
    && forall n :: n in s ==> n in items && Bucket(n.key, buckets) == b
  }

  /** The item `n` is in the chain that its key selects. */
  ghost predicate AtHome<T>(n: HLink<T>, chains: seq<seq<HLink<T>>>, hashlength: nat)
    requires |chains| > 0
    reads n`key
  {
    |n.key| == hashlength && n in chains[Bucket(n.key, |chains|)]
  }

  // ------------------------------------------------------------------ as a map

  /** The items stand for the map `m`: no two have the same key. The table does not insist on
      it, its users do. */
  ghost predicate Maps<T>(m: map<Bytes, HLink<T>>, items: set<HLink<T>>)
    reads items
  {
    && (forall n :: n in items ==> n.key in m && m[n.key] == n)
    && forall k :: k in m ==> m[k] in items && m[k].key == k
  }

  lemma MapsWith<T>(m: map<Bytes, HLink<T>>, was: set<HLink<T>>, hp: HLink<T>)
    requires Maps(m, was) && hp.key !in m
    ensures Maps(m[hp.key := hp], was + {hp})
  {
  }

  lemma MapsWithout<T>(m: map<Bytes, HLink<T>>, was: set<HLink<T>>, hp: HLink<T>)
    requires Maps(m, was) && hp in was
    ensures hp.key in m && m[hp.key] == hp && Maps(m - {hp.key}, was - {hp})
  {
  }

  lemma MapsSame<T>(m: map<Bytes, HLink<T>>, items: set<HLink<T>>, key: Bytes)
    requires Maps(m, items) && forall n :: n in items ==> n.key != key
    ensures key !in m && m - {key} == m
  {
  }

  /** A set of items with pairwise different keys stands for exactly one map. */
  lemma MapsOne<T>(items: set<HLink<T>>) returns (m: map<Bytes, HLink<T>>)
    requires forall a, b :: a in items && b in items && a.key == b.key ==> a == b
    ensures Maps(m, items) && forall other :: Maps(other, items) ==> other == m
  {
    m := map n | n in items :: n.key := n;
    forall other | Maps(other, items)
      ensures other == m
    {
      assert forall k :: k in other ==> k in m && m[k] == other[k];
      assert forall k :: k in m ==> k in other;
    }
  }

  // ---------------------------------------------------------------- chain lemmas

  lemma PushFront<T>(hp: HLink<T>, head: HLink?<T>, s: seq<HLink<T>>, items: set<HLink<T>>, b: nat, buckets: nat)
    requires buckets > 0 && BucketOk(head, s, items, b, buckets)
    requires hp.next == head && hp !in items && Bucket(hp.key, buckets) == b
    ensures BucketOk(hp, [hp] + s, items + {hp}, b, buckets)
  {
  }

  lemma BucketGrows<T>(head: HLink?<T>, s: seq<HLink<T>>, items: set<HLink<T>>, more: set<HLink<T>>, b: nat,
                       buckets: nat)
    requires buckets > 0 && BucketOk(head, s, items, b, buckets) && items <= more
    ensures BucketOk(head, s, more, b, buckets)
  {
  }

  lemma HomeGrows<T>(n: HLink<T>, chains: seq<seq<HLink<T>>>, hashlength: nat, b: nat, hp: HLink<T>)
    requires b < |chains| && AtHome(n, chains, hashlength)
    ensures AtHome(n, chains[b := [hp] + chains[b]], hashlength)
  {
  }

  lemma BucketShrinks<T>(head: HLink?<T>, s: seq<HLink<T>>, items: set<HLink<T>>, b: nat, buckets: nat, hp: HLink<T>)
    requires buckets > 0 && BucketOk(head, s, items, b, buckets) && hp !in s
    ensures BucketOk(head, s, items - {hp}, b, buckets)
  {
  }

  lemma HomeShrinks<T>(n: HLink<T>, chains: seq<seq<HLink<T>>>, hashlength: nat, b: nat, i: nat)
    requires b < |chains| && i < |chains[b]| && AtHome(n, chains, hashlength) && n != chains[b][i]
    ensures AtHome(n, chains[b := chains[b][..i] + chains[b][i + 1..]], hashlength)
  {
    var s := chains[b];
    if n in s {
      var k :| 0 <= k < |s| && s[k] == n;
      assert (s[..i] + s[i + 1..])[if k < i then k else k - 1] == n;
    }
  }

  /** Bypassing element `i` of a chain leaves a chain of the other elements. */
  lemma ChainWithout<T>(head: HLink?<T>, s: seq<HLink<T>>, i: nat, items: set<HLink<T>>, b: nat, buckets: nat)
    requires buckets > 0 && i < |s| && Distinct(s)
    requires forall n :: n in s ==> n in items && Bucket(n.key, buckets) == b
    requires head == if i > 0 then s[0] else s[0].next
    requires forall k {:trigger s[k].next} :: 0 <= k < |s| && k + 1 != i ==>
               s[k].next == if k + 1 < |s| then s[k + 1] else null
    requires i > 0 ==> s[i - 1].next == s[i].next
    ensures BucketOk(head, s[..i] + s[i + 1..], items - {s[i]}, b, buckets)
  {
    hide Bucket;
    var t := s[..i] + s[i + 1..];
    forall k | 0 <= k < |t|
      ensures t[k] in s && t[k] != s[i]
    {
      assert t[k] == s[if k < i then k else k + 1];
    }
    forall k | 0 <= k < |t|
      ensures t[k].next == if k + 1 < |t| then t[k + 1] else null
    {
      if k + 1 < i {
        assert t[k] == s[k];
      } else if k + 1 == i {
        assert t[k] == s[k] && s[i].next == if i + 1 < |s| then s[i + 1] else null;
      } else {
        assert t[k] == s[k + 1];
      }
    }
  }

  lemma NewHome<T>(hp: HLink<T>, chains: seq<seq<HLink<T>>>, hashlength: nat, b: nat)
    requires b < |chains| && |hp.key| == hashlength && Bucket(hp.key, |chains|) == b
    ensures AtHome(hp, chains[b := [hp] + chains[b]], hashlength)
  {
  }

  /** All buckets from `b` on, one after another: the order in which a walk visits items. */
  ghost function Flatten<X>(chains: seq<seq<X>>, b: nat): seq<X>
    requires b <= |chains|
    decreases |chains| - b
  {
    if b == |chains| then [] else chains[b] + Flatten(chains, b + 1)
  }

  lemma FlattenMember<X>(chains: seq<seq<X>>, b: nat, x: X)
    requires b <= |chains|
    ensures x in Flatten(chains, b) <==> exists c :: b <= c < |chains| && x in chains[c]
    decreases |chains| - b
  {
    if b < |chains| {
      FlattenMember(chains, b + 1, x);
    }
  }

  lemma FlattenDistinct<X>(chains: seq<seq<X>>, b: nat)
    requires b <= |chains|
    requires forall c :: 0 <= c < |chains| ==> Distinct(chains[c])
    requires forall c, d, x :: 0 <= c < d < |chains| && x in chains[c] ==> x !in chains[d]
    ensures Distinct(Flatten(chains, b))
    decreases |chains| - b
  {
    if b < |chains| {
      FlattenDistinct(chains, b + 1);
      var front, rest := chains[b], Flatten(chains, b + 1);
      forall i, j | 0 <= i < |front| && 0 <= j < |rest|
        ensures front[i] != rest[j]
      {
        FlattenMember(chains, b + 1, rest[j]);
        assert front[i] in chains[b];
      }
    }
  }

  lemma FlattenSkipEmpty<X>(chains: seq<seq<X>>, b: nat, c: nat)
    requires b <= c <= |chains|
    requires forall d :: b <= d < c ==> chains[d] == []
    ensures Flatten(chains, b) == Flatten(chains, c)
    decreases c - b
  {
    if b < c {
      FlattenSkipEmpty(chains, b + 1, c);
    }
  }

  ghost predicate Succ<T>(nexts: map<HLink<T>, HLink?<T>>, s: seq<HLink<T>>) {
    forall i :: 0 <= i < |s| ==> s[i] in nexts && nexts[s[i]] == if i + 1 < |s| then s[i + 1] else null
  }

  lemma SuccessorAt<T>(nexts: map<HLink<T>, HLink?<T>>, s: seq<HLink<T>>, i: nat)
    requires Succ(nexts, s) && i < |s|
    ensures s[i] in nexts && nexts[s[i]] == if i + 1 < |s| then s[i + 1] else null
  {
  }

  /** A walk stands on `item`, the element `pos` of chain `w - 1`, with `rest` still to come
      (`item` included); or it is over. */
  ghost predicate WalkAt<T>(chains: seq<seq<HLink<T>>>, w: nat, item: HLink?<T>, pos: nat, rest: seq<HLink<T>>) {
    && w <= |chains|
    && (item == null ==> rest == [])
    && (item != null ==>
          && w >= 1
          && pos < |chains[w - 1]|
          && item == chains[w - 1][pos]
          && rest == chains[w - 1][pos..] + Flatten(chains, w))
  }

  /** The next nonempty chain after skipping empty ones, or none. */
  ghost predicate Skipped<T>(chains: seq<seq<HLink<T>>>, from: nat, w: nat, item: HLink?<T>) {
    && from <= w <= |chains|
    && (forall c :: from <= c < (if item != null then w - 1 else w) ==> chains[c] == [])
    && (if item == null then w == |chains| else from < w && chains[w - 1] != [] && item == chains[w - 1][0])
  }

  lemma WalkStart<T>(chains: seq<seq<HLink<T>>>, from: nat, w: nat, item: HLink?<T>)
    requires Skipped(chains, from, w, item)
    ensures WalkAt(chains, w, item, 0, Flatten(chains, from))
  {
    FlattenSkipEmpty(chains, from, if item != null then w - 1 else w);
  }

  lemma WalkHead<T>(chains: seq<seq<HLink<T>>>, w: nat, item: HLink<T>, pos: nat, rest: seq<HLink<T>>)
    returns (chain: seq<HLink<T>>)
    requires WalkAt(chains, w, item, pos, rest)
    ensures rest != [] && rest[0] == item
    ensures 1 <= w <= |chains| && chain == chains[w - 1] && pos < |chain| && chain[pos] == item
  {
    chain := chains[w - 1];
  }

  lemma WalkAlong<T>(chains: seq<seq<HLink<T>>>, w: nat, item: HLink<T>, pos: nat, rest: seq<HLink<T>>)
    requires WalkAt(chains, w, item, pos, rest) && w >= 1 && pos + 1 < |chains[w - 1]|
    ensures WalkAt(chains, w, chains[w - 1][pos + 1], pos + 1, rest[1..])
  {
    assert rest[1..] == chains[w - 1][pos + 1..] + Flatten(chains, w);
  }

  lemma WalkOver<T>(chains: seq<seq<HLink<T>>>, from: nat, w: nat, item: HLink?<T>, pos: nat, rest: seq<HLink<T>>)
    requires 1 <= from <= |chains| && pos + 1 == |chains[from - 1]|
    requires WalkAt(chains, from, chains[from - 1][pos], pos, rest)
    requires WalkAt(chains, w, item, 0, Flatten(chains, from))
    ensures WalkAt(chains, w, item, 0, rest[1..])
  {
    assert rest[1..] == Flatten(chains, from);
  }

  lemma WalkStep<T>(chains: seq<seq<HLink<T>>>, from: nat, w: nat, was: HLink<T>, item: HLink?<T>, pos: nat,
                    rest: seq<HLink<T>>)
    returns (newPos: nat)
    requires WalkAt(chains, from, was, pos, rest)
    requires if pos + 1 < |chains[from - 1]| then item == chains[from - 1][pos + 1] && w == from
             else Skipped(chains, from, w, item)
    ensures rest != [] && WalkAt(chains, w, item, newPos, rest[1..])
  {
    if pos + 1 < |chains[from - 1]| {
      WalkAlong(chains, from, was, pos, rest);
      newPos := pos + 1;
    } else {
      WalkStart(chains, from, w, item);
      WalkOver(chains, from, w, item, pos, rest);
      newPos := 0;
    }
  }

  lemma WalkEnd<T>(chains: seq<seq<HLink<T>>>, w: nat, pos: nat, rest: seq<HLink<T>>)
    requires WalkAt(chains, w, null, pos, rest)
    ensures rest == [] && Elems(rest) == {}
  {
  }

  lemma DropFirst<X>(s: seq<X>)
    requires s != [] && Distinct(s)
    ensures Distinct(s[1..]) && Elems(s[1..]) == Elems(s) - {s[0]} && s[0] in Elems(s)
  {
    forall x
      ensures x in Elems(s[1..]) <==> x in Elems(s) && x != s[0]
    {
      if x in s && x != s[0] {
        var i :| 0 <= i < |s| && s[i] == x;
        assert s[1..][i - 1] == x;
      }
    }
  }

  /** The sizing loop of `init`: the smallest power of two above a quarter of the hint. */
  method TableSize(tsize: nat) returns (size: nat, exponent: nat)
    ensures size == Pow2(exponent)
    ensures tsize / 4 < size && (size == 1 || size <= 2 * (tsize / 4))
  {
    var t := tsize / 4;
    exponent, size := 0, 1;
    while t != 0
      invariant size == Pow2(exponent)
      invariant t * size <= tsize / 4 < (t + 1) * size
      invariant size == 1 || size <= 2 * (tsize / 4)
      decreases t
    {
      HalveStep(t, size, tsize / 4);
      t, exponent, size := t / 2, exponent + 1, 2 * size;
    }
  }

  class HTable<T> {
    var table: array<HLink?<T>>
    var hashlength: nat
    var numItems: nat
    var maxItems: nat
    var buckets: nat
    var mask: nat
    var walkPtr: HLink?<T>
    var walkIndex: nat

    /** The abstract value: the items now in the table. */
    ghost var items: set<HLink<T>>
    /** The chain of each bucket. */
    ghost var chains: seq<seq<HLink<T>>>
    ghost var pwr: nat

    ghost predicate Shape()
      reads this`table, this`hashlength, this`numItems, this`maxItems, this`buckets, this`mask, this`items,
      this`chains, this`pwr
    {
      && buckets > 0
      && buckets == Pow2(pwr)
      && mask == buckets - 1
      && maxItems == 4 * buckets
      && table.Length == buckets
      && |chains| == buckets
      && numItems == |items|
      && (forall b :: 0 <= b < buckets ==> Within(chains[b], items))
    }

    ghost predicate Placed()
      requires Shape()
      reads this`table, this`hashlength, this`numItems, this`maxItems, this`buckets, this`mask, this`items,
      this`chains, this`pwr, table, items
    {
      && (forall b :: 0 <= b < buckets ==> BucketOk(table[b], chains[b], items, b, buckets))
      && (forall n :: n in items ==> AtHome(n, chains, hashlength))
    }

    /** Representation invariant, without the bound that growth re-establishes. */
    ghost predicate Linked()
      reads this`table, this`hashlength, this`numItems, this`maxItems, this`buckets, this`mask, this`items,
      this`chains, this`pwr, table, items
    {
      Shape() && Placed()
    }

    ghost predicate Valid()
      reads this`table, this`hashlength, this`numItems, this`maxItems, this`buckets, this`mask, this`items,
      this`chains, this`pwr, table, items
    {
      Linked() && numItems < maxItems
    }

    constructor (nhlen: nat, tsize: nat)
      ensures Valid() && items == {} && hashlength == nhlen && fresh(table)
      ensures tsize / 4 < buckets && (buckets == 1 || buckets <= 2 * (tsize / 4))
    {
      var size: nat, exponent: nat := TableSize(tsize);
      hashlength, pwr := nhlen, exponent;
      buckets, mask, maxItems := size, size - 1, 4 * size;
      numItems, items := 0, {};
      walkPtr, walkIndex := null, 0;
      table := new HLink?<T>[size](_ => null);
      chains := seq(size, _ => []);
    }

    /** The empty table that `grow_table` sets up. */
    constructor Sized(nhlen: nat, size: nat, ghost exponent: nat)
      requires size == Pow2(exponent)
      ensures Valid() && items == {} && hashlength == nhlen && fresh(table)
      ensures buckets == size && maxItems == 4 * size && numItems == 0
    {
      hashlength, pwr := nhlen, exponent;
      buckets, mask, maxItems := size, size - 1, 4 * size;
      numItems, items := 0, {};
      walkPtr, walkIndex := null, 0;
      table := new HLink?<T>[size](_ => null);
      chains := seq(size, _ => []);
    }

    method HashIndex(key: Bytes) returns (index: nat)
      requires buckets > 0
      ensures index == Bucket(key, buckets)
    {
      var hash: nat, i := 0, |key| - 1;
      while hash < buckets && i > 0
        invariant i < |key|
        invariant HashFrom(key, i, hash, buckets) == HashFrom(key, |key| - 1, 0, buckets)
        decreases i
      {
        hash, i := (hash + hash * 16 + Digit(key[i])) % TWO64, i - 1;
      }
      index := hash % buckets;
    }

    /** The linking half of `insert`: push `hp` on the front of its chain. */
    method Link(key: Bytes, hp: HLink<T>)
      requires Valid()
      requires hp !in items && |key| == hashlength
      modifies this`items, this`numItems, this`chains, table, hp
      ensures Linked()
      ensures items == old(items) + {hp} && hp.key == key
      ensures numItems == old(numItems) + 1
      ensures var b := Bucket(key, buckets); chains == old(chains)[b := [hp] + old(chains)[b]]
    {
      hide Bucket, Pow2, BucketOk, AtHome, Within;
      ghost var was, all := chains, items;
      var index := Push(key, hp);
      assert forall n :: n in all ==> AtHome(n, was, hashlength);
      numItems := numItems + 1;
      items := items + {hp};
      chains := was[index := [hp] + was[index]];
      PlacedWith(was, all, index, hp);
      Assemble();
    }

    method Push(key: Bytes, hp: HLink<T>) returns (index: nat)
      requires Linked() && hp !in items
      modifies table, hp
      ensures index == Bucket(key, buckets) && hp.key == key
      ensures BucketOk(hp, [hp] + chains[index], items + {hp}, index, buckets) && table[index] == hp
      ensures forall b :: 0 <= b < buckets && b != index ==> BucketOk(table[b], chains[b], items, b, buckets)
    {
      hide Bucket, Pow2, BucketOk, AtHome, Within;
      index := HashIndex(key);
      Excluded(hp);
      ghost var n := buckets;
      hp.next, hp.key := table[index], key;
      assert forall b :: 0 <= b < n ==> BucketOk(table[b], chains[b], items, b, n);
      PushFront(hp, table[index], chains[index], items, index, n);
      table[index] := hp;
    }

    lemma Excluded(hp: HLink<T>)
      requires Linked() && hp !in items
      ensures forall b :: 0 <= b < buckets ==> hp !in chains[b]
    {
      forall b | 0 <= b < buckets
        ensures hp !in chains[b]
      {
        assert BucketOk(table[b], chains[b], items, b, buckets);
      }
    }

    lemma PlacedWith(was: seq<seq<HLink<T>>>, all: set<HLink<T>>, index: nat, hp: HLink<T>)
      requires |was| == |chains| == buckets == table.Length && index < buckets
      requires items == all + {hp} && chains == was[index := [hp] + was[index]]
      requires BucketOk(table[index], chains[index], items, index, buckets)
      requires forall b :: 0 <= b < buckets && b != index ==> BucketOk(table[b], was[b], all, b, buckets)
      requires forall n :: n in all ==> AtHome(n, was, hashlength)
      requires |hp.key| == hashlength && Bucket(hp.key, buckets) == index
      ensures forall b :: 0 <= b < buckets ==> BucketOk(table[b], chains[b], items, b, buckets)
      ensures forall n :: n in items ==> AtHome(n, chains, hashlength)
    {
      hide BucketOk, AtHome, Within, Bucket;
      forall b | 0 <= b < buckets && b != index
        ensures BucketOk(table[b], chains[b], items, b, buckets)
      {
        BucketGrows(table[b], was[b], all, items, b, buckets);
      }
      forall n | n in items
        ensures AtHome(n, chains, hashlength)
      {
        if n != hp {
          HomeGrows(n, was, hashlength, index, hp);
        } else {
          NewHome(hp, was, hashlength, index);
        }
      }
    }

    method Insert(key: Bytes, hp: HLink<T>)
      requires Valid()
      requires numItems < maxItems && hp !in items && |key| == hashlength
      modifies this, table, items, hp
      ensures Valid()
      ensures items == old(items) + {hp} && hp.key == key
      ensures forall n :: n in old(items) ==> n.key == old(n.key)
      ensures hashlength == old(hashlength) && numItems == old(numItems) + 1
      ensures if old(numItems) + 1 == old(maxItems) then fresh(table)
              else table == old(table) && maxItems == old(maxItems)
      ensures buckets == if old(numItems) + 1 == old(maxItems) then 2 * old(buckets) else old(buckets)
      decreases if numItems + 1 >= maxItems then 1 else 0, 1
    {
      hide Bucket, Pow2, BucketOk, AtHome, Within;
      Link(key, hp);
      if numItems >= maxItems {
        GrowTable();
      }
    }

    /** Rehash every item, relinking it in place, into a table of twice the size. */
    method GrowTable()
      requires Linked() && numItems == maxItems
      modifies this, table, items
      ensures Valid()
      ensures items == old(items) && numItems == old(numItems) && buckets == 2 * old(buckets)
      ensures forall n :: n in items ==> n.key == old(n.key)
      ensures hashlength == old(hashlength)
      ensures fresh(table)
      decreases 1, 0
    {
      assert 2 * buckets == Pow2(pwr + 1);
      assert maxItems == 4 * buckets;
      hide Bucket, Pow2, Shape, Placed, Linked, Valid;
      var big := new HTable<T>.Sized(hashlength, buckets * 2, pwr + 1);
      Rehash(big);
      TakeOver(big);
    }

    /** The final copy of `grow_table`: "move everything across". */
    method TakeOver(big: HTable<T>)
      requires big != this && big.Valid()
      modifies this
      ensures Valid()
      ensures items == big.items && numItems == big.numItems && buckets == big.buckets
      ensures hashlength == big.hashlength && table == big.table
    {
      hide Bucket, Pow2, BucketOk, AtHome, Within, Shape, Placed, Linked, Valid;
      big.Parts();
      table, mask, buckets, maxItems, numItems := big.table, big.mask, big.buckets, big.maxItems, big.numItems;
      hashlength, walkPtr, walkIndex := big.hashlength, big.walkPtr, big.walkIndex;
      items, chains, pwr := big.items, big.chains, big.pwr;
      Assemble();
    }

    /** The copying loop of `grow_table`: it saves each link before `insert` overwrites it. */
    method Rehash(big: HTable<T>)
      requires Linked() && big != this && big.table != table
      requires big.Valid() && big.items == {} && big.numItems == 0 && big.hashlength == hashlength
      requires big.buckets == 2 * buckets && numItems < big.maxItems
      modifies this`walkPtr, this`walkIndex, big, big.table, items
      ensures big.Valid() && big.items == items && big.numItems == numItems
      ensures big.hashlength == hashlength && big.buckets == old(big.buckets) && big.table == old(big.table)
      ensures forall n :: n in items ==> n.key == old(n.key)
      decreases 0, 3
    {
      hide Bucket, Pow2, BucketOk, AtHome, Within, Flatten, Distinct, WalkAt, Succ, Elems, Skipped, Shape, Placed,
           Linked, Valid;
      ghost var nexts := map n | n in items :: n.next;
      WalkOrder();
      ChainSuccessors(nexts);
      Counts();
      ghost var pos := 0;
      var item := First();
      ghost var rest := Flatten(chains, 0);
      WalkStart(chains, 0, walkIndex, item);
      while item != null
        invariant big.Valid() && big.table == old(big.table) && big.hashlength == hashlength
        invariant big.buckets == old(big.buckets) && big.maxItems == old(big.maxItems)
        invariant Moving(big, rest) && Unmoved(nexts, rest)
        invariant forall n :: n in items ==> n.key == old(n.key)
        invariant WalkAt(chains, walkIndex, item, pos, rest)
        decreases |rest|
      {
        item, pos := MoveOne(big, item, nexts, pos, rest);
        rest := rest[1..];
      }
      WalkEnd(chains, walkIndex, pos, rest);
    }

    /** The items still to be moved are `rest`, and they are not in the new table. */
    ghost predicate Moving(big: HTable<T>, rest: seq<HLink<T>>)
      reads this`items, this`numItems, big`items, big`numItems
    {
      && big.numItems + |rest| == numItems
      && Elems(rest) <= items && big.items == items - Elems(rest)
      && Distinct(rest)
    }

    /** The links still to be moved are as they were. */
    ghost predicate Unmoved(nexts: map<HLink<T>, HLink?<T>>, rest: seq<HLink<T>>)
      reads rest
    {
      forall n :: n in Elems(rest) ==> n in nexts && n.next == nexts[n]
    }

    /** Move one item into the new table, which overwrites its link. */
    method MoveOne(big: HTable<T>, item: HLink<T>, ghost nexts: map<HLink<T>, HLink?<T>>, ghost pos: nat,
                   ghost rest: seq<HLink<T>>)
      returns (following: HLink?<T>, ghost newPos: nat)
      requires big != this && big.table != table && table.Length == buckets == |chains|
      requires big.Valid() && big.hashlength == hashlength && numItems < big.maxItems
      requires forall n :: n in items ==> |n.key| == hashlength
      requires forall c :: 0 <= c < buckets ==> if chains[c] == [] then table[c] == null else table[c] == chains[c][0]
      requires forall b :: 0 <= b < buckets ==> Succ(nexts, chains[b])
      requires Moving(big, rest) && Unmoved(nexts, rest)
      requires WalkAt(chains, walkIndex, item, pos, rest)
      modifies this`walkPtr, this`walkIndex, big, big.table, items
      ensures big.Valid() && big.table == old(big.table) && big.hashlength == hashlength
      ensures big.buckets == old(big.buckets) && big.maxItems == old(big.maxItems)
      ensures rest != [] && Moving(big, rest[1..]) && Unmoved(nexts, rest[1..])
      ensures forall n :: n in items ==> n.key == old(n.key)
      ensures WalkAt(chains, walkIndex, following, newPos, rest[1..])
      decreases 0, 2
    {
      hide Bucket, Pow2, BucketOk, AtHome, Within, Flatten, Distinct, WalkAt, Succ, Elems, Skipped, Shape, Placed,
           Linked, Valid;
      ghost var chain := WalkHead(chains, walkIndex, item, pos, rest);
      DropFirst(rest);
      SuccessorAt(nexts, chain, pos);
      var ni := item.next;
      big.Insert(item.key, item);
      following, newPos := Advance(ni, item, pos, rest);
    }

    /** On to the saved link, or to the next nonempty bucket. */
    method Advance(ni: HLink?<T>, ghost item: HLink<T>, ghost pos: nat, ghost rest: seq<HLink<T>>)
      returns (following: HLink?<T>, ghost newPos: nat)
      requires table.Length == buckets == |chains|
      requires forall c :: 0 <= c < buckets ==> if chains[c] == [] then table[c] == null else table[c] == chains[c][0]
      requires WalkAt(chains, walkIndex, item, pos, rest)
      requires ni == if pos + 1 < |chains[walkIndex - 1]| then chains[walkIndex - 1][pos + 1] else null
      modifies this`walkPtr, this`walkIndex
      ensures rest != [] && WalkAt(chains, walkIndex, following, newPos, rest[1..])
    {
      ghost var from := walkIndex;
      if ni != null {
        following := ni;
      } else {
        walkPtr := null;
        following := Next();
      }
      newPos := WalkStep(chains, from, walkIndex, item, following, pos, rest);
    }

    lemma Counts()
      requires Linked()
      ensures numItems == |items| && maxItems == 4 * buckets && table.Length == buckets == |chains|
      ensures forall n :: n in items ==> |n.key| == hashlength
      ensures forall c :: 0 <= c < buckets ==> if chains[c] == [] then table[c] == null else table[c] == chains[c][0]
    {
      forall c | 0 <= c < buckets
        ensures if chains[c] == [] then table[c] == null else table[c] == chains[c][0]
      {
        assert BucketOk(table[c], chains[c], items, c, buckets);
      }
      assert forall n :: n in items ==> AtHome(n, chains, hashlength);
    }

    lemma ChainSuccessors(nexts: map<HLink<T>, HLink?<T>>)
      requires Linked() && nexts == map n | n in items :: n.next
      ensures forall b :: 0 <= b < buckets ==> Succ(nexts, chains[b])
    {
    }

    method First() returns (item: HLink?<T>)
      requires Linked()
      modifies this`walkPtr, this`walkIndex
      ensures walkPtr == item && Skipped(chains, 0, walkIndex, item)
    {
      assert forall b :: 0 <= b < buckets ==> IsChain(table[b], chains[b]);
      hide Bucket, Pow2, BucketOk, AtHome, Within;
      walkPtr := table[0];
      walkIndex := 1;
      while walkPtr == null && walkIndex < buckets
        invariant 1 <= walkIndex <= buckets
        invariant walkPtr != null ==> chains[walkIndex - 1] != [] && walkPtr == chains[walkIndex - 1][0]
        invariant forall c :: 0 <= c < (if walkPtr != null then walkIndex - 1 else walkIndex) ==> chains[c] == []
        decreases buckets - walkIndex
      {
        walkPtr := table[walkIndex];
        walkIndex := walkIndex + 1;
      }
      item := walkPtr;
    }

    /** Advance the walk. Only the links from the current item on matter, so the method may
        also run while `GrowTable` is dismantling the chains already walked. */
    method Next() returns (item: HLink?<T>)
      requires table.Length == buckets == |chains| && walkIndex <= buckets
      requires forall c :: walkIndex <= c < buckets ==>
               if chains[c] == [] then table[c] == null else table[c] == chains[c][0]
      modifies this`walkPtr, this`walkIndex
      ensures walkPtr == item
      ensures if old(walkPtr) != null && old(walkPtr).next != null
              then item == old(walkPtr).next && walkIndex == old(walkIndex)
              else Skipped(chains, old(walkIndex), walkIndex, item)
    {
      if walkPtr != null {
        walkPtr := walkPtr.next;
      }
      ghost var w := walkPtr;
      while walkPtr == null && walkIndex < buckets
        invariant old(walkIndex) <= walkIndex <= buckets
        invariant w != null ==> walkPtr == w && walkIndex == old(walkIndex)
        invariant w == null && walkPtr != null ==>
                    walkIndex > old(walkIndex) && chains[walkIndex - 1] != [] && walkPtr == chains[walkIndex - 1][0]
        invariant w == null ==>
                    forall c :: old(walkIndex) <= c < (if walkPtr != null then walkIndex - 1 else walkIndex) ==>
                        chains[c] == []
        decreases buckets - walkIndex
      {
        walkPtr := table[walkIndex];
        walkIndex := walkIndex + 1;
      }
      item := walkPtr;
    }

    /** A walk visits every item of the table exactly once. */
    lemma WalkOrder()
      requires Linked()
      ensures Distinct(Flatten(chains, 0))
      ensures Elems(Flatten(chains, 0)) == items && |Flatten(chains, 0)| == numItems
    {
      forall c, d, x | 0 <= c < d < buckets && x in chains[c]
        ensures x !in chains[d]
      {
        assert Bucket(x.key, buckets) == c;
      }
      FlattenDistinct(chains, 0);
      DistinctSize(Flatten(chains, 0));
      assert forall c :: 0 <= c < buckets ==> BucketOk(table[c], chains[c], items, c, buckets);
      forall n | n in items
        ensures n in Elems(Flatten(chains, 0))
      {
        FlattenMember(chains, 0, n);
        assert AtHome(n, chains, hashlength);
      }
      forall n | n in Elems(Flatten(chains, 0))
        ensures n in items
      {
        FlattenMember(chains, 0, n);
      }
    }

    /** The first item of the selected chain with this key, or none. */
    method Lookup(key: Bytes) returns (hp: HLink?<T>)
      requires Linked()
      ensures hp != null ==> hp in items && hp.key == key
      ensures hp == null ==> forall n :: n in items ==> n.key != key
      ensures forall m :: Maps(m, items) ==> hp == if key in m then m[key] else null
    {
      var index := HashIndex(key);
      ghost var chain := BucketChain(index);
      hide Bucket, Pow2, AtHome, Within, Shape, Placed, Linked, BucketOk;
      hp := table[index];
      ghost var i := 0;
      while hp != null
        invariant 0 <= i <= |chain|
        invariant hp == if i < |chain| then chain[i] else null
        invariant forall k :: 0 <= k < i ==> chain[k].key != key
        decreases |chain| - i
      {
        if hp.key == key {
          assert chain[i] in chain;
          return;
        }
        hp, i := hp.next, i + 1;
      }
      KeyOnlyIn(key, index);
    }

    /** `insert` as the users of the table call it, after a `lookup` that found nothing: the
        table stands for `m`, then for `m` with one more entry. */
    method InsertNew(key: Bytes, hp: HLink<T>, ghost m: map<Bytes, HLink<T>>)
      requires Valid() && Maps(m, items)
      requires hp !in items && |key| == hashlength && key !in m
      modifies this, table, items, hp
      ensures Valid() && Maps(m[key := hp], items) && hashlength == old(hashlength)
    {
      hide Bucket, Pow2, Shape, Placed, Linked;
      Insert(key, hp);
      assert Maps(m, old(items));
      MapsWith(m, old(items), hp);
    }

    /** `remove` from a table that stands for `m`: the entry is gone, and only it. */
    method RemoveKey(key: Bytes, ghost m: map<Bytes, HLink<T>>) returns (hp: HLink?<T>)
      requires Valid() && Maps(m, items)
      modifies this`items, this`numItems, this`chains, table, items
      ensures Valid() && Maps(m - {key}, items)
      ensures hp == if key in m then m[key] else null
    {
      hide Bucket, Pow2, Shape, Placed, Linked;
      hp := Remove(key);
      assert Maps(m, old(items));
      if hp == null {
        MapsSame(m, items, key);
      } else {
        MapsWithout(m, old(items), hp);
      }
    }

    /** Unlink the first item of the selected chain with this key, if there is one. */
    method Remove(key: Bytes) returns (hp: HLink?<T>)
      requires Valid()
      modifies this`items, this`numItems, this`chains, table, items
      ensures Valid()
      ensures hp == null ==> items == old(items) && forall n :: n in items ==> n.key != key
      ensures hp != null ==> hp in old(items) && hp.key == key && items == old(items) - {hp}
      ensures numItems == |items|
      ensures forall n :: n in old(items) ==> n.key == old(n.key)
    {
      var index := HashIndex(key);
      ghost var chain := BucketChain(index);
      hide Bucket, Pow2, AtHome, Within, Shape, Placed, Linked, BucketOk, IsChain, Distinct;
      var pre: HLink?<T>;
      ghost var i: nat;
      pre, hp, i := Find(table[index], chain, key);
      if hp != null {
        Unlink(index, pre, hp, i);
      } else {
        KeyOnlyIn(key, index);
        assert numItems == |items| by { Sizes(); }
      }
    }

    /** The search of `remove`, which keeps the link before the one it looks at. */
    method Find(head: HLink?<T>, ghost chain: seq<HLink<T>>, key: Bytes)
      returns (pre: HLink?<T>, hp: HLink?<T>, ghost i: nat)
      requires IsChain(head, chain) && Distinct(chain)
      ensures hp == null ==> forall k :: 0 <= k < |chain| ==> chain[k].key != key
      ensures hp != null ==>
                i < |chain| && hp == chain[i] && hp.key == key && pre == chain[if i > 0 then i - 1 else 0]
    {
      pre, hp, i := head, head, 0;
      while hp != null
        invariant 0 <= i <= |chain|
        invariant hp == if i < |chain| then chain[i] else null
        invariant i == 0 ==> pre == hp
        invariant i > 0 ==> pre == chain[i - 1]
        invariant forall k :: 0 <= k < i ==> chain[k].key != key
        decreases |chain| - i
      {
        if hp.key == key {
          return;
        }
        pre, hp, i := hp, hp.next, i + 1;
      }
    }

    /** The relinking step of `remove`. */
    method Unlink(index: nat, pre: HLink<T>, hp: HLink<T>, ghost i: nat)
      requires Valid() && index < buckets
      requires i < |chains[index]| && hp == chains[index][i] && pre == chains[index][if i > 0 then i - 1 else 0]
      modifies this`items, this`numItems, this`chains, table, pre`next
      ensures Valid()
      ensures items == old(items) - {hp} && numItems == |items|
    {
      ghost var was, all := chains, items;
      ghost var chain := BucketChain(index);
      InOneBucket(index, hp);
      Parts();
      hide Bucket, Pow2, AtHome, Within, BucketOk, IsChain, Distinct, Shape, Placed, Linked, Valid;
      Bypass(index, pre, hp, i);
      assert hp in chain;
      numItems := numItems - 1;
      items := items - {hp};
      chains := was[index := chain[..i] + chain[i + 1..]];
      PlacedWithout(was, all, index, i);
      Assemble();
    }

    /** The parts of the representation invariant, for proofs that keep the whole folded. */
    lemma Parts()
      requires Linked() || Valid()
      ensures buckets == Pow2(pwr) && mask == buckets - 1 && maxItems == 4 * buckets
      ensures table.Length == buckets == |chains| && numItems == |items| && (Valid() ==> numItems < maxItems)
      ensures forall b :: 0 <= b < buckets ==> BucketOk(table[b], chains[b], items, b, buckets)
      ensures forall n :: n in items ==> |n.key| == hashlength && AtHome(n, chains, hashlength)
    {
    }

    lemma Assemble()
      requires buckets == Pow2(pwr) && mask == buckets - 1 && maxItems == 4 * buckets
      requires table.Length == buckets == |chains| && numItems == |items|
      requires forall b :: 0 <= b < buckets ==> BucketOk(table[b], chains[b], items, b, buckets)
      requires forall n :: n in items ==> AtHome(n, chains, hashlength)
      ensures Linked() && (numItems < maxItems ==> Valid())
    {
      assert forall b :: 0 <= b < buckets ==> Within(chains[b], items);
    }

    lemma PlacedWithout(was: seq<seq<HLink<T>>>, all: set<HLink<T>>, index: nat, i: nat)
      requires |was| == |chains| == buckets == table.Length && index < buckets && i < |was[index]|
      requires items == all - {was[index][i]}
      requires chains == was[index := was[index][..i] + was[index][i + 1..]]
      requires BucketOk(table[index], chains[index], items, index, buckets)
      requires forall b :: 0 <= b < buckets && b != index ==>
               BucketOk(table[b], was[b], all, b, buckets) && was[index][i] !in was[b]
      requires forall n :: n in items ==> AtHome(n, was, hashlength)
      ensures forall b :: 0 <= b < buckets ==> BucketOk(table[b], chains[b], items, b, buckets)
      ensures forall n :: n in items ==> AtHome(n, chains, hashlength)
    {
      hide BucketOk, AtHome, Within;
      forall b | 0 <= b < buckets && b != index
        ensures BucketOk(table[b], chains[b], items, b, buckets)
      {
        BucketShrinks(table[b], was[b], all, b, buckets, was[index][i]);
      }
      forall m | m in items
        ensures AtHome(m, chains, hashlength)
      {
        HomeShrinks(m, was, hashlength, index, i);
      }
    }

    method Bypass(index: nat, pre: HLink<T>, hp: HLink<T>, ghost i: nat)
      requires Valid() && index < buckets
      requires i < |chains[index]| && hp == chains[index][i] && pre == chains[index][if i > 0 then i - 1 else 0]
      modifies table, pre`next
      ensures forall b :: 0 <= b < buckets && b != index ==> BucketOk(table[b], chains[b], items, b, buckets)
      ensures var s := chains[index][..i] + chains[index][i + 1..];
              BucketOk(table[index], s, items - {hp}, index, buckets)
    {
      ghost var chain := BucketChain(index);
      assert pre in chain;
      InOneBucket(index, pre);
      hide Bucket, Pow2, AtHome, Within, BucketOk, Distinct;
      if pre == hp {
        assert i == 0;
        table[index] := hp.next;
      } else {
        pre.next := hp.next;
      }
      ChainWithout(table[index], chain, i, items, index, buckets);
    }

    lemma BucketChain(index: nat) returns (chain: seq<HLink<T>>)
      requires Linked() && index < buckets
      ensures chain == chains[index] && IsChain(table[index], chain) && Distinct(chain)
      ensures forall n :: n in chain ==> n in items && Bucket(n.key, buckets) == index
    {
      chain := chains[index];
      assert BucketOk(table[index], chain, items, index, buckets);
    }

    lemma InOneBucket(index: nat, n: HLink<T>)
      requires Linked() && index < buckets && n in chains[index]
      ensures forall b :: 0 <= b < buckets && b != index ==> n !in chains[b]
    {
      forall b | 0 <= b < buckets && b != index
        ensures n !in chains[b]
      {
        assert BucketOk(table[b], chains[b], items, b, buckets)
            && BucketOk(table[index], chains[index], items, index, buckets);
      }
    }

    lemma KeyOnlyIn(key: Bytes, index: nat)
      requires Linked() && index == Bucket(key, buckets)
      requires forall k :: 0 <= k < |chains[index]| ==> chains[index][k].key != key
      ensures forall n :: n in items ==> n.key != key
    {
      forall n | n in items
        ensures n.key != key
      {
        assert AtHome(n, chains, hashlength);
      }
    }

    lemma Sizes()
      requires Linked()
      ensures numItems == |items| && maxItems == 4 * buckets
    {
    }

    /** The `foreach_htable` loop: `first`, then `next` until it answers null. */
    method Walk() returns (visited: seq<HLink<T>>)
      requires Linked()
      modifies this`walkPtr, this`walkIndex
      ensures Distinct(visited) && Elems(visited) == items && |visited| == numItems
    {
      hide Bucket, Pow2, BucketOk, AtHome, Within, Flatten, Distinct, WalkAt, Elems, Skipped, Shape, Placed;
      WalkOrder();
      ghost var all := Flatten(chains, 0);
      ghost var pos, rest := 0, all;
      visited := [];
      var item := First();
      WalkStart(chains, 0, walkIndex, item);
      while item != null
        invariant walkPtr == item
        invariant |visited| <= |all| && visited == all[..|visited|] && rest == all[|visited|..]
        invariant WalkAt(chains, walkIndex, item, pos, rest)
        decreases |rest|
      {
        visited := visited + [item];
        item, pos := NextItem(item, pos, rest);
        rest := rest[1..];
      }
      WalkEnd(chains, walkIndex, pos, rest);
      assert visited == all;
    }

    /** One step of a walk over an intact table. */
    method NextItem(ghost was: HLink<T>, ghost pos: nat, ghost rest: seq<HLink<T>>)
      returns (item: HLink?<T>, ghost newPos: nat)
      requires Linked() && walkPtr == was && WalkAt(chains, walkIndex, was, pos, rest)
      modifies this`walkPtr, this`walkIndex
      ensures walkPtr == item
      ensures rest != [] && rest[0] == was && WalkAt(chains, walkIndex, item, newPos, rest[1..])
    {
      hide Bucket, Pow2, BucketOk, AtHome, Within, Flatten, Distinct, Elems, Skipped, Shape, Placed, Linked, WalkAt;
      ghost var chain := WalkHead(chains, walkIndex, was, pos, rest);
      Counts();
      LinkAt(walkIndex - 1, pos);
      ghost var from := walkIndex;
      item := Next();
      newPos := WalkStep(chains, from, walkIndex, was, item, pos, rest);
    }

    lemma LinkAt(b: nat, i: nat)
      requires Linked() && b < buckets && i < |chains[b]|
      ensures chains[b][i].next == if i + 1 < |chains[b]| then chains[b][i + 1] else null
    {
      assert BucketOk(table[b], chains[b], items, b, buckets);
    }
  }

  lemma HalveStep(t: nat, size: nat, q: nat)
    requires t > 0 && t * size <= q < (t + 1) * size
    ensures (t / 2) * (2 * size) <= q < (t / 2 + 1) * (2 * size)
    ensures size <= q
  {
    var h := t / 2;
    assert t == 2 * h || t == 2 * h + 1;
    assert h * (2 * size) == (2 * h) * size;
    assert (h + 1) * (2 * size) == (2 * h + 2) * size;
    assert t * size == (t - 1) * size + size;
  }
}
