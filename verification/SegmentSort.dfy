/** client/src/capping.c, `sort_segments`: an insertion sort that rewires the `link` fields
    of the reference counters, then drops all but the largest from the table. */
module SegmentSort {
  import opened Types

  class RefNode {
    const address: Address
    const refLength: nat
    var link: RefNode?

    constructor (address: Address, refLength: nat)
      ensures this.address == address && this.refLength == refLength && link == null
    {
      this.address, this.refLength := address, refLength;
      link := null;
    }
  }

  /** `s` is the list that starts at `head`. */
  ghost predicate IsList(head: RefNode?, s: seq<RefNode>)
    reads s
  {
    && (if s == [] then head == null else head == s[0])
    && Distinct(s)
    && forall i {:trigger s[i].link} :: 0 <= i < |s| ==> s[i].link == if i + 1 < |s| then s[i + 1] else null
  }

  ghost predicate Descending(s: seq<RefNode>) {
    forall i, j :: 0 <= i < j < |s| ==> s[i].refLength >= s[j].refLength
  }

  ghost predicate OwnAddresses(s: seq<RefNode>) {
    forall m, n :: m in s && n in s && m.address == n.address ==> m == n
  }

  /** `s` lists the entries of the table, one node each. */
  ghost predicate Lists(s: seq<RefNode>, table: map<Address, nat>) {
    && (forall n :: n in s ==> n.address in table && table[n.address] == n.refLength)
    && OwnAddresses(s)
    && forall a :: a in table ==> exists n :: n in s && n.address == a
  }

  /** Insert `rn` at position `k` of the list. */
  ghost function InsertAt(s: seq<RefNode>, k: nat, rn: RefNode): (t: seq<RefNode>)
    requires k <= |s|
    ensures |t| == |s| + 1
  {
    s[..k] + [rn] + s[k..]
  }

  lemma InsertLists(s: seq<RefNode>, k: nat, rn: RefNode, table: map<Address, nat>)
    requires k <= |s| && Lists(s, table) && rn.address !in table
    ensures Lists(InsertAt(s, k, rn), table[rn.address := rn.refLength])
    ensures forall n :: n in InsertAt(s, k, rn) <==> n in s || n == rn
  {
    var t := InsertAt(s, k, rn);
    assert s == s[..k] + s[k..];
    assert t[k] == rn;
    forall n
      ensures n in t <==> n in s || n == rn
    {
      assert n in s <==> n in s[..k] || n in s[k..];
    }
  }

  lemma InsertDescending(s: seq<RefNode>, k: nat, rn: RefNode)
    requires k <= |s| && Descending(s)
    requires k > 0 ==> s[k - 1].refLength >= rn.refLength
    requires k < |s| ==> rn.refLength > s[k].refLength
    ensures Descending(InsertAt(s, k, rn))
  {
  }

  lemma NotTwice(s: seq<RefNode>, i: nat)
    requires Distinct(s) && i < |s|
    ensures forall j :: 0 <= j < |s| && j != i ==> s[j] != s[i]
  {
  }

  /** Linking `rn` in at position `k` turns the list `s` into `InsertAt(s, k, rn)`. */
  lemma Spliced(head: RefNode, s: seq<RefNode>, k: nat, rn: RefNode)
    requires k <= |s| && Distinct(s) && rn !in s
    requires head == if k == 0 then rn else s[0]
    requires rn.link == if k < |s| then s[k] else null
    requires forall i {:trigger s[i].link} :: 0 <= i < |s| ==>
               s[i].link == if i + 1 == k then rn else if i + 1 < |s| then s[i + 1] else null
    ensures IsList(head, InsertAt(s, k, rn))
  {
    var t := InsertAt(s, k, rn);
    forall i | 0 <= i < |t|
      ensures t[i].link == if i + 1 < |t| then t[i + 1] else null
    {
      if i < k {
        assert t[i] == s[i];
      } else if i > k {
        assert t[i] == s[i - 1];
      }
    }
  }

  /** The insertion step of the sort: in front of the first smaller element. */
  method Insert(head: RefNode, rn: RefNode, ghost s: seq<RefNode>) returns (newHead: RefNode, ghost k: nat)
    requires IsList(head, s) && s != [] && rn !in s && Descending(s)
    modifies rn, s
    ensures k <= |s| && IsList(newHead, InsertAt(s, k, rn)) && Descending(InsertAt(s, k, rn))
  {
    hide Distinct, InsertAt, Descending;
    assert head == s[0] && Distinct(s);
    if rn.refLength > head.refLength {
      rn.link := head;
      Spliced(rn, s, 0, rn);
      InsertDescending(s, 0, rn);
      return rn, 0;
    }
    var p := head;
    ghost var i := 0;
    while p.link != null && rn.refLength <= p.link.refLength
      invariant 0 <= i < |s| && p == s[i]
      invariant IsList(head, s)
      invariant p.refLength >= rn.refLength
      decreases |s| - i
    {
      p, i := p.link, i + 1;
    }
    k := i + 1;
    InsertDescending(s, k, rn);
    rn.link := p.link;
    p.link := rn;
    newHead := head;
    NotTwice(s, i);
    Spliced(head, s, k, rn);
  }

  lemma OneListed(head: RefNode)
    requires head.link == null
    ensures IsList(head, [head]) && Descending([head]) && Lists([head], map[head.address := head.refLength])
  {
  }

  /** The sorting loop over the table, which is walked in whatever order it offers. */
  method Sort(table: map<Address, nat>) returns (head: RefNode, ghost s: seq<RefNode>)
    requires table != map[]
    ensures IsList(head, s) && Descending(s) && Lists(s, table) && |s| == |table|
  {
    hide Lists, OwnAddresses, Descending, InsertAt, IsList, Distinct;
    var a :| a in table;
    head := new RefNode(a, table[a]);
    s := [head];
    ghost var done := map[a := table[a]];
    OneListed(head);
    var rest := table.Keys - {a};
    while rest != {}
      invariant s != [] && IsList(head, s) && Descending(s) && Lists(s, done)
      invariant forall n :: n in s ==> fresh(n)
      invariant |s| + |rest| == |table| && done.Keys == table.Keys - rest && rest <= table.Keys
      invariant forall x :: x in done ==> done[x] == table[x]
      decreases |rest|
    {
      var b :| b in rest;
      var rn := new RefNode(b, table[b]);
      ghost var was, k := s, 0;
      assert forall i :: 0 <= i < |s| ==> s[i] in s;
      head, k := Insert(head, rn, s);
      s := InsertAt(was, k, rn);
      InsertLists(was, k, rn, done);
      done := done[b := table[b]];
      rest := rest - {b};
    }
    assert done == table;
  }

  /** Among `table`, the entries in `kept` are as many as allowed and none smaller than one
      left out. */
  ghost predicate Largest(table: map<Address, nat>, kept: map<Address, nat>, count: nat) {
    && kept.Keys <= table.Keys
    && (forall a :: a in kept ==> kept[a] == table[a])
    && |kept| == count
    && forall a, b :: a in kept && b in table && b !in kept ==> table[a] >= table[b]
  }

  lemma FirstAreLargest(s: seq<RefNode>, table: map<Address, nat>, kept: map<Address, nat>, maxRefer: nat)
    requires Lists(s, table) && Descending(s)
    requires forall j :: 0 <= j < |s| ==> (s[j].address in kept <==> j < maxRefer)
    ensures forall a, b :: a in kept && a in table && b in table && b !in kept ==> table[a] >= table[b]
  {
    forall a, b | a in kept && a in table && b in table && b !in kept
      ensures table[a] >= table[b]
    {
      var m :| m in s && m.address == a;
      var n :| n in s && n.address == b;
      var x :| 0 <= x < |s| && s[x] == m;
      var y :| 0 <= y < |s| && s[y] == n;
      assert s[x].address in kept && s[y].address !in kept;
    }
  }

  lemma OthersDiffer(s: seq<RefNode>, table: map<Address, nat>, head: RefNode?, k: nat)
    requires Lists(s, table) && IsList(head, s) && k < |s|
    ensures forall j :: 0 <= j < |s| && j != k ==> s[j].address != s[k].address
    ensures s[k].address in table
  {
    forall j | 0 <= j < |s| && j != k
      ensures s[j].address != s[k].address
    {
      assert s[j] in s && s[k] in s && s[j] != s[k];
    }
  }

  /** The second loop of `sort_segments`: drop every entry after the first `maxRefer`. */
  method DropTail(head: RefNode, table: map<Address, nat>, maxRefer: nat, ghost s: seq<RefNode>)
    returns (kept: map<Address, nat>)
    requires IsList(head, s) && Lists(s, table) && |s| == |table|
    ensures kept.Keys <= table.Keys && forall a :: a in kept ==> kept[a] == table[a]
    ensures forall j :: 0 <= j < |s| ==> (s[j].address in kept <==> j < maxRefer)
    ensures |kept| == if |table| > maxRefer then maxRefer else |table|
  {
    kept := table;
    var p: RefNode? := head;
    ghost var k := 0;
    var i := 1;
    hide Lists, Distinct, KeptAt;
    KeptStart(table, s, maxRefer);
    while p != null
      invariant k <= |s| && i == k + 1
      invariant p == if k < |s| then s[k] else null
      invariant KeptAt(kept, table, s, k, maxRefer)
      decreases |s| - k
    {
      KeptStep(kept, table, s, head, k, maxRefer);
      if i > maxRefer {
        var tmp := p.link;
        kept := Without(kept, p.address);
        p := tmp;
      } else {
        p := p.link;
      }
      i := i + 1;
      k := k + 1;
    }
    KeptEnd(kept, table, s, maxRefer);
  }

  /** After `k` steps the entries between `maxRefer` and `k` are gone. */
  ghost predicate KeptAt(kept: map<Address, nat>, table: map<Address, nat>, s: seq<RefNode>, k: nat, maxRefer: nat) {
    && kept.Keys <= table.Keys
    && (forall a :: a in kept ==> kept[a] == table[a])
    && (forall j :: 0 <= j < |s| ==> (s[j].address in kept <==> j < maxRefer || j >= k))
    && |kept.Keys| == |table| - if k > maxRefer then k - maxRefer else 0
  }

  lemma KeptStart(table: map<Address, nat>, s: seq<RefNode>, maxRefer: nat)
    requires Lists(s, table)
    ensures KeptAt(table, table, s, 0, maxRefer)
  {
    hide OwnAddresses;
    assert forall j :: 0 <= j < |s| ==> s[j] in s;
  }

  lemma KeptEnd(kept: map<Address, nat>, table: map<Address, nat>, s: seq<RefNode>, maxRefer: nat)
    requires KeptAt(kept, table, s, |s|, maxRefer) && |s| == |table|
    ensures kept.Keys <= table.Keys && forall a :: a in kept ==> kept[a] == table[a]
    ensures forall j :: 0 <= j < |s| ==> (s[j].address in kept <==> j < maxRefer)
    ensures |kept| == if |table| > maxRefer then maxRefer else |table|
  {
    assert |kept| == |kept.Keys|;
  }

  lemma KeptStep(kept: map<Address, nat>, table: map<Address, nat>, s: seq<RefNode>, head: RefNode?, k: nat,
                 maxRefer: nat)
    requires KeptAt(kept, table, s, k, maxRefer) && Lists(s, table) && IsList(head, s) && k < |s|
    ensures s[k].address in kept
    ensures KeptAt(if k >= maxRefer then Without(kept, s[k].address) else kept, table, s, k + 1, maxRefer)
  {
    hide Lists, IsList, Distinct;
    OthersDiffer(s, table, head, k);
  }

  function Without(m: map<Address, nat>, a: Address): (r: map<Address, nat>)
    requires a in m
    ensures r.Keys == m.Keys - {a} && |r.Keys| == |m.Keys| - 1
    ensures forall x :: x in r ==> r[x] == m[x]
  {
    m - {a}
  }

  /** `sort_segments`: keep the `maxRefer` largest entries of a table that has more; the
      closing size check never fails. */
  method SortSegments(table: map<Address, nat>, maxRefer: nat) returns (kept: map<Address, nat>, ok: bool)
    requires |table| > maxRefer
    ensures ok && Largest(table, kept, maxRefer)
  {
    var head, s := Sort(table);
    kept := DropTail(head, table, maxRefer, s);
    FirstAreLargest(s, table, kept, maxRefer);
    ok := |kept| == maxRefer;
  }
}
