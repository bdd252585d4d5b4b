/** Restoring through the container cache: `search_cache` of client/src/container.c, a list of
    nodes that is rewired on every access, and `restore_chunk` of client/src/store.c. */
module Restore {
  import opened Types
  import opened Container
  import opened Store
  import opened Lru

  class CacheNode {
    var container: Container
    var next: CacheNode?

    constructor (container: Container)
      ensures this.container == container && next == null
    {
      this.container := container;
      next := null;
    }
  }

  /** `s` is the list of nodes that starts at `head`. */
  ghost predicate IsList(head: CacheNode?, s: seq<CacheNode>)
    reads s
  {
    && (if s == [] then head == null else head == s[0])
    && forall i {:trigger s[i].next} :: 0 <= i < |s| ==> s[i].next == if i + 1 < |s| then s[i + 1] else null
  }

  ghost function ToFront<X>(s: seq<X>, i: nat): (t: seq<X>)
    requires i < |s|
    ensures |t| == |s|
  {
    [s[i]] + s[..i] + s[i + 1..]
  }

  /** Unlinking element `i` and pushing it on the front moves it to the front of the list. */
  lemma Rewired(s: seq<CacheNode>, i: nat)
    requires 0 < i < |s|
    requires s[i].next == s[0]
    requires forall j {:trigger s[j].next} :: 0 <= j < |s| && j != i ==>
               s[j].next == if j + 1 == i then (if i + 1 < |s| then s[i + 1] else null)
                            else if j + 1 < |s| then s[j + 1] else null
    ensures IsList(s[i], ToFront(s, i))
  {
    var t := ToFront(s, i);
    forall j | 0 <= j < |t|
      ensures t[j].next == if j + 1 < |t| then t[j + 1] else null
    {
      if j == 0 {
      } else if j <= i {
        assert t[j] == s[j - 1];
      } else {
        assert t[j] == s[j];
      }
    }
  }

  /** The first container with this name moved to the front. */
  ghost predicate Moved(name: Address, before: seq<Container>, names: seq<Address>, after: seq<Container>) {
    exists i :: 0 <= i < |before| == |names| && names[i] == name && name !in names[..i] && after == ToFront(before, i)
  }

  lemma ToFrontDistinct<X>(s: seq<X>, i: nat)
    requires Distinct(s) && i < |s|
    ensures Distinct(ToFront(s, i))
  {
    var t := ToFront(s, i);
    forall j, k | 0 <= j < k < |t|
      ensures t[j] != t[k]
    {
      assert t[k] == s[if k <= i then k - 1 else k];
      assert j > 0 ==> t[j] == s[if j <= i then j - 1 else j];
    }
  }

  class RestoreCache {
    var head: CacheNode
    /** The counter behind the names of empty containers, and when they are made. */
    const span: Span
    var counter: nat
    ghost var nodes: seq<CacheNode>
    /** The nodes of the list in no particular order; no operation adds or drops one. */
    ghost const pool: set<CacheNode>

    ghost predicate NamesFree(taken: set<Address>)
      reads this`counter
    {
      span.Ok() && counter > 0 && NamesLeft(span.start, counter, taken)
    }

    ghost predicate Linked()
      reads this, nodes
    {
      nodes != [] && IsList(head, nodes) && Distinct(nodes) && forall n :: n in nodes ==> n in pool
    }

    /** The cached containers, front to back. */
    ghost function Containers(): (cs: seq<Container>)
      reads this, nodes
      ensures |cs| == |nodes|
    {
      seq(|nodes|, i requires 0 <= i < |nodes| reads this, nodes => nodes[i].container)
    }

    ghost function CacheNames(): (names: seq<Address>)
      reads this, nodes, Containers()
      ensures |names| == |nodes|
    {
      seq(|nodes|, i requires 0 <= i < |nodes| reads this, nodes, Containers() => Containers()[i].name)
    }

    /** `init_cache`: a list of `size` nodes. */
    constructor (containers: seq<Container>, span: Span, counter: nat)
      requires containers != []
      ensures Linked() && this.counter == counter && this.span == span && Containers() == containers
      ensures forall n :: n in pool ==> fresh(n)
    {
      var tail := new CacheNode(containers[|containers| - 1]);
      var first := tail;
      ghost var s := [tail];
      var i := |containers| - 1;
      while i > 0
        invariant 0 <= i < |containers| && |s| == |containers| - i
        invariant IsList(first, s) && Distinct(s) && forall n :: n in s ==> fresh(n)
        invariant forall k :: 0 <= k < |s| ==> s[k].container == containers[i + k]
      {
        i := i - 1;
        var node := new CacheNode(containers[i]);
        node.next := first;
        first := node;
        s := [node] + s;
      }
      head, nodes, this.span, this.counter := first, s, span, counter;
      pool := set n | n in s;
    }

    /** `search_cache`: a hit moves the node to the front; a miss moves the last node there and
        gives it a new, empty container. */
    method SearchCache(name: Address, ghost taken: set<Address>) returns (hit: bool)
      requires Linked() && NamesFree(taken)
      modifies this, pool
      ensures Linked() && |nodes| == |old(nodes)|
      ensures hit <==> name in old(CacheNames())
      ensures hit ==> counter == old(counter) && Moved(name, old(Containers()), old(CacheNames()), Containers())
      ensures !hit ==>
                && counter == old(counter) + 1 && NamesFree(taken)
                && Containers() == [head.container] + old(Containers())[..|old(nodes)| - 1]
                && fresh(head.container) && fresh(head.container.dataBuffer)
                && head.container.Valid() && head.container.chunks == [] && head.container.name !in taken
    {
      hide IsList, Distinct;
      var prep, p, i := Scan(name);
      NamesAt();
      if p == null {
        assert name !in CacheNames();
        Recycle(prep, taken);
        return false;
      }
      assert CacheNames()[i] == name && name !in CacheNames()[..i];
      LinkAfter(i);
      if p != head {
        MoveToFront(prep, p, i);
      } else {
        OnlyOnce(i);
        assert ToFront(Containers(), 0) == Containers();
      }
      return true;
    }

    /** The end of `search_cache` after a miss. */
    method Recycle(prep: CacheNode, ghost taken: set<Address>)
      requires Linked() && NamesFree(taken)
      requires prep == nodes[if |nodes| > 1 then |nodes| - 2 else 0]
      modifies this, pool
      ensures Linked() && |nodes| == |old(nodes)|
      ensures counter == old(counter) + 1 && NamesFree(taken)
      ensures Containers() == [head.container] + old(Containers())[..|old(nodes)| - 1]
      ensures fresh(head.container) && fresh(head.container.dataBuffer)
      ensures head.container.Valid() && head.container.chunks == [] && head.container.name !in taken
    {
      hide IsList, Distinct;
      ghost var n, was := |nodes|, Containers();
      LinkAfter(if n > 1 then n - 2 else 0);
      if prep.next != null {
        var p := prep.next;
        MoveToFront(prep, p, n - 1);
        assert Containers() == [was[n - 1]] + was[..n - 1];
      } else {
        assert Containers() == was && n == 1;
      }
      ReplaceFront(taken);
    }

    /** `FreeContainer` and `InitContainer` on the front node. */
    method ReplaceFront(ghost taken: set<Address>)
      requires Linked() && NamesFree(taken)
      modifies this`counter, head`container
      ensures Linked() && counter == old(counter) + 1 && NamesFree(taken)
      ensures Containers() == [head.container] + old(Containers())[1..]
      ensures fresh(head.container) && fresh(head.container.dataBuffer)
      ensures head.container.Valid() && head.container.chunks == [] && head.container.name !in taken
    {
      FrontReplaced();
      var empty := GetContainerName(span, counter, taken);
      NamesLess(span.start, counter + 1, taken, empty);
      counter := counter + 1;
      head.container := new Container(empty);
    }

    /** The search loop: `p` is the node found and `prep` the one before it; if there is none,
        `prep` is the last node but one. */
    method Scan(name: Address) returns (prep: CacheNode, p: CacheNode?, ghost i: nat)
      requires Linked()
      ensures i <= |nodes| && p == if i < |nodes| then nodes[i] else null
      ensures forall j :: 0 <= j < i ==> nodes[j].container.name != name
      ensures p != null ==> p.container.name == name
      ensures prep == nodes[if i == 0 then 0 else if i < |nodes| then i - 1 else if |nodes| > 1 then |nodes| - 2 else 0]
    {
      prep, p := head, head;
      i := 0;
      ghost var n := |nodes|;
      while p != null
        invariant 0 <= i <= n && p == if i < n then nodes[i] else null
        invariant prep == nodes[if i == 0 then 0 else if i < n then i - 1 else if n > 1 then n - 2 else 0]
        invariant forall j :: 0 <= j < i ==> nodes[j].container.name != name
        decreases n - i
      {
        if p.container.name == name {
          return;
        }
        if p.next != null {
          prep := p;
        }
        p, i := p.next, i + 1;
      }
    }

    lemma NamesAt()
      ensures forall j :: 0 <= j < |nodes| ==>
              CacheNames()[j] == nodes[j].container.name && Containers()[j] == nodes[j].container
    {
      forall j | 0 <= j < |nodes|
        ensures CacheNames()[j] == nodes[j].container.name && Containers()[j] == nodes[j].container
      {
        assert CacheNames()[j] == Containers()[j].name;
      }
    }

    lemma OnlyOnce(i: nat)
      requires Linked() && i < |nodes| && nodes[i] == head
      ensures i == 0
    {
    }

    lemma LinkAfter(i: nat)
      requires Linked() && i < |nodes|
      ensures head == nodes[0] && nodes[i].next == if i + 1 < |nodes| then nodes[i + 1] else null
    {
    }

    lemma FrontReplaced()
      requires Linked()
      ensures head == nodes[0]
      ensures forall j :: 1 <= j < |nodes| ==> nodes[j] != head
    {
    }

    method MoveToFront(prep: CacheNode, p: CacheNode, ghost i: nat)
      requires Linked() && 0 < i < |nodes| && p == nodes[i] && prep == nodes[i - 1]
      modifies this`head, this`nodes, prep`next, p`next
      ensures Linked() && nodes == ToFront(old(nodes), i)
      ensures Containers() == ToFront(old(Containers()), i)
      ensures head == p
    {
      ghost var s := nodes;
      ToFrontDistinct(s, i);
      prep.next := p.next;
      p.next := head;
      head := p;
      Rewired(s, i);
      nodes := ToFront(s, i);
    }
  }

  lemma NamesLess(start: nat, counter: nat, taken: set<Address>, name: Address)
    requires NamesLeft(start, counter, taken + {name})
    ensures NamesLeft(start, counter, taken)
  {
    forall t, k | start <= t < CLOCKS && k > counter
      ensures ContainerName(t, k) !in taken
    {
      assert ContainerName(t, k) !in taken + {name};
    }
  }

  // ------------------------------------------------------------ restoring chunks

  /** The cached containers are intact, and each of them is either an empty spare or the
      content of the file of its name. */
  ghost predicate Faithful(cs: seq<Container>, disk: map<Address, Bytes>, archive: Contents)
    reads cs, set c | c in cs :: c.dataBuffer
  {
    forall i :: 0 <= i < |cs| ==>
        cs[i].Valid() && (cs[i].name in disk && cs[i].name in archive ==> cs[i].chunks == archive[cs[i].name])
  }

  /** Every container file is the writing of its chunks. */
  ghost predicate Readable(disk: map<Address, Bytes>, archive: Contents) {
    && disk.Keys == archive.Keys
    && forall a :: a in archive ==> Fits(archive[a]) && Encodes(disk[a], archive[a])
  }

  /** Front to back the cache holds the most recently requested containers, then spares. */
  ghost predicate CachesRecent(names: seq<Address>, requests: seq<Address>, disk: map<Address, Bytes>) {
    && (forall i :: 0 <= i < |requests| ==> requests[i] in disk)
    && Content(requests, |names|) <= names
    && forall i :: |Content(requests, |names|)| <= i < |names| ==> names[i] !in disk
  }

  lemma {:induction false} RemoveAt<X>(s: seq<X>, x: X, i: nat)
    requires i < |s| && s[i] == x && x !in s[..i]
    ensures Remove(s, x) == s[..i] + s[i + 1..]
  {
    if i > 0 {
      assert s[0] in s[..i];
      assert s[1..][..i - 1] == s[..i][1..];
      RemoveAt(s[1..], x, i - 1);
      assert s[..i] == [s[0]] + s[1..][..i - 1];
    }
  }

  lemma RecentHit(names: seq<Address>, requests: seq<Address>, disk: map<Address, Bytes>, address: Address, i: nat)
    requires CachesRecent(names, requests, disk) && address in disk
    requires i < |names| && names[i] == address && address !in names[..i]
    ensures address in Content(requests, |names|)
    ensures CachesRecent(ToFront(names, i), requests + [address], disk)
  {
    var k := |names|;
    var c := Content(requests, k);
    assert i < |c| && c[i] == address;
    assert c[..i] == names[..i];
    RemoveAt(c, address, i);
    TouchIsContent(requests, k, address);
    assert Content(requests + [address], k) == [address] + c[..i] + c[i + 1..];
    assert ToFront(names, i)[..|c|] == ToFront(c, i);
  }

  lemma RecentMiss(names: seq<Address>, requests: seq<Address>, disk: map<Address, Bytes>, address: Address)
    requires CachesRecent(names, requests, disk) && address in disk && names != [] && address !in names
    ensures address !in Content(requests, |names|)
    ensures CachesRecent([address] + names[..|names| - 1], requests + [address], disk)
  {
    var k := |names|;
    var c := Content(requests, k);
    assert forall j :: 0 <= j < |c| ==> c[j] == names[j];
    TouchIsContent(requests, k, address);
    var after := [address] + names[..k - 1];
    if |c| >= k {
      assert c == names;
    } else {
      assert [address] + c == after[..|c| + 1];
    }
  }

  /** Moving a container to the front keeps the cache intact. */
  lemma FaithfulFront(cs: seq<Container>, i: nat, disk: map<Address, Bytes>, archive: Contents)
    requires Faithful(cs, disk, archive) && i < |cs|
    ensures Faithful(ToFront(cs, i), disk, archive)
  {
    hide Container.Valid;
    var t := ToFront(cs, i);
    forall j | 0 <= j < |t|
      ensures t[j] in cs
    {
      assert t[j] == cs[if j == 0 then i else if j <= i then j - 1 else j];
    }
  }

  lemma MissesSnoc(requests: seq<Address>, size: int, address: Address)
    ensures Misses(requests + [address], size) ==
            Misses(requests, size) + if address in Content(requests, size) then 0 else 1
  {
    assert (requests + [address])[..|requests|] == requests;
  }

  /** Moving a container to the front moves its name to the front. */
  lemma FrontNames(after: seq<Address>, names: seq<Address>, cs: seq<Container>, i: nat)
    requires |after| == |names| == |cs| && i < |cs|
    requires forall j :: 0 <= j < |cs| ==> names[j] == cs[j].name
    requires forall j :: 0 <= j < |cs| ==> after[j] == ToFront(cs, i)[j].name
    ensures after == ToFront(names, i) && after[0] == names[i]
  {
    forall j | 0 <= j < |after|
      ensures after[j] == ToFront(names, i)[j]
    {
      var k := if j == 0 then i else if j <= i then j - 1 else j;
      assert ToFront(cs, i)[j] == cs[k] && ToFront(names, i)[j] == names[k];
    }
  }

  lemma FaithfulAt(cs: seq<Container>, i: nat, disk: map<Address, Bytes>, archive: Contents)
    requires Faithful(cs, disk, archive) && i < |cs|
    ensures cs[i].Valid() && (cs[i].name in disk && cs[i].name in archive ==> cs[i].chunks == archive[cs[i].name])
  {
  }

  /** Putting an intact container in front of all but the last keeps the cache intact. */
  lemma FaithfulPush(c: Container, cs: seq<Container>, disk: map<Address, Bytes>, archive: Contents)
    requires Faithful(cs, disk, archive) && cs != []
    requires c.Valid() && (c.name in disk && c.name in archive ==> c.chunks == archive[c.name])
    ensures Faithful([c] + cs[..|cs| - 1], disk, archive)
  {
  }

  class Restorer {
    const disk: map<Address, Bytes>
    ghost const archive: Contents
    const cache: RestoreCache
    var gotContainers: set<Address>
    var downloadCount: nat
    /** The containers asked for so far, and how many of these requests read a file. */
    ghost var requests: seq<Address>
    ghost var fileReads: nat

    /** The cache is the LRU cache of the requests so far, and its containers are intact. */
    ghost predicate Cached()
      reads this`requests, this`fileReads, cache, cache.nodes, cache.Containers(),
      set c | c in cache.Containers() :: c.dataBuffer
    {
      && cache.Linked()
      && cache.NamesFree(disk.Keys)
      && Faithful(cache.Containers(), disk, archive)
      && CachesRecent(cache.CacheNames(), requests, disk)
      && fileReads == Misses(requests, |cache.nodes|)
    }

    ghost predicate Valid()
      reads this, cache, cache.nodes, cache.Containers(), set c | c in cache.Containers() :: c.dataBuffer
    {
      && Readable(disk, archive)
      && Cached()
      && gotContainers == (set a | a in requests)
      && downloadCount == |gotContainers|
    }

    /** `restore_init` in a new process: a cache of `size` spare containers. */
    constructor (disk: map<Address, Bytes>, ghost archive: Contents, size: nat, span: Span)
      requires Readable(disk, archive) && size > 0 && span.Ok() && AllMade(disk.Keys, span.start)
      ensures Valid() && this.disk == disk && this.archive == archive
      ensures |cache.nodes| == size && requests == []
      ensures fresh(cache) && forall n :: n in cache.pool ==> fresh(n)
    {
      hide Fits, Encodes, IsList, Distinct, Container.Valid, NamesLeft, AllMade;
      AllMadeLater(disk.Keys, span.start, CLOCKS);
      FreshStart(disk.Keys, span.start);
      var containers, last := SpareContainers(size, span, disk.Keys);
      this.disk, this.archive := disk, archive;
      cache := new RestoreCache(containers, span, last);
      gotContainers, downloadCount := {}, 0;
      requests, fileReads := [], 0;
    }

    /** `search_cache`, and `ReadContainer` after a miss: the front node now holds the content
        of the file, and the file is read exactly when an LRU cache of this size misses. */
    method Fetch(address: Address) returns (ok: bool)
      requires Readable(disk, archive) && Cached() && address in disk
      modifies this`requests, this`fileReads, cache, cache.pool
      ensures ok && Cached() && |cache.nodes| == |old(cache.nodes)|
      ensures cache.head.container.Valid() && cache.head.container.chunks == archive[address]
      ensures requests == old(requests) + [address]
      ensures fileReads == old(fileReads) + if address in Content(old(requests), |old(cache.nodes)|) then 0 else 1
    {
      hide Fits, Encodes, IsList, Distinct, Container.Valid, NamesLeft, CachesRecent, Content, Faithful,
           RestoreCache.Linked, Moved, Readable, Cached, Misses;
      OpenCached();
      ghost var names, cs := cache.CacheNames(), cache.Containers();
      cache.NamesAt();
      var hit := cache.SearchCache(address, disk.Keys);
      cache.LinkAfter(0);
      if hit {
        AfterHit(address, cs, names);
      } else {
        ok := Load(address, cs, names);
        fileReads := fileReads + 1;
      }
      MissesSnoc(requests, |cs|, address);
      requests := requests + [address];
      CloseCached();
      ok := true;
    }

    lemma OpenCached()
      requires Cached()
      ensures cache.Linked() && cache.nodes != [] && cache.NamesFree(disk.Keys)
      ensures Faithful(cache.Containers(), disk, archive) && CachesRecent(cache.CacheNames(), requests, disk)
      ensures fileReads == Misses(requests, |cache.nodes|)
    {
    }

    lemma CloseCached()
      requires cache.Linked() && cache.NamesFree(disk.Keys)
      requires Faithful(cache.Containers(), disk, archive) && CachesRecent(cache.CacheNames(), requests, disk)
      requires fileReads == Misses(requests, |cache.nodes|)
      ensures Cached()
    {
    }

    /** A hit put the container with this name in front. */
    lemma AfterHit(address: Address, cs: seq<Container>, names: seq<Address>)
      requires Faithful(cs, disk, archive) && CachesRecent(names, requests, disk)
      requires |cs| == |names| && (forall j :: 0 <= j < |cs| ==> names[j] == cs[j].name)
      requires Readable(disk, archive) && address in disk && Moved(address, cs, names, cache.Containers())
      ensures Faithful(cache.Containers(), disk, archive)
      ensures CachesRecent(cache.CacheNames(), requests + [address], disk)
      ensures address in Content(requests, |names|)
      ensures |cs| == |cache.nodes| > 0 && cache.nodes[0].container.Valid()
              && cache.nodes[0].container.chunks == archive[address]
    {
      hide Container.Valid, CachesRecent, Content, Faithful, Fits, Encodes, ToFront;
      var i :| 0 <= i < |cs| && names[i] == address && address !in names[..i] && cache.Containers() == ToFront(cs, i);
      RecentHit(names, requests, disk, address, i);
      FaithfulFront(cs, i, disk, archive);
      cache.NamesAt();
      FrontNames(cache.CacheNames(), names, cs, i);
      FaithfulAt(cache.Containers(), 0, disk, archive);
    }

    /** After a miss: read the file into the empty container at the front. */
    method Load(address: Address, ghost cs: seq<Container>, ghost names: seq<Address>) returns (ok: bool)
      requires Faithful(cs, disk, archive) && CachesRecent(names, requests, disk)
      requires |cs| == |names| > 0 && (forall j :: 0 <= j < |cs| ==> names[j] == cs[j].name) && address !in names
      requires Readable(disk, archive) && address in disk
      requires cache.nodes != [] && cache.head == cache.nodes[0]
      requires cache.Containers() == [cache.head.container] + cs[..|cs| - 1]
      requires cache.head.container.Valid() && cache.head.container.chunks == []
      requires cache.head.container !in cs && forall c :: c in cs ==> c.dataBuffer != cache.head.container.dataBuffer
      modifies cache.head.container, cache.head.container.dataBuffer
      ensures ok && cache.head.container.Valid() && cache.head.container.chunks == archive[address]
      ensures Faithful(cache.Containers(), disk, archive)
      ensures CachesRecent(cache.CacheNames(), requests + [address], disk)
      ensures address !in Content(requests, |names|)
    {
      hide Fits, EncodeAddrs, EncodeFile, Payload, Layout, AddrOf, Container.Valid, CachesRecent, Content, Faithful;
      RecentMiss(names, requests, disk, address);
      ok := ReadContainer(address);
      FaithfulPush(cache.head.container, cs, disk, archive);
      cache.NamesAt();
      assert cache.CacheNames() == [address] + names[..|names| - 1];
    }

    /** `ReadContainer` into the empty container at the front. */
    method ReadContainer(address: Address) returns (ok: bool)
      requires Readable(disk, archive) && address in disk
      requires cache.head.container.Valid() && cache.head.container.chunks == []
      modifies cache.head.container, cache.head.container.dataBuffer
      ensures ok && cache.head.container.Valid()
      ensures cache.head.container.name == address && cache.head.container.chunks == archive[address]
    {
      hide Fits, EncodeAddrs, Payload, Layout, Container.Valid;
      ok := cache.head.container.Deserialize(address, disk[address], archive[address]);
    }

    /** `restore_chunk`: what it returns is what reading the container file directly would
        give, and it reads the file exactly when an LRU cache of this size misses. */
    method RestoreChunk(hash: Fingerprint, address: Address) returns (data: Option<Bytes>)
      requires Valid() && address in disk
      modifies this, cache, cache.pool
      ensures Valid() && |cache.nodes| == |old(cache.nodes)|
      ensures data.Some? <==> exists c :: c in archive[address] && c.hash == hash
      ensures data.Some? ==> Chunk(hash, data.value) in archive[address]
      ensures requests == old(requests) + [address]
      ensures fileReads == old(fileReads) + if address in Content(old(requests), |old(cache.nodes)|) then 0 else 1
      ensures downloadCount == old(downloadCount) + if address in old(requests) then 0 else 1
    {
      hide Fits, Encodes, Readable, Content, Container.Valid, CachesRecent, NamesLeft, Distinct, IsList;
      if address !in gotContainers {
        downloadCount := downloadCount + 1;
        gotContainers := gotContainers + {address};
      }
      var ok := Fetch(address);
      if !ok {
        return None;
      }
      data := cache.head.container.ReadChunk(hash);
    }
  }

  /** The containers of `init_cache`, whose names no file has. */
  method SpareContainers(size: nat, span: Span, ghost taken: set<Address>)
    returns (containers: seq<Container>, last: nat)
    requires span.Ok() && NamesLeft(span.start, 1, taken)
    ensures |containers| == size && last > 0 && NamesLeft(span.start, last, taken)
    ensures forall c :: c in containers ==> c.Valid() && c.name !in taken
  {
    hide Container.Valid, NamesLeft;
    containers, last := [], 1;
    while |containers| < size
      invariant |containers| <= size && last > 0 && NamesLeft(span.start, last, taken)
      invariant forall c :: c in containers ==> c.Valid() && c.name !in taken
    {
      var name := GetContainerName(span, last, taken);
      NamesLess(span.start, last + 1, taken, name);
      last := last + 1;
      var c := new Container(name);
      containers := containers + [c];
    }
  }
}
