/** What the rewrite policies share: the chunk records that travel through them, the bin
    (fingerprint index) and `write_chunk_to_cloud` of client/src/chunkdedup.c. */
module ChunkDedup {
  import opened Types
  import opened Container
  import opened Store

  /** `FingerChunk`. A pointer to one is an index into the sequence of records that the
      policy object keeps; `locked` is the state of its mutex. */
  datatype FingerChunk = FingerChunk(
    hash: Fingerprint,
    length: nat,
    offset: nat,
    isNew: bool,
    address: Address,
    locked: bool)

  type SourceTree = map<string, Bytes>

  type Bin = map<Fingerprint, Address>

  datatype FileInfo = FileInfo(path: string, isDedup: bool, chunks: seq<FingerChunk>)

  function Slice(files: SourceTree, path: string, offset: nat, length: nat): Bytes
    requires path in files && offset + length <= |files[path]|
  {
    files[path][offset..offset + length]
  }

  /** The record describes a piece of a source file, and carries its fingerprint. */
  ghost predicate InFile(hashing: Hashing, files: SourceTree, path: string, fc: FingerChunk) {
    && path in files
    && 0 < fc.length <= MAX_CHUNK_SIZE
    && fc.offset + fc.length <= |files[path]|
    && hashing.Genuine(Chunk(fc.hash, Slice(files, path, fc.offset, fc.length)))
  }

  /** How a policy marks a record against the index: a duplicate takes over the index's address. */
  function MarkOf(fc: FingerChunk, bin: Bin): FingerChunk {
    if fc.hash in bin then fc.(isNew := false, locked := true, address := bin[fc.hash])
    else fc.(isNew := true, locked := true)
  }

  /** Every index entry names a container that holds the chunk. */
  ghost predicate BinHolds(bin: Bin, contents: Contents) {
    forall h :: h in bin ==> Holds(contents, bin[h], h)
  }

  lemma BinHoldsExtends(bin: Bin, before: Contents, after: Contents)
    requires BinHolds(bin, before) && Extends(before, after)
    ensures BinHolds(bin, after)
  {
    forall h | h in bin
      ensures Holds(after, bin[h], h)
    {
      HoldsExtends(before, after, bin[h], h);
    }
  }

  /** A decision is final and sound: the chunk is unlocked, indexed, and stored where the
      record says. */
  ghost predicate Settled(fc: FingerChunk, bin: Bin, contents: Contents) {
    !fc.locked && fc.hash in bin && Holds(contents, fc.address, fc.hash)
  }

  lemma SettledStays(fc: FingerChunk, bin: Bin, contents: Contents, bin': Bin, contents': Contents)
    requires Settled(fc, bin, contents) && bin.Keys <= bin'.Keys && Extends(contents, contents')
    ensures Settled(fc, bin', contents')
  {
    HoldsExtends(contents, contents', fc.address, fc.hash);
  }

  /** No policy changes these parts of a record. */
  ghost predicate SameIdent(a: FingerChunk, b: FingerChunk) {
    a.hash == b.hash && a.length == b.length && a.offset == b.offset
  }

  /** Total length of the records. */
  ghost function TotalLength(cs: seq<FingerChunk>): nat {
    if cs == [] then 0 else TotalLength(cs[..|cs| - 1]) + cs[|cs| - 1].length
  }

  lemma TotalNil()
    ensures TotalLength([]) == 0
  {
  }

  lemma {:induction false} TotalCons(fc: FingerChunk, cs: seq<FingerChunk>)
    ensures TotalLength([fc] + cs) == fc.length + TotalLength(cs)
  {
    if cs == [] {
      assert [fc] + cs == [] + [fc];
      TotalSnoc([], fc);
    } else {
      var n := |cs| - 1;
      TotalCons(fc, cs[..n]);
      TotalSnoc([fc] + cs[..n], cs[n]);
      TotalSnoc(cs[..n], cs[n]);
      assert cs[..n] + [cs[n]] == cs && [fc] + cs == [fc] + cs[..n] + [cs[n]];
    }
  }

  lemma TotalSnoc(cs: seq<FingerChunk>, fc: FingerChunk)
    ensures TotalLength(cs + [fc]) == TotalLength(cs) + fc.length
  {
    assert (cs + [fc])[..|cs|] == cs;
  }

  lemma {:induction false} TotalSame(a: seq<FingerChunk>, b: seq<FingerChunk>)
    requires SameIdents(a, b)
    ensures TotalLength(a) == TotalLength(b)
  {
    if a != [] {
      TotalSame(a[..|a| - 1], b[..|b| - 1]);
    }
  }

  /** Bytes of the duplicates among `cs` that are stored in one of the containers `addrs`. */
  ghost function Weight(cs: seq<FingerChunk>, addrs: set<Address>): nat {
    if cs == [] then 0 else
      var last := cs[|cs| - 1];
      Weight(cs[..|cs| - 1], addrs) + if !last.isNew && last.address in addrs then last.length else 0
  }

  /** The bytes of a set of containers, record by record. */
  lemma WeightSnoc(cs: seq<FingerChunk>, fc: FingerChunk, addrs: set<Address>)
    ensures Weight([], addrs) == 0
    ensures Weight(cs + [fc], addrs)
            == Weight(cs, addrs) + if !fc.isNew && fc.address in addrs then fc.length else 0
  {
    assert (cs + [fc])[..|cs|] == cs;
  }

  /** Some containers weigh at most the whole stream: all of it if every record is a duplicate in
      one of them, nothing if none is. */
  lemma {:induction false} WeightBound(cs: seq<FingerChunk>, addrs: set<Address>)
    ensures Weight(cs, addrs) <= TotalLength(cs)
    ensures (forall i :: 0 <= i < |cs| ==> !cs[i].isNew && cs[i].address in addrs) ==>
            Weight(cs, addrs) == TotalLength(cs)
    ensures (forall i :: 0 <= i < |cs| ==> cs[i].isNew || cs[i].address !in addrs) ==> Weight(cs, addrs) == 0
  {
    if cs != [] {
      var init := cs[..|cs| - 1];
      WeightBound(init, addrs);
      assert forall i :: 0 <= i < |init| ==> init[i] == cs[i];
    }
  }

  /** A share compared with a bound, without the division. */
  lemma Quotient(a: real, b: real, mark: real)
    requires b > 0.0
    ensures a < mark * b <==> a / b < mark
  {
    var q := a / b;
    assert a == q * b;
    if q < mark {
      Scale(q, mark, b);
    } else if mark < q {
      Scale(mark, q, b);
    }
  }

  lemma Scale(x: real, y: real, b: real)
    requires b > 0.0 && x < y
    ensures x * b < y * b
  {
    assert (y - x) * b > 0.0;
  }

  /** The fingerprints of the records. */
  ghost function Hashes(chunks: seq<FingerChunk>): set<Fingerprint> {
    set i | 0 <= i < |chunks| :: chunks[i].hash
  }

  lemma HashesSnoc(chunks: seq<FingerChunk>, fc: FingerChunk)
    ensures Hashes(chunks + [fc]) == Hashes(chunks) + {fc.hash}
  {
    var more := chunks + [fc];
    assert more[|chunks|] == fc;
    forall h | h in Hashes(chunks)
      ensures h in Hashes(more)
    {
      var i :| 0 <= i < |chunks| && chunks[i].hash == h;
      assert more[i].hash == h;
    }
  }

  lemma HashesNil()
    ensures Hashes([]) == {}
  {
  }

  lemma {:induction false} HashesConcat(a: seq<FingerChunk>, b: seq<FingerChunk>)
    ensures Hashes(a + b) == Hashes(a) + Hashes(b)
  {
    if b == [] {
      assert a + b == a;
    } else {
      var init, last := b[..|b| - 1], b[|b| - 1];
      HashesConcat(a, init);
      HashesSnoc(a + init, last);
      HashesSnoc(init, last);
      assert a + b == a + init + [last] && b == init + [last];
    }
  }

  lemma HashesSame(a: seq<FingerChunk>, b: seq<FingerChunk>)
    requires SameIdents(a, b)
    ensures Hashes(a) == Hashes(b)
  {
    assert forall i :: 0 <= i < |a| ==> SameIdent(a[i], b[i]);
    assert forall i :: 0 <= i < |a| ==> a[i].hash == b[i].hash && a[i].hash in Hashes(a) && b[i].hash in Hashes(b);
  }

  /** `write_chunk_to_cloud`: read the chunk from its file and store it. */
  method WriteChunkToCloud(store: Store, files: SourceTree, path: string, fc: FingerChunk)
    returns (address: Address)
    requires store.Valid() && InFile(store.hashing, files, path, fc)
    modifies store.Repr
    ensures store.Valid() && fresh(store.Repr - old(store.Repr))
    ensures address == store.container.name
    ensures Extends(old(store.Contents()), store.Contents())
    ensures Holds(store.Contents(), address, fc.hash)
  {
    var data := Slice(files, path, fc.offset, fc.length);
    address := store.StoreChunk(Chunk(fc.hash, data));
  }

  /** Store a chunk and make the index name its new container. */
  method WriteAndIndex(store: Store, files: SourceTree, path: string, fc: FingerChunk, bin: Bin)
    returns (address: Address, indexed: Bin)
    requires store.Valid() && BinHolds(bin, store.Contents())
    requires InFile(store.hashing, files, path, fc)
    modifies store.Repr
    ensures store.Valid() && fresh(store.Repr - old(store.Repr))
    ensures Extends(old(store.Contents()), store.Contents()) && BinHolds(indexed, store.Contents())
    ensures indexed == bin[fc.hash := address] && Holds(store.Contents(), address, fc.hash)
  {
    hide InFile, Holds, Extends, Store.Valid;
    address := WriteChunkToCloud(store, files, path, fc);
    BinHoldsExtends(bin, old(store.Contents()), store.Contents());
    indexed := bin[fc.hash := address];
  }

  /** Deduplicate one chunk against the index: a chunk that it lacks is stored and entered. */
  method FindOrStore(store: Store, files: SourceTree, path: string, fc: FingerChunk, bin: Bin)
    returns (isNew: bool, address: Address, indexed: Bin)
    requires store.Valid() && BinHolds(bin, store.Contents())
    requires InFile(store.hashing, files, path, fc)
    modifies store.Repr
    ensures store.Valid() && fresh(store.Repr - old(store.Repr))
    ensures Extends(old(store.Contents()), store.Contents()) && BinHolds(indexed, store.Contents())
    ensures isNew <==> fc.hash !in bin
    ensures if isNew then indexed == bin[fc.hash := address] else indexed == bin && address == bin[fc.hash]
    ensures Holds(store.Contents(), address, fc.hash)
  {
    hide InFile, Holds, Extends, Store.Valid, BinHolds;
    RewriteRefl(store.Contents(), []);
    isNew, indexed := fc.hash !in bin, bin;
    if isNew {
      address, indexed := WriteAndIndex(store, files, path, fc, bin);
    } else {
      address := bin[fc.hash];
      BinAt(bin, store.Contents(), fc.hash);
    }
  }

  lemma BinAt(bin: Bin, contents: Contents, hash: Fingerprint)
    requires BinHolds(bin, contents) && hash in bin
    ensures Holds(contents, bin[hash], hash)
  {
  }

  lemma SettledNow(fc: FingerChunk, bin: Bin, contents: Contents)
    requires !fc.locked && fc.hash in bin && Holds(contents, fc.address, fc.hash)
    ensures Settled(fc, bin, contents)
  {
  }

  /** All records so far describe pieces of the source files. */
  ghost predicate Described(hashing: Hashing, files: SourceTree, paths: seq<string>, chunks: seq<FingerChunk>) {
    && |paths| == |chunks|
    && forall i :: 0 <= i < |chunks| ==> InFile(hashing, files, paths[i], chunks[i])
  }

  ghost predicate SameIdents(a: seq<FingerChunk>, b: seq<FingerChunk>) {
    |a| == |b| && forall i :: 0 <= i < |a| ==> SameIdent(a[i], b[i])
  }

  lemma DescribedSnoc(hashing: Hashing, files: SourceTree, paths: seq<string>, chunks: seq<FingerChunk>,
                      path: string, fc: FingerChunk, q: FingerChunk)
    requires Described(hashing, files, paths, chunks) && InFile(hashing, files, path, fc) && SameIdent(fc, q)
    ensures Described(hashing, files, paths + [path], chunks + [q])
  {
  }

  lemma RewriteRefl(contents: Contents, chunks: seq<FingerChunk>)
    ensures Extends(contents, contents) && SameIdents(chunks, chunks)
  {
  }

  lemma RewriteTrans(c0: Contents, c1: Contents, c2: Contents, s0: seq<FingerChunk>, s1: seq<FingerChunk>,
                     s2: seq<FingerChunk>)
    requires Extends(c0, c1) && Extends(c1, c2) && SameIdents(s0, s1) && SameIdents(s1, s2)
    ensures Extends(c0, c2) && SameIdents(s0, s2)
  {
    ExtendsTransitive(c0, c1, c2);
  }

  lemma SameIdentsSnoc(a: seq<FingerChunk>, b: seq<FingerChunk>, fc: FingerChunk, more: seq<FingerChunk>)
    requires SameIdents(a, b) && |more| == |b| + 1 && more[..|b|] == b && SameIdent(fc, more[|b|])
    ensures SameIdents(a + [fc], more)
  {
    forall i | 0 <= i < |b|
      ensures SameIdent(a[i], more[i])
    {
      assert more[..|b|][i] == more[i];
    }
  }

  lemma SameSize(a: seq<FingerChunk>, b: seq<FingerChunk>)
    requires SameIdents(a, b)
    ensures |a| == |b|
  {
  }

  lemma SameIdentsAppend(a: seq<FingerChunk>, b: seq<FingerChunk>, fc: FingerChunk, more: seq<FingerChunk>)
    requires SameIdents(a, b) && SameIdents(b + [fc], more)
    ensures SameIdents(a + [fc], more)
  {
    forall i | 0 <= i < |b|
      ensures SameIdent(a[i], more[i])
    {
      assert (b + [fc])[i] == b[i];
    }
    assert (b + [fc])[|b|] == fc;
  }
}
