/** client/src/cfl.c: while the fragmentation level is below the water mark, hold back the
    duplicates that refer to one old container and store them again if they are too few. */
module Cfl {
  import opened Types
  import opened Store
  import opened ChunkDedup
  import opened RewriteSpec
  import opened Trace
  import opened CflSpec

  /** The record as a duplicate of what is stored at `address`. */
  function Twin(fc: FingerChunk, address: Address): FingerChunk {
    fc.(isNew := false, address := address)
  }

  /** Held-back records are distinct, locked duplicates, all stored in the same container. */
  ghost predicate Held(nodes: seq<ChunkNode>, paths: seq<string>, chunks: seq<FingerChunk>, address: Address, bin: Bin,
                       contents: Contents)
    requires |paths| == |chunks|
  {
    && (forall j, k :: 0 <= j < k < |nodes| ==> nodes[j].fc < nodes[k].fc)
    && forall k :: 0 <= k < |nodes| ==> HeldNode(nodes[k], paths, chunks, address, bin, contents)
  }

  ghost predicate HeldNode(node: ChunkNode, paths: seq<string>, chunks: seq<FingerChunk>, address: Address, bin: Bin,
                           contents: Contents)
    requires |paths| == |chunks|
  {
    && node.fc < |chunks| && node.path == paths[node.fc]
    && var p := chunks[node.fc];
      p.locked && !p.isNew && p.address == address && p.hash in bin && Holds(contents, address, p.hash)
  }

  /** Every record that is not held back is final. */
  ghost predicate OthersSettled(nodes: seq<ChunkNode>, chunks: seq<FingerChunk>, bin: Bin, contents: Contents) {
    forall i :: 0 <= i < |chunks| && !IsPending(nodes, i) ==> Settled(chunks[i], bin, contents)
  }

  /** `rdc` names the containers of the decided records and no others. While a container's
      records are being released (`extra`), it is already listed. */
  ghost predicate Referenced(rdc: set<Address>, nodes: seq<ChunkNode>, chunks: seq<FingerChunk>, extra: set<Address>) {
    && (forall i :: 0 <= i < |chunks| && !IsPending(nodes, i) ==> chunks[i].address in rdc)
    && (forall a :: a in rdc ==>
        a in extra || exists i :: 0 <= i < |chunks| && !IsPending(nodes, i) && chunks[i].address == a)
  }

  // ------------------------------------------------------------ value lemmas

  /** Releasing the first held-back record as `q`. */
  lemma ReleaseFirst(nodes: seq<ChunkNode>, paths: seq<string>, address: Address,
                     chunks: seq<FingerChunk>, bin: Bin, contents: Contents,
                     q: FingerChunk, bin': Bin, contents': Contents)
    requires nodes != [] && |paths| == |chunks| && Held(nodes, paths, chunks, address, bin, contents)
    requires OthersSettled(nodes, chunks, bin, contents)
    requires bin.Keys <= bin'.Keys && Extends(contents, contents') && Settled(q, bin', contents')
    ensures nodes[0].fc < |chunks|
    ensures var now := chunks[nodes[0].fc := q];
            && Held(nodes[1..], paths, now, address, bin', contents')
            && OthersSettled(nodes[1..], now, bin', contents')
  {
    PopPending(nodes);
    var n, rest := nodes[0].fc, nodes[1..];
    var now := chunks[n := q];
    forall k | 0 <= k < |rest|
      ensures HeldNode(rest[k], paths, now, address, bin', contents')
    {
      assert rest[k] == nodes[k + 1] && HeldNode(nodes[k + 1], paths, chunks, address, bin, contents);
      HoldsExtends(contents, contents', address, chunks[rest[k].fc].hash);
    }
    forall i | 0 <= i < |now| && !IsPending(rest, i)
      ensures Settled(now[i], bin', contents')
    {
      if i != n {
        SettledStays(chunks[i], bin, contents, bin', contents');
      }
    }
  }

  lemma ReleasedReferenced(rdc: set<Address>, nodes: seq<ChunkNode>, chunks: seq<FingerChunk>, extra: set<Address>,
                           q: FingerChunk)
    requires nodes != [] && forall j, k :: 0 <= j < k < |nodes| ==> nodes[j].fc < nodes[k].fc
    requires nodes[0].fc < |chunks| && Referenced(rdc, nodes, chunks, extra)
    ensures Referenced(rdc + {q.address}, nodes[1..], chunks[nodes[0].fc := q], extra - {q.address})
  {
    PopPending(nodes);
    var n, rest := nodes[0].fc, nodes[1..];
    var now := chunks[n := q];
    forall a | a in rdc + {q.address}
      ensures a in extra - {q.address} || exists i :: 0 <= i < |now| && !IsPending(rest, i) && now[i].address == a
    {
      if a == q.address {
        assert now[n].address == a;
      } else if a !in extra {
        var i :| 0 <= i < |chunks| && !IsPending(nodes, i) && chunks[i].address == a;
        assert now[i].address == a;
      }
    }
  }

  /** A new decided record at the end. */
  lemma Decided(nodes: seq<ChunkNode>, paths: seq<string>, address: Address,
                chunks: seq<FingerChunk>, bin: Bin, contents: Contents, rdc: set<Address>,
                path: string, q: FingerChunk, bin': Bin, contents': Contents)
    requires |paths| == |chunks| && Held(nodes, paths, chunks, address, bin, contents)
    requires OthersSettled(nodes, chunks, bin, contents) && Referenced(rdc, nodes, chunks, {})
    requires bin.Keys <= bin'.Keys && Extends(contents, contents') && Settled(q, bin', contents')
    ensures Held(nodes, paths + [path], chunks + [q], address, bin', contents')
    ensures OthersSettled(nodes, chunks + [q], bin', contents')
    ensures Referenced(rdc + {q.address}, nodes, chunks + [q], {})
  {
    var now := chunks + [q];
    forall k | 0 <= k < |nodes|
      ensures HeldNode(nodes[k], paths + [path], now, address, bin', contents')
    {
      assert HeldNode(nodes[k], paths, chunks, address, bin, contents);
      HoldsExtends(contents, contents', address, chunks[nodes[k].fc].hash);
    }
    forall i | 0 <= i < |now| && !IsPending(nodes, i)
      ensures Settled(now[i], bin', contents')
    {
      if i < |chunks| {
        SettledStays(chunks[i], bin, contents, bin', contents');
      }
    }
    forall a | a in rdc + {q.address}
      ensures exists i :: 0 <= i < |now| && !IsPending(nodes, i) && now[i].address == a
    {
      if a == q.address {
        assert now[|chunks|].address == a;
      } else {
        var i :| 0 <= i < |chunks| && !IsPending(nodes, i) && chunks[i].address == a;
        assert now[i].address == a;
      }
    }
  }

  /** A new held-back record at the end. */
  lemma HeldBack(nodes: seq<ChunkNode>, address: Address, paths: seq<string>,
                 chunks: seq<FingerChunk>, bin: Bin, contents: Contents, rdc: set<Address>, path: string,
                 q: FingerChunk)
    requires |paths| == |chunks| && Held(nodes, paths, chunks, address, bin, contents)
             && (nodes == [] || q.address == address)
    requires OthersSettled(nodes, chunks, bin, contents) && Referenced(rdc, nodes, chunks, {})
    requires q.locked && !q.isNew && q.hash in bin && Holds(contents, q.address, q.hash)
    ensures var nodes', now := nodes + [ChunkNode(|chunks|, path)], chunks + [q];
            && Held(nodes', paths + [path], now, q.address, bin, contents)
            && OthersSettled(nodes', now, bin, contents)
            && Referenced(rdc, nodes', now, {})
  {
    var node, now := ChunkNode(|chunks|, path), chunks + [q];
    var nodes' := nodes + [node];
    PushPending(nodes, node);
    forall k | 0 <= k < |nodes'|
      ensures HeldNode(nodes'[k], paths + [path], now, q.address, bin, contents)
      ensures k < |nodes| ==> nodes'[k].fc < |chunks|
    {
      if k < |nodes| {
        assert HeldNode(nodes[k], paths, chunks, q.address, bin, contents);
      }
    }
    forall a | a in rdc
      ensures exists i :: 0 <= i < |now| && !IsPending(nodes', i) && now[i].address == a
    {
      var i :| 0 <= i < |chunks| && !IsPending(nodes, i) && chunks[i].address == a;
      assert now[i].address == a;
    }
  }

  lemma ReleasedAsStep(nodes: seq<ChunkNode>, node: ChunkNode, before: seq<FingerChunk>, mid: seq<FingerChunk>,
                       after: seq<FingerChunk>, again: bool)
    requires ReleasedAs(nodes, before, mid, again) && node.fc < |mid| && !IsPending(nodes, node.fc)
    requires |after| == |mid| && after == mid[node.fc := after[node.fc]]
    requires SameIdent(mid[node.fc], after[node.fc]) && mid[node.fc].locked && !after[node.fc].locked
    requires if again then after[node.fc].isNew else after[node.fc] == mid[node.fc].(locked := false)
    ensures ReleasedAs(nodes + [node], before, after, again)
  {
    PushPending(nodes, node);
  }

  ghost predicate Rising(nodes: seq<ChunkNode>) {
    forall j, k :: 0 <= j < k < |nodes| ==> nodes[j].fc < nodes[k].fc
  }

  /** One more of the held-back records was released. */
  lemma DrainStep(nodes: seq<ChunkNode>, n: nat, before: seq<FingerChunk>, mid: seq<FingerChunk>,
                  after: seq<FingerChunk>, again: bool)
    requires n < |nodes| && Rising(nodes) && ReleasedAs(nodes[..n], before, mid, again)
    requires nodes[n].fc < |mid| == |after| && after == mid[nodes[n].fc := after[nodes[n].fc]]
    requires var i := nodes[n].fc;
             && SameIdent(mid[i], after[i]) && mid[i].locked && !after[i].locked
             && if again then after[i].isNew else after[i] == mid[i].(locked := false)
    ensures ReleasedAs(nodes[..n + 1], before, after, again)
  {
    hide ReleasedAs, SameIdent;
    assert !IsPending(nodes[..n], nodes[n].fc);
    ReleasedAsStep(nodes[..n], nodes[n], before, mid, after, again);
    assert nodes[..n] + [nodes[n]] == nodes[..n + 1];
  }

  lemma ReleasedEnd(nodes: seq<ChunkNode>, before: seq<FingerChunk>, after: seq<FingerChunk>, again: bool)
    requires ReleasedAs(nodes, before, after, again)
    ensures SameIdents(before, after)
  {
  }

  lemma NoneReleased(before: seq<FingerChunk>, again: bool)
    ensures ReleasedAs([], before, before, again)
  {
  }

  lemma HeldOrder(nodes: seq<ChunkNode>, paths: seq<string>, chunks: seq<FingerChunk>, address: Address, bin: Bin,
                  contents: Contents)
    requires |paths| == |chunks| && Held(nodes, paths, chunks, address, bin, contents)
    ensures forall j, k :: 0 <= j < k < |nodes| ==> nodes[j].fc < nodes[k].fc
    ensures forall k :: 0 <= k < |nodes| ==> nodes[k].fc < |chunks|
  {
    assert forall k :: 0 <= k < |nodes| ==> HeldNode(nodes[k], paths, chunks, address, bin, contents);
  }

  lemma OneChanged(chunks: seq<FingerChunk>, i: nat, q: FingerChunk)
    requires i < |chunks| && SameIdent(chunks[i], q)
    ensures SameIdents(chunks, chunks[i := q])
  {
  }

  lemma ReferencedMore(rdc: set<Address>, nodes: seq<ChunkNode>, chunks: seq<FingerChunk>, extra: set<Address>,
                       more: set<Address>)
    requires Referenced(rdc, nodes, chunks, extra) && extra <= more
    ensures Referenced(rdc, nodes, chunks, more)
  {
  }

  class Cfl {
    const store: Store
    const files: SourceTree
    /** `LWM` and `default_container_reuse`. */
    const lowWaterMark: real
    const reuse: real
    /** The index at the start. */
    ghost const bin0: Bin
    var bin: Bin
    var cfl: Level
    var rdc: set<Address>
    var totalContainerNum: nat
    var datasetSize: nat
    /** `tmp_container`: the records held back, their container, and their total length. */
    var tmpChunks: seq<ChunkNode>
    var tmpAddress: Address
    var tmpLength: nat
    var chunks: seq<FingerChunk>
    ghost var paths: seq<string>
    ghost var trace: seq<Action>
    /** The records held back at the turn of each record, and now. */
    ghost var waits: seq<seq<ChunkNode>>

    ghost predicate Sound()
      reads this`bin, this`chunks, this`paths, this`trace, this`tmpChunks, this`tmpAddress, store, store.Repr
    {
      && store.Valid() && this !in store.Repr
      && Traced(trace, chunks)
      && BinHolds(bin, store.Contents())
      && Described(store.hashing, files, paths, chunks)
      && Held(tmpChunks, paths, chunks, tmpAddress, bin, store.Contents())
      && OthersSettled(tmpChunks, chunks, bin, store.Contents())
    }

    /** Until the end of the stream the reference set is exact. */
    ghost predicate Exact(extra: set<Address>)
      reads this`chunks, this`tmpChunks, this`rdc, this`totalContainerNum
    {
      Referenced(rdc, tmpChunks, chunks, extra) && totalContainerNum == |rdc|
    }

    ghost predicate Length()
      reads this`chunks, this`tmpChunks, this`tmpLength
    {
      Measured(tmpChunks, chunks, tmpLength)
    }

    ghost predicate Valid()
      reads this, store, store.Repr
    {
      && Sound() && Exact({}) && Length()
      && datasetSize == TotalLength(chunks)
      && cfl == (if chunks == [] then Level(1, 1) else LevelOf(datasetSize, totalContainerNum))
      && Account(chunks, waits, tmpChunks, bin0, bin, Locks(trace), lowWaterMark, reuse)
    }

    /** What the invariant says of the records that wait, and of the others. */
    lemma Standing()
      requires Sound() && Length()
      ensures Measured(tmpChunks, chunks, tmpLength)
      ensures forall j :: 0 <= j < |chunks| && !IsPending(tmpChunks, j) ==> !chunks[j].locked
      ensures forall k :: 0 <= k < |tmpChunks| ==> !chunks[tmpChunks[k].fc].isNew
      ensures forall j :: 0 <= j < |chunks| && IsPending(tmpChunks, j) ==>
                chunks[j].locked && !chunks[j].isNew && chunks[j].address == tmpAddress
    {
      hide Store.Valid, BinHolds, InFile, Holds, IsPending, PendingLength, Traced;
      forall j | 0 <= j < |chunks| && !IsPending(tmpChunks, j)
        ensures !chunks[j].locked
      {
        assert Settled(chunks[j], bin, store.Contents());
      }
      forall k | 0 <= k < |tmpChunks|
        ensures !chunks[tmpChunks[k].fc].isNew && chunks[tmpChunks[k].fc].locked
        ensures chunks[tmpChunks[k].fc].address == tmpAddress
      {
        assert HeldNode(tmpChunks[k], paths, chunks, tmpAddress, bin, store.Contents());
      }
      PendingAll(tmpChunks, chunks, tmpAddress);
    }

    lemma LevelIs()
      requires Exact({}) && datasetSize == TotalLength(chunks)
      requires cfl == if chunks == [] then Level(1, 1) else LevelOf(datasetSize, totalContainerNum)
      ensures cfl == LevelAt(chunks, |chunks|, tmpChunks)
    {
      hide IsPending, TotalLength;
      assert chunks[..|chunks|] == chunks;
      assert rdc == Named(chunks, |chunks|, tmpChunks);
    }

    lemma LevelOpen()
      requires Valid()
      ensures cfl == if chunks == [] then Level(1, 1) else LevelOf(datasetSize, totalContainerNum)
    {
    }

    constructor (store: Store, files: SourceTree, bin: Bin, lowWaterMark: real, reuse: real)
      requires store.Valid() && BinHolds(bin, store.Contents())
      ensures Valid() && this.store == store && this.files == files && this.bin == bin
      ensures this.lowWaterMark == lowWaterMark && this.reuse == reuse && chunks == [] && paths == [] && trace == []
      ensures this.bin0 == bin && waits == [[]]
    {
      hide Store.Valid, BinHolds, Traced, Account;
      TracedNothing();
      AccountNothing(bin, lowWaterMark, reuse);
      this.bin0, waits := bin, [[]];
      this.store, this.files, this.bin, this.lowWaterMark, this.reuse := store, files, bin, lowWaterMark, reuse;
      cfl, rdc, totalContainerNum, datasetSize := Level(1, 1), {}, 0, 0;
      tmpChunks, tmpAddress, tmpLength := [], "", 0;
      chunks, paths, trace := [], [], [];
    }

    lemma OpenSound()
      requires Sound()
      ensures store.Valid() && this !in store.Repr && |paths| == |chunks| && BinHolds(bin, store.Contents())
      ensures Traced(trace, chunks)
      ensures tmpChunks != [] ==>
                && tmpChunks[0].fc < |chunks| && tmpChunks[0].path == paths[tmpChunks[0].fc]
                && InFile(store.hashing, files, tmpChunks[0].path, chunks[tmpChunks[0].fc])
                && var p := chunks[tmpChunks[0].fc];
                  p.locked && !p.isNew && p.address == tmpAddress && p.hash in bin
                      && Holds(store.Contents(), p.address, p.hash)
    {
      if tmpChunks != [] {
        assert HeldNode(tmpChunks[0], paths, chunks, tmpAddress, bin, store.Contents());
      }
    }

    lemma Intact()
      requires Sound()
      ensures store.Valid() && this !in store.Repr && |paths| == |chunks| && Traced(trace, chunks)
    {
    }

    /** Enter a container into the reference set. */
    method Reference(address: Address)
      modifies this`rdc, this`totalContainerNum
      ensures rdc == old(rdc) + {address}
      ensures old(totalContainerNum == |rdc|) ==> totalContainerNum == |rdc|
    {
      if address !in rdc {
        rdc := rdc + {address};
        totalContainerNum := totalContainerNum + 1;
      } else {
        assert rdc + {address} == rdc;
      }
    }

    /** Release the first held-back record: store it again, or leave it where it is. With
        `record` the container of a stored chunk enters the reference set. */
    method ReleaseOne(again: bool, record: bool, ghost extra: set<Address>)
      requires Sound() && tmpChunks != []
      requires record ==> Exact(extra) && (again || tmpAddress in rdc)
      modifies this`bin, this`chunks, this`trace, this`tmpChunks, this`rdc, this`totalContainerNum, store.Repr
      ensures Sound() && old(store.Valid())
      ensures record ==> Exact(if again then extra else extra - {tmpAddress}) && old(rdc) <= rdc
      ensures !record ==> rdc == old(rdc) && totalContainerNum == old(totalContainerNum)
      ensures fresh(store.Repr - old(store.Repr)) && Extends(old(store.Contents()), store.Contents())
      ensures old(bin).Keys == bin.Keys
      ensures |chunks| == |old(chunks)| && tmpChunks == old(tmpChunks)[1..] && Grown(old(trace), trace)
      ensures old(tmpChunks[0].fc) < |chunks|
      ensures var i := old(tmpChunks[0].fc);
              && chunks == old(chunks)[i := chunks[i]]
              && SameIdent(old(chunks)[i], chunks[i]) && old(chunks)[i].locked && !chunks[i].locked
              && if again then chunks[i].isNew else chunks[i] == old(chunks)[i].(locked := false)
    {
      hide InFile, Holds, HasHash, BinHolds, Extends, Store.Valid, Described, Held, OthersSettled, Settled, Referenced,
           Traced, Grown;
      OpenSound();
      ghost var was, wasBin, wasContents, nodes := chunks, bin, store.Contents(), tmpChunks;
      HeldOrder(nodes, paths, was, tmpAddress, bin, wasContents);
      var cn := tmpChunks[0];
      tmpChunks := tmpChunks[1..];
      DecideNode(cn, again, record);
      ghost var q := chunks[cn.fc];
      if record {
        assert rdc == old(rdc) + {q.address};
        ReleasedReferenced(old(rdc), nodes, was, extra, q);
        ReferencedMore(rdc, tmpChunks, was[cn.fc := q], extra - {q.address}, extra);
      }
      ReleaseFirst(nodes, paths, tmpAddress, was, wasBin, wasContents, q, bin, store.Contents());
      OneChanged(was, cn.fc, q);
      StillDescribed(store.hashing, files, paths, was, was[cn.fc := q]);
    }

    /** Store a held-back chunk again and index its new container. */
    method StoreAgain(path: string, fc: FingerChunk, record: bool) returns (address: Address)
      requires store.Valid() && this !in store.Repr && BinHolds(bin, store.Contents())
      requires InFile(store.hashing, files, path, fc)
      modifies this`bin, this`rdc, this`totalContainerNum, store.Repr
      ensures store.Valid() && fresh(store.Repr - old(store.Repr)) && this !in store.Repr
      ensures Extends(old(store.Contents()), store.Contents()) && BinHolds(bin, store.Contents())
      ensures bin == old(bin)[fc.hash := address] && Holds(store.Contents(), address, fc.hash)
      ensures rdc == old(rdc) + if record then {address} else {}
      ensures old(totalContainerNum == |rdc|) ==> totalContainerNum == |rdc|
      ensures !record ==> totalContainerNum == old(totalContainerNum)
    {
      hide InFile, Holds, HasHash, BinHolds, Extends, Store.Valid;
      address, bin := WriteAndIndex(store, files, path, fc, bin);
      if record {
        Reference(address);
      }
    }

    /** The writes for one held-back record; its mutex is given back after the last of them. */
    method DecideNode(cn: ChunkNode, again: bool, record: bool)
      requires store.Valid() && this !in store.Repr && BinHolds(bin, store.Contents()) && Traced(trace, chunks)
      requires cn.fc < |chunks| && InFile(store.hashing, files, cn.path, chunks[cn.fc]) && chunks[cn.fc].locked
      requires chunks[cn.fc].hash in bin && Holds(store.Contents(), chunks[cn.fc].address, chunks[cn.fc].hash)
      modifies this`bin, this`chunks, this`trace, this`rdc, this`totalContainerNum, store.Repr
      ensures store.Valid() && fresh(store.Repr - old(store.Repr)) && this !in store.Repr
      ensures Extends(old(store.Contents()), store.Contents()) && BinHolds(bin, store.Contents())
      ensures Traced(trace, chunks) && Grown(old(trace), trace)
      ensures old(bin).Keys == bin.Keys
      ensures |chunks| == |old(chunks)| && chunks == old(chunks)[cn.fc := chunks[cn.fc]]
      ensures SameIdent(old(chunks)[cn.fc], chunks[cn.fc]) && !chunks[cn.fc].locked
              && Settled(chunks[cn.fc], bin, store.Contents())
      ensures if again then chunks[cn.fc].isNew else chunks[cn.fc] == old(chunks)[cn.fc].(locked := false)
      ensures rdc == old(rdc) + if again && record then {chunks[cn.fc].address} else {}
      ensures old(totalContainerNum == |rdc|) ==> totalContainerNum == |rdc|
      ensures !(again && record) ==> totalContainerNum == old(totalContainerNum)
    {
      hide InFile, Holds, HasHash, BinHolds, Extends, Store.Valid, Traced, Grown, Settled;
      RewriteRefl(store.Contents(), chunks);
      var address := chunks[cn.fc].address;
      if again {
        address := StoreAgain(cn.path, chunks[cn.fc], record);
      }
      chunks, trace := GiveBack(chunks, trace, cn.fc, again, address);
      SettledNow(chunks[cn.fc], bin, store.Contents());
    }

    /** Decide the held-back records together: store them all again if they use too little of
        their container, otherwise leave them. At the end of the stream (`record` false) the
        reference set is not kept up to date any more. */
    method Flush(record: bool)
      requires Sound() && Length() && tmpChunks != [] && (record ==> Exact({}))
      modifies this`bin, this`chunks, this`trace, this`tmpChunks, this`rdc, this`totalContainerNum, store.Repr
      ensures Sound() && tmpChunks == [] && (record ==> Exact({}))
      ensures fresh(store.Repr - old(store.Repr)) && old(store.Valid())
              && Extends(old(store.Contents()), store.Contents())
      ensures old(bin).Keys == bin.Keys && Grown(old(trace), trace)
      ensures ReleasedAs(old(tmpChunks), old(chunks), chunks, tmpLength as real / C.CONTAINER_SIZE as real < reuse)
    {
      hide InFile, Holds, HasHash, BinHolds, Extends, Store.Valid, Described, Held, OthersSettled, Settled, Referenced,
           Measured,
           ReleasedAs, Sound, IsPending, Traced, Grown;
      OpenSound();
      var again := tmpLength as real / C.CONTAINER_SIZE as real < reuse;
      if !again && record {
        ReferencedMore(rdc, tmpChunks, chunks, {}, {tmpAddress});
        Reference(tmpAddress);
        ReferencedExtra(old(rdc), tmpChunks, chunks, tmpAddress);
      }
      Drain(again, record);
    }

    /** `queue_pop` until the queue of held-back records is empty. */
    method Drain(again: bool, record: bool)
      requires Sound() && tmpChunks != []
      requires record ==> Exact(if again then {} else {tmpAddress}) && (again || tmpAddress in rdc)
      modifies this`bin, this`chunks, this`trace, this`tmpChunks, this`rdc, this`totalContainerNum, store.Repr
      ensures Sound() && tmpChunks == [] && (record ==> Exact({}))
      ensures fresh(store.Repr - old(store.Repr)) && old(store.Valid())
              && Extends(old(store.Contents()), store.Contents())
      ensures old(bin).Keys == bin.Keys && Grown(old(trace), trace)
      ensures ReleasedAs(old(tmpChunks), old(chunks), chunks, again)
    {
      hide InFile, Holds, HasHash, BinHolds, Extends, Store.Valid, Described, Held, OthersSettled, Settled, Referenced,
           Measured,
           ReleasedAs, Sound, IsPending, Exact, Traced, Grown, Rising, SameIdent;
      Intact();
      GrownRefl(trace);
      Ordered();
      ghost var nodes, before, contents, n: nat := tmpChunks, chunks, store.Contents(), 0;
      ghost var extra := if again then {} else {tmpAddress};
      RewriteRefl(contents, before);
      NoneReleased(before, again);
      while tmpChunks != []
        invariant Sound() && store.Valid() && this !in store.Repr
        invariant n <= |nodes| && tmpChunks == nodes[n..]
        invariant if again then extra == {} else extra <= {tmpAddress} && (n > 0 ==> extra == {})
        invariant record ==> Exact(extra) && (again || tmpAddress in rdc)
        invariant fresh(store.Repr - old(store.Repr)) && Extends(contents, store.Contents())
        invariant ReleasedAs(nodes[..n], before, chunks, again) && old(bin).Keys == bin.Keys && Grown(old(trace), trace)
        decreases |nodes| - n
      {
        ghost var was, mid, done := chunks, store.Contents(), trace;
        assert tmpChunks[0] == nodes[n];
        ReleaseOne(again, record, extra);
        Intact();
        DrainStep(nodes, n, before, was, chunks, again);
        ExtendsTransitive(contents, mid, store.Contents());
        GrownTransitive(old(trace), done, trace);
        extra := if again then extra else extra - {tmpAddress};
        n := n + 1;
      }
      assert nodes[..n] == nodes;
    }

    lemma Ordered()
      requires Sound()
      ensures Rising(tmpChunks)
    {
      HeldOrder(tmpChunks, paths, chunks, tmpAddress, bin, store.Contents());
    }

    /** `selective_dedup`: hold the duplicate back, after deciding those of another container. */
    method SelectiveDedup(path: string, fc: FingerChunk, address: Address)
      requires Sound() && Exact({}) && Length()
      requires InFile(store.hashing, files, path, fc) && !fc.locked
      requires fc.hash in bin && address == bin[fc.hash]
      modifies this`bin, this`chunks, this`trace, this`paths, this`tmpChunks, this`tmpAddress, this`tmpLength, this`rdc,
               this`totalContainerNum, store.Repr
      ensures Sound() && Exact({}) && Length()
      ensures fresh(store.Repr - old(store.Repr)) && old(store.Valid())
              && Extends(old(store.Contents()), store.Contents())
      ensures SameIdents(old(chunks) + [fc], chunks) && Grown(old(trace), trace)
      ensures |chunks| == |old(chunks)| + 1 && chunks[|old(chunks)|] == Twin(fc, address).(locked := true)
      ensures if old(tmpChunks) != [] && address != old(tmpAddress)
              then tmpChunks == [ChunkNode(|old(chunks)|, path)] &&
                   ReleasedAs(old(tmpChunks), old(chunks), chunks[..|old(chunks)|],
                              old(tmpLength) as real / C.CONTAINER_SIZE as real < reuse)
              else tmpChunks == old(tmpChunks) + [ChunkNode(|old(chunks)|, path)] &&
                   chunks[..|old(chunks)|] == old(chunks)
      ensures paths == old(paths) + [path] && old(bin).Keys == bin.Keys
    {
      hide InFile, Holds, HasHash, BinHolds, Extends, Store.Valid, Described, OthersSettled, Settled, Referenced,
           Measured,
           ReleasedAs, IsPending, SameIdents, Held, Traced, Grown;
      OpenSound();
      GrownRefl(trace);
      RewriteRefl(store.Contents(), chunks);
      BinAt(bin, store.Contents(), fc.hash);
      if tmpChunks != [] && address != tmpAddress {
        ghost var was, contents, nodes, again := chunks, store.Contents(), tmpChunks,
        tmpLength as real / C.CONTAINER_SIZE as real < reuse;
        Flush(true);
        ReleasedEnd(nodes, was, chunks, again);
        HoldsExtends(contents, store.Contents(), address, fc.hash);
        tmpLength := 0;
        MeasuredNothing(chunks);
      }
      ghost var mid, done := chunks, trace;
      SameSize(old(chunks), mid);
      PushTmp(path, fc, address);
      assert chunks[..|mid|] == mid;
      SameIdentsSnoc(old(chunks), mid, fc, chunks);
      GrownTransitive(old(trace), done, trace);
    }

    /** Append a duplicate, take its mutex and hold it back. */
    method PushTmp(path: string, fc: FingerChunk, address: Address)
      requires Sound() && Exact({}) && Length()
      requires tmpChunks == [] || address == tmpAddress
      requires InFile(store.hashing, files, path, fc) && !fc.locked
      requires fc.hash in bin && Holds(store.Contents(), address, fc.hash)
      modifies this`chunks, this`trace, this`paths, this`tmpChunks, this`tmpAddress, this`tmpLength
      ensures Sound() && Exact({}) && Length() && Grown(old(trace), trace)
      ensures chunks == old(chunks) + [Twin(fc, address).(locked := true)] && paths == old(paths) + [path]
      ensures tmpChunks == old(tmpChunks) + [ChunkNode(|old(chunks)|, path)]
    {
      hide InFile, Holds, HasHash, BinHolds, Extends, Store.Valid, Described, OthersSettled, Settled, Referenced,
           Measured, IsPending, Held,
           Traced, Grown;
      Intact();
      ghost var was, q := chunks, Twin(fc, address).(locked := true);
      HeldBack(tmpChunks, tmpAddress, paths, was, bin, store.Contents(), rdc, path, q);
      DescribedSnoc(store.hashing, files, paths, was, path, fc, q);
      MeasuredSnoc(tmpChunks, ChunkNode(|was|, path), was, was + [q], tmpLength);
      tmpAddress := address;
      tmpChunks := tmpChunks + [ChunkNode(|chunks|, path)];
      TakeIn(fc, address);
      paths := paths + [path];
      tmpLength := tmpLength + fc.length;
    }

    /** The record enters the stream as a duplicate, and its mutex is taken. */
    method TakeIn(fc: FingerChunk, address: Address)
      requires Traced(trace, chunks) && !fc.locked
      modifies this`chunks, this`trace
      ensures chunks == old(chunks) + [Twin(fc, address).(locked := true)]
      ensures Traced(trace, chunks) && Grown(old(trace), trace)
    {
      hide Traced, Grown, Locks;
      GrownRefl(trace);
      chunks, trace := EnterAs(chunks, trace, trace, fc, false, address, true);
    }

    /** `typical_dedup`: a new chunk is stored and indexed, a duplicate is left in place. The
        record's mutex is never taken. */
    method TypicalDedup(path: string, fc: FingerChunk)
      requires Sound() && Exact({}) && Length()
      requires InFile(store.hashing, files, path, fc) && !fc.locked
      modifies this`bin, this`chunks, this`trace, this`paths, this`rdc, this`totalContainerNum, store.Repr
      ensures Sound() && Exact({}) && Length()
      ensures fresh(store.Repr - old(store.Repr)) && old(store.Valid())
              && Extends(old(store.Contents()), store.Contents())
      ensures |chunks| == |old(chunks)| + 1 && chunks[..|old(chunks)|] == old(chunks)
              && SameIdent(fc, chunks[|old(chunks)|]) && !chunks[|old(chunks)|].locked
      ensures if fc.hash in old(bin) then chunks[|old(chunks)|] == Twin(fc, old(bin)[fc.hash])
              else chunks[|old(chunks)|].isNew
      ensures paths == old(paths) + [path] && Grown(old(trace), trace) && bin.Keys == old(bin).Keys + {fc.hash}
      ensures Locks(trace) == Locks(old(trace)) + [0]
    {
      hide InFile, Holds, HasHash, BinHolds, Extends, Store.Valid, Described, OthersSettled, Settled, Referenced,
           Measured, IsPending, Held,
           Traced, Grown, Locks;
      OpenSound();
      ghost var was, wasBin, contents := chunks, bin, store.Contents();
      var address := Place(path, fc);
      Reference(address);
      ghost var q := chunks[|was|];
      Decided(tmpChunks, paths, tmpAddress, was, wasBin, contents, old(rdc), path, q, bin, store.Contents());
      DescribedSnoc(store.hashing, files, paths, was, path, fc, q);
      MeasuredSame(tmpChunks, was, was + [q], tmpLength);
      paths := paths + [path];
    }

    /** Store a new chunk; a duplicate stays where the index says. */
    method Place(path: string, fc: FingerChunk) returns (address: Address)
      requires store.Valid() && this !in store.Repr && BinHolds(bin, store.Contents()) && Traced(trace, chunks)
      requires InFile(store.hashing, files, path, fc) && !fc.locked
      modifies this`bin, this`chunks, this`trace, store.Repr
      ensures store.Valid() && fresh(store.Repr - old(store.Repr)) && this !in store.Repr
      ensures Extends(old(store.Contents()), store.Contents()) && BinHolds(bin, store.Contents())
      ensures Traced(trace, chunks) && Grown(old(trace), trace)
      ensures bin.Keys == old(bin).Keys + {fc.hash} && Locks(trace) == Locks(old(trace)) + [0]
      ensures chunks == old(chunks) + [fc.(isNew := fc.hash !in old(bin), address := address)]
      ensures Settled(chunks[|old(chunks)|], bin, store.Contents())
      ensures fc.hash in old(bin) ==> address == old(bin)[fc.hash]
    {
      hide InFile, Holds, BinHolds, Extends, Store.Valid, Settled, Traced, Grown, Locks;
      RewriteRefl(store.Contents(), []);
      GrownRefl(trace);
      var isNew;
      isNew, address, bin := FindOrStore(store, files, path, fc, bin);
      SettledNow(fc.(isNew := isNew, address := address), bin, store.Contents());
      chunks, trace := EnterAs(chunks, trace, trace, fc, isNew, address, false);
    }

    /** `cfl_process` for a file. */
    method Process(file: FileInfo)
      requires Valid()
      requires forall i :: 0 <= i < |file.chunks| ==>
               InFile(store.hashing, files, file.path, file.chunks[i]) && !file.chunks[i].locked
      modifies this`bin, this`chunks, this`trace, this`paths, this`tmpChunks, this`tmpAddress, this`tmpLength, this`rdc,
               this`totalContainerNum, this`datasetSize, this`cfl, this`waits, store.Repr
      ensures Valid()
      ensures fresh(store.Repr - old(store.Repr)) && old(store.Valid())
              && Extends(old(store.Contents()), store.Contents())
      ensures SameIdents(old(chunks) + file.chunks, chunks) && Grown(old(trace), trace)
      ensures paths == old(paths) + seq(|file.chunks|, _ => file.path) && old(waits) <= waits
    {
      hide Account, InFile, Holds, HasHash, BinHolds, Extends, Store.Valid, Sound, Exact, Length, TotalLength,
           SameIdents,
           Traced, Grown;
      OpenSound();
      RewriteRefl(store.Contents(), chunks);
      GrownRefl(trace);
      assert old(chunks) + file.chunks[..0] == chunks;
      for k := 0 to |file.chunks|
        invariant Valid() && store.Valid()
        invariant fresh(store.Repr - old(store.Repr)) && Extends(old(store.Contents()), store.Contents())
        invariant SameIdents(old(chunks) + file.chunks[..k], chunks) && Grown(old(trace), trace)
        invariant paths == old(paths) + seq(k, _ => file.path) && old(waits) <= waits
      {
        ghost var was, contents, done := chunks, store.Contents(), trace;
        ProcessChunk(file.path, file.chunks[k]);
        OpenSound();
        SameIdentsAppend(old(chunks) + file.chunks[..k], was, file.chunks[k], chunks);
        ExtendsTransitive(old(store.Contents()), contents, store.Contents());
        GrownTransitive(old(trace), done, trace);
        assert old(chunks) + file.chunks[..k] + [file.chunks[k]] == old(chunks) + file.chunks[..k + 1];
        assert seq(k, _ => file.path) + [file.path] == seq(k + 1, _ => file.path);
      }
      assert old(chunks) + file.chunks[..|file.chunks|] == old(chunks) + file.chunks;
    }

    /** One round of `cfl_process`'s loop. */
    method ProcessChunk(path: string, fc: FingerChunk)
      requires Valid() && InFile(store.hashing, files, path, fc) && !fc.locked
      modifies this`bin, this`chunks, this`trace, this`paths, this`tmpChunks, this`tmpAddress, this`tmpLength, this`rdc,
               this`totalContainerNum, this`datasetSize, this`cfl, this`waits, store.Repr
      ensures Valid()
      ensures fresh(store.Repr - old(store.Repr)) && old(store.Valid())
              && Extends(old(store.Contents()), store.Contents())
      ensures SameIdents(old(chunks) + [fc], chunks) && Grown(old(trace), trace)
      ensures paths == old(paths) + [path] && waits == old(waits) + [tmpChunks]
      ensures chunks[|old(chunks)|].locked <==>
              fc.hash in old(bin) && if old(chunks) == [] then 1.0 < lowWaterMark
                                     else var c := old(totalContainerNum);
                                       c > 0 && (old(datasetSize) / 4194304 + 1) as real / c as real < lowWaterMark
      ensures fc.hash in old(bin) ==>
                chunks[|old(chunks)|].(locked := false) == fc.(isNew := false, address := old(bin)[fc.hash])
      ensures fc.hash !in old(bin) ==> chunks[|old(chunks)|].isNew
      ensures datasetSize == old(datasetSize) + fc.length
    {
      hide Level.Below, LevelOf, Account, InFile, Holds, HasHash, BinHolds, Extends, Store.Valid, Sound, Exact, Length,
           TotalLength,
           SameIdents,
           Traced, Grown;
      OpenSound();
      ghost var was := chunks;
      LevelIs();
      LevelInNumbers(datasetSize, totalContainerNum, lowWaterMark);
      LevelOpen();
      datasetSize := datasetSize + fc.length;
      if fc.hash in bin && cfl.Below(lowWaterMark) {
        HoldTurn(path, fc);
      } else {
        PassTurn(path, fc);
      }
      TotalSame(was + [fc], chunks);
      TotalSnoc(was, fc);
      cfl := LevelOf(datasetSize, totalContainerNum);
    }

    /** The turn of a record that is held back. */
    method HoldTurn(path: string, fc: FingerChunk)
      requires Sound() && Exact({}) && Length() && InFile(store.hashing, files, path, fc) && !fc.locked
      requires Account(chunks, waits, tmpChunks, bin0, bin, Locks(trace), lowWaterMark, reuse)
      requires fc.hash in bin && LevelAt(chunks, |chunks|, tmpChunks).Below(lowWaterMark)
      modifies this`bin, this`chunks, this`trace, this`paths, this`tmpChunks, this`tmpAddress, this`tmpLength, this`rdc,
               this`totalContainerNum, this`waits, store.Repr
      ensures Sound() && Exact({}) && Length()
      ensures Account(chunks, waits, tmpChunks, bin0, bin, Locks(trace), lowWaterMark, reuse)
      ensures fresh(store.Repr - old(store.Repr)) && old(store.Valid())
              && Extends(old(store.Contents()), store.Contents())
      ensures SameIdents(old(chunks) + [fc], chunks) && Grown(old(trace), trace)
      ensures |chunks| == |old(chunks)| + 1
      ensures chunks[|old(chunks)|] == Twin(fc, old(bin)[fc.hash]).(locked := true)
      ensures paths == old(paths) + [path] && waits == old(waits) + [tmpChunks]
    {
      hide Account, InFile, Holds, HasHash, BinHolds, Extends, Store.Valid, Sound, Exact, Length, TotalLength,
           SameIdents,
           Traced, Grown, Locks, Joins, Fated, ReleasedAs, LevelAt, Steady, IsPending, Measured;
      OpenSound();
      Standing();
      ghost var released, length := tmpChunks != [] && bin[fc.hash] != tmpAddress, tmpLength;
      SelectiveDedup(path, fc, bin[fc.hash]);
      SameIdentsLast(old(chunks), fc, chunks);
      SelectiveTurn(old(chunks), chunks, old(tmpChunks), tmpChunks, released, length, path, reuse);
      OpenSound();
      LocksHeld(old(trace), old(chunks), trace, chunks);
      AccountSnoc(old(chunks), chunks, waits, old(tmpChunks), tmpChunks, bin0, old(bin), bin, Locks(old(trace)),
                  Locks(trace), lowWaterMark, reuse, true);
      waits := waits + [tmpChunks];
    }

    /** The turn of a record that is decided at once. */
    method PassTurn(path: string, fc: FingerChunk)
      requires Sound() && Exact({}) && Length() && InFile(store.hashing, files, path, fc) && !fc.locked
      requires Account(chunks, waits, tmpChunks, bin0, bin, Locks(trace), lowWaterMark, reuse)
      requires !(fc.hash in bin && LevelAt(chunks, |chunks|, tmpChunks).Below(lowWaterMark))
      modifies this`bin, this`chunks, this`trace, this`paths, this`rdc, this`totalContainerNum, this`waits, store.Repr
      ensures Sound() && Exact({}) && Length()
      ensures Account(chunks, waits, tmpChunks, bin0, bin, Locks(trace), lowWaterMark, reuse)
      ensures fresh(store.Repr - old(store.Repr)) && old(store.Valid())
              && Extends(old(store.Contents()), store.Contents())
      ensures SameIdents(old(chunks) + [fc], chunks) && Grown(old(trace), trace)
      ensures |chunks| == |old(chunks)| + 1 && !chunks[|old(chunks)|].locked
      ensures if fc.hash in old(bin) then chunks[|old(chunks)|] == Twin(fc, old(bin)[fc.hash])
              else chunks[|old(chunks)|].isNew
      ensures paths == old(paths) + [path] && waits == old(waits) + [tmpChunks]
    {
      hide Account, InFile, Holds, HasHash, BinHolds, Extends, Store.Valid, Sound, Exact, Length, TotalLength,
           SameIdents,
           Traced, Grown, Locks, Joins, Fated, ReleasedAs, LevelAt, Steady, IsPending, Measured;
      OpenSound();
      Standing();
      RewriteRefl(store.Contents(), chunks);
      TypicalDedup(path, fc);
      SameIdentsSnoc(old(chunks), old(chunks), fc, chunks);
      SteadyMore(old(chunks), chunks);
      AccountSnoc(old(chunks), chunks, waits, old(tmpChunks), tmpChunks, bin0, old(bin), bin, Locks(old(trace)),
                  Locks(trace), lowWaterMark, reuse, false);
      waits := waits + [tmpChunks];
    }

    lemma OpenValid()
      requires Valid()
      ensures store.Valid() && this !in store.Repr && Traced(trace, chunks)
    {
    }

    /** `sync_queue_push` of the file just processed, by the caller. */
    ghost method PushFile()
      requires Valid()
      modifies this`trace
      ensures Valid() && trace == old(trace) + [Push]
    {
      hide BinHolds, Described, Held, OthersSettled, Referenced, Measured, TotalLength, Store.Valid, Traced;
      OpenSound();
      TracedPush(trace, chunks);
      trace := trace + [Push];
    }

    /** `cfl_process` at the end of the stream: decide the records still held back. */
    method Finish()
      requires Valid()
      modifies this`bin, this`chunks, this`trace, this`tmpChunks, this`rdc, this`totalContainerNum, store.Repr
      ensures store.Valid() && fresh(store.Repr - old(store.Repr)) && old(store.Valid())
      ensures Extends(old(store.Contents()), store.Contents()) && BinHolds(bin, store.Contents())
              && old(bin).Keys == bin.Keys
      ensures SameIdents(old(chunks), chunks) && Grown(old(trace), trace)
      ensures Described(store.hashing, files, paths, chunks)
      ensures forall i :: 0 <= i < |chunks| ==> Settled(chunks[i], bin, store.Contents())
      ensures Traced(trace, chunks) && Released(Replay(trace).recs)
      ensures CflStream(chunks, waits, bin0, bin, Locks(trace), lowWaterMark, reuse)
      ensures ReleasedAs(old(tmpChunks), old(chunks), chunks, tmpLength as real / C.CONTAINER_SIZE as real < reuse)
    {
      hide InFile, Holds, HasHash, BinHolds, Extends, Store.Valid, Exact, Length, TotalLength, SameIdents, ReleasedAs,
           Described, OthersSettled, Settled, Held, Traced, Grown, Replay, Released;
      ghost var again := tmpLength as real / C.CONTAINER_SIZE as real < reuse;
      OpenSound();
      Standing();
      RewriteRefl(store.Contents(), chunks);
      GrownRefl(trace);
      NoneReleased(chunks, again);
      if tmpChunks != [] {
        Flush(false);
      }
      ReleasedEnd(old(tmpChunks), old(chunks), chunks, again);
      NoneHeld(chunks, bin, store.Contents());
      AllReleased(trace, chunks);
      ReleasedFate(old(tmpChunks), old(chunks), chunks, tmpLength, reuse);
      AccountEnd(old(chunks), chunks, waits, old(tmpChunks), bin0, old(bin), bin, Locks(old(trace)), lowWaterMark,
                 reuse);
      SameSize(old(chunks), chunks);
      LocksSame(old(trace), old(chunks), trace, chunks);
    }
  }

  lemma PendingAll(nodes: seq<ChunkNode>, chunks: seq<FingerChunk>, address: Address)
    requires forall k :: 0 <= k < |nodes| ==> nodes[k].fc < |chunks|
    requires forall k :: 0 <= k < |nodes| ==>
               chunks[nodes[k].fc].locked && !chunks[nodes[k].fc].isNew && chunks[nodes[k].fc].address == address
    ensures forall j :: 0 <= j < |chunks| && IsPending(nodes, j) ==>
              chunks[j].locked && !chunks[j].isNew && chunks[j].address == address
  {
  }

  lemma SteadyMore(was: seq<FingerChunk>, now: seq<FingerChunk>)
    requires |was| <= |now| && now[..|was|] == was
    ensures Steady(was, now)
  {
    assert forall i :: 0 <= i < |was| ==> now[i] == now[..|was|][i];
  }

  lemma SameIdentsLast(was: seq<FingerChunk>, fc: FingerChunk, now: seq<FingerChunk>)
    requires SameIdents(was + [fc], now)
    ensures SameIdent(fc, now[|was|])
  {
    assert SameIdent((was + [fc])[|was|], now[|was|]);
  }

  lemma NoneHeld(chunks: seq<FingerChunk>, bin: Bin, contents: Contents)
    requires OthersSettled([], chunks, bin, contents)
    ensures forall i :: 0 <= i < |chunks| ==> Settled(chunks[i], bin, contents) && !chunks[i].locked
  {
    forall i | 0 <= i < |chunks|
      ensures Settled(chunks[i], bin, contents) && !chunks[i].locked
    {
      assert !IsPending([], i);
    }
  }

  lemma ReferencedExtra(rdc: set<Address>, nodes: seq<ChunkNode>, chunks: seq<FingerChunk>, a: Address)
    requires Referenced(rdc, nodes, chunks, {a})
    ensures Referenced(rdc + {a}, nodes, chunks, {a})
  {
  }
}
