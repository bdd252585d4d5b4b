/** `mark_deplicate_chunk` of client/src/chunkdedup.c without a rewrite policy: the chunks of
    a new file are stored unless the index knows them, and the recipe of a duplicate file is
    entered into the index. */
module NoRewrite {
  import opened Store
  import opened ChunkDedup
  import opened RewriteSpec
  import opened Trace

  /** Offsets are running sums of the lengths, so reading at the running sum reads the chunk. */
  ghost predicate Consecutive(chunks: seq<FingerChunk>) {
    forall i :: 0 <= i < |chunks| ==> chunks[i].offset == TotalLength(chunks[..i])
  }

  /** What deduplication does with the chunk at position `i`: it is stored if and only if
      neither the old index nor an earlier chunk of the file has its fingerprint, and all
      chunks with one fingerprint get the address that the index then has. */
  ghost predicate DeduplicatedAt(before: seq<FingerChunk>, after: FingerChunk, i: nat, bin0: Bin, bin: Bin)
    requires i < |before|
  {
    && SameIdent(before[i], after)
    && (after.isNew <==> before[i].hash !in bin0 && before[i].hash !in Hashes(before[..i]))
    && before[i].hash in bin && after.address == bin[before[i].hash]
  }

  ghost predicate Deduplicated(before: seq<FingerChunk>, after: seq<FingerChunk>, bin0: Bin, bin: Bin) {
    && |before| == |after|
    && bin.Keys == bin0.Keys + Hashes(before)
    && (forall h :: h in bin0 ==> bin[h] == bin0[h])
    && forall i :: 0 <= i < |after| ==> DeduplicatedAt(before, after[i], i, bin0, bin)
  }

  lemma DeduplicatedSnoc(before: seq<FingerChunk>, after: seq<FingerChunk>, bin0: Bin, bin: Bin,
                         fc: FingerChunk, q: FingerChunk, bin': Bin)
    requires Deduplicated(before, after, bin0, bin) && SameIdent(fc, q)
    requires if fc.hash in bin then bin' == bin && !q.isNew else bin' == bin[fc.hash := q.address] && q.isNew
    requires fc.hash in bin' && q.address == bin'[fc.hash]
    ensures Deduplicated(before + [fc], after + [q], bin0, bin')
  {
    var b, a, n := before + [fc], after + [q], |before|;
    HashesSnoc(before, fc);
    assert b[..n] == before;
    forall i | 0 <= i < |a|
      ensures DeduplicatedAt(b, a[i], i, bin0, bin')
    {
      if i < n {
        assert DeduplicatedAt(before, after[i], i, bin0, bin);
        assert b[..i] == before[..i];
      }
    }
  }

  /** Two stretches of the stream, one after the other. */
  lemma DeduplicatedConcat(a: seq<FingerChunk>, a': seq<FingerChunk>, b: seq<FingerChunk>, b': seq<FingerChunk>,
                           bin0: Bin, bin1: Bin, bin2: Bin)
    requires Deduplicated(a, a', bin0, bin1) && Deduplicated(b, b', bin1, bin2)
    ensures Deduplicated(a + b, a' + b', bin0, bin2)
  {
    hide Hashes;
    HashesConcat(a, b);
    forall i | 0 <= i < |a' + b'|
      ensures DeduplicatedAt(a + b, (a' + b')[i], i, bin0, bin2)
    {
      if i < |a| {
        assert DeduplicatedAt(a, a'[i], i, bin0, bin1);
        assert (a + b)[..i] == a[..i];
      } else {
        assert DeduplicatedAt(b, b'[i - |a|], i - |a|, bin1, bin2);
        HashesConcat(a, b[..i - |a|]);
        assert (a + b)[..i] == a + b[..i - |a|];
      }
    }
  }

  lemma DeduplicatedIdents(was: seq<FingerChunk>, before: seq<FingerChunk>, after: seq<FingerChunk>, bin0: Bin,
                           bin: Bin)
    requires Deduplicated(before, after, bin0, bin)
    ensures SameIdents(was + before, was + after) && bin.Keys == bin0.Keys + Hashes(before)
  {
    forall i | 0 <= i < |after|
      ensures SameIdent(before[i], after[i])
    {
      assert DeduplicatedAt(before, after[i], i, bin0, bin);
    }
  }

  class NoRewrite {
    const store: Store
    const files: SourceTree
    var bin: Bin
    /** The records of the new files, in stream order. Their mutexes are never taken. */
    var chunks: seq<FingerChunk>
    ghost var trace: seq<Action>

    ghost predicate Valid()
      reads this, store, store.Repr
    {
      && store.Valid() && this !in store.Repr && BinHolds(bin, store.Contents())
      && Traced(trace, chunks) && Untaken(trace)
      && AllSettled(chunks, bin, store.Contents())
    }

    constructor (store: Store, files: SourceTree, bin: Bin)
      requires store.Valid() && BinHolds(bin, store.Contents())
      ensures Valid() && this.store == store && this.files == files && this.bin == bin
      ensures chunks == [] && trace == []
    {
      hide Store.Valid, BinHolds, Traced, Untaken;
      TracedNothing();
      OnceEachNothing();
      this.store, this.files, this.bin, chunks, trace := store, files, bin, [], [];
    }

    /** The branch for a new file. `size` accumulates the offset to read from. */
    method MarkNewFile(file: FileInfo) returns (list: seq<FingerChunk>)
      requires Valid() && Consecutive(file.chunks)
      requires forall i :: 0 <= i < |file.chunks| ==>
               InFile(store.hashing, files, file.path, file.chunks[i]) && !file.chunks[i].locked
      modifies this`bin, this`chunks, this`trace, store.Repr
      ensures Valid() && fresh(store.Repr - old(store.Repr)) && Extends(old(store.Contents()), store.Contents())
      ensures Deduplicated(file.chunks, list, old(bin), bin) && old(bin).Keys <= bin.Keys
      ensures chunks == old(chunks) + list && Grown(old(trace), trace)
    {
      hide InFile, HasHash, Holds, Deduplicated, Settled, Store.Valid, BinHolds, Extends, SameIdents, AllSettled,
           Consecutive, Hashes,
           TotalLength, Traced, Grown, Untaken;
      list := [];
      var size: nat := 0;
      RewriteRefl(store.Contents(), []);
      GrownRefl(trace);
      DeduplicatedNil(bin);
      NoLength();
      assert file.chunks[..0] == [];
      for k := 0 to |file.chunks|
        invariant Valid() && fresh(store.Repr - old(store.Repr)) && Extends(old(store.Contents()), store.Contents())
        invariant size == TotalLength(file.chunks[..k]) && old(bin).Keys <= bin.Keys
        invariant |list| == k && Deduplicated(file.chunks[..k], list, old(bin), bin)
        invariant chunks == old(chunks) + list && Grown(old(trace), trace)
      {
        ghost var wasBin, contents, done := bin, store.Contents(), trace;
        var fc := file.chunks[k];
        ConsecutiveAt(file.chunks, k);
        var q := MarkChunk(file.path, size, fc);
        DeduplicatedSnoc(file.chunks[..k], list, old(bin), wasBin, fc, q, bin);
        RewriteTrans(old(store.Contents()), contents, store.Contents(), [], [], []);
        GrownTransitive(old(trace), done, trace);
        assert file.chunks[..k] + [fc] == file.chunks[..k + 1];
        TotalSnoc(file.chunks[..k], fc);
        list := list + [q];
        size := size + fc.length;
      }
      assert file.chunks[..|file.chunks|] == file.chunks;
    }

    /** One round of the loop: the chunk at `size` of the file is looked up, and stored and
        indexed if it is not found. */
    method MarkChunk(path: string, size: nat, fc: FingerChunk) returns (q: FingerChunk)
      requires Valid() && fc.offset == size && InFile(store.hashing, files, path, fc) && !fc.locked
      modifies this`bin, this`chunks, this`trace, store.Repr
      ensures Valid() && fresh(store.Repr - old(store.Repr)) && Extends(old(store.Contents()), store.Contents())
      ensures SameIdent(fc, q) && !q.locked && fc.hash in bin && q.address == bin[fc.hash]
      ensures q.isNew <==> fc.hash !in old(bin)
      ensures bin == if q.isNew then old(bin)[fc.hash := q.address] else old(bin)
      ensures chunks == old(chunks) + [q] && Grown(old(trace), trace)
    {
      hide InFile, HasHash, Holds, Store.Valid, BinHolds, Extends, AllSettled, Settled, Traced, Grown, Locks;
      ghost var wasBin, contents := bin, store.Contents();
      var isNew, address;
      isNew, address, bin := FindOrStore(store, files, path, fc.(offset := size), bin);
      q := fc.(isNew := isNew, address := address);
      SettledNow(q, bin, store.Contents());
      AllSettledSnoc(chunks, wasBin, contents, q, bin, store.Contents());
      GrownRefl(trace);
      chunks, trace := EnterAs(chunks, trace, trace, fc, isNew, address, false);
    }

    lemma OpenValid()
      requires Valid()
      ensures store.Valid() && this !in store.Repr && Traced(trace, chunks)
    {
    }

    /** `sync_queue_push` of the file just processed, by the caller. */
    ghost method PushFile()
      requires Valid()
      modifies this`trace
      ensures Valid() && trace == old(trace) + [Push]
    {
      hide AllSettled, BinHolds, Store.Valid, Traced;
      TracedPush(trace, chunks);
      trace := trace + [Push];
    }

    /** At the end of the stream nothing is left to do. */
    lemma Finished()
      requires Valid()
      ensures Traced(trace, chunks) && Released(Replay(trace).recs) && BinHolds(bin, store.Contents()) && Untaken(trace)
      ensures forall i :: 0 <= i < |chunks| ==> Settled(chunks[i], bin, store.Contents()) && !chunks[i].locked
    {
      AllReleased(trace, chunks);
    }

    /** The branch for a duplicate file: every fingerprint of its recipe that the index lacks is
        entered with the recipe's address. */
    method MarkDuplicateFile(file: FileInfo)
      requires Valid()
      requires forall i :: 0 <= i < |file.chunks| ==>
               Holds(store.Contents(), file.chunks[i].address, file.chunks[i].hash)
      modifies this`bin
      ensures Valid()
      ensures bin.Keys == old(bin).Keys + Hashes(file.chunks)
      ensures forall h :: h in old(bin) ==> bin[h] == old(bin)[h]
      ensures forall i :: 0 <= i < |file.chunks| ==> Entered(file.chunks, i, old(bin), bin)
    {
      hide Holds, Store.Valid, Hashes, Traced;
      assert Hashes([]) == {} by { HashesNil(); }
      for k := 0 to |file.chunks|
        invariant Valid()
        invariant bin.Keys == old(bin).Keys + Hashes(file.chunks[..k])
        invariant forall h :: h in old(bin) ==> bin[h] == old(bin)[h]
        invariant forall i :: 0 <= i < k ==> Entered(file.chunks, i, old(bin), bin)
      {
        var fc := file.chunks[k];
        HashesSnoc(file.chunks[..k], fc);
        assert file.chunks[..k] + [fc] == file.chunks[..k + 1];
        if fc.hash !in bin {
          ghost var was := bin;
          bin := bin[fc.hash := fc.address];
          RewriteRefl(store.Contents(), []);
          AllSettledStays(chunks, was, store.Contents(), bin, store.Contents());
          EnteredStay(file.chunks, k, old(bin), was, bin);
        }
      }
      assert file.chunks[..|file.chunks|] == file.chunks;
    }
  }

  /** A fingerprint that was new to the index at position `i` has the address given there. */
  ghost predicate Entered(chunks: seq<FingerChunk>, i: nat, bin0: Bin, bin: Bin)
    requires i < |chunks|
  {
    && chunks[i].hash in bin
    && (chunks[i].hash !in bin0 && chunks[i].hash !in Hashes(chunks[..i]) ==> bin[chunks[i].hash] == chunks[i].address)
  }

  lemma EnteredStay(chunks: seq<FingerChunk>, k: nat, bin0: Bin, bin: Bin, bin': Bin)
    requires k <= |chunks| && forall i :: 0 <= i < k ==> Entered(chunks, i, bin0, bin)
    requires forall h :: h in bin ==> h in bin' && bin'[h] == bin[h]
    ensures forall i :: 0 <= i < k ==> Entered(chunks, i, bin0, bin')
  {
    forall i | 0 <= i < k
      ensures Entered(chunks, i, bin0, bin')
    {
      assert Entered(chunks, i, bin0, bin);
    }
  }

  lemma DeduplicatedNil(bin: Bin)
    ensures Deduplicated([], [], bin, bin)
  {
  }

  ghost predicate AllSettled(chunks: seq<FingerChunk>, bin: Bin, contents: Contents) {
    forall i :: 0 <= i < |chunks| ==> Settled(chunks[i], bin, contents)
  }

  lemma AllSettledStays(chunks: seq<FingerChunk>, bin: Bin, contents: Contents, bin': Bin, contents': Contents)
    requires AllSettled(chunks, bin, contents) && bin.Keys <= bin'.Keys && Extends(contents, contents')
    ensures AllSettled(chunks, bin', contents')
  {
    forall i | 0 <= i < |chunks|
      ensures Settled(chunks[i], bin', contents')
    {
      SettledStays(chunks[i], bin, contents, bin', contents');
    }
  }

  lemma AllSettledSnoc(chunks: seq<FingerChunk>, bin: Bin, contents: Contents, q: FingerChunk, bin': Bin,
                       contents': Contents)
    requires AllSettled(chunks, bin, contents) && Settled(q, bin', contents')
    requires bin.Keys <= bin'.Keys && Extends(contents, contents')
    ensures AllSettled(chunks + [q], bin', contents')
  {
    var more := chunks + [q];
    forall i | 0 <= i < |more|
      ensures Settled(more[i], bin', contents')
    {
      if i < |chunks| {
        SettledStays(chunks[i], bin, contents, bin', contents');
      }
    }
  }

  lemma NoLength()
    ensures TotalLength([]) == 0
  {
  }

  lemma ConsecutiveAt(chunks: seq<FingerChunk>, k: nat)
    requires Consecutive(chunks) && k < |chunks|
    ensures chunks[k].offset == TotalLength(chunks[..k])
  {
  }
}
