/** client/src/perfect_rewrite.c: mark the whole stream, then keep the duplicates of every
    container that the stream uses well enough and store all other duplicates again. */
module PerfectRewrite {
  import opened Types
  import C = Container
  import opened Store
  import opened ChunkDedup
  import opened RewriteSpec
  import opened Trace

  /** The threshold test, over the rationals instead of `float`. */
  predicate Underused(length: nat, threshold: real) {
    length as real / C.CONTAINER_SIZE as real < threshold
  }

  /** The test in numbers: bytes against the threshold's share of 4 MiB. */
  lemma ShareOfContainer(length: nat, threshold: real)
    ensures Underused(length, threshold) <==> length as real < threshold * 4194304.0
  {
    Quotient(length as real, 4194304.0, threshold);
  }

  ghost function KeptSet(segments: map<Address, nat>, threshold: real): set<Address> {
    set a | a in segments && !Underused(segments[a], threshold)
  }

  /** All or nothing: the duplicates of a container stay in place, every one of them, if the
      bytes counted for it in the whole stream reach the threshold; otherwise every one is
      stored again. New chunks end up in containers written by the second pass. `marked` are
      the records counted: those of the stream, and those of files that were dropped. */
  ghost predicate AllOrNothing(before: seq<FingerChunk>, after: seq<FingerChunk>, marked: seq<FingerChunk>,
                               threshold: real) {
    && |before| == |after|
    && (forall i :: 0 <= i < |after| ==> SameIdent(before[i], after[i]))
    && (forall i :: 0 <= i < |after| && before[i].isNew ==> after[i].address in Written(after))
    && FirstStored(before, after, |after|)
    && (forall i :: 0 <= i < |after| && !before[i].isNew ==>
          if Underused(Weight(marked, {before[i].address}), threshold)
          then after[i].isNew
          else after[i] == before[i].(locked := false))
  }

  lemma OutcomesAllOrNothing(before: seq<FingerChunk>, after: seq<FingerChunk>, marked: seq<FingerChunk>, bin0: Bin,
                             bin: Bin,
                             segments: map<Address, nat>, threshold: real)
    requires Progress(before, after, |before|, bin0, bin, KeptSet(segments, threshold))
    requires Counts(segments, marked) && forall c :: c in before ==> c in marked
    ensures AllOrNothing(before, after, marked, threshold)
  {
    assert after[..|before|] == after;
    forall i | 0 <= i < |after|
      ensures Outcome(before[i], after[i], KeptSet(segments, threshold), Written(after))
    {
    }
    forall i | 0 <= i < |after| && !before[i].isNew
      ensures before[i].address in segments
    {
      HasCounter(segments, marked, before[i]);
    }
  }

  /** Which duplicates are stored again: those whose container is counted with fewer bytes than the
      threshold's share of 4 MiB. The others are as they were. */
  lemma RewrittenInNumbers(before: seq<FingerChunk>, after: seq<FingerChunk>, marked: seq<FingerChunk>, threshold: real,
                           i: nat)
    requires AllOrNothing(before, after, marked, threshold) && i < |before| && !before[i].isNew
    ensures after[i].isNew <==> Weight(marked, {before[i].address}) as real < threshold * 4194304.0
    ensures !after[i].isNew ==> after[i] == before[i].(locked := false)
  {
    ShareOfContainer(Weight(marked, {before[i].address}), threshold);
  }

  /** A threshold of zero stores no duplicate again. */
  lemma NothingRewritten(before: seq<FingerChunk>, after: seq<FingerChunk>, marked: seq<FingerChunk>, threshold: real)
    requires AllOrNothing(before, after, marked, threshold) && threshold <= 0.0
    ensures forall i :: 0 <= i < |before| && !before[i].isNew ==> after[i] == before[i].(locked := false)
  {
    forall i | 0 <= i < |before| && !before[i].isNew
      ensures after[i] == before[i].(locked := false)
    {
      RewrittenInNumbers(before, after, marked, threshold, i);
      assert threshold * 4194304.0 <= 0.0;
    }
  }

  /** A threshold above one stores every duplicate again, except of containers counted with more
      than they can hold, which repeated fingerprints make possible. */
  lemma AllRewritten(before: seq<FingerChunk>, after: seq<FingerChunk>, marked: seq<FingerChunk>, threshold: real)
    requires AllOrNothing(before, after, marked, threshold) && threshold > 1.0
    ensures forall i :: 0 <= i < |before| && !before[i].isNew && Weight(marked, {before[i].address}) <= 4194304 ==>
              after[i].isNew
  {
    forall i | 0 <= i < |before| && !before[i].isNew && Weight(marked, {before[i].address}) <= 4194304
      ensures after[i].isNew
    {
      RewrittenInNumbers(before, after, marked, threshold, i);
      assert threshold * 4194304.0 > 4194304.0;
    }
  }

  lemma AllInNumbers(before: seq<FingerChunk>, after: seq<FingerChunk>, marked: seq<FingerChunk>, threshold: real)
    requires AllOrNothing(before, after, marked, threshold)
    ensures |after| == |before|
    ensures forall i :: 0 <= i < |before| && !before[i].isNew ==>
              (after[i].isNew <==> Weight(marked, {before[i].address}) as real < threshold * 4194304.0)
  {
    forall i | 0 <= i < |before| && !before[i].isNew
      ensures after[i].isNew <==> Weight(marked, {before[i].address}) as real < threshold * 4194304.0
    {
      RewrittenInNumbers(before, after, marked, threshold, i);
    }
  }

  /** The second pass treats a container's duplicates alike. */
  lemma ContainerKeptOrRewritten(before: seq<FingerChunk>, after: seq<FingerChunk>, marked: seq<FingerChunk>,
                                 threshold: real, a: Address)
    requires AllOrNothing(before, after, marked, threshold)
    ensures var mine := set i | 0 <= i < |before| && !before[i].isNew && before[i].address == a;
            || (forall i :: i in mine ==> after[i].isNew)
            || (forall i :: i in mine ==> !after[i].isNew && after[i].address == a)
  {
  }

  /** The marked records are those of the stream and those of dropped files. */
  ghost predicate Split(marked: seq<FingerChunk>, chunks: seq<FingerChunk>, dropped: seq<FingerChunk>) {
    && (forall c :: c in chunks ==> c in marked)
    && (forall c :: c in dropped ==> c.length > 0)
    && forall s :: Weight(marked, s) == Weight(chunks, s) + Weight(dropped, s)
  }

  /** What is counted for a container is what the stream itself holds of it exactly if no
      dropped record refers to it. */
  lemma CountsDropped(marked: seq<FingerChunk>, chunks: seq<FingerChunk>, dropped: seq<FingerChunk>, a: Address)
    requires Split(marked, chunks, dropped)
    ensures Weight(marked, {a}) == Weight(chunks, {a}) <==>
            forall i :: 0 <= i < |dropped| && !dropped[i].isNew ==> dropped[i].address != a
  {
    WeightZero(dropped, a);
  }

  lemma {:induction false} WeightZero(cs: seq<FingerChunk>, a: Address)
    requires forall c :: c in cs ==> c.length > 0
    ensures Weight(cs, {a}) == 0 <==> forall i :: 0 <= i < |cs| && !cs[i].isNew ==> cs[i].address != a
  {
    if cs != [] {
      WeightZero(cs[..|cs| - 1], a);
    }
  }

  /** Dropped files can only save a container: the test on what was counted differs from the
      test on the stream alone exactly if the stream falls short and the count does not. */
  lemma DroppedOnlyKeep(marked: seq<FingerChunk>, chunks: seq<FingerChunk>, dropped: seq<FingerChunk>, a: Address,
                        threshold: real)
    requires Split(marked, chunks, dropped)
    ensures Underused(Weight(marked, {a}), threshold) ==> Underused(Weight(chunks, {a}), threshold)
  {
    assert Weight(marked, {a}) >= Weight(chunks, {a});
  }

  lemma {:induction false} WeightConcat(a: seq<FingerChunk>, b: seq<FingerChunk>, s: set<Address>)
    ensures Weight(a + b, s) == Weight(a, s) + Weight(b, s)
  {
    if b == [] {
      assert a + b == a;
    } else {
      WeightConcat(a, b[..|b| - 1], s);
      assert (a + b)[..|a + b| - 1] == a + b[..|b| - 1];
    }
  }

  lemma SplitSnoc(marked: seq<FingerChunk>, chunks: seq<FingerChunk>, dropped: seq<FingerChunk>, q: FingerChunk)
    requires Split(marked, chunks, dropped)
    ensures Split(marked + [q], chunks + [q], dropped)
  {
    forall s
      ensures Weight(marked + [q], s) == Weight(chunks + [q], s) + Weight(dropped, s)
    {
      assert (marked + [q])[..|marked|] == marked && (chunks + [q])[..|chunks|] == chunks;
      assert Weight(marked, s) == Weight(chunks, s) + Weight(dropped, s);
    }
  }

  lemma SplitDrop(marked: seq<FingerChunk>, chunks: seq<FingerChunk>, dropped: seq<FingerChunk>, first: nat)
    requires Split(marked, chunks, dropped) && first <= |chunks| && forall c :: c in chunks ==> c.length > 0
    ensures Split(marked, chunks[..first], dropped + chunks[first..])
  {
    forall s
      ensures Weight(marked, s) == Weight(chunks[..first], s) + Weight(dropped + chunks[first..], s)
    {
      assert Weight(marked, s) == Weight(chunks, s) + Weight(dropped, s);
      assert chunks == chunks[..first] + chunks[first..];
      WeightConcat(chunks[..first], chunks[first..], s);
      WeightConcat(dropped, chunks[first..], s);
    }
  }

  lemma SplitNothing()
    ensures Split([], [], [])
  {
  }

  /** The server calls the file a duplicate, but the index lacks one of its chunks. */
  predicate Refused(file: FileInfo, bin: Bin) {
    file.isDedup && exists i :: 0 <= i < |file.chunks| && file.chunks[i].hash !in bin
  }

  /** The records marked against an index, and held. */
  ghost function Marks(chunks: seq<FingerChunk>, bin: Bin): (s: seq<FingerChunk>)
    ensures |s| == |chunks|
  {
    seq(|chunks|, i requires 0 <= i < |chunks| => MarkOf(chunks[i], bin))
  }

  /** The records that the first pass marks of a file, the first `n` of them. */
  function MarksOf(file: FileInfo, bin: Bin, n: nat): (cs: seq<FingerChunk>)
    requires n <= |file.chunks|
    ensures |cs| == n
  {
    seq(n, i requires 0 <= i < n => MarkOf(file.chunks[i], bin))
  }

  lemma IsRefused(file: FileInfo, bin: Bin, k: nat)
    requires file.isDedup && FirstMissing(file, bin, k)
    ensures Refused(file, bin)
  {
  }

  /** The first chunk that the index lacks. */
  ghost predicate FirstMissing(file: FileInfo, bin: Bin, k: nat) {
    k < |file.chunks| && file.chunks[k].hash !in bin && forall i :: 0 <= i < k ==> file.chunks[i].hash in bin
  }

  class PerfectRewrite {
    const store: Store
    const files: SourceTree
    const threshold: real
    var bin: Bin
    /** The files marked so far, as runs of records. */
    var dedupBuf: seq<ChunkList>
    var segments: map<Address, nat>
    /** The records of the stream; those of dropped files are not among them. */
    var chunks: seq<FingerChunk>
    ghost var paths: seq<string>
    ghost var trace: seq<Action>
    ghost var marked: seq<FingerChunk>
    ghost var dropped: seq<FingerChunk>

    ghost predicate Sound()
      reads this`bin, this`chunks, this`paths, this`trace, this`dropped, store, store.Repr
    {
      && store.Valid() && this !in store.Repr
      && Traced(trace, chunks) && Chunks(Replay(trace).lost) == dropped
      && BinHolds(bin, store.Contents())
      && Described(store.hashing, files, paths, chunks)
    }

    ghost predicate Marks()
      reads this`bin, this`chunks, this`segments, this`marked, this`dropped
    {
      && (forall i :: 0 <= i < |chunks| ==> Buffered(chunks[i], bin))
      && (forall i :: 0 <= i < |dropped| ==> dropped[i].locked)
      && Counts(segments, marked) && Split(marked, chunks, dropped)
    }

    /** During the first pass. */
    ghost predicate Valid()
      reads this`bin, this`chunks, this`paths, this`trace, this`segments, this`dedupBuf, this`marked, this`dropped,
      store, store.Repr
    {
      Sound() && Marks() && Tiles(dedupBuf, paths, 0, |chunks|)
    }

    constructor (store: Store, files: SourceTree, bin: Bin, threshold: real)
      requires store.Valid() && BinHolds(bin, store.Contents())
      ensures Valid() && this.store == store && this.files == files && this.bin == bin
      ensures this.threshold == threshold && chunks == [] && paths == [] && trace == [] && dropped == [] && marked == []
    {
      hide Store.Valid, BinHolds, Traced, Split, Weight;
      TracedNothing();
      SplitNothing();
      this.store, this.files, this.bin, this.threshold := store, files, bin, threshold;
      dedupBuf, segments, chunks, paths := [], map[], [], [];
      trace, marked, dropped := [], [], [];
    }

    lemma OpenSound()
      requires Sound()
      ensures store.Valid() && this !in store.Repr && |paths| == |chunks|
      ensures Traced(trace, chunks) && Chunks(Replay(trace).lost) == dropped
    {
    }

    /** The first pass over one chunk: take the mutex, then mark it. */
    method MarkChunk(path: string, fc: FingerChunk)
      requires Sound() && Marks() && InFile(store.hashing, files, path, fc) && !fc.locked
      modifies this`segments, this`chunks, this`trace, this`paths, this`marked
      ensures Sound() && Marks() && Grown(old(trace), trace)
      ensures chunks == old(chunks) + [MarkOf(fc, bin)] && marked == old(marked) + [MarkOf(fc, bin)]
      ensures paths == old(paths) + [path]
    {
      hide Counts, InFile, Holds, HasHash, Weight, BinHolds, Store.Valid, Described, Buffered, Traced, Grown, Split,
           Replay;
      ghost var q := MarkOf(fc, bin);
      ghost var done := trace;
      Mark(fc);
      GrownKeeps(done, trace);
      CountsSnoc(old(segments), marked, q);
      SplitSnoc(marked, old(chunks), dropped, q);
      DescribedSnoc(store.hashing, files, paths, old(chunks), path, fc, q);
      MarkedAgainst(q, bin);
      marked := marked + [q];
      paths := paths + [path];
    }

    /** Mark the record under its mutex, and add a duplicate's length to its container's counter. */
    method Mark(fc: FingerChunk)
      requires Traced(trace, chunks) && !fc.locked
      modifies this`segments, this`chunks, this`trace
      ensures chunks == old(chunks) + [MarkOf(fc, bin)] && Traced(trace, chunks) && Grown(old(trace), trace)
      ensures segments == CountMark(old(segments), MarkOf(fc, bin))
    {
      hide Traced, Grown;
      GrownRefl(trace);
      chunks, trace := Enter(chunks, trace, trace, fc, bin, true);
      if fc.hash in bin {
        var address := bin[fc.hash];
        if address in segments {
          segments := segments[address := segments[address] + fc.length];
        } else {
          segments := segments[address := fc.length];
        }
      }
    }

    /** `perfect_rewrite_process` for a file. A file that the server calls a duplicate must not
        contain a chunk that the index lacks: at the first such chunk the call fails. The
        caller then drops the file, whose records so far stay counted and locked. */
    method Process(file: FileInfo) returns (ok: bool)
      requires Valid()
      requires forall i :: 0 <= i < |file.chunks| ==>
               InFile(store.hashing, files, file.path, file.chunks[i]) && !file.chunks[i].locked
      modifies this`dedupBuf, this`segments, this`chunks, this`trace, this`paths, this`marked, this`dropped
      ensures Valid() && old(store.Valid())
      ensures ok <==> !Refused(file, bin)
      ensures ok ==>
                && chunks == old(chunks) + MarksOf(file, bin, |file.chunks|)
                && marked == old(marked) + MarksOf(file, bin, |file.chunks|)
                && paths == old(paths) + seq(|file.chunks|, _ => file.path)
                && dropped == old(dropped) && Grown(old(trace), trace)
      ensures !ok ==> exists k: nat ::
                && FirstMissing(file, bin, k)
                && chunks == old(chunks) && paths == old(paths)
                && marked == old(marked) + MarksOf(file, bin, k + 1)
                && dropped == old(dropped) + MarksOf(file, bin, k + 1)
    {
      hide Counts, InFile, Holds, HasHash, Weight, BinHolds, Store.Valid, Described, Buffered, Sound, Marks, Tiles,
           Traced, Grown, Split, Replay, MarksOf, FirstMissing;
      OpenSound();
      var first := |chunks|;
      var n;
      n, ok := MarkFile(file);
      if !ok {
        DropFile(first, old(trace), old(chunks), old(paths));
        IsRefused(file, bin, n - 1);
        return;
      }
      TilesPush(dedupBuf, old(paths), paths, first, ChunkList(file.path, first, |chunks|));
      dedupBuf := dedupBuf + [ChunkList(file.path, first, |chunks|)];
    }

    /** The loop over the file's chunks, and how many of them it marked. */
    method MarkFile(file: FileInfo) returns (n: nat, ok: bool)
      requires Sound() && Marks()
      requires forall i :: 0 <= i < |file.chunks| ==>
               InFile(store.hashing, files, file.path, file.chunks[i]) && !file.chunks[i].locked
      modifies this`segments, this`chunks, this`trace, this`paths, this`marked
      ensures Sound() && Marks() && old(store.Valid()) && Grown(old(trace), trace) && |chunks| == |paths|
      ensures n <= |file.chunks| && if ok then n == |file.chunks| && !Refused(file, bin)
              else n > 0 && file.isDedup && FirstMissing(file, bin, n - 1)
      ensures chunks == old(chunks) + MarksOf(file, bin, n) && marked == old(marked) + MarksOf(file, bin, n)
      ensures paths == old(paths) + seq(n, _ => file.path)
    {
      hide Counts, InFile, Holds, HasHash, Weight, BinHolds, Store.Valid, Described, Buffered, Sound, Marks, Tiles,
           Traced, Grown, Split, Replay;
      OpenSound();
      GrownRefl(trace);
      n := 0;
      while n < |file.chunks|
        invariant n <= |file.chunks| && Sound() && Marks() && Grown(old(trace), trace)
        invariant chunks == old(chunks) + MarksOf(file, bin, n) && marked == old(marked) + MarksOf(file, bin, n)
        invariant paths == old(paths) + seq(n, _ => file.path)
        invariant file.isDedup ==> forall i :: 0 <= i < n ==> file.chunks[i].hash in bin
      {
        ghost var done := trace;
        MarkChunk(file.path, file.chunks[n]);
        GrownTransitive(old(trace), done, trace);
        assert MarksOf(file, bin, n) + [MarkOf(file.chunks[n], bin)] == MarksOf(file, bin, n + 1);
        assert seq(n, _ => file.path) + [file.path] == seq(n + 1, _ => file.path);
        n := n + 1;
        if file.isDedup && chunks[|chunks| - 1].isNew {
          OpenSound();
          return n, false;
        }
      }
      OpenSound();
      ok := true;
    }

    /** The caller's part after a failed call: the file goes nowhere. */
    method DropFile(first: nat, ghost trace0: seq<Action>, ghost chunks0: seq<FingerChunk>, ghost paths0: seq<string>)
      requires Sound() && Marks() && Traced(trace0, chunks0) && Grown(trace0, trace)
      requires first == |chunks0| == |paths0| <= |chunks| && chunks[..first] == chunks0 && paths[..first] == paths0
               && |paths| == |chunks|
      modifies this`chunks, this`trace, this`paths, this`dropped
      ensures Sound() && Marks() && chunks == chunks0 && paths == paths0
      ensures dropped == old(dropped) + old(chunks)[first..]
    {
      hide Counts, InFile, Holds, HasHash, Weight, BinHolds, Store.Valid, Buffered, Traced, Split, Replay;
      PushedBelow(trace0, chunks0);
      TracedDrop(trace, chunks, first);
      Lengths();
      SplitDrop(marked, chunks, dropped, first);
      MarksLocked();
      dropped := dropped + chunks[first..];
      chunks, paths, trace := chunks[..first], paths[..first], trace + [Drop(first)];
    }

    lemma Lengths()
      requires Sound()
      ensures forall c :: c in chunks ==> c.length > 0
    {
      assert forall i :: 0 <= i < |chunks| ==> InFile(store.hashing, files, paths[i], chunks[i]);
    }

    lemma MarksLocked()
      requires Marks()
      ensures forall i :: 0 <= i < |chunks| ==> chunks[i].locked
    {
      assert forall i :: 0 <= i < |chunks| ==> Buffered(chunks[i], bin);
    }

    lemma OpenValid()
      requires Valid()
      ensures store.Valid() && this !in store.Repr && Traced(trace, chunks)
    {
    }

    /** During the first pass every record is held. */
    lemma Held()
      requires Valid()
      ensures forall i :: 0 <= i < |chunks| ==> chunks[i].locked
    {
      MarksLocked();
    }

    /** `sync_queue_push` of the file just processed, by the caller. */
    ghost method PushFile()
      requires Valid()
      modifies this`trace
      ensures Valid() && trace == old(trace) + [Push]
    {
      TracedPush(trace, chunks);
      ReplaySnoc(trace, Push);
      trace := trace + [Push];
    }

    // ------------------------------------------------------------- second pass

    ghost predicate Rewriting(n: nat, before: seq<FingerChunk>, bin0: Bin)
      reads this`bin, this`chunks, this`paths, this`trace, this`dropped, this`segments, this`marked, store, store.Repr
    {
      && Sound() && BinHolds(bin0, store.Contents())
      && Counts(segments, marked) && (forall c :: c in before ==> c in marked)
      && n <= |before| == |chunks|
      && (forall i :: 0 <= i < n ==> Settled(chunks[i], bin, store.Contents()))
      && Progress(before, chunks, n, bin0, bin, KeptSet(segments, threshold))
    }

    /** The second pass over one record of the file `path`. */
    method DecideChunk(fc: nat, path: string) returns (ok: bool)
      requires store.Valid() && this !in store.Repr && BinHolds(bin, store.Contents()) && Traced(trace, chunks)
      requires fc < |chunks| && InFile(store.hashing, files, path, chunks[fc]) && chunks[fc].locked
      requires !chunks[fc].isNew ==>
                 && chunks[fc].hash in bin && Holds(store.Contents(), chunks[fc].address, chunks[fc].hash)
                 && chunks[fc].address in segments
      modifies this`chunks, this`bin, this`trace, store.Repr
      ensures ok && store.Valid() && fresh(store.Repr - old(store.Repr)) && this !in store.Repr
      ensures Extends(old(store.Contents()), store.Contents()) && BinHolds(bin, store.Contents())
      ensures Traced(trace, chunks) && Grown(old(trace), trace)
      ensures |chunks| == |old(chunks)| && chunks == old(chunks)[fc := chunks[fc]]
      ensures Decision(old(chunks)[fc], chunks[fc], old(bin), bin, KeptSet(segments, threshold))
      ensures !old(chunks)[fc].isNew ==>
                (chunks[fc].isNew <==> segments[old(chunks)[fc].address] as real < threshold * 4194304.0)
      ensures Settled(chunks[fc], bin, store.Contents())
    {
      hide InFile, Holds, HasHash, BinHolds, Extends, Store.Valid, Traced, Grown, Unseen;
      RewriteRefl(store.Contents(), chunks);
      GrownRefl(trace);
      var p := chunks[fc];
      if p.isNew {
        if p.hash in bin {
          BinAt(bin, store.Contents(), p.hash);
          chunks, trace := TakeOver(chunks, old(trace), trace, fc, bin[p.hash]);
        } else {
          var address;
          address, bin := WriteAndIndex(store, files, path, p, bin);
          chunks, trace := Stored(chunks, old(trace), trace, fc, address, false);
        }
      } else {
        if p.address !in segments {
          return false;
        }
        ShareOfContainer(segments[p.address], threshold);
        if Underused(segments[p.address], threshold) {
          var known, address := p.hash in bin, p.address;
          address, bin := WriteAndIndex(store, files, path, p, bin);
          chunks, trace := Stored(chunks, old(trace), trace, fc, address, true);
          if !known {
            return false;
          }
        }
      }
      chunks, trace := UnlockRecord(chunks, old(trace), trace, fc);
      ok := true;
    }

    /** One record of the second pass, and with it the pass is one further. */
    method RewriteChunk(path: string, fc: nat, ghost before: seq<FingerChunk>, ghost bin0: Bin) returns (ok: bool)
      requires Rewriting(fc, before, bin0) && fc < |before| && path == paths[fc]
      modifies this`chunks, this`bin, this`trace, store.Repr
      ensures ok && Rewriting(fc + 1, before, bin0)
      ensures fresh(store.Repr - old(store.Repr)) && Extends(old(store.Contents()), store.Contents())
      ensures SameIdents(old(chunks), chunks) && Grown(old(trace), trace)
    {
      hide InFile, Holds, HasHash, Buffered, Outcome, Evolved, Written, Progress, Decision, Described, Settled,
           BinHolds, Extends, SameIdents, Store.Valid, KeptSet, Counts, Traced, Grown, Replay;
      ghost var was, wasBin, wasContents, kept := chunks, bin, store.Contents(), KeptSet(segments, threshold);
      assert was[0..] == was && before[..] == before;
      Marked(before, was, fc, bin0, wasBin, kept, wasContents, store.hashing, files, paths, was, 0);
      HasCounter(segments, marked, before[fc]);
      ghost var done := trace;
      ok := DecideChunk(fc, path);
      GrownKeeps(done, trace);
      Advanced(before, 0, fc, bin0, kept, was, wasBin, wasContents, chunks, bin, store.Contents());
      assert chunks[0..] == chunks;
      StillDescribed(store.hashing, files, paths, was, chunks);
    }

    /** The second pass over one file. */
    method RewriteFile(cl: ChunkList, ghost before: seq<FingerChunk>, ghost bin0: Bin) returns (ok: bool)
      requires cl.first <= cl.end <= |chunks| && Rewriting(cl.first, before, bin0)
      requires forall i :: cl.first <= i < cl.end ==> i < |paths| && paths[i] == cl.path
      modifies this`chunks, this`bin, this`trace, store.Repr
      ensures ok && Rewriting(cl.end, before, bin0)
      ensures fresh(store.Repr - old(store.Repr)) && Extends(old(store.Contents()), store.Contents())
      ensures SameIdents(old(chunks), chunks) && Grown(old(trace), trace)
    {
      hide InFile, Holds, HasHash, Buffered, Outcome, Evolved, Written, Progress, Settled, BinHolds, Extends,
           SameIdents, Described, Store.Valid, KeptSet, Counts, Traced, Grown, Replay;
      RewriteRefl(store.Contents(), chunks);
      GrownRefl(trace);
      var fc := cl.first;
      while fc < cl.end
        invariant cl.first <= fc <= cl.end <= |chunks| && Rewriting(fc, before, bin0)
        invariant fresh(store.Repr - old(store.Repr)) && Extends(old(store.Contents()), store.Contents())
        invariant SameIdents(old(chunks), chunks) && Grown(old(trace), trace)
      {
        ghost var was, contents, done := chunks, store.Contents(), trace;
        ok := RewriteChunk(cl.path, fc, before, bin0);
        if !ok {
          return false;
        }
        RewriteTrans(old(store.Contents()), contents, store.Contents(), old(chunks), was, chunks);
        GrownTransitive(old(trace), done, trace);
        fc := fc + 1;
      }
      ok := true;
    }

    /** `perfect_rewrite_process` at the end of the stream: it never fails, decides every
        record, and keeps or rewrites each container's duplicates as a whole. */
    method Finish() returns (ok: bool)
      requires Valid()
      modifies this`bin, this`dedupBuf, this`chunks, this`trace, store.Repr
      ensures ok && store.Valid() && fresh(store.Repr - old(store.Repr))
      ensures Extends(old(store.Contents()), store.Contents()) && BinHolds(bin, store.Contents())
              && old(bin).Keys <= bin.Keys
      ensures SameIdents(old(chunks), chunks) && Grown(old(trace), trace)
      ensures Described(store.hashing, files, paths, chunks)
      ensures forall i :: 0 <= i < |chunks| ==> Settled(chunks[i], bin, store.Contents())
      ensures AllOrNothing(old(chunks), chunks, marked, threshold) && Split(marked, old(chunks), dropped)
      ensures |chunks| == |old(chunks)| && forall i :: 0 <= i < |chunks| && !old(chunks)[i].isNew ==>
                (chunks[i].isNew <==> Weight(marked, {old(chunks)[i].address}) as real < threshold * 4194304.0)
      ensures Traced(trace, chunks) && Released(Replay(trace).recs) && OnceEach(trace)
      ensures bin.Keys == old(bin).Keys + Hashes(old(chunks))
    {
      hide OnceEach, Hashes, InFile, Holds, HasHash, Buffered, Outcome, Evolved, Written, Progress, Settled, BinHolds,
           Extends,
           SameIdents, Described, Store.Valid,
           KeptSet, Counts, Tiles, AllOrNothing, Weight, Rewriting, Sound, Traced, Grown, Replay, Released, Split;
      OpenSound();
      ghost var before, bin0 := chunks, bin;
      RewriteRefl(store.Contents(), chunks);
      GrownRefl(trace);
      MarksLocked();
      OnceEachHeld(trace, chunks);
      RewriteStart();
      ghost var n: nat := 0;
      while dedupBuf != []
        invariant n <= |before| == |chunks| && Rewriting(n, before, bin0) && Tiles(dedupBuf, paths, n, |chunks|)
        invariant store.Valid() && this !in store.Repr
        invariant fresh(store.Repr - old(store.Repr)) && Extends(old(store.Contents()), store.Contents())
        invariant SameIdents(old(chunks), chunks) && Grown(old(trace), trace)
        decreases |dedupBuf|
      {
        ghost var was, contents, done := chunks, store.Contents(), trace;
        TilesPop(dedupBuf, paths, n, |chunks|);
        var cl := dedupBuf[0];
        dedupBuf := dedupBuf[1..];
        ok := RewriteFile(cl, before, bin0);
        if !ok {
          return false;
        }
        RewriteOpen(cl.end, before, bin0);
        RewriteTrans(old(store.Contents()), contents, store.Contents(), old(chunks), was, chunks);
        GrownTransitive(old(trace), done, trace);
        n := cl.end;
      }
      TilesEmpty(paths, n, |chunks|);
      RewriteOpen(n, before, bin0);
      OutcomesAllOrNothing(before, chunks, marked, bin0, bin, segments, threshold);
      AllInNumbers(before, chunks, marked, threshold);
      ProgressDone(before, chunks, bin0, bin, KeptSet(segments, threshold));
      AllUnlocked();
      AllReleased(trace, chunks);
      OnceEachSame(old(trace), before, trace, chunks);
      ok := true;
    }

    lemma AllUnlocked()
      requires store.Valid()
      requires forall i :: 0 <= i < |chunks| ==> Settled(chunks[i], bin, store.Contents())
      ensures forall i :: 0 <= i < |chunks| ==> !chunks[i].locked
    {
      hide Store.Valid, Holds;
      assert forall i :: 0 <= i < |chunks| ==> Settled(chunks[i], bin, store.Contents());
    }

    lemma RewriteStart()
      requires Sound() && Marks()
      ensures Rewriting(0, chunks, bin) && Split(marked, chunks, dropped)
    {
    }

    lemma RewriteOpen(n: nat, before: seq<FingerChunk>, bin0: Bin)
      requires Rewriting(n, before, bin0)
      ensures n <= |before| == |chunks| && store.Valid() && this !in store.Repr && BinHolds(bin, store.Contents())
              && bin0.Keys <= bin.Keys
      ensures Described(store.hashing, files, paths, chunks) && Counts(segments, marked) && Traced(trace, chunks)
      ensures forall c :: c in before ==> c in marked
      ensures forall i :: 0 <= i < n ==> Settled(chunks[i], bin, store.Contents())
      ensures Progress(before, chunks, n, bin0, bin, KeptSet(segments, threshold))
    {
    }
  }

  /** A new file and then its copy, which the server calls a duplicate: the index is filled by the
      second pass only, so the copy is refused at the first chunk that the old index lacks, and
      what was marked of it by then stays counted. */
  method NewThenCopy(policy: PerfectRewrite, file: FileInfo, ghost k: nat) returns (first: bool, second: bool)
    requires policy.Valid() && !file.isDedup && FirstMissing(file, policy.bin, k)
    requires forall i :: 0 <= i < |file.chunks| ==>
             InFile(policy.store.hashing, policy.files, file.path, file.chunks[i]) && !file.chunks[i].locked
    modifies policy`dedupBuf, policy`segments, policy`chunks, policy`trace, policy`paths, policy`marked, policy`dropped
    ensures policy.Valid() && first && !second
    ensures policy.chunks == old(policy.chunks) + MarksOf(file, policy.bin, |file.chunks|)
    ensures policy.dropped == old(policy.dropped) + MarksOf(file, policy.bin, k + 1)
    ensures policy.marked ==
            old(policy.marked) + MarksOf(file, policy.bin, |file.chunks|) + MarksOf(file, policy.bin, k + 1)
  {
    hide PerfectRewrite.Valid, InFile, Grown, Store.Valid;
    var copy := file.(isDedup := true);
    first := policy.Process(file);
    second := policy.Process(copy);
    SameMarks(file, copy, policy.bin);
  }

  lemma SameMarks(file: FileInfo, copy: FileInfo, bin: Bin)
    requires file.chunks == copy.chunks
    ensures forall n: nat :: n <= |file.chunks| ==> MarksOf(copy, bin, n) == MarksOf(file, bin, n)
  {
  }

  /** Every duplicate of the first pass was counted, so its counter is found again. */
  lemma HasCounter(segments: map<Address, nat>, marked: seq<FingerChunk>, c: FingerChunk)
    requires Counts(segments, marked) && c in marked
    ensures !c.isNew ==> c.address in segments
  {
    var i :| 0 <= i < |marked| && marked[i] == c;
  }
}
