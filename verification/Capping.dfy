/** client/src/capping.c: buffer a window of chunks, keep the duplicates of the containers
    that the window uses most, and store the other duplicates again. */
module Capping {
  import opened Types
  import opened Store
  import opened ChunkDedup
  import opened SegmentSort
  import opened RewriteSpec
  import opened CappingSpec
  import opened Trace

  /** The records from `decided` on are marked against the index, and counted. */
  ghost predicate WindowOf(chunks: seq<FingerChunk>, decided: nat, bin: Bin, segments: map<Address, nat>)
    requires decided <= |chunks|
  {
    && (forall i :: decided <= i < |chunks| ==> Buffered(chunks[i], bin))
    && Counts(segments, chunks[decided..])
  }

  lemma WindowSnoc(chunks: seq<FingerChunk>, decided: nat, bin: Bin, segments: map<Address, nat>, q: FingerChunk)
    requires decided <= |chunks| && WindowOf(chunks, decided, bin, segments) && Buffered(q, bin)
    ensures WindowOf(chunks + [q], decided, bin, CountMark(segments, q))
    ensures TotalLength((chunks + [q])[decided..]) == TotalLength(chunks[decided..]) + q.length
    ensures (chunks + [q])[..decided] == chunks[..decided]
  {
    hide Counts, CountMark, Buffered;
    var window := chunks[decided..];
    assert (chunks + [q])[decided..] == window + [q];
    CountsSnoc(segments, window, q);
    TotalSnoc(window, q);
  }

  /** The windows so far make up the decided records, and each kept its promise. */
  ghost predicate HistoryOf(windows: seq<Window>, decided: seq<FingerChunk>, bin0: Bin, bin: Bin,
                            maxRefer: nat, capacity: nat)
  {
    && Afters(windows) == decided && Linked(windows, bin0, bin)
    && forall i :: 0 <= i < |windows| ==> WindowOk(windows[i], maxRefer, capacity)
  }

  lemma HistorySnoc(windows: seq<Window>, decided: seq<FingerChunk>, bin0: Bin, w: Window, maxRefer: nat, capacity: nat)
    requires HistoryOf(windows, decided, bin0, w.index, maxRefer, capacity) && WindowOk(w, maxRefer, capacity)
    ensures HistoryOf(windows + [w], decided + w.after, bin0, w.next, maxRefer, capacity)
  {
    hide WindowOk;
    AftersSnoc(windows, w);
    LinkedSnoc(windows, bin0, w);
  }

  lemma WindowNothing(chunks: seq<FingerChunk>, bin: Bin)
    ensures WindowOf(chunks, |chunks|, bin, map[])
  {
    assert chunks[|chunks|..] == [];
    CountsNothing();
  }

  class Capping {
    const store: Store
    const files: SourceTree
    /** `buffer_capacity`, in bytes. */
    const capacity: nat
    const maxRefer: nat
    /** The index at the start. */
    ghost const bin0: Bin
    var bin: Bin
    var bufferLength: nat
    var chunkBuffer: seq<ChunkList>
    /** `segment_buffer`: the duplicate bytes buffered for each container. */
    var segments: map<Address, nat>
    /** All records that passed through `capping_process`, in stream order. */
    var chunks: seq<FingerChunk>
    ghost var paths: seq<string>
    /** What was done to the records, action by action. */
    ghost var trace: seq<Action>
    /** The records before this one were decided by a rewrite. */
    ghost var decided: nat
    /** One entry for every rewrite so far. */
    ghost var windows: seq<Window>

    /** The stored data, the index and the decided records fit together. */
    ghost predicate Sound()
      reads this`bin, this`chunks, this`paths, this`decided, this`trace, store, store.Repr
    {
      && store.Valid() && this !in store.Repr
      && Traced(trace, chunks)
      && BinHolds(bin, store.Contents())
      && Described(store.hashing, files, paths, chunks)
      && decided <= |chunks|
      && forall i :: 0 <= i < decided ==> Settled(chunks[i], bin, store.Contents())
    }

    /** The record window: marks and counters agree with the index. */
    ghost predicate Window()
      requires decided <= |chunks|
      reads this`bin, this`chunks, this`decided, this`segments
    {
      WindowOf(chunks, decided, bin, segments)
    }

    /** Every rewrite so far kept its promise. */
    ghost predicate History()
      requires decided <= |chunks|
      reads this`bin, this`chunks, this`decided, this`windows
    {
      HistoryOf(windows, chunks[..decided], bin0, bin, maxRefer, capacity)
    }

    ghost predicate Buffer()
      requires decided <= |chunks|
      reads this`chunks, this`decided, this`bufferLength
    {
      && bufferLength == TotalLength(chunks[decided..])
      && (bufferLength <= capacity || |chunks| == decided + 1)
    }

    /** Windows are closed only when the next record does not fit. */
    ghost predicate Pressed()
      reads this`chunks, this`decided, this`windows
    {
      && Greedy(windows, chunks, capacity)
      && (windows != [] ==> decided < |chunks|)
    }

    ghost predicate Valid()
      reads this, store, store.Repr
    {
      && Sound() && Window() && History() && Buffer() && Pressed()
      && Tiles(chunkBuffer, paths, decided, |chunks|)
      && OnceEach(trace)
    }

    constructor (store: Store, files: SourceTree, bin: Bin, capacity: nat, maxRefer: nat)
      requires store.Valid() && BinHolds(bin, store.Contents())
      ensures Valid() && this.store == store && this.files == files && this.bin == bin
      ensures this.capacity == capacity && this.maxRefer == maxRefer && this.bin0 == bin
      ensures chunks == [] && paths == [] && windows == [] && trace == []
    {
      hide Store.Valid, BinHolds, WindowOk;
      this.store, this.files, this.bin, this.bin0 := store, files, bin, bin;
      this.capacity, this.maxRefer := capacity, maxRefer;
      bufferLength, chunkBuffer, segments := 0, [], map[];
      chunks, paths, decided, windows, trace := [], [], 0, [], [];
      TracedNothing();
      OnceEachNothing();
    }

    /** The body of `rewrite`'s inner loop, for the record `fc` of the file `path`: the mutex is
        given back after the last write. */
    method DecideChunk(fc: nat, path: string, kept: map<Address, nat>)
      requires store.Valid() && this !in store.Repr && BinHolds(bin, store.Contents()) && Traced(trace, chunks)
      requires fc < |chunks| && InFile(store.hashing, files, path, chunks[fc]) && chunks[fc].locked
      requires !chunks[fc].isNew ==>
               chunks[fc].hash in bin && Holds(store.Contents(), chunks[fc].address, chunks[fc].hash)
      modifies this`chunks, this`bin, this`trace, store.Repr
      ensures store.Valid() && fresh(store.Repr - old(store.Repr)) && this !in store.Repr
      ensures Extends(old(store.Contents()), store.Contents()) && BinHolds(bin, store.Contents())
      ensures Traced(trace, chunks) && Grown(old(trace), trace)
      ensures |chunks| == |old(chunks)| && chunks == old(chunks)[fc := chunks[fc]]
      ensures Decision(old(chunks)[fc], chunks[fc], old(bin), bin, kept.Keys)
      ensures Settled(chunks[fc], bin, store.Contents())
    {
      hide InFile, Holds, HasHash, BinHolds, Extends, Store.Valid, Traced, Grown, Unseen;
      RewriteRefl(store.Contents(), chunks);
      GrownRefl(trace);
      var p := chunks[fc];
      if p.isNew && p.hash in bin {
        BinAt(bin, store.Contents(), p.hash);
        chunks, trace := TakeOver(chunks, old(trace), trace, fc, bin[p.hash]);
      } else if p.isNew || p.address !in kept {
        var address;
        address, bin := WriteAndIndex(store, files, path, p, bin);
        chunks, trace := Stored(chunks, old(trace), trace, fc, address, !p.isNew);
      }
      chunks, trace := UnlockRecord(chunks, old(trace), trace, fc);
    }

    /** In the middle of a rewrite: `n` of the window's records, from `lo` on, are decided. */
    ghost predicate Rewriting(lo: nat, n: nat, before: seq<FingerChunk>, bin0: Bin, kept: set<Address>)
      reads this`bin, this`chunks, this`paths, this`trace, store, store.Repr
    {
      && store.Valid() && this !in store.Repr
      && Traced(trace, chunks)
      && BinHolds(bin, store.Contents()) && BinHolds(bin0, store.Contents())
      && Described(store.hashing, files, paths, chunks)
      && n <= |before| && lo + |before| == |chunks|
      && (forall i :: 0 <= i < lo + n ==> Settled(chunks[i], bin, store.Contents()))
      && Progress(before, chunks[lo..], n, bin0, bin, kept)
    }

    /** Decide the record `lo + n`, and with it advance the rewrite by one. */
    method RewriteChunk(path: string, segmentBuffer: map<Address, nat>, fc: nat,
                        ghost lo: nat, ghost n: nat, ghost before: seq<FingerChunk>, ghost bin0: Bin)
      requires Rewriting(lo, n, before, bin0, segmentBuffer.Keys) && n < |before|
      requires fc == lo + n && path == paths[fc]
      modifies this`chunks, this`bin, this`trace, store.Repr
      ensures Rewriting(lo, n + 1, before, bin0, segmentBuffer.Keys)
      ensures fresh(store.Repr - old(store.Repr)) && Extends(old(store.Contents()), store.Contents())
      ensures chunks[..lo] == old(chunks)[..lo] && SameIdents(old(chunks), chunks) && Grown(old(trace), trace)
    {
      hide InFile, Holds, HasHash, Buffered, Outcome, Evolved, Written, Progress, Decision, Described, Settled,
           BinHolds, Extends, SameIdents, Store.Valid, Traced, Grown;
      ghost var was, wasBin, wasContents := chunks, bin, store.Contents();
      Marked(before, was[lo..], n, bin0, wasBin, segmentBuffer.Keys, wasContents, store.hashing, files, paths, was, lo);
      DecideChunk(fc, path, segmentBuffer);
      Advanced(before, lo, n, bin0, segmentBuffer.Keys, was, wasBin, wasContents, chunks, bin, store.Contents());
      StillDescribed(store.hashing, files, paths, was, chunks);
    }

    /** `rewrite`'s loop over the records of one buffered run. */
    method RewriteList(cl: ChunkList, segmentBuffer: map<Address, nat>,
                       ghost lo: nat, ghost before: seq<FingerChunk>, ghost bin0: Bin)
      requires lo <= cl.first <= cl.end <= |chunks| && Rewriting(lo, cl.first - lo, before, bin0, segmentBuffer.Keys)
      requires forall i :: cl.first <= i < cl.end ==> i < |paths| && paths[i] == cl.path
      modifies this`chunks, this`bin, this`trace, store.Repr
      ensures Rewriting(lo, cl.end - lo, before, bin0, segmentBuffer.Keys)
      ensures fresh(store.Repr - old(store.Repr)) && Extends(old(store.Contents()), store.Contents())
      ensures chunks[..lo] == old(chunks)[..lo] && SameIdents(old(chunks), chunks) && Grown(old(trace), trace)
    {
      hide InFile, Holds, HasHash, Buffered, Outcome, Evolved, Written, Progress, Settled, BinHolds, Extends,
           SameIdents, Described, Store.Valid, Traced, Grown;
      RewriteRefl(store.Contents(), chunks);
      GrownRefl(trace);
      var fc := cl.first;
      while fc < cl.end
        invariant cl.first <= fc <= cl.end <= |chunks| && Rewriting(lo, fc - lo, before, bin0, segmentBuffer.Keys)
        invariant fresh(store.Repr - old(store.Repr)) && Extends(old(store.Contents()), store.Contents())
        invariant chunks[..lo] == old(chunks)[..lo] && SameIdents(old(chunks), chunks) && Grown(old(trace), trace)
      {
        ghost var was, contents, done := chunks, store.Contents(), trace;
        RewriteChunk(cl.path, segmentBuffer, fc, lo, fc - lo, before, bin0);
        RewriteTrans(old(store.Contents()), contents, store.Contents(), old(chunks), was, chunks);
        GrownTransitive(old(trace), done, trace);
        fc := fc + 1;
      }
    }


    /** `rewrite`: sort and cut the counters if there are too many, then decide every record
        of the window and forget the counters. It never fails. */
    method Rewrite() returns (ok: bool)
      requires Sound() && Window() && History() && Tiles(chunkBuffer, paths, decided, |chunks|)
      requires TotalLength(chunks[decided..]) <= capacity || |chunks| == decided + 1
      modifies this`bin, this`chunkBuffer, this`segments, this`chunks, this`trace, this`decided, this`windows,
               store.Repr
      ensures ok && Sound() && Window() && History()
      ensures decided == |chunks| && chunkBuffer == [] && |windows| == |old(windows)| + 1
      ensures fresh(store.Repr - old(store.Repr)) && Extends(old(store.Contents()), store.Contents())
              && old(bin).Keys <= bin.Keys
      ensures SameIdents(old(chunks), chunks) && Grown(old(trace), trace)
      ensures windows == old(windows) + [windows[|old(windows)|]]
              && windows[|old(windows)|].before == old(chunks[decided..])
    {
      hide HistoryOf, InFile, Holds, HasHash, Buffered, Outcome, Evolved, Written, Progress, Settled, BinHolds, Extends,
           SameIdents, Described, Store.Valid,
           Largest, Best, Counts, Weight, Tiles, TotalLength, Afters, WindowOk, Sound, Rewriting, Traced, Grown;
      OpenSound();
      ghost var lo, before, bin0, table := decided, chunks[decided..], bin, segments;
      var kept := segments;
      if |segments| > maxRefer {
        var sorted;
        kept, sorted := SortSegments(segments, maxRefer);
        if !sorted {
          return false;
        }
      }
      BestKept(table, kept, maxRefer);
      RewriteStart(kept.Keys);
      segments := kept;
      RewriteQueue(lo, before, bin0);
      SameSize(old(chunks), chunks);
      CloseWindow(lo, before, bin0, table, kept);
      ok := true;
    }

    /** The end of `rewrite`: the counters start afresh, and the window becomes history. */
    method CloseWindow(ghost lo: nat, ghost before: seq<FingerChunk>, ghost bin0: Bin,
                       ghost table: map<Address, nat>, ghost kept: map<Address, nat>)
      requires Rewriting(lo, |before|, before, bin0, kept.Keys)
      requires Counts(table, before) && Best(table, kept, maxRefer)
      requires TotalLength(before) <= capacity || |before| == 1
      requires HistoryOf(windows, chunks[..lo], this.bin0, bin0, maxRefer, capacity)
      modifies this`segments, this`decided, this`windows
      ensures Sound() && Window() && History() && decided == |chunks| && bin0.Keys <= bin.Keys
      ensures |windows| == |old(windows)| + 1 && windows == old(windows) + [windows[|old(windows)|]]
      ensures windows[|old(windows)|].before == before
    {
      hide Rewriting, Sound, HistoryOf, WindowOf, Counts, Best, TotalLength, Afters, WindowOk, Progress, Written,
           Outcome;
      RewriteProgress(lo, before, bin0, kept.Keys);
      WindowDone(before, chunks[lo..], bin0, bin, table, kept, maxRefer, capacity);
      ghost var w := CappingSpec.Window(before, chunks[lo..], table, kept, bin0, bin);
      HistorySnoc(windows, chunks[..lo], this.bin0, w, maxRefer, capacity);
      assert chunks[..lo] + chunks[lo..] == chunks[..|chunks|];
      windows := windows + [w];
      decided := |chunks|;
      segments := map[];
      WindowNothing(chunks, bin);
      RewriteSound(lo, before, bin0, kept.Keys);
    }

    lemma OpenSound()
      requires Sound()
      ensures store.Valid() && this !in store.Repr && decided <= |chunks| == |paths| && Traced(trace, chunks)
    {
    }

    lemma RewriteSound(lo: nat, before: seq<FingerChunk>, bin0: Bin, kept: set<Address>)
      requires Rewriting(lo, |before|, before, bin0, kept) && decided == |chunks|
      ensures Sound()
    {
      hide Store.Valid, Described, Settled, Progress;
    }

    lemma RewriteProgress(lo: nat, before: seq<FingerChunk>, bin0: Bin, kept: set<Address>)
      requires Rewriting(lo, |before|, before, bin0, kept)
      ensures lo + |before| == |chunks| && store.Valid() && bin0.Keys <= bin.Keys
              && Progress(before, chunks[lo..], |before|, bin0, bin, kept)
    {
    }

    lemma RewriteStart(kept: set<Address>)
      requires Sound() && Window()
      ensures Rewriting(decided, 0, chunks[decided..], bin, kept)
    {
      hide Store.Valid, Described, Settled, Counts;
      var before := chunks[decided..];
      forall i | 0 <= i < |before|
        ensures Buffered(before[i], bin)
      {
        assert before[i] == chunks[decided + i];
      }
    }

    /** `rewrite`'s outer loop: drain the queue of runs. */
    method RewriteQueue(ghost lo: nat, ghost before: seq<FingerChunk>, ghost bin0: Bin)
      requires Rewriting(lo, 0, before, bin0, segments.Keys) && Tiles(chunkBuffer, paths, lo, |chunks|)
      modifies this`chunkBuffer, this`chunks, this`bin, this`trace, store.Repr
      ensures Rewriting(lo, |before|, before, bin0, segments.Keys) && chunkBuffer == []
      ensures fresh(store.Repr - old(store.Repr)) && Extends(old(store.Contents()), store.Contents())
      ensures chunks[..lo] == old(chunks)[..lo] && SameIdents(old(chunks), chunks) && Grown(old(trace), trace)
    {
      hide InFile, Holds, HasHash, Buffered, Outcome, Evolved, Written, Progress, Settled, BinHolds, Extends,
           SameIdents, Described, Store.Valid, Tiles, Traced, Grown;
      RewriteRefl(store.Contents(), chunks);
      GrownRefl(trace);
      ghost var n: nat := 0;
      while chunkBuffer != []
        invariant n <= |before| && Rewriting(lo, n, before, bin0, segments.Keys)
                  && Tiles(chunkBuffer, paths, lo + n, |chunks|)
        invariant fresh(store.Repr - old(store.Repr)) && Extends(old(store.Contents()), store.Contents())
        invariant chunks[..lo] == old(chunks)[..lo] && SameIdents(old(chunks), chunks) && Grown(old(trace), trace)
        decreases |chunkBuffer|
      {
        ghost var was, contents, done := chunks, store.Contents(), trace;
        TilesPop(chunkBuffer, paths, lo + n, |chunks|);
        var cl := chunkBuffer[0];
        chunkBuffer := chunkBuffer[1..];
        RewriteList(cl, segments, lo, before, bin0);
        RewriteTrans(old(store.Contents()), contents, store.Contents(), old(chunks), was, chunks);
        GrownTransitive(old(trace), done, trace);
        n := cl.end - lo;
      }
      TilesEmpty(paths, lo + n, |chunks|);
    }

    /** Mark a record that enters the stream, count a duplicate's container, and take the mutex. */
    method Mark(fc: FingerChunk)
      requires Traced(trace, chunks) && !fc.locked
      modifies this`segments, this`chunks, this`trace
      ensures chunks == old(chunks) + [MarkOf(fc, bin)] && Traced(trace, chunks) && Grown(old(trace), trace)
      ensures segments == CountMark(old(segments), MarkOf(fc, bin))
    {
      hide Traced, Grown;
      GrownRefl(trace);
      chunks, trace := Enter(chunks, trace, trace, fc, bin, false);
      if fc.hash in bin {
        var address := bin[fc.hash];
        if address in segments {
          segments := segments[address := segments[address] + fc.length];
        } else {
          segments := segments[address := fc.length];
        }
      }
    }

    /** The tail of `capping_process`'s loop: look the chunk up, count its container, lock it. */
    method BufferChunk(path: string, fc: FingerChunk)
      requires Sound() && Window() && History()
      requires bufferLength == TotalLength(chunks[decided..])
      requires fc.length + bufferLength <= capacity || decided == |chunks|
      requires InFile(store.hashing, files, path, fc) && !fc.locked
      modifies this`bufferLength, this`segments, this`chunks, this`trace, this`paths
      ensures Sound() && Window() && History() && Buffer()
      ensures |chunks| == |old(chunks)| + 1 && chunks[..|old(chunks)|] == old(chunks)
      ensures SameIdent(fc, chunks[|old(chunks)|]) && chunks[|old(chunks)|].locked && Grown(old(trace), trace)
      ensures paths == old(paths) + [path]
    {
      hide WindowOf, CountMark, InFile, Holds, HasHash, Weight, BinHolds, Store.Valid, WindowOk, Afters, Settled,
           TotalLength,
           Described, Buffered,
           Traced, Grown;
      ghost var q := MarkOf(fc, bin);
      MarkedAgainst(q, bin);
      WindowSnoc(chunks, decided, bin, segments, q);
      DescribedSnoc(store.hashing, files, paths, chunks, path, fc, q);
      bufferLength := bufferLength + fc.length;
      Mark(fc);
      paths := paths + [path];
    }

    /** `capping_process` for a file: append its chunks to the window, rewriting whenever the
        next one would not fit. */
    method Process(file: FileInfo) returns (ok: bool)
      requires Valid()
      requires forall i :: 0 <= i < |file.chunks| ==>
               InFile(store.hashing, files, file.path, file.chunks[i]) && !file.chunks[i].locked
      modifies this`bin, this`bufferLength, this`chunkBuffer, this`segments, this`chunks, this`trace, this`paths,
               this`decided, this`windows, store.Repr
      ensures ok && Valid()
      ensures fresh(store.Repr - old(store.Repr)) && Extends(old(store.Contents()), store.Contents())
              && old(bin).Keys <= bin.Keys
      ensures SameIdents(old(chunks) + file.chunks, chunks) && Grown(old(trace), trace)
      ensures paths == old(paths) + seq(|file.chunks|, _ => file.path) && old(windows) <= windows
    {
      hide OnceEach, Counts, InFile, Holds, HasHash, Weight, BinHolds, Store.Valid, WindowOk, Afters, Settled,
           TotalLength,
           Extends, SameIdents, Sound, Window, History, Described, Buffered, Tiles, Traced, Grown;
      OpenSound();
      var cl := ChunkList(file.path, |chunks|, |chunks|);
      RewriteRefl(store.Contents(), chunks);
      GrownRefl(trace);
      assert old(chunks) + file.chunks[..0] == chunks;
      for k := 0 to |file.chunks|
        invariant Sound() && store.Valid() && decided <= |chunks| == |paths| && Window() && History() && Buffer()
        invariant Pressed() && Pending(cl) && cl.path == file.path && (k == 0 ==> cl.first == |chunks|)
        invariant fresh(store.Repr - old(store.Repr)) && Extends(old(store.Contents()), store.Contents())
                  && old(bin).Keys <= bin.Keys
        invariant SameIdents(old(chunks) + file.chunks[..k], chunks) && Grown(old(trace), trace)
        invariant paths == old(paths) + seq(k, _ => file.path) && old(windows) <= windows && OnceEach(trace)
      {
        ghost var was, contents, done := chunks, store.Contents(), trace;
        cl, ok := Admit(file.chunks[k], cl, k != 0);
        if !ok {
          return false;
        }
        SameIdentsAppend(old(chunks) + file.chunks[..k], was, file.chunks[k], chunks);
        ExtendsTransitive(old(store.Contents()), contents, store.Contents());
        GrownTransitive(old(trace), done, trace);
        assert old(chunks) + file.chunks[..k] + [file.chunks[k]] == old(chunks) + file.chunks[..k + 1];
        assert seq(k, _ => file.path) + [file.path] == seq(k + 1, _ => file.path);
      }
      assert old(chunks) + file.chunks[..|file.chunks|] == old(chunks) + file.chunks;
      PushList(cl.(end := |chunks|));
      ok := true;
    }

    /** The queue and the run under construction together cover the window. */
    ghost predicate Pending(cl: ChunkList)
      reads this`chunks, this`paths, this`decided, this`chunkBuffer
    {
      && cl.first <= |chunks| == |paths|
      && Tiles(chunkBuffer, paths, decided, cl.first)
      && forall i :: cl.first <= i < |chunks| ==> paths[i] == cl.path
    }

    /** One round of `capping_process`'s loop. */
    method Admit(fc: FingerChunk, cl: ChunkList, begun: bool) returns (next: ChunkList, ok: bool)
      requires Sound() && store.Valid() && decided <= |chunks| == |paths| && Window() && History() && Buffer()
               && OnceEach(trace)
      requires Pending(cl) && (!begun ==> cl.first == |chunks|) && Pressed()
      requires InFile(store.hashing, files, cl.path, fc) && !fc.locked
      modifies this`bin, this`bufferLength, this`chunkBuffer, this`segments, this`chunks, this`trace, this`paths,
               this`decided, this`windows, store.Repr
      ensures ok && Sound() && store.Valid() && decided <= |chunks| == |paths| && Window() && History() && Buffer()
              && Pressed() && OnceEach(trace) && old(windows) <= windows
      ensures |windows| == |old(windows)| + if fc.length + old(bufferLength) > capacity then 1 else 0
      ensures Pending(next) && next.path == cl.path
      ensures fresh(store.Repr - old(store.Repr)) && Extends(old(store.Contents()), store.Contents())
              && old(bin).Keys <= bin.Keys
      ensures SameIdents(old(chunks) + [fc], chunks) && Grown(old(trace), trace)
      ensures paths == old(paths) + [cl.path]
    {
      hide OnceEach, Counts, InFile, Holds, HasHash, Weight, BinHolds, Store.Valid, WindowOk, Afters, Settled,
           TotalLength,
           Extends, SameIdents, Sound, Window, History, Described, Buffered, Tiles, Traced, Grown;
      OpenSound();
      next := cl;
      RewriteRefl(store.Contents(), chunks);
      GrownRefl(trace);
      if fc.length + bufferLength > capacity {
        next, ok := MakeRoom(cl, begun);
        if !ok {
          return;
        }
      }
      ghost var rewritten, done := chunks, trace;
      TilesAfter(chunkBuffer, paths, decided, next.first, [cl.path]);
      WindowsOk();
      GreedySnoc(windows, chunks, fc, maxRefer, capacity);
      BufferChunk(cl.path, fc);
      GreedySame(windows, rewritten + [fc], chunks, capacity);
      OpenSound();
      SameSize(old(chunks), rewritten);
      SameIdentsSnoc(old(chunks), rewritten, fc, chunks);
      GrownTransitive(old(trace), done, trace);
      OnceEachSnoc(old(trace), old(chunks), trace, chunks);
      ok := true;
    }

    /** The overflow branch of `capping_process`: close the current run, unless it has not
        begun, and rewrite the window. */
    method MakeRoom(cl: ChunkList, begun: bool) returns (next: ChunkList, ok: bool)
      requires Sound() && Window() && History() && decided <= |chunks| == |paths| && Buffer()
      requires Pending(cl) && (!begun ==> cl.first == |chunks|) && Pressed()
      modifies this`bin, this`bufferLength, this`chunkBuffer, this`segments, this`chunks, this`trace, this`decided,
               this`windows, store.Repr
      ensures Greedy(windows, chunks, capacity)
      ensures |windows| == |old(windows)| + 1 && windows == old(windows) + [windows[|old(windows)|]]
      ensures TotalLength(windows[|windows| - 1].before) == old(bufferLength)
      ensures ok && Sound() && Window() && History()
      ensures decided == |chunks| && bufferLength == 0 && bufferLength == TotalLength(chunks[decided..])
      ensures next.path == cl.path && next.first == |chunks| && Tiles(chunkBuffer, paths, decided, next.first)
      ensures fresh(store.Repr - old(store.Repr)) && old(bin).Keys <= bin.Keys
      ensures old(store.Valid()) && store.Valid() && Extends(old(store.Contents()), store.Contents())
      ensures SameIdents(old(chunks), chunks) && |chunks| == |old(chunks)| && Grown(old(trace), trace)
    {
      hide Counts, InFile, Holds, HasHash, Weight, BinHolds, Store.Valid, WindowOk, Afters, Settled, TotalLength,
           Extends, SameIdents, Sound, Window, History, Described, Buffered, Tiles, Traced, Grown;
      OpenSound();
      next := cl;
      if begun {
        PushList(cl.(end := |chunks|));
        next := ChunkList(cl.path, |chunks|, |chunks|);
      }
      ok := Rewrite();
      OpenSound();
      AllAfters();
      GreedyClose(old(windows), windows[|windows| - 1], old(chunks), chunks, capacity);
      bufferLength := 0;
      SameSize(old(chunks), chunks);
      AfterRewrite(paths, chunks);
    }

    lemma AllAfters()
      requires decided == |chunks| && History()
      ensures |Afters(windows)| == |chunks|
    {
    }

    lemma WindowsOk()
      requires decided <= |chunks| && History()
      ensures |Afters(windows)| == decided && forall i :: 0 <= i < |windows| ==>
              WindowOk(windows[i], maxRefer, capacity)
    {
    }

    /** `queue_push` of a run that reaches up to the newest record. */
    method PushList(cl: ChunkList)
      requires Tiles(chunkBuffer, paths, decided, cl.first) && cl.first <= cl.end == |chunks| == |paths|
      requires forall i :: cl.first <= i < cl.end ==> paths[i] == cl.path
      modifies this`chunkBuffer
      ensures Tiles(chunkBuffer, paths, decided, |chunks|)
    {
      assert (chunkBuffer + [cl])[..|chunkBuffer|] == chunkBuffer;
      chunkBuffer := chunkBuffer + [cl];
    }

    lemma OpenValid()
      requires Valid()
      ensures store.Valid() && this !in store.Repr && Traced(trace, chunks)
    {
    }

    /** Between two files the decided records are free and the buffered ones held. */
    lemma Held()
      requires Valid()
      ensures HeldFrom(chunks, Afters(windows), capacity)
    {
      hide Store.Valid, BinHolds, Described, Counts, WindowOk, Linked, Traced, Holds, TotalLength, Tiles, Greedy;
      forall i | 0 <= i < |chunks|
        ensures chunks[i].locked <==> i >= decided
      {
        assert i < decided ==> Settled(chunks[i], bin, store.Contents());
        assert i >= decided ==> Buffered(chunks[i], bin);
      }
    }

    /** `sync_queue_push` of the file just processed, by the caller. */
    ghost method PushFile()
      requires Valid()
      modifies this`trace
      ensures Valid() && trace == old(trace) + [Push]
    {
      TracedPush(trace, chunks);
      trace := trace + [Push];
    }

    /** `capping_process` at the end of the stream: every record is final and its mutex given
        back, and the whole stream was cut into windows that each keep the capping bound. */
    method Finish() returns (ok: bool)
      requires Valid()
      modifies this`bin, this`chunkBuffer, this`segments, this`chunks, this`trace, this`decided, this`windows,
               store.Repr
      ensures ok && store.Valid() && fresh(store.Repr - old(store.Repr))
      ensures Extends(old(store.Contents()), store.Contents()) && BinHolds(bin, store.Contents())
              && old(bin).Keys <= bin.Keys
      ensures SameIdents(old(chunks), chunks) && Grown(old(trace), trace) && old(windows) <= windows
      ensures Described(store.hashing, files, paths, chunks)
      ensures forall i :: 0 <= i < |chunks| ==> Settled(chunks[i], bin, store.Contents())
      ensures Traced(trace, chunks) && Released(Replay(trace).recs) && OnceEach(trace)
      ensures CappedStream(windows, chunks, bin0, bin, maxRefer, capacity)
    {
      hide OnceEach, Linked, Counts, InFile, Holds, HasHash, Weight, BinHolds, Store.Valid, WindowOk, Afters,
           TotalLength, Extends,
           SameIdents, Window,
           Described, Buffered, Tiles, Traced, Grown, Replay, Released, Greedy, Capped;
      ok := Rewrite();
      assert chunks[..decided] == chunks;
      GreedyClose(old(windows), windows[|windows| - 1], old(chunks), chunks, capacity);
      forall i | 0 <= i < |windows|
        ensures Capped(windows[i], maxRefer, capacity)
      {
        IsCapped(windows[i], maxRefer, capacity);
      }
      AllReleased(trace, chunks);
      SameSize(old(chunks), chunks);
      OnceEachSame(old(trace), old(chunks), trace, chunks);
    }
  }

  /** The first records are decided, final and free; the others are held, and fit the buffer
      unless there is only one. */
  ghost predicate HeldFrom(chunks: seq<FingerChunk>, decided: seq<FingerChunk>, capacity: nat) {
    && decided <= chunks
    && (forall i :: 0 <= i < |chunks| ==> (chunks[i].locked <==> i >= |decided|))
    && (TotalLength(chunks[|decided|..]) <= capacity || |chunks| == |decided| + 1)
  }

  /** A window kept its promise, and with it the bound. */
  ghost predicate Capped(w: Window, maxRefer: nat, capacity: nat) {
    && WindowOk(w, maxRefer, capacity)
    && |LeftIn(w)| <= maxRefer
    && |Referred(w.after) - Written(w.after)| <= maxRefer
  }

  /** The stream was cut into windows, none closed early; each was marked against the index as
      the one before left it, and kept its promise. */
  ghost predicate CappedStream(windows: seq<Window>, chunks: seq<FingerChunk>, bin0: Bin, bin: Bin,
                               maxRefer: nat, capacity: nat)
  {
    && Afters(windows) == chunks && Greedy(windows, chunks, capacity) && Linked(windows, bin0, bin)
    && forall i :: 0 <= i < |windows| ==> Capped(windows[i], maxRefer, capacity)
  }

  /** No waste: a window and the one behind it, unless that is empty, are more than one buffer holds. */
  lemma WindowsFull(windows: seq<Window>, chunks: seq<FingerChunk>, bin0: Bin, bin: Bin, maxRefer: nat, capacity: nat,
                    i: nat)
    requires CappedStream(windows, chunks, bin0, bin, maxRefer, capacity)
    requires i + 1 < |windows| && windows[i + 1].after != []
    ensures TotalLength(windows[i].after) + TotalLength(windows[i + 1].after) > capacity
  {
    hide WindowOk, TotalLength, Linked, Afters;
    var w, next := windows[i], windows[i + 1];
    assert Capped(w, maxRefer, capacity) && Full(windows, i, chunks, capacity);
    WindowIdents(w, maxRefer, capacity);
    TotalSame(w.before, w.after);
    AftersAt(windows, i + 1);
    TotalFirst(next.after);
  }

  lemma {:induction false} AftersAt(windows: seq<Window>, i: nat)
    requires i < |windows|
    ensures Afters(windows[..i]) + windows[i].after <= Afters(windows)
    decreases |windows|
  {
    var init := windows[..|windows| - 1];
    if i < |init| {
      AftersAt(init, i);
      assert init[..i] == windows[..i];
    }
  }

  lemma {:induction false} TotalFirst(cs: seq<FingerChunk>)
    requires cs != []
    ensures TotalLength(cs) >= cs[0].length
  {
    if |cs| > 1 {
      TotalFirst(cs[..|cs| - 1]);
    }
  }

  lemma IsCapped(w: Window, maxRefer: nat, capacity: nat)
    requires WindowOk(w, maxRefer, capacity)
    ensures Capped(w, maxRefer, capacity)
  {
    CappingBound(w, maxRefer, capacity);
  }

  lemma BestKept(table: map<Address, nat>, kept: map<Address, nat>, maxRefer: nat)
    requires if |table| > maxRefer then Largest(table, kept, maxRefer) else kept == table
    ensures Best(table, kept, maxRefer)
  {
  }

  lemma WindowDone(before: seq<FingerChunk>, after: seq<FingerChunk>, bin0: Bin, bin: Bin,
                   table: map<Address, nat>, kept: map<Address, nat>, maxRefer: nat, capacity: nat)
    requires Progress(before, after, |before|, bin0, bin, kept.Keys)
    requires Counts(table, before) && Best(table, kept, maxRefer)
    requires TotalLength(before) <= capacity || |before| == 1
    ensures WindowOk(CappingSpec.Window(before, after, table, kept, bin0, bin), maxRefer, capacity)
  {
    hide Progress, Outcomes, Evolved, Written, Hashes, Buffered, Counts, Best, TotalLength;
    ProgressDone(before, after, bin0, bin, kept.Keys);
  }

  lemma CountsNothing()
    ensures Counts(map[], [])
  {
  }

  lemma AfterRewrite(paths: seq<string>, chunks: seq<FingerChunk>)
    ensures Tiles([], paths, |chunks|, |chunks|) && TotalLength(chunks[|chunks|..]) == 0
  {
  }
}
