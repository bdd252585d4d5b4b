/** A backup run: chunking (client/src/backup.c) and one of the four deduplication policies
    (client/src/chunkdedup.c, client/src/pipeline_backup.c) over the files of a job, and the
    recipes that the server gets. */
module Backup {
  import opened Types
  import opened Store
  import opened ChunkDedup
  import opened Chunker
  import opened FileTable
  import Trace
  import C = Capping
  import G = CappingSpec
  import P = PerfectRewrite
  import F = Cfl
  import S = CflSpec

  /** What every backup needs: an intact store, index and table, and stable source files. */
  ghost predicate Ready(w: World, store: Store, files: SourceTree, names: seq<string>, table: Table, rabin: Rabin,
                        bin: Bin)
    reads store, store.Repr, rabin
  {
    && store.Valid() && store.hashing == w.hashing
    && rabin.Valid() && rabin.mark == w.mark && rabin !in store.Repr
    && w.Stocked() && w.FilesDiffer() && Within(files, w)
    && (forall n :: n in names ==> n in files)
    && BinHolds(bin, store.Contents()) && TableSound(w, table, store.Contents())
  }

  // ------------------------------------------------------------ which file is what

  /** The server's answer for file `i` is "known": an earlier run or an accepted earlier file of
      this run brought its recipe, and `missed` does not say that the answer was given before
      that recipe arrived. */
  ghost predicate Known(w: World, files: SourceTree, names: seq<string>, kept: seq<bool>, table0: Table,
                        missed: set<nat>, i: nat)
    requires i < |names| && forall n :: n in names ==> n in files
  {
    i !in missed && w.Digest(files[names[i]]) in Seen(w, files, names, kept, table0, i)
  }

  /** The fingerprints of the files that the server can know when file `i` is asked for. */
  ghost function Seen(w: World, files: SourceTree, names: seq<string>, kept: seq<bool>, table0: Table,
                      i: nat): set<Fingerprint>
    requires i <= |names| && forall n :: n in names ==> n in files
  {
    if i == 0 then table0.Keys else
      Seen(w, files, names, kept, table0, i - 1) +
      if i <= |kept| && kept[i - 1] then {w.Digest(files[names[i - 1]])} else {}
  }

  lemma {:induction false} SeenStays(w: World, files: SourceTree, names: seq<string>, kept: seq<bool>, more: seq<bool>,
                                     table0: Table, i: nat)
    requires i <= |kept| <= |names| && kept <= more && forall n :: n in names ==> n in files
    ensures Seen(w, files, names, more, table0, i) == Seen(w, files, names, kept, table0, i)
  {
    if i > 0 {
      SeenStays(w, files, names, kept, more, table0, i - 1);
    }
  }

  /** The fingerprints of the chunks of the files that are not known. */
  ghost function Fresh(w: World, files: SourceTree, names: seq<string>, kept: seq<bool>, table0: Table,
                       missed: set<nat>, i: nat): set<Fingerprint>
    requires i <= |names| && forall n :: n in names ==> n in files
  {
    if i == 0 then {} else
      Fresh(w, files, names, kept, table0, missed, i - 1) +
      if Known(w, files, names, kept, table0, missed, i - 1) then {} else Hashes(w.Chunks(files[names[i - 1]]))
  }

  ghost predicate AllKept(names: seq<string>, kept: seq<bool>) {
    |kept| == |names| && forall i :: 0 <= i < |kept| ==> kept[i]
  }

  /** Perfect rewriting drops a file exactly if the server knows it and the index lacked one of
      its chunks when the run began. */
  ghost predicate DropsRefused(w: World, files: SourceTree, names: seq<string>, kept: seq<bool>, table0: Table,
                               missed: set<nat>, bin0: Bin)
    requires forall n :: n in names ==> n in files
  {
    |kept| <= |names| && forall i :: 0 <= i < |kept| ==> DropAt(w, files, names, kept, table0, missed, bin0, i)
  }

  ghost predicate DropAt(w: World, files: SourceTree, names: seq<string>, kept: seq<bool>, table0: Table,
                         missed: set<nat>, bin0: Bin, i: nat)
    requires i < |kept| <= |names| && forall n :: n in names ==> n in files
  {
    !kept[i] <==> Known(w, files, names, kept, table0, missed, i) && !(Hashes(w.Chunks(files[names[i]])) <= bin0.Keys)
  }

  lemma DropsSnoc(w: World, files: SourceTree, names: seq<string>, kept: seq<bool>, table0: Table, missed: set<nat>,
                  bin0: Bin, ok: bool)
    requires |kept| < |names| && (forall n :: n in names ==> n in files)
    requires DropsRefused(w, files, names, kept, table0, missed, bin0)
    requires !ok <==>
             Known(w, files, names, kept, table0, missed, |kept|)
                 && !(Hashes(w.Chunks(files[names[|kept|]])) <= bin0.Keys)
    ensures DropsRefused(w, files, names, kept + [ok], table0, missed, bin0)
  {
    hide Hashes, Records;
    var more := kept + [ok];
    forall i | 0 <= i < |more|
      ensures DropAt(w, files, names, more, table0, missed, bin0, i)
    {
      SeenStays(w, files, names, kept, more, table0, i);
      if i < |kept| {
        assert DropAt(w, files, names, kept, table0, missed, bin0, i);
      }
    }
  }

  /** A new file and its copy, with the server's answer for the copy in time: the copy is dropped. */
  lemma CopyIsDropped(w: World, files: SourceTree, p: string, kept: seq<bool>, table0: Table, bin0: Bin)
    requires p in files && w.Digest(files[p]) !in table0 && !(Hashes(w.Chunks(files[p])) <= bin0.Keys)
    requires |kept| == 2 && DropsRefused(w, files, [p, p], kept, table0, {}, bin0)
    ensures kept == [true, false]
  {
    hide Hashes, Records;
    var names := [p, p];
    assert DropAt(w, files, names, kept, table0, {}, bin0, 0) && DropAt(w, files, names, kept, table0, {}, bin0, 1);
    assert Seen(w, files, names, kept, table0, 0) == table0.Keys;
    assert kept[0];
    assert w.Digest(files[p]) in Seen(w, files, names, kept, table0, 1);
    assert Known(w, files, names, kept, table0, {}, 1);
  }

  /** A file that the server knows from another client, with a chunk that this client's index
      lacks, is dropped. */
  lemma ForeignIsDropped(w: World, files: SourceTree, p: string, kept: seq<bool>, table0: Table, bin0: Bin)
    requires p in files && w.Digest(files[p]) in table0 && !(Hashes(w.Chunks(files[p])) <= bin0.Keys)
    requires |kept| == 1 && DropsRefused(w, files, [p], kept, table0, {}, bin0)
    ensures kept == [false]
  {
    hide Hashes, Records;
    assert DropAt(w, files, [p], kept, table0, {}, bin0, 0);
  }

  lemma SeenNothing(w: World, files: SourceTree, names: seq<string>, kept: seq<bool>, table0: Table, missed: set<nat>)
    requires forall n :: n in names ==> n in files
    ensures Seen(w, files, names, kept, table0, 0) == table0.Keys
            && Fresh(w, files, names, kept, table0, missed, 0) == {}
  {
  }

  lemma SeenNext(w: World, files: SourceTree, names: seq<string>, kept: seq<bool>, table0: Table, missed: set<nat>,
                 k: nat)
    requires k < |kept| && AllKept(names, kept) && forall n :: n in names ==> n in files
    ensures Seen(w, files, names, kept, table0, k + 1) ==
            Seen(w, files, names, kept, table0, k) + {w.Digest(files[names[k]])}
    ensures Fresh(w, files, names, kept, table0, missed, k + 1) ==
            Fresh(w, files, names, kept, table0, missed, k) +
            if k !in missed && w.Digest(files[names[k]]) in Seen(w, files, names, kept, table0, k) then {}
            else Hashes(w.Chunks(files[names[k]]))
  {
  }

  lemma {:induction false} SeenAll(w: World, files: SourceTree, names: seq<string>, kept: seq<bool>, table0: Table,
                                   k: nat)
    requires k <= |names| && AllKept(names, kept) && forall n :: n in names ==> n in files
    ensures forall i :: 0 <= i < k ==> w.Digest(files[names[i]]) in Seen(w, files, names, kept, table0, k)
  {
    if k > 0 {
      SeenAll(w, files, names, kept, table0, k - 1);
    }
  }

  /** Under the plain policy every file that the server did not know at the start can also be
      restored through the index: its first copy in the run was not known. */
  lemma {:induction false} NewFilesIndexed(w: World, files: SourceTree, names: seq<string>, kept: seq<bool>,
                                           table0: Table, missed: set<nat>, i: nat, n: nat)
    requires i < n <= |names| && (forall n :: n in names ==> n in files) && Within(files, w) && w.FilesDiffer()
    requires w.Digest(files[names[i]]) !in table0
    ensures Hashes(w.Chunks(files[names[i]])) <= Fresh(w, files, names, kept, table0, missed, n)
  {
    if i < n - 1 {
      NewFilesIndexed(w, files, names, kept, table0, missed, i, n - 1);
    } else if Known(w, files, names, kept, table0, missed, i) {
      var j := FirstSeen(w, files, names, kept, table0, i, w.Digest(files[names[i]]));
      assert files[names[j]] == files[names[i]];
      NewFilesIndexed(w, files, names, kept, table0, missed, j, n - 1);
    }
  }

  lemma {:induction false} FirstSeen(w: World, files: SourceTree, names: seq<string>, kept: seq<bool>, table0: Table,
                                     i: nat, d: Fingerprint) returns (j: nat)
    requires i <= |names| && (forall n :: n in names ==> n in files)
    requires d in Seen(w, files, names, kept, table0, i) && d !in table0
    ensures j < i && w.Digest(files[names[j]]) == d
  {
    if i > 0 && w.Digest(files[names[i - 1]]) == d {
      j := i - 1;
    } else {
      j := FirstSeen(w, files, names, kept, table0, i - 1, d);
    }
  }

  /** What a backup leaves behind. The index and the table are right about the store, everything
      that was known before is still there, and every file that was not dropped is known. */
  ghost predicate Filed(w: World, files: SourceTree, names: seq<string>, kept: seq<bool>,
                        table0: Table, table: Table, bin0: Bin, bin: Bin, contents: Contents)
    requires forall n :: n in names ==> n in files
  {
    && BinHolds(bin, contents) && TableSound(w, table, contents)
    && bin0.Keys <= bin.Keys && Keeps(table0, table)
    && |kept| == |names| && forall i :: 0 <= i < |names| && kept[i] ==> w.Digest(files[names[i]]) in table
  }

  /** The index knows every chunk of the files that were not dropped. */
  ghost predicate AllIndexed(w: World, files: SourceTree, names: seq<string>, kept: seq<bool>, bin: Bin)
    requires forall n :: n in names ==> n in files
  {
    |kept| == |names| && forall i :: 0 <= i < |names| && kept[i] ==> Hashes(w.Chunks(files[names[i]])) <= bin.Keys
  }

  // ---------------------------------------------------------- records and recipes

  /** The contents of the named files. */
  ghost function Sources(files: SourceTree, names: seq<string>): (sources: seq<Bytes>)
    requires forall n :: n in names ==> n in files
    ensures |sources| == |names|
  {
    seq(|names|, i requires 0 <= i < |names| => files[names[i]])
  }

  /** The chunks of the first `n` files without the dropped ones. */
  ghost function Accepted(w: World, sources: seq<Bytes>, kept: seq<bool>, n: nat): seq<FingerChunk>
    requires n <= |sources|
  {
    if n == 0 then [] else
      Accepted(w, sources, kept, n - 1) + if n <= |kept| && kept[n - 1] then w.Chunks(sources[n - 1]) else []
  }

  /** The server's table after the recipes of the first `n` files, which are cut out of the final
      records. */
  ghost function Entered(w: World, sources: seq<Bytes>, kept: seq<bool>, table0: Table, after: seq<FingerChunk>,
                         n: nat): Table
    requires n <= |sources|
  {
    if n == 0 then table0 else
      var table := Entered(w, sources, kept, table0, after, n - 1);
      var first, end := |Accepted(w, sources, kept, n - 1)|, |Accepted(w, sources, kept, n)|;
      if n <= |kept| && kept[n - 1] && first <= end <= |after|
      then Insert(table, w.Digest(sources[n - 1]), RecipeOf(after[first..end])) else table
  }

  /** `after` are the final records of the accepted files, and the recipes are made of them. */
  ghost predicate Recorded(w: World, sources: seq<Bytes>, kept: seq<bool>, table0: Table, table: Table,
                           after: seq<FingerChunk>)
  {
    && |kept| == |sources| && SameIdents(Accepted(w, sources, kept, |sources|), after)
    && table == Entered(w, sources, kept, table0, after, |sources|)
  }

  /** In the middle of a run: the records so far, and where those of each file end. */
  ghost predicate Chunked(w: World, sources: seq<Bytes>, kept: seq<bool>, ends: seq<nat>, chunks: seq<FingerChunk>) {
    && |ends| == |kept| <= |sources|
    && (forall i :: 0 <= i < |kept| ==> ends[i] == |Accepted(w, sources, kept, i + 1)|)
    && SameIdents(Accepted(w, sources, kept, |kept|), chunks)
  }

  lemma {:induction false} AcceptedStays(w: World, sources: seq<Bytes>, kept: seq<bool>, more: seq<bool>, n: nat)
    requires n <= |kept| <= |sources| && kept <= more
    ensures Accepted(w, sources, more, n) == Accepted(w, sources, kept, n)
  {
    hide Records, World.Chunks;
    if n > 0 {
      AcceptedStays(w, sources, kept, more, n - 1);
    }
  }

  lemma ChunkedSnoc(w: World, sources: seq<Bytes>, kept: seq<bool>, ends: seq<nat>, chunks: seq<FingerChunk>,
                    more: seq<FingerChunk>, ok: bool)
    requires Chunked(w, sources, kept, ends, chunks) && |kept| < |sources|
    requires SameIdents(chunks + if ok then w.Chunks(sources[|kept|]) else [], more)
    ensures Chunked(w, sources, kept + [ok], ends + [|more|], more)
  {
    hide Records;
    var n, now, ends' := |kept|, kept + [ok], ends + [|more|];
    var file := if ok then w.Chunks(sources[n]) else [];
    forall i | 0 <= i <= n
      ensures Accepted(w, sources, now, i) == Accepted(w, sources, kept, i)
    {
      AcceptedStays(w, sources, kept, now, i);
    }
    assert Accepted(w, sources, now, n + 1) == Accepted(w, sources, kept, n) + file;
    forall i | 0 <= i < |more|
      ensures SameIdent((Accepted(w, sources, kept, n) + file)[i], more[i])
    {
      assert SameIdent((chunks + file)[i], more[i]);
    }
    assert forall i :: 0 <= i < n ==> ends'[i] == ends[i];
  }

  lemma ChunkedStays(w: World, sources: seq<Bytes>, kept: seq<bool>, ends: seq<nat>, chunks: seq<FingerChunk>,
                     more: seq<FingerChunk>)
    requires Chunked(w, sources, kept, ends, chunks) && SameIdents(chunks, more)
    ensures Chunked(w, sources, kept, ends, more)
  {
    hide Records, Accepted;
    var all := Accepted(w, sources, kept, |kept|);
    forall i | 0 <= i < |more|
      ensures SameIdent(all[i], more[i])
    {
      assert SameIdent(all[i], chunks[i]);
    }
  }

  lemma NothingChunked(w: World, sources: seq<Bytes>)
    ensures Chunked(w, sources, [], [], [])
  {
  }

  lemma {:induction false} AcceptedPrefix(w: World, sources: seq<Bytes>, kept: seq<bool>, k: nat, n: nat)
    requires k <= n <= |sources|
    ensures Accepted(w, sources, kept, k) <= Accepted(w, sources, kept, n)
    decreases n - k
  {
    hide Records, World.Chunks;
    if k < n {
      AcceptedPrefix(w, sources, kept, k, n - 1);
    }
  }

  /** `update_file_recipe` for the accepted files, in stream order: the server enters the final
      records of each file, unless it knows the file by then. */
  method FileRecipes(ghost w: World, digest: Bytes -> Fingerprint, files: SourceTree, names: seq<string>,
                     kept: seq<bool>, ends: seq<nat>, chunks: seq<FingerChunk>, table0: Table, ghost bin: Bin,
                     ghost contents: Contents)
    returns (table: Table)
    requires (forall n :: n in names ==> n in files) && |kept| == |names| && Within(files, w) && w.FilesDiffer()
    requires Chunked(w, Sources(files, names), kept, ends, chunks) && digest == w.hashing.digest
    requires TableSound(w, table0, contents) && forall i :: 0 <= i < |chunks| ==> Settled(chunks[i], bin, contents)
    ensures TableSound(w, table, contents) && Keeps(table0, table)
    ensures Recorded(w, Sources(files, names), kept, table0, table, chunks)
    ensures forall i :: 0 <= i < |names| && kept[i] ==>
              w.Digest(files[names[i]]) in table && Hashes(w.Chunks(files[names[i]])) <= bin.Keys
  {
    hide Records, TableSound, World.FilesDiffer, Settled, SoundRecipe, Accepted, SameIdents;
    ghost var sources := Sources(files, names);
    table := table0;
    var first := 0;
    assert Accepted(w, sources, kept, 0) == [] by { AcceptedNothing(w, sources, kept); }
    for k := 0 to |names|
      invariant TableSound(w, table, contents) && Keeps(table0, table)
      invariant first == |Accepted(w, sources, kept, k)|
      invariant table == Entered(w, sources, kept, table0, chunks, k)
      invariant forall i :: 0 <= i < k && kept[i] ==>
                  w.Digest(files[names[i]]) in table && Hashes(w.Chunks(files[names[i]])) <= bin.Keys
    {
      if kept[k] {
        RunRecipe(w, sources, kept, ends, chunks, k, bin, contents);
        var recipe := RecipeOf(chunks[first..ends[k]]);
        SoundInsert(w, table, files[names[k]], recipe, contents);
        table := Insert(table, digest(files[names[k]]), recipe);
      }
      first := ends[k];
    }
  }

  lemma AcceptedNothing(w: World, sources: seq<Bytes>, kept: seq<bool>)
    ensures Accepted(w, sources, kept, 0) == []
  {
  }

  lemma RunRecipe(w: World, sources: seq<Bytes>, kept: seq<bool>, ends: seq<nat>, chunks: seq<FingerChunk>, k: nat,
                  bin: Bin, contents: Contents)
    requires Chunked(w, sources, kept, ends, chunks) && k < |kept| == |sources| && kept[k]
    requires forall i :: 0 <= i < |chunks| ==> Settled(chunks[i], bin, contents)
    ensures var first := |Accepted(w, sources, kept, k)|;
            && first <= ends[k] <= |chunks|
            && SoundRecipe(w, sources[k], RecipeOf(chunks[first..ends[k]]), contents)
    ensures Hashes(w.Chunks(sources[k])) <= bin.Keys
  {
    hide Records, World.Chunks, Accepted, Settled, SoundRecipe, SameIdents;
    AcceptedPrefix(w, sources, kept, k + 1, |sources|);
    AcceptedNext(w, sources, kept, k);
    var a, file := Accepted(w, sources, kept, k), w.Chunks(sources[k]);
    SliceIdents(a, file, Accepted(w, sources, kept, |sources|), chunks);
    SettledRecipe(w, sources[k], chunks[|a|..ends[k]], bin, contents);
  }

  lemma AcceptedNext(w: World, sources: seq<Bytes>, kept: seq<bool>, k: nat)
    requires k < |kept| == |sources| && kept[k]
    ensures Accepted(w, sources, kept, k + 1) == Accepted(w, sources, kept, k) + w.Chunks(sources[k])
  {
  }

  lemma SliceIdents(a: seq<FingerChunk>, file: seq<FingerChunk>, all: seq<FingerChunk>, chunks: seq<FingerChunk>)
    requires a + file <= all && SameIdents(all, chunks)
    ensures |a| + |file| <= |chunks| && SameIdents(file, chunks[|a|..|a| + |file|])
  {
    forall i | 0 <= i < |file|
      ensures SameIdent(file[i], chunks[|a|..|a| + |file|][i])
    {
      assert file[i] == (a + file)[|a| + i] == all[|a| + i];
    }
  }

  // ------------------------------------------------------------------ the policies

  /** A backup under capping. */
  method BackupCapping(ghost w: World, store: Store, digest: Bytes -> Fingerprint, files: SourceTree,
                       names: seq<string>,
                table0: Table, missed: set<nat>, rabin: Rabin, bin0: Bin, capacity: nat, maxRefer: nat)
    returns (kept: seq<bool>, table: Table, bin: Bin, ghost after: seq<FingerChunk>,
             ghost windows: seq<G.Window>)
    requires Ready(w, store, files, names, table0, rabin, bin0) && digest == w.hashing.digest
    modifies rabin`window, store.Repr
    ensures store.Valid() && fresh(store.Repr - old(store.Repr)) && Extends(old(store.Contents()), store.Contents())
    ensures Filed(w, files, names, kept, table0, table, bin0, bin, store.Contents())
    ensures AllIndexed(w, files, names, kept, bin)
    ensures Recorded(w, Sources(files, names), kept, table0, table, after)
    ensures AllKept(names, kept) && C.CappedStream(windows, after, bin0, bin, maxRefer, capacity)
  {
    hide Records, World.Stocked, World.FilesDiffer, InFile, Chunked, SameIdents, Store.Valid, BinHolds, Holds, Settled,
         Extends,
         Described, TableSound, Trace.Grown, Trace.Traced, Trace.Replay, Trace.Released, Trace.OnceEach, Trace.Locks,
         Hashes, N.Consecutive, Accepted, Entered, Recorded, C.Capping.Valid, C.CappedStream, AllKept;
    var policy := new C.Capping(store, files, bin0, capacity, maxRefer);
    ghost var sources := Sources(files, names);
    var ends: seq<nat>, seen := [], table0.Keys;
    kept := [];
    NothingChunked(w, sources);
    RewriteRefl(store.Contents(), []);
    for k := 0 to |names|
      invariant policy.Valid() && policy.store == store && policy.files == files && fresh(policy) && store.Valid()
      invariant rabin.Valid() && rabin.mark == w.mark && rabin !in store.Repr
      invariant |kept| == k && Chunked(w, sources, kept, ends, policy.chunks)
      invariant fresh(store.Repr - old(store.Repr)) && Extends(old(store.Contents()), store.Contents())
      invariant AllTrue(kept)
      invariant policy.bin0 == bin0 && policy.capacity == capacity && policy.maxRefer == maxRefer
                && bin0.Keys <= policy.bin.Keys
    {
      var list := ChunkOne(rabin, digest, w, files, names[k]);
      var d := digest(files[names[k]]);
      ghost var was, contents := policy.chunks, store.Contents();
      var ok := policy.Process(FileInfo(names[k], d in seen && k !in missed, list));
      policy.OpenValid();
      ExtendsTransitive(old(store.Contents()), contents, store.Contents());
      ChunkedSnoc(w, sources, kept, ends, was, policy.chunks, true);
      kept, ends, seen := kept + [true], ends + [|policy.chunks|], seen + {d};
    }
    policy.OpenValid();
    ghost var was, contents := policy.chunks, store.Contents();
    var ok := policy.Finish();
    ChunkedStays(w, sources, kept, ends, was, policy.chunks);
    ExtendsTransitive(old(store.Contents()), contents, store.Contents());
    SoundExtends(w, table0, old(store.Contents()), store.Contents());
    bin, after := policy.bin, policy.chunks;
    table := FileRecipes(w, digest, files, names, kept, ends, policy.chunks, table0, bin, store.Contents());
    windows := policy.windows;
    TrueKept(names, kept);
  }

  /** A backup under CFL. `waits` are the records held back at the turn of each record, `locks` the
      mutexes taken. */
  method BackupCfl(ghost w: World, store: Store, digest: Bytes -> Fingerprint, files: SourceTree, names: seq<string>,
                table0: Table, missed: set<nat>, rabin: Rabin, bin0: Bin, lowWaterMark: real, reuse: real)
    returns (kept: seq<bool>, table: Table, bin: Bin, ghost after: seq<FingerChunk>,
             ghost waits: seq<seq<S.ChunkNode>>, ghost locks: seq<nat>)
    requires Ready(w, store, files, names, table0, rabin, bin0) && digest == w.hashing.digest
    modifies rabin`window, store.Repr
    ensures store.Valid() && fresh(store.Repr - old(store.Repr)) && Extends(old(store.Contents()), store.Contents())
    ensures Filed(w, files, names, kept, table0, table, bin0, bin, store.Contents())
    ensures AllIndexed(w, files, names, kept, bin)
    ensures Recorded(w, Sources(files, names), kept, table0, table, after)
    ensures AllKept(names, kept) && bin.Keys == bin0.Keys + Hashes(after)
    ensures S.CflStream(after, waits, bin0, bin, locks, lowWaterMark, reuse)
    ensures lowWaterMark <= 0.0 ==>
              forall i :: 0 <= i < |after| ==>
                (after[i].isNew <==> after[i].hash !in bin0 && after[i].hash !in Hashes(after[..i]))
  {
    hide Records, World.Stocked, World.FilesDiffer, InFile, Chunked, SameIdents, Store.Valid, BinHolds, Holds, Settled,
         Extends,
         Described, TableSound, Trace.Grown, Trace.Traced, Trace.Replay, Trace.Released, Trace.OnceEach, Trace.Locks,
         Hashes, N.Consecutive, Accepted, Entered, Recorded, F.Cfl.Valid, S.ReleasedAs, S.CflStream, S.Turns, S.Fated,
         AllKept;
    var policy := new F.Cfl(store, files, bin0, lowWaterMark, reuse);
    ghost var sources := Sources(files, names);
    var ends: seq<nat>, seen := [], table0.Keys;
    kept := [];
    NothingChunked(w, sources);
    RewriteRefl(store.Contents(), []);
    for k := 0 to |names|
      invariant policy.Valid() && policy.store == store && policy.files == files && fresh(policy) && store.Valid()
      invariant rabin.Valid() && rabin.mark == w.mark && rabin !in store.Repr
      invariant |kept| == k && Chunked(w, sources, kept, ends, policy.chunks)
      invariant fresh(store.Repr - old(store.Repr)) && Extends(old(store.Contents()), store.Contents())
      invariant AllTrue(kept)
      invariant policy.bin0 == bin0 && policy.lowWaterMark == lowWaterMark && policy.reuse == reuse
    {
      var list := ChunkOne(rabin, digest, w, files, names[k]);
      var d := digest(files[names[k]]);
      ghost var was, contents := policy.chunks, store.Contents();
      policy.Process(FileInfo(names[k], d in seen && k !in missed, list));
      policy.OpenValid();
      ExtendsTransitive(old(store.Contents()), contents, store.Contents());
      ChunkedSnoc(w, sources, kept, ends, was, policy.chunks, true);
      kept, ends, seen := kept + [true], ends + [|policy.chunks|], seen + {d};
    }
    policy.OpenValid();
    ghost var was, contents := policy.chunks, store.Contents();
    policy.Finish();
    ChunkedStays(w, sources, kept, ends, was, policy.chunks);
    ExtendsTransitive(old(store.Contents()), contents, store.Contents());
    SoundExtends(w, table0, old(store.Contents()), store.Contents());
    bin, after := policy.bin, policy.chunks;
    table := FileRecipes(w, digest, files, names, kept, ends, policy.chunks, table0, bin, store.Contents());
    waits, locks := policy.waits, Trace.Locks(policy.trace);
    StreamKeys(after, waits, bin0, bin, locks, lowWaterMark, reuse);
    TrueKept(names, kept);
  }

  ghost predicate AllTrue(kept: seq<bool>) {
    forall i :: 0 <= i < |kept| ==> kept[i]
  }

  lemma TrueKept(names: seq<string>, kept: seq<bool>)
    requires AllTrue(kept) && |kept| == |names|
    ensures AllKept(names, kept)
  {
  }

  lemma StreamKeys(after: seq<FingerChunk>, waits: seq<seq<S.ChunkNode>>, bin0: Bin, bin: Bin, locks: seq<nat>,
                   mark: real, reuse: real)
    requires S.CflStream(after, waits, bin0, bin, locks, mark, reuse)
    ensures bin.Keys == bin0.Keys + Hashes(after)
    ensures mark <= 0.0 ==>
              forall i :: 0 <= i < |after| ==>
                (after[i].isNew <==> after[i].hash !in bin0 && after[i].hash !in Hashes(after[..i]))
  {
    hide S.Turns, S.Fated, Hashes;
    if mark <= 0.0 {
      S.NoneHeldBack(after, waits, bin0, bin, locks, mark, reuse);
    }
  }

  // ------------------------------------------------------- marks of perfect rewriting

  /** The marks of the accepted files, of all files as far as they were marked, and of the dropped
      ones. */
  ghost function Marked(w: World, sources: seq<Bytes>, kept: seq<bool>, bin: Bin, n: nat): seq<FingerChunk>
    requires n <= |sources|
  {
    if n == 0 then [] else
      Marked(w, sources, kept, bin, n - 1) +
      if n <= |kept| && kept[n - 1] then P.Marks(w.Chunks(sources[n - 1]), bin) else []
  }

  ghost function AllMarks(w: World, sources: seq<Bytes>, kept: seq<bool>, bin: Bin, n: nat): seq<FingerChunk>
    requires n <= |sources|
  {
    if n == 0 then [] else
      AllMarks(w, sources, kept, bin, n - 1) + if n > |kept| then [] else
        P.Marks(if kept[n - 1] then w.Chunks(sources[n - 1]) else ToMissing(w.Chunks(sources[n - 1]), bin), bin)
  }

  ghost function DroppedMarks(w: World, sources: seq<Bytes>, kept: seq<bool>, bin: Bin, n: nat): seq<FingerChunk>
    requires n <= |sources|
  {
    if n == 0 then [] else
      DroppedMarks(w, sources, kept, bin, n - 1) +
      if n <= |kept| && !kept[n - 1] then P.Marks(ToMissing(w.Chunks(sources[n - 1]), bin), bin) else []
  }

  /** The chunks up to the first that the index lacks. */
  ghost function ToMissing(chunks: seq<FingerChunk>, bin: Bin): seq<FingerChunk> {
    if chunks == [] then [] else [chunks[0]] + if chunks[0].hash in bin then ToMissing(chunks[1..], bin) else []
  }

  lemma {:induction false} ToMissingIs(chunks: seq<FingerChunk>, bin: Bin, k: nat)
    requires k < |chunks| && chunks[k].hash !in bin && forall i :: 0 <= i < k ==> chunks[i].hash in bin
    ensures ToMissing(chunks, bin) == chunks[..k + 1]
  {
    if k > 0 {
      ToMissingIs(chunks[1..], bin, k - 1);
    }
  }

  lemma NothingMarked(w: World, sources: seq<Bytes>, kept: seq<bool>, bin: Bin)
    ensures MarksAre(w, sources, kept, bin, 0, [], [], [])
  {
  }

  lemma {:induction false} MarksStay(w: World, sources: seq<Bytes>, kept: seq<bool>, more: seq<bool>, bin: Bin, n: nat)
    requires n <= |kept| <= |sources| && kept <= more
    ensures Marked(w, sources, more, bin, n) == Marked(w, sources, kept, bin, n)
    ensures AllMarks(w, sources, more, bin, n) == AllMarks(w, sources, kept, bin, n)
    ensures DroppedMarks(w, sources, more, bin, n) == DroppedMarks(w, sources, kept, bin, n)
  {
    hide Records, World.Chunks, P.Marks, ToMissing;
    if n > 0 {
      MarksStay(w, sources, kept, more, bin, n - 1);
    }
  }

  /** One more file, by whether it was accepted. */
  lemma MarksNext(w: World, sources: seq<Bytes>, kept: seq<bool>, bin: Bin, ok: bool)
    requires |kept| < |sources|
    ensures var more, n := kept + [ok], |kept|;
            var file := w.Chunks(sources[n]);
            && Marked(w, sources, more, bin, n + 1) ==
               Marked(w, sources, kept, bin, n) + (if ok then P.Marks(file, bin) else [])
            && AllMarks(w, sources, more, bin, n + 1) ==
               AllMarks(w, sources, kept, bin, n) + P.Marks(if ok then file else ToMissing(file, bin), bin)
            && DroppedMarks(w, sources, more, bin, n + 1) ==
               DroppedMarks(w, sources, kept, bin, n) + (if ok then [] else P.Marks(ToMissing(file, bin), bin))
  {
    hide Records, World.Chunks, P.Marks, ToMissing;
    MarksStay(w, sources, kept, kept + [ok], bin, |kept|);
  }

  /** What `Process` did with one file, in these terms. */
  lemma MarkedSnoc(w: World, sources: seq<Bytes>, kept: seq<bool>, bin: Bin, file: FileInfo, ok: bool,
                   chunks: seq<FingerChunk>, chunks': seq<FingerChunk>, marked: seq<FingerChunk>,
                   marked': seq<FingerChunk>,
                   dropped: seq<FingerChunk>, dropped': seq<FingerChunk>)
    requires |kept| < |sources| && file.chunks == w.Chunks(sources[|kept|])
    requires MarksAre(w, sources, kept, bin, |kept|, chunks, marked, dropped)
    requires ok ==>
               && chunks' == chunks + P.MarksOf(file, bin, |file.chunks|)
               && marked' == marked + P.MarksOf(file, bin, |file.chunks|) && dropped' == dropped
    requires !ok ==> exists k: nat ::
               && P.FirstMissing(file, bin, k) && chunks' == chunks
               && marked' == marked + P.MarksOf(file, bin, k + 1) && dropped' == dropped + P.MarksOf(file, bin, k + 1)
    ensures MarksAre(w, sources, kept + [ok], bin, |kept| + 1, chunks', marked', dropped')
    ensures SameIdents(chunks + if ok then w.Chunks(sources[|kept|]) else [], chunks')
  {
    hide Records, World.Chunks, Marked, AllMarks, DroppedMarks, ToMissing, P.Marks, P.MarksOf;
    MarksNext(w, sources, kept, bin, ok);
    if ok {
      MarksOfAll(file, bin);
      MarksIdents(chunks, file.chunks, bin);
    } else {
      var k: nat :| P.FirstMissing(file, bin, k) && marked' == marked + P.MarksOf(file, bin, k + 1)
                    && dropped' == dropped + P.MarksOf(file, bin, k + 1);
      ToMissingIs(file.chunks, bin, k);
      MarksOfSome(file, bin, k + 1);
      assert chunks + [] == chunks;
      RewriteRefl(map[], chunks);
    }
  }

  lemma MarksAt(w: World, sources: seq<Bytes>, kept: seq<bool>, bin: Bin, n: nat, chunks: seq<FingerChunk>,
                marked: seq<FingerChunk>, dropped: seq<FingerChunk>)
    requires MarksAre(w, sources, kept, bin, n, chunks, marked, dropped)
    ensures n <= |sources| && chunks == Marked(w, sources, kept, bin, n)
    ensures marked == AllMarks(w, sources, kept, bin, n) && dropped == DroppedMarks(w, sources, kept, bin, n)
  {
  }

  lemma MarksOfAll(file: FileInfo, bin: Bin)
    ensures P.MarksOf(file, bin, |file.chunks|) == P.Marks(file.chunks, bin)
  {
  }

  lemma MarksOfSome(file: FileInfo, bin: Bin, n: nat)
    requires n <= |file.chunks|
    ensures P.MarksOf(file, bin, n) == P.Marks(file.chunks[..n], bin)
  {
  }

  lemma MarksIdents(chunks: seq<FingerChunk>, file: seq<FingerChunk>, bin: Bin)
    ensures SameIdents(chunks + file, chunks + P.Marks(file, bin))
  {
  }

  /** The records of the policy after `n` files, in these terms. */
  ghost predicate MarksAre(w: World, sources: seq<Bytes>, kept: seq<bool>, bin: Bin, n: nat, chunks: seq<FingerChunk>,
                           marked: seq<FingerChunk>, dropped: seq<FingerChunk>)
  {
    && n <= |sources|
    && chunks == Marked(w, sources, kept, bin, n)
    && marked == AllMarks(w, sources, kept, bin, n)
    && dropped == DroppedMarks(w, sources, kept, bin, n)
  }

  lemma {:induction false} NoneDroppedAt(w: World, sources: seq<Bytes>, kept: seq<bool>, bin: Bin, n: nat)
    requires n <= |sources| && forall i :: 0 <= i < |kept| ==> kept[i]
    ensures DroppedMarks(w, sources, kept, bin, n) == []
  {
    if n > 0 {
      NoneDroppedAt(w, sources, kept, bin, n - 1);
    }
  }

  lemma NoneDropped(w: World, sources: seq<Bytes>, kept: seq<bool>, bin: Bin, names: seq<string>)
    ensures AllKept(names, kept) ==> DroppedMarks(w, sources, kept, bin, |sources|) == []
  {
    if AllKept(names, kept) {
      NoneDroppedAt(w, sources, kept, bin, |sources|);
    }
  }

  /** A backup under perfect rewriting. A container keeps its duplicates or loses them by the bytes
      of all chunks marked: those of the accepted files, and of dropped ones those up to the
      first that the index lacks. */
  method BackupPerfect(ghost w: World, store: Store, digest: Bytes -> Fingerprint, files: SourceTree,
                       names: seq<string>,
                table0: Table, missed: set<nat>, rabin: Rabin, bin0: Bin, threshold: real)
    returns (kept: seq<bool>, table: Table, bin: Bin, ghost after: seq<FingerChunk>)
    requires Ready(w, store, files, names, table0, rabin, bin0) && digest == w.hashing.digest
    modifies rabin`window, store.Repr
    ensures store.Valid() && fresh(store.Repr - old(store.Repr)) && Extends(old(store.Contents()), store.Contents())
    ensures Filed(w, files, names, kept, table0, table, bin0, bin, store.Contents())
    ensures AllIndexed(w, files, names, kept, bin)
    ensures Recorded(w, Sources(files, names), kept, table0, table, after)
    ensures DropsRefused(w, files, names, kept, table0, missed, bin0) && bin.Keys == bin0.Keys + Hashes(after)
    ensures var sources := Sources(files, names);
            var before, dropped := Marked(w, sources, kept, bin0, |names|),
            DroppedMarks(w, sources, kept, bin0, |names|);
            && P.AllOrNothing(before, after, AllMarks(w, sources, kept, bin0, |names|), threshold)
            && P.Split(AllMarks(w, sources, kept, bin0, |names|), before, dropped)
            && (AllKept(names, kept) ==> dropped == [])
    ensures var sources := Sources(files, names);
            var before, counted := Marked(w, sources, kept, bin0, |names|), AllMarks(w, sources, kept, bin0, |names|);
            && |before| == |after|
            && forall i :: 0 <= i < |after| && !before[i].isNew ==>
                 (after[i].isNew <==> Weight(counted, {before[i].address}) as real < threshold * 4194304.0)
  {
    hide Records, World.Stocked, World.FilesDiffer, InFile, Chunked, SameIdents, Store.Valid, BinHolds, Holds, Settled,
         Extends,
         Described, TableSound, Trace.Grown, Trace.Traced, Trace.Replay, Trace.Released, Trace.OnceEach, Trace.Locks,
         Hashes, N.Consecutive, Accepted, Entered, Recorded, P.PerfectRewrite.Valid,
         P.AllOrNothing, P.Split, P.Refused, P.FirstMissing, P.MarksOf, DropsRefused, Answered, Known, Seen,
         Marked, AllMarks, DroppedMarks, MarksAre, AllKept, Weight;
    var policy := new P.PerfectRewrite(store, files, bin0, threshold);
    ghost var sources := Sources(files, names);
    var ends: seq<nat>, seen := [], table0.Keys;
    kept := [];
    NothingChunked(w, sources);
    RewriteRefl(store.Contents(), []);
    NothingAnswered(w, files, names, table0, missed, bin0);
    NothingMarked(w, sources, kept, bin0);
    for k := 0 to |names|
      invariant policy.Valid() && policy.store == store && policy.files == files && fresh(policy) && store.Valid()
      invariant rabin.Valid() && rabin.mark == w.mark && rabin !in store.Repr
      invariant |kept| == k && Chunked(w, sources, kept, ends, policy.chunks)
      invariant policy.bin == bin0 && policy.threshold == threshold
      invariant store.Repr == old(store.Repr) && store.Contents() == old(store.Contents())
      invariant MarksAre(w, sources, kept, bin0, k, policy.chunks, policy.marked, policy.dropped)
      invariant Answered(w, files, names, kept, table0, missed, bin0, seen)
    {
      var list := ChunkOne(rabin, digest, w, files, names[k]);
      var d := digest(files[names[k]]);
      ghost var was, contents := policy.chunks, store.Contents();
      var file := FileInfo(names[k], d in seen && k !in missed, list);
      ghost var marked, dropped := policy.marked, policy.dropped;
      var ok := policy.Process(file);
      policy.OpenValid();
      AnsweredSnoc(w, files, names, kept, table0, missed, bin0, seen, file, ok);
      MarkedSnoc(w, sources, kept, bin0, file, ok, was, policy.chunks, marked, policy.marked, dropped, policy.dropped);
      ChunkedSnoc(w, sources, kept, ends, was, policy.chunks, ok);
      kept, ends := kept + [ok], ends + [|policy.chunks|];
      if ok {
        seen := seen + {d};
      }
    }
    policy.OpenValid();
    ghost var was, contents := policy.chunks, store.Contents();
    MarksAt(w, sources, kept, bin0, |names|, policy.chunks, policy.marked, policy.dropped);
    var ok := policy.Finish();
    HashesSame(was, policy.chunks);
    ChunkedStays(w, sources, kept, ends, was, policy.chunks);
    ExtendsTransitive(old(store.Contents()), contents, store.Contents());
    SoundExtends(w, table0, old(store.Contents()), store.Contents());
    bin, after := policy.bin, policy.chunks;
    table := FileRecipes(w, digest, files, names, kept, ends, policy.chunks, table0, bin, store.Contents());
    AnsweredAll(w, files, names, kept, table0, missed, bin0, seen);
    NoneDropped(w, sources, kept, bin0, names);
  }

  /** In the middle of a run: what became of the files so far, and which fingerprints the
      server can know by now. */
  ghost predicate Answered(w: World, files: SourceTree, names: seq<string>, kept: seq<bool>, table0: Table,
                           missed: set<nat>, bin0: Bin, seen: set<Fingerprint>)
    requires forall n :: n in names ==> n in files
  {
    && |kept| <= |names| && seen == Seen(w, files, names, kept, table0, |kept|)
    && DropsRefused(w, files, names, kept, table0, missed, bin0)
  }

  lemma NothingAnswered(w: World, files: SourceTree, names: seq<string>, table0: Table, missed: set<nat>, bin0: Bin)
    requires forall n :: n in names ==> n in files
    ensures Answered(w, files, names, [], table0, missed, bin0, table0.Keys)
  {
  }

  lemma AnsweredSnoc(w: World, files: SourceTree, names: seq<string>, kept: seq<bool>, table0: Table,
                     missed: set<nat>, bin0: Bin, seen: set<Fingerprint>,
                     file: FileInfo, ok: bool)
    requires |kept| < |names| && (forall n :: n in names ==> n in files)
    requires Answered(w, files, names, kept, table0, missed, bin0, seen)
    requires file.chunks == w.Chunks(files[names[|kept|]])
    requires file.isDedup <==> w.Digest(files[names[|kept|]]) in seen && |kept| !in missed
    requires ok <==> !P.Refused(file, bin0)
    ensures Answered(w, files, names, kept + [ok], table0, missed, bin0,
                     if ok then seen + {w.Digest(files[names[|kept|]])} else seen)
  {
    hide Records, Hashes, P.Refused, DropsRefused;
    RefusedHashes(file, bin0);
    DropsSnoc(w, files, names, kept, table0, missed, bin0, ok);
    SeenStays(w, files, names, kept, kept + [ok], table0, |kept|);
  }

  lemma AnsweredAll(w: World, files: SourceTree, names: seq<string>, kept: seq<bool>, table0: Table,
                    missed: set<nat>, bin0: Bin, seen: set<Fingerprint>)
    requires forall n :: n in names ==> n in files
    requires Answered(w, files, names, kept, table0, missed, bin0, seen)
    ensures DropsRefused(w, files, names, kept, table0, missed, bin0)
  {
  }

  lemma RefusedHashes(file: FileInfo, bin: Bin)
    ensures P.Refused(file, bin) <==> file.isDedup && !(Hashes(file.chunks) <= bin.Keys)
  {
    if forall i :: 0 <= i < |file.chunks| ==> file.chunks[i].hash in bin {
      assert Hashes(file.chunks) <= bin.Keys;
    } else {
      var i :| 0 <= i < |file.chunks| && file.chunks[i].hash !in bin;
      assert file.chunks[i].hash in Hashes(file.chunks);
    }
  }

  /** A backup without a rewrite policy. A file that the server knows is left to its recipe and
      does not touch the index. */
  method BackupPlain(ghost w: World, store: Store, digest: Bytes -> Fingerprint, files: SourceTree, names: seq<string>,
                     table0: Table, missed: set<nat>, rabin: Rabin, bin0: Bin)
    returns (kept: seq<bool>, table: Table, bin: Bin)
    requires Ready(w, store, files, names, table0, rabin, bin0) && digest == w.hashing.digest
    modifies rabin`window, store.Repr
    ensures store.Valid() && fresh(store.Repr - old(store.Repr)) && Extends(old(store.Contents()), store.Contents())
    ensures Filed(w, files, names, kept, table0, table, bin0, bin, store.Contents())
    ensures AllKept(names, kept)
    ensures bin.Keys == bin0.Keys + Fresh(w, files, names, kept, table0, missed, |names|)
  {
    hide Records, World.Stocked, World.FilesDiffer, InFile, SameIdents, Store.Valid, BinHolds, Holds, Settled, Extends,
         TableSound, SoundRecipe, N.NoRewrite.Valid, Trace.Grown, Trace.Traced, Hashes, Keeps, Seen, Fresh, Known;
    var policy := new N.NoRewrite(store, files, bin0);
    kept, table := seq(|names|, _ => true), table0;
    RewriteRefl(store.Contents(), []);
    KeepsRefl(table);
    SeenNothing(w, files, names, kept, table0, missed);
    for k := 0 to |names|
      invariant policy.Valid() && policy.store == store && policy.files == files && fresh(policy) && store.Valid()
      invariant rabin.Valid() && rabin.mark == w.mark && rabin !in store.Repr && fresh(store.Repr - old(store.Repr))
      invariant Extends(old(store.Contents()), store.Contents())
      invariant TableSound(w, table, store.Contents()) && Keeps(table0, table)
      invariant table.Keys == Seen(w, files, names, kept, table0, k)
      invariant policy.bin.Keys == bin0.Keys + Fresh(w, files, names, kept, table0, missed, k)
    {
      var d := digest(files[names[k]]);
      ghost var contents, was := store.Contents(), table;
      SeenNext(w, files, names, kept, table0, missed, k);
      table := PlainFile(w, policy, digest, names[k], rabin, table, d in table && k !in missed);
      ExtendsTransitive(old(store.Contents()), contents, store.Contents());
      KeepsTransitive(table0, was, table);
    }
    SeenAll(w, files, names, kept, table0, |names|);
    policy.Finished();
    bin := policy.bin;
  }

  /** One file: if the server knows it there is nothing to do, otherwise its new chunks are
      stored and the server gets its recipe. */
  method PlainFile(ghost w: World, policy: N.NoRewrite, digest: Bytes -> Fingerprint, name: string, rabin: Rabin,
                   table0: Table, known: bool)
    returns (table: Table)
    requires policy.Valid() && policy.store.Valid() && policy.store.hashing == w.hashing && digest == w.hashing.digest
    requires rabin.Valid() && rabin.mark == w.mark && rabin !in policy.store.Repr
    requires w.Stocked() && w.FilesDiffer() && Within(policy.files, w) && name in policy.files
    requires TableSound(w, table0, policy.store.Contents()) && (known ==> w.Digest(policy.files[name]) in table0)
    modifies rabin`window, policy`bin, policy`chunks, policy`trace, policy.store.Repr
    ensures policy.Valid() && rabin.Valid() && rabin !in policy.store.Repr && policy.store.Valid()
    ensures fresh(policy.store.Repr - old(policy.store.Repr))
    ensures Extends(old(policy.store.Contents()), policy.store.Contents())
    ensures policy.bin.Keys == old(policy.bin).Keys + if known then {} else Hashes(w.Chunks(policy.files[name]))
    ensures TableSound(w, table, policy.store.Contents()) && Keeps(table0, table)
    ensures table.Keys == table0.Keys + {w.Digest(policy.files[name])}
  {
    hide Records, World.Stocked, World.FilesDiffer, InFile, Store.Valid, BinHolds, Holds, Extends, TableSound,
         SoundRecipe,
         N.NoRewrite.Valid, Hashes;
    table := table0;
    if known {
      RewriteRefl(policy.store.Contents(), []);
    } else {
      var recipe := PlainNew(w, policy, digest, name, rabin);
      SoundExtends(w, table, old(policy.store.Contents()), policy.store.Contents());
      SoundInsert(w, table, policy.files[name], recipe, policy.store.Contents());
      table := Insert(table, digest(policy.files[name]), recipe);
    }
  }

  /** A file that the server does not know: its new chunks are stored. */
  method PlainNew(ghost w: World, policy: N.NoRewrite, digest: Bytes -> Fingerprint, name: string, rabin: Rabin)
    returns (recipe: Recipe)
    requires policy.Valid() && policy.store.hashing == w.hashing && digest == w.hashing.digest
    requires rabin.Valid() && rabin.mark == w.mark && rabin !in policy.store.Repr
    requires w.Stocked() && Within(policy.files, w) && name in policy.files
    modifies rabin`window, policy`bin, policy`chunks, policy`trace, policy.store.Repr
    ensures policy.Valid() && rabin.Valid() && rabin !in policy.store.Repr && policy.store.Valid()
    ensures fresh(policy.store.Repr - old(policy.store.Repr)) && old(policy.store.Valid())
    ensures Extends(old(policy.store.Contents()), policy.store.Contents())
    ensures policy.bin.Keys == old(policy.bin).Keys + Hashes(w.Chunks(policy.files[name]))
    ensures SoundRecipe(w, policy.files[name], recipe, policy.store.Contents())
  {
    hide Records, World.Stocked, InFile, SameIdents, Store.Valid, BinHolds, Holds, Settled, Extends, SoundRecipe,
         N.Consecutive,
         N.Deduplicated, Trace.Grown, Trace.Traced, Hashes;
    var cut := ChunkOne(rabin, digest, w, policy.files, name);
    var list := policy.MarkNewFile(FileInfo(name, false, cut));
    recipe := RecipeOf(list);
    N.DeduplicatedIdents([], cut, list, old(policy.bin), policy.bin);
    policy.Finished();
    assert [] + cut == cut && [] + list == list;
    assert forall i :: 0 <= i < |list| ==> list[i] == policy.chunks[|old(policy.chunks)| + i];
    SettledRecipe(w, policy.files[name], list, policy.bin, policy.store.Contents());
  }
}
