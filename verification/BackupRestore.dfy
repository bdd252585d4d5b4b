/** Backup followed by restore is the identity: a backup run, the container store, the server's
    table and the cached restore (client/src/restore.c) composed. */
module BackupRestore {
  import opened Types
  import opened Container
  import opened Store
  import opened ChunkDedup
  import opened Restore
  import opened Chunker
  import opened FileTable
  import opened Backup

  // -------------------------------------------------------------- the restore

  /** Nothing collides, and the stored chunks are genuine. */
  ghost predicate Trusted(w: World, archive: Contents) {
    && w.hashing.CollisionFree() && w.Stocked()
    && forall a, c :: a in archive && c in archive[a] ==> w.hashing.Genuine(c)
  }

  /** Without collisions, what a container holds under a chunk's fingerprint is the chunk. */
  lemma StoredIsOriginal(w: World, file: Bytes, archive: Contents, k: nat, address: Address, data: Bytes)
    requires Trusted(w, archive) && file in w.lib && k < |w.Chunks(file)|
    requires address in archive && Chunk(w.Chunks(file)[k].hash, data) in archive[address]
    ensures Joined(file, w.Chunks(file)[k..]) == data + Joined(file, w.Chunks(file)[k + 1..])
  {
    hide Records, Tiling, Joined;
    var rs := w.Chunks(file);
    RecordsTile(w.hashing.digest, w.mark, file, 0);
    RecordIsSlice(w, file, archive, k, address, data);
    JoinedFrom(file, rs, k);
  }

  lemma RecordIsSlice(w: World, file: Bytes, archive: Contents, k: nat, address: Address, data: Bytes)
    requires Trusted(w, archive) && file in w.lib && k < |w.Chunks(file)|
    requires address in archive && Chunk(w.Chunks(file)[k].hash, data) in archive[address]
    requires Tiling(w.hashing.digest, file, w.Chunks(file), 0)
    ensures var fc := w.Chunks(file)[k];
            fc.offset + fc.length <= |file| && data == file[fc.offset..fc.offset + fc.length]
  {
    hide Records;
    var rs := w.Chunks(file);
    assert ValidRecord(w.hashing.digest, file, rs[k], k + 1 < |rs|);
    assert rs[k] in rs;
    assert w.hashing.Genuine(Chunk(rs[k].hash, data));
  }

  lemma JoinedFrom(file: Bytes, rs: seq<FingerChunk>, k: nat)
    requires k < |rs| && rs[k].offset + rs[k].length <= |file|
    ensures Joined(file, rs[k..]) == file[rs[k].offset..rs[k].offset + rs[k].length] + Joined(file, rs[k + 1..])
  {
    hide Joined;
    JoinedHead(file, rs[k..]);
    assert rs[k..][1..] == rs[k + 1..];
  }

  lemma JoinedHead(file: Bytes, rs: seq<FingerChunk>)
    requires rs != [] && rs[0].offset + rs[0].length <= |file|
    ensures Joined(file, rs) == file[rs[0].offset..rs[0].offset + rs[0].length] + Joined(file, rs[1..])
  {
  }

  lemma JoinedNothing(file: Bytes, rs: seq<FingerChunk>)
    ensures Joined(file, rs[|rs|..]) == []
  {
  }

  /** `construct_file` for one file: the restored bytes are the file. With `byIndex`, which is
      how the program restores if a rewrite policy is configured, the recipe's addresses are
      first replaced by those of the index, and the restore fails exactly if the index lacks one
      of the file's fingerprints. */
  method RestoreFile(restorer: Restorer, recipe: Recipe, byIndex: bool, bin: Bin, ghost w: World, ghost file: Bytes)
    returns (out: Option<Bytes>)
    requires restorer.Valid() && Trusted(w, restorer.archive) && file in w.lib
    requires SoundRecipe(w, file, recipe, restorer.archive) && BinHolds(bin, restorer.archive)
    modifies restorer, restorer.cache, restorer.cache.pool
    ensures restorer.Valid()
    ensures out == if byIndex && !(Hashes(w.Chunks(file)) <= bin.Keys) then None else Some(file)
  {
    hide Records, Trusted, Restorer.Valid, Hashes, SoundRecipe, BinHolds;
    RecipeHashes(w, file, recipe, restorer.archive, bin);
    var list := recipe;
    if byIndex {
      list := [];
      for k := 0 to |recipe|
        invariant |list| == k && forall i :: 0 <= i < k ==>
                    recipe[i].hash in bin && list[i] == RecipeEntry(recipe[i].hash, bin[recipe[i].hash])
      {
        if recipe[k].hash !in bin {
          return None;
        }
        list := list + [RecipeEntry(recipe[k].hash, bin[recipe[k].hash])];
      }
      IndexedSound(w, file, recipe, list, restorer.archive, bin);
    }
    out := RestoreChunks(restorer, list, w, file);
  }

  lemma RecipeHashes(w: World, file: Bytes, recipe: Recipe, contents: Contents, bin: Bin)
    requires SoundRecipe(w, file, recipe, contents)
    ensures Hashes(w.Chunks(file)) <= bin.Keys <==> forall i :: 0 <= i < |recipe| ==> recipe[i].hash in bin
  {
    hide Records, Holds;
    if Hashes(w.Chunks(file)) <= bin.Keys {
      forall i | 0 <= i < |recipe|
        ensures recipe[i].hash in bin
      {
        assert w.Chunks(file)[i].hash in Hashes(w.Chunks(file));
      }
    }
  }

  lemma IndexedSound(w: World, file: Bytes, recipe: Recipe, now: Recipe, contents: Contents, bin: Bin)
    requires SoundRecipe(w, file, recipe, contents) && BinHolds(bin, contents) && |now| == |recipe|
    requires forall i :: 0 <= i < |recipe| ==>
             recipe[i].hash in bin && now[i] == RecipeEntry(recipe[i].hash, bin[recipe[i].hash])
    ensures SoundRecipe(w, file, now, contents)
  {
    hide Records, Holds;
  }

  /** The loop over the chunks of one file. */
  method RestoreChunks(restorer: Restorer, recipe: Recipe, ghost w: World, ghost file: Bytes)
    returns (out: Option<Bytes>)
    requires restorer.Valid() && Trusted(w, restorer.archive) && file in w.lib
             && SoundRecipe(w, file, recipe, restorer.archive)
    modifies restorer, restorer.cache, restorer.cache.pool
    ensures restorer.Valid()
    ensures out == Some(file)
  {
    hide Records, Trusted, Joined, Restorer.Valid, SoundRecipe;
    ghost var rs := w.Chunks(file);
    RecordsTile(w.hashing.digest, w.mark, file, 0);
    assert rs[0..] == rs;
    SoundSize(w, file, recipe, restorer.archive);
    var written := [];
    for k := 0 to |recipe|
      invariant restorer.Valid()
      invariant written + Joined(file, rs[k..]) == file
    {
      SoundAt(w, file, recipe, restorer.archive, k);
      OnDisk(restorer);
      HeldChunk(restorer.archive, recipe[k].address, recipe[k].hash);
      var data := restorer.RestoreChunk(recipe[k].hash, recipe[k].address);
      if data == None {
        return None;
      }
      StoredIsOriginal(w, file, restorer.archive, k, recipe[k].address, data.value);
      assert written + (data.value + Joined(file, rs[k + 1..])) == (written + data.value) + Joined(file, rs[k + 1..]);
      written := written + data.value;
    }
    JoinedNothing(file, rs);
    assert written + [] == written;
    out := Some(written);
  }

  lemma SoundSize(w: World, file: Bytes, recipe: Recipe, contents: Contents)
    requires SoundRecipe(w, file, recipe, contents)
    ensures |recipe| == |w.Chunks(file)|
  {
  }

  lemma SoundAt(w: World, file: Bytes, recipe: Recipe, contents: Contents, k: nat)
    requires SoundRecipe(w, file, recipe, contents) && k < |recipe| == |w.Chunks(file)|
    ensures recipe[k].hash == w.Chunks(file)[k].hash && Holds(contents, recipe[k].address, recipe[k].hash)
  {
  }

  lemma OnDisk(restorer: Restorer)
    requires restorer.Valid()
    ensures restorer.disk.Keys == restorer.archive.Keys
  {
  }

  lemma HeldChunk(archive: Contents, address: Address, hash: Fingerprint)
    requires Holds(archive, address, hash)
    ensures address in archive && exists c :: c in archive[address] && c.hash == hash
  {
    var i :| 0 <= i < |archive[address]| && archive[address][i].hash == hash;
    assert archive[address][i] in archive[address];
  }

  /** Restore the files of a job that were not dropped, through a cache of `size` containers.
      The restore stops at the first file that cannot be restored. */
  method RestoreAll(ghost w: World, disk: map<Address, Bytes>, ghost archive: Contents, size: nat, span: Span,
                    byIndex: bool,
                    digests: seq<Fingerprint>, kept: seq<bool>, table: Table, bin: Bin, ghost sources: seq<Bytes>)
    returns (outs: seq<Option<Bytes>>)
    requires Readable(disk, archive) && size > 0 && span.Ok() && AllMade(disk.Keys, span.start)
    requires Trusted(w, archive) && TableSound(w, table, archive) && BinHolds(bin, archive)
    requires |kept| == |digests| == |sources| && forall i :: 0 <= i < |sources| ==>
               sources[i] in w.lib && digests[i] == w.Digest(sources[i]) && (kept[i] ==> digests[i] in table)
    ensures |outs| <= |kept|
    ensures forall i :: 0 <= i < |outs| ==> outs[i] == if kept[i] then Some(sources[i]) else None
    ensures forall i :: 0 <= i < |outs| && kept[i] && byIndex ==> Hashes(w.Chunks(sources[i])) <= bin.Keys
    ensures |outs| < |kept| ==> kept[|outs|] && byIndex && !(Hashes(w.Chunks(sources[|outs|])) <= bin.Keys)
  {
    hide Readable, AllMade, Trusted, Restorer.Valid, SoundRecipe, Hashes, Records;
    var restorer := new Restorer(disk, archive, size, span);
    outs := [];
    for k := 0 to |kept|
      invariant restorer.Valid() && fresh(restorer) && fresh(restorer.cache)
                && forall n :: n in restorer.cache.pool ==> fresh(n)
      invariant |outs| == k && forall i :: 0 <= i < k ==> outs[i] == if kept[i] then Some(sources[i]) else None
      invariant forall i :: 0 <= i < k && kept[i] && byIndex ==> Hashes(w.Chunks(sources[i])) <= bin.Keys
    {
      var out := None;
      if kept[k] {
        out := RestoreFile(restorer, table[digests[k]], byIndex, bin, w, sources[k]);
        if out == None {
          return;
        }
      }
      outs := outs + [out];
    }
  }

  // ----------------------------------------------------------- closing the store

  /** Closing the store drops at most an empty container, so nothing held is lost. */
  ghost predicate Closed(contents: Contents, archive: Contents, name: Address) {
    contents == archive || contents == archive[name := []]
  }

  lemma StillHeld(contents: Contents, archive: Contents, name: Address, address: Address, hash: Fingerprint)
    requires Holds(contents, address, hash) && Closed(contents, archive, name)
    ensures Holds(archive, address, hash)
  {
  }

  lemma StillSound(w: World, table: Table, bin: Bin, contents: Contents, archive: Contents, name: Address)
    requires TableSound(w, table, contents) && BinHolds(bin, contents) && Closed(contents, archive, name)
    ensures TableSound(w, table, archive) && BinHolds(bin, archive)
  {
    hide Records, HasHash, Closed;
    forall f | f in w.lib && w.Digest(f) in table
      ensures SoundRecipe(w, f, table[w.Digest(f)], archive)
    {
      var recipe := table[w.Digest(f)];
      assert SoundRecipe(w, f, recipe, contents);
      forall i | 0 <= i < |recipe|
        ensures Holds(archive, recipe[i].address, recipe[i].hash)
      {
        StillHeld(contents, archive, name, recipe[i].address, recipe[i].hash);
      }
    }
    forall h | h in bin
      ensures Holds(archive, bin[h], h)
    {
      StillHeld(contents, archive, name, bin[h], h);
    }
  }

  /** `store_destory` leaves a container directory that a later process can read. */
  method CloseStore(store: Store)
    requires store.Valid()
    modifies store`disk, store`archive
    ensures store.OnDisk() && Readable(store.disk, store.archive) && AllMade(store.disk.Keys, store.span.stop)
    ensures Closed(old(store.Contents()), store.archive, old(store.container.name))
  {
    hide Encodes, Fits, Layout, Payload, NamesLeft, Made;
    store.Close();
    FewerMade(store.disk.Keys, old(store.disk.Keys) + {store.container.name}, store.span.stop);
  }

  lemma FewerMade(names: set<Address>, more: set<Address>, stop: nat)
    requires AllMade(more, stop) && names <= more
    ensures AllMade(names, stop)
  {
  }

  // --------------------------------------------------------------- end to end

  datatype Policy =
    | Plain
    | Capping(capacity: nat, maxRefer: nat)
    | Perfect(threshold: real)
    | Cfl(lowWaterMark: real, reuse: real)

  /** Which files a backup keeps. */
  ghost predicate KeptUnder(policy: Policy, w: World, files: SourceTree, names: seq<string>, kept: seq<bool>,
                            table0: Table, missed: set<nat>, bin0: Bin)
    requires forall n :: n in names ==> n in files
  {
    && |kept| == |names|
    && if policy.Perfect? then DropsRefused(w, files, names, kept, table0, missed, bin0) else AllKept(names, kept)
  }

  /** What the index knows after a backup: under a rewrite policy every chunk of every file that
      was kept, under the plain policy what it knew before and the chunks of the new files. */
  ghost predicate IndexedUnder(policy: Policy, w: World, files: SourceTree, names: seq<string>, kept: seq<bool>,
                               table0: Table, missed: set<nat>, bin0: Bin, bin: Bin)
    requires forall n :: n in names ==> n in files
  {
    if policy.Plain? then bin.Keys == bin0.Keys + Fresh(w, files, names, kept, table0, missed, |names|)
    else AllIndexed(w, files, names, kept, bin)
  }

  /** One backup of the named files under the given policy. */
  method RunBackup(policy: Policy, ghost w: World, store: Store, digest: Bytes -> Fingerprint, files: SourceTree,
                   names: seq<string>,
                   table0: Table, missed: set<nat>, rabin: Rabin, bin0: Bin)
    returns (kept: seq<bool>, table: Table, bin: Bin)
    requires Ready(w, store, files, names, table0, rabin, bin0) && digest == w.hashing.digest
    modifies rabin`window, store.Repr
    ensures store.Valid() && fresh(store.Repr - old(store.Repr)) && Extends(old(store.Contents()), store.Contents())
    ensures Filed(w, files, names, kept, table0, table, bin0, bin, store.Contents())
    ensures KeptUnder(policy, w, files, names, kept, table0, missed, bin0)
    ensures IndexedUnder(policy, w, files, names, kept, table0, missed, bin0, bin)
  {
    hide Ready, Filed, Store.Valid, DropsRefused, AllKept, AllIndexed, Extends, Fresh;
    ReadyNames(w, store, files, names, table0, rabin, bin0);
    ghost var after, windows, waits, locks;
    match policy {
      case Plain =>
        kept, table, bin := BackupPlain(w, store, digest, files, names, table0, missed, rabin, bin0);
      case Capping(capacity, maxRefer) =>
        kept, table, bin, after, windows :=
          BackupCapping(w, store, digest, files, names, table0, missed, rabin, bin0, capacity, maxRefer);
      case Perfect(threshold) =>
        kept, table, bin, after :=
          BackupPerfect(w, store, digest, files, names, table0, missed, rabin, bin0, threshold);
      case Cfl(lowWaterMark, reuse) =>
        kept, table, bin, after, waits, locks :=
          BackupCfl(w, store, digest, files, names, table0, missed, rabin, bin0, lowWaterMark, reuse);
    }
    FiledSize(w, files, names, kept, table0, table, bin0, bin, store.Contents());
  }

  lemma ReadyNames(w: World, store: Store, files: SourceTree, names: seq<string>, table0: Table, rabin: Rabin,
                   bin0: Bin)
    requires Ready(w, store, files, names, table0, rabin, bin0)
    ensures store.Valid() && forall n :: n in names ==> n in files && files[n] in w.lib
  {
  }

  lemma FiledSize(w: World, files: SourceTree, names: seq<string>, kept: seq<bool>,
                  table0: Table, table: Table, bin0: Bin, bin: Bin, contents: Contents)
    requires (forall n :: n in names ==> n in files) && Filed(w, files, names, kept, table0, table, bin0, bin, contents)
    ensures |kept| == |names|
  {
  }

  // --------------------------------------------------------------- processes

  /** What is on disk and at the server between two processes: container files of the program,
      all made before the second `until`, and an index and a table that are right about them. */
  ghost predicate Vault(w: World, disk: map<Address, Bytes>, archive: Contents, table: Table, bin: Bin, until: nat) {
    && Readable(disk, archive) && AllMade(disk.Keys, until)
    && (forall a, c :: a in archive && c in archive[a] ==> w.hashing.Genuine(c))
    && TableSound(w, table, archive) && BinHolds(bin, archive)
  }

  /** Before the first process there is nothing. */
  lemma FirstVault(w: World, until: nat)
    ensures Vault(w, map[], map[], map[], map[], until)
  {
  }

  /** The job's files exist, and files and chunks are those of the world. */
  ghost predicate Suitable(w: World, files: SourceTree, names: seq<string>) {
    w.Stocked() && w.FilesDiffer() && Within(files, w) && forall n :: n in names ==> n in files
  }

  /** A backup process from start to end, some time after the processes before it. */
  method BackupProcess(policy: Policy, ghost w: World, digest: Bytes -> Fingerprint, mark: Mark, files: SourceTree,
                       names: seq<string>, missed: set<nat>, disk0: map<Address, Bytes>, ghost archive0: Contents,
                       table0: Table, bin0: Bin, span: Span)
    returns (kept: seq<bool>, disk: map<Address, Bytes>, ghost archive: Contents, table: Table, bin: Bin)
    requires Vault(w, disk0, archive0, table0, bin0, span.start) && span.Ok() && Suitable(w, files, names)
    requires digest == w.hashing.digest && mark == w.mark
    ensures Vault(w, disk, archive, table, bin, span.stop)
    ensures bin0.Keys <= bin.Keys && Keeps(table0, table)
    ensures KeptUnder(policy, w, files, names, kept, table0, missed, bin0)
    ensures IndexedUnder(policy, w, files, names, kept, table0, missed, bin0, bin)
    ensures forall i :: 0 <= i < |names| && kept[i] ==> w.Digest(files[names[i]]) in table
  {
    hide Encodes, Fits, TableSound, BinHolds, AllMade, Store.Valid, Store.OnDisk, Filed, DropsRefused, AllKept,
         AllIndexed,
         Extends, Fresh, World.Stocked, World.FilesDiffer, Closed, Keeps, Hashes, Records;
    VaultOpens(w, disk0, archive0, table0, bin0, span.start);
    var store := new Store(w.hashing, disk0, archive0, span);
    var rabin := new Rabin(mark);
    Opened(w, store, table0, bin0);
    kept, table, bin := RunBackup(policy, w, store, digest, files, names, table0, missed, rabin, bin0);
    FiledNow(w, files, names, kept, table0, table, bin0, bin, store.Contents());
    ghost var contents, name := store.Contents(), store.container.name;
    CloseStore(store);
    StillSound(w, table, bin, contents, store.archive, name);
    GenuineNow(store);
    disk, archive := store.disk, store.archive;
  }

  lemma VaultOpens(w: World, disk: map<Address, Bytes>, archive: Contents, table: Table, bin: Bin, until: nat)
    requires Vault(w, disk, archive, table, bin, until)
    ensures disk.Keys == archive.Keys && AllMade(disk.Keys, until)
    ensures forall a :: a in archive ==> Fits(archive[a]) && Encodes(disk[a], archive[a])
    ensures forall a, c :: a in archive && c in archive[a] ==> w.hashing.Genuine(c)
  {
  }

  /** The new process sees the old containers, and one that is empty. */
  lemma Opened(w: World, store: Store, table: Table, bin: Bin)
    requires store.Valid() && store.container.chunks == [] && store.container.name !in store.archive
    requires TableSound(w, table, store.archive) && BinHolds(bin, store.archive)
    ensures TableSound(w, table, store.Contents()) && BinHolds(bin, store.Contents())
  {
    hide Encodes, Fits, Layout, Payload, NamesLeft, AllMade, TableSound, BinHolds;
    SoundExtends(w, table, store.archive, store.Contents());
    BinHoldsExtends(bin, store.archive, store.Contents());
  }

  lemma GenuineNow(store: Store)
    requires store.OnDisk()
    ensures forall a, c :: a in store.archive && c in store.archive[a] ==> store.hashing.Genuine(c)
  {
  }

  lemma FiledNow(w: World, files: SourceTree, names: seq<string>, kept: seq<bool>,
                 table0: Table, table: Table, bin0: Bin, bin: Bin, contents: Contents)
    requires (forall n :: n in names ==> n in files)
             && Filed(w, files, names, kept, table0, table, bin0, bin, contents)
    ensures BinHolds(bin, contents) && TableSound(w, table, contents) && |kept| == |names|
    ensures bin0.Keys <= bin.Keys && Keeps(table0, table)
    ensures forall i :: 0 <= i < |names| && kept[i] ==> w.Digest(files[names[i]]) in table
  {
  }

  /** A restore process, some time after the processes before it: any files that the server knows
      come back as they were. Only a restore through the index can fail, at the first file of
      which the index lacks a fingerprint. */
  method RestoreProcess(ghost w: World, disk: map<Address, Bytes>, ghost archive: Contents, table: Table, bin: Bin,
                        span: Span, size: nat, byIndex: bool, digests: seq<Fingerprint>, kept: seq<bool>,
                        ghost sources: seq<Bytes>)
    returns (outs: seq<Option<Bytes>>)
    requires Vault(w, disk, archive, table, bin, span.start) && span.Ok() && size > 0
    requires w.Stocked() && w.hashing.CollisionFree()
    requires |kept| == |digests| == |sources| && forall i :: 0 <= i < |sources| ==>
               sources[i] in w.lib && digests[i] == w.Digest(sources[i]) && (kept[i] ==> digests[i] in table)
    ensures |outs| <= |kept|
    ensures forall i :: 0 <= i < |outs| ==> outs[i] == if kept[i] then Some(sources[i]) else None
    ensures forall i :: 0 <= i < |outs| && kept[i] && byIndex ==> Hashes(w.Chunks(sources[i])) <= bin.Keys
    ensures |outs| < |kept| ==> kept[|outs|] && byIndex && !(Hashes(w.Chunks(sources[|outs|])) <= bin.Keys)
  {
    hide TableSound, BinHolds, Readable, AllMade, Hashes, Records, World.Stocked, World.Digest;
    outs := RestoreAll(w, disk, archive, size, span, byIndex, digests, kept, table, bin, sources);
  }

  /** Backup and restore, each in a process of its own, over whatever earlier processes left: every
      file that was not dropped comes back as it was, under every policy. A restore through the
      index after a backup without a policy stops exactly at the first file with a chunk that
      neither the old index nor a new file of the run has. */
  method BackupThenRestore(policy: Policy, ghost w: World, digest: Bytes -> Fingerprint, mark: Mark, files: SourceTree,
                           names: seq<string>, missed: set<nat>, disk0: map<Address, Bytes>, ghost archive0: Contents,
                           table0: Table, bin0: Bin, span: Span, later: Span, size: nat, byIndex: bool)
    returns (kept: seq<bool>, outs: seq<Option<Bytes>>)
    requires Vault(w, disk0, archive0, table0, bin0, span.start) && Suitable(w, files, names)
    requires span.Ok() && later.Ok() && span.stop <= later.start
    requires digest == w.hashing.digest && mark == w.mark && w.hashing.CollisionFree() && size > 0
    ensures KeptUnder(policy, w, files, names, kept, table0, missed, bin0)
    ensures |outs| <= |names| == |kept|
    ensures forall i :: 0 <= i < |outs| ==> outs[i] == if kept[i] then Some(files[names[i]]) else None
    ensures !(policy.Plain? && byIndex) ==> |outs| == |names|
    ensures policy.Plain? && byIndex ==>
              var indexed := bin0.Keys + Fresh(w, files, names, kept, table0, missed, |names|);
              && (forall i :: 0 <= i < |outs| ==> Hashes(w.Chunks(files[names[i]])) <= indexed)
              && (|outs| < |names| ==> !(Hashes(w.Chunks(files[names[|outs|]])) <= indexed))
  {
    hide Vault, DropsRefused, World.Stocked, World.FilesDiffer, Hashes, Records, Fresh, Keeps;
    var disk, table, bin;
    ghost var archive;
    kept, disk, archive, table, bin :=
      BackupProcess(policy, w, digest, mark, files, names, missed, disk0, archive0, table0, bin0, span);
    VaultLater(w, disk, archive, table, bin, span.stop, later.start);
    var digests := seq(|names|, i requires 0 <= i < |names| => digest(files[names[i]]));
    outs := RestoreProcess(w, disk, archive, table, bin, later, size, byIndex, digests, kept, Sources(files, names));
  }

  lemma VaultLater(w: World, disk: map<Address, Bytes>, archive: Contents, table: Table, bin: Bin, until: nat,
                   later: nat)
    requires Vault(w, disk, archive, table, bin, until) && until <= later
    ensures Vault(w, disk, archive, table, bin, later)
  {
    hide Readable, TableSound, BinHolds, AllMade;
    AllMadeLater(disk.Keys, until, later);
  }

  /** The concrete case of a failing restore: a file that the server knows from another client,
      with a chunk that this client's index lacks, is backed up without a policy and restored
      under one. */
  method KnownThenIndexStops(ghost w: World, digest: Bytes -> Fingerprint, mark: Mark, files: SourceTree, p: string,
                             disk0: map<Address, Bytes>, ghost archive0: Contents, table0: Table, bin0: Bin,
                             span: Span, later: Span, size: nat)
    returns (kept: seq<bool>, outs: seq<Option<Bytes>>)
    requires Vault(w, disk0, archive0, table0, bin0, span.start) && Suitable(w, files, [p])
    requires span.Ok() && later.Ok() && span.stop <= later.start
    requires digest == w.hashing.digest && mark == w.mark && w.hashing.CollisionFree() && size > 0
    requires p in files && w.Digest(files[p]) in table0 && !(Hashes(w.Chunks(files[p])) <= bin0.Keys)
    ensures kept == [true] && outs == []
  {
    hide Vault, Suitable, Hashes, Records;
    kept, outs := BackupThenRestore(Plain, w, digest, mark, files, [p], {}, disk0, archive0, table0, bin0, span, later,
                                    size, true);
    NothingFresh(w, files, p, kept, table0);
  }

  lemma NothingFresh(w: World, files: SourceTree, p: string, kept: seq<bool>, table0: Table)
    requires p in files && w.Digest(files[p]) in table0
    ensures Fresh(w, files, [p], kept, table0, {}, 1) == {}
  {
    hide Hashes, Records;
    assert Seen(w, files, [p], kept, table0, 0) == table0.Keys;
    assert Known(w, files, [p], kept, table0, {}, 0);
    assert Fresh(w, files, [p], kept, table0, {}, 0) == {};
  }

  /** A later backup process, under any policy, leaves earlier backups alone: any files that the
      server knew before it are restored after it, by their recipes always, and through the index
      as far as the index had their chunks before. */
  method BackupThenRestoreEarlier(policy: Policy, ghost w: World, digest: Bytes -> Fingerprint, mark: Mark,
                                  files: SourceTree, names: seq<string>, missed: set<nat>, disk0: map<Address, Bytes>,
                                  ghost archive0: Contents, table0: Table, bin0: Bin, span: Span, later: Span,
                                  size: nat, byIndex: bool, earlier: seq<Fingerprint>, ghost sources: seq<Bytes>)
    returns (outs: seq<Option<Bytes>>)
    requires Vault(w, disk0, archive0, table0, bin0, span.start) && Suitable(w, files, names)
    requires span.Ok() && later.Ok() && span.stop <= later.start
    requires digest == w.hashing.digest && mark == w.mark && w.hashing.CollisionFree() && size > 0
    requires |earlier| == |sources| && forall i :: 0 <= i < |sources| ==>
               sources[i] in w.lib && earlier[i] == w.Digest(sources[i]) && earlier[i] in table0
    ensures |outs| <= |sources| && forall i :: 0 <= i < |outs| ==> outs[i] == Some(sources[i])
    ensures |outs| < |sources| ==> byIndex && !(Hashes(w.Chunks(sources[|outs|])) <= bin0.Keys)
  {
    hide Vault, KeptUnder, IndexedUnder, World.Stocked, World.FilesDiffer, Hashes, Records, World.Digest;
    var kept, disk, table, bin;
    ghost var archive;
    kept, disk, archive, table, bin :=
      BackupProcess(policy, w, digest, mark, files, names, missed, disk0, archive0, table0, bin0, span);
    VaultLater(w, disk, archive, table, bin, span.stop, later.start);
    outs := RestoreProcess(w, disk, archive, table, bin, later, size, byIndex, earlier, seq(|earlier|, _ => true),
                           sources);
  }

  // ------------------------------------------------------ any sequence of processes

  /** One backup process. */
  datatype Run = Run(policy: Policy, files: SourceTree, names: seq<string>, missed: set<nat>, span: Span)

  /** The runs follow one another, the first not before `since`. */
  ghost predicate Schedule(w: World, runs: seq<Run>, since: nat) {
    runs != [] ==>
      var init, last := runs[..|runs| - 1], runs[|runs| - 1];
      && last.span.Ok() && Suitable(w, last.files, last.names)
      && Schedule(w, init, since) && EndOf(init, since) <= last.span.start
  }

  ghost function EndOf(runs: seq<Run>, since: nat): nat {
    if runs == [] then since else runs[|runs| - 1].span.stop
  }

  /** What later runs keep of a run: its files are known, but for those that perfect rewriting
      dropped, and after a run with a policy the index has their chunks. */
  ghost predicate Lasting(w: World, run: Run, kept: seq<bool>, table: Table, bin: Bin) {
    && |kept| == |run.names| && (forall n :: n in run.names ==> n in run.files && run.files[n] in w.lib)
    && (!run.policy.Perfect? ==> AllKept(run.names, kept))
    && (forall i :: 0 <= i < |kept| && kept[i] ==> w.Digest(run.files[run.names[i]]) in table)
    && (!run.policy.Plain? ==> AllIndexed(w, run.files, run.names, kept, bin))
  }

  lemma LastingStays(w: World, run: Run, kept: seq<bool>, table: Table, bin: Bin, table': Table, bin': Bin)
    requires Lasting(w, run, kept, table, bin) && Keeps(table, table') && bin.Keys <= bin'.Keys
    ensures Lasting(w, run, kept, table', bin')
  {
    hide Hashes, Records;
  }

  /** Any number of backup processes, one after another, with changing files and policies. */
  method RunAll(ghost w: World, digest: Bytes -> Fingerprint, mark: Mark, runs: seq<Run>, since: nat,
                disk0: map<Address, Bytes>, ghost archive0: Contents, table0: Table, bin0: Bin)
    returns (kepts: seq<seq<bool>>, disk: map<Address, Bytes>, ghost archive: Contents, table: Table, bin: Bin)
    requires Vault(w, disk0, archive0, table0, bin0, since) && Schedule(w, runs, since)
    requires digest == w.hashing.digest && mark == w.mark
    ensures Vault(w, disk, archive, table, bin, EndOf(runs, since))
    ensures Keeps(table0, table) && bin0.Keys <= bin.Keys
    ensures |kepts| == |runs| && forall r :: 0 <= r < |runs| ==> Lasting(w, runs[r], kepts[r], table, bin)
  {
    hide Vault, Lasting, DropsRefused, AllKept, AllIndexed, World.Stocked, World.FilesDiffer, Hashes, Records, Keeps,
         Fresh;
    kepts, disk, archive, table, bin := [], disk0, archive0, table0, bin0;
    KeepsRefl(table);
    assert runs[..0] == [];
    for k := 0 to |runs|
      invariant Vault(w, disk, archive, table, bin, EndOf(runs[..k], since))
      invariant Keeps(table0, table) && bin0.Keys <= bin.Keys
      invariant |kepts| == k && forall r :: 0 <= r < k ==> Lasting(w, runs[r], kepts[r], table, bin)
    {
      ScheduleAt(w, runs, since, k);
      var run := runs[k];
      ghost var wasTable, wasBin := table, bin;
      VaultLater(w, disk, archive, table, bin, EndOf(runs[..k], since), run.span.start);
      var kept;
      kept, disk, archive, table, bin :=
        BackupProcess(run.policy, w, digest, mark, run.files, run.names, run.missed, disk, archive, table, bin,
                      run.span);
      KeepsTransitive(table0, wasTable, table);
      LastingNow(w, run, kept, wasTable, wasBin, table, bin);
      forall r | 0 <= r < k
        ensures Lasting(w, runs[r], kepts[r], table, bin)
      {
        LastingStays(w, runs[r], kepts[r], wasTable, wasBin, table, bin);
      }
      kepts := kepts + [kept];
      assert runs[..k + 1][k] == run;
    }
    assert runs[..|runs|] == runs;
  }

  lemma {:induction false} ScheduleAt(w: World, runs: seq<Run>, since: nat, k: nat)
    requires Schedule(w, runs, since) && k < |runs|
    ensures runs[k].span.Ok() && Suitable(w, runs[k].files, runs[k].names)
            && EndOf(runs[..k], since) <= runs[k].span.start
    decreases |runs|
  {
    var init := runs[..|runs| - 1];
    if k < |init| {
      ScheduleAt(w, init, since, k);
      assert init[..k] == runs[..k];
    }
  }

  lemma LastingNow(w: World, run: Run, kept: seq<bool>, table0: Table, bin0: Bin, table: Table, bin: Bin)
    requires Suitable(w, run.files, run.names)
    requires KeptUnder(run.policy, w, run.files, run.names, kept, table0, run.missed, bin0)
    requires IndexedUnder(run.policy, w, run.files, run.names, kept, table0, run.missed, bin0, bin)
    requires forall i :: 0 <= i < |run.names| && kept[i] ==> w.Digest(run.files[run.names[i]]) in table
    ensures Lasting(w, run, kept, table, bin)
  {
    hide Hashes, Records, World.Stocked, World.FilesDiffer, DropsRefused, AllIndexed, AllKept, Fresh;
  }

  /** After any number of backup processes, every file of every run that was not dropped is
      restored as it was in that run: by its recipe always, and through the index at least if the
      run had a policy. Only perfect rewriting drops files. */
  method RunAllThenRestore(ghost w: World, digest: Bytes -> Fingerprint, mark: Mark, runs: seq<Run>, since: nat,
                           disk0: map<Address, Bytes>, ghost archive0: Contents, table0: Table, bin0: Bin,
                           r: nat, later: Span, size: nat, byIndex: bool)
    returns (kept: seq<bool>, outs: seq<Option<Bytes>>)
    requires Vault(w, disk0, archive0, table0, bin0, since) && Schedule(w, runs, since) && r < |runs|
    requires later.Ok() && EndOf(runs, since) <= later.start && size > 0
    requires digest == w.hashing.digest && mark == w.mark && w.hashing.CollisionFree()
    ensures |kept| == |runs[r].names| && (!runs[r].policy.Perfect? ==> AllKept(runs[r].names, kept))
    ensures |outs| <= |kept| && (|outs| < |kept| ==> byIndex && runs[r].policy.Plain?)
    ensures forall i :: 0 <= i < |outs| ==>
              var n := runs[r].names[i];
              n in runs[r].files && outs[i] == if kept[i] then Some(runs[r].files[n]) else None
  {
    hide Vault, World.Stocked, World.FilesDiffer, Hashes, Records, Keeps, World.Digest;
    var kepts, disk, table, bin;
    ghost var archive;
    kepts, disk, archive, table, bin := RunAll(w, digest, mark, runs, since, disk0, archive0, table0, bin0);
    VaultLater(w, disk, archive, table, bin, EndOf(runs, since), later.start);
    ScheduleAt(w, runs, since, r);
    var run := runs[r];
    kept := kepts[r];
    assert Lasting(w, run, kept, table, bin);
    DigestIs(w);
    var digests := seq(|run.names|, i requires 0 <= i < |run.names| => digest(run.files[run.names[i]]));
    outs := RestoreProcess(w, disk, archive, table, bin, later, size, byIndex, digests, kept,
                           Sources(run.files, run.names));
  }

  lemma DigestIs(w: World)
    ensures forall f :: w.Digest(f) == w.hashing.digest(f)
  {
  }
}
