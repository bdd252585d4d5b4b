/** What the server knows of files: a table from file fingerprints to recipes (server/src/index.c,
    server/src/recipe.c), and when such a table is right about what the client has stored. */
module FileTable {
  import opened Types
  import opened Store
  import opened ChunkDedup
  import opened Chunker
  import N = NoRewrite

  /** What never changes from one backup to the next: the fingerprints, the break marks, and
      all file contents that are ever met. */
  datatype World = World(hashing: Hashing, mark: Mark, lib: set<Bytes>) {
    function Digest(file: Bytes): Fingerprint {
      hashing.digest(file)
    }

    /** No two of the files have the same fingerprint. */
    ghost predicate FilesDiffer() {
      forall f, g :: f in lib && g in lib && Digest(f) == Digest(g) ==> f == g
    }

    /** The chunks of a file. */
    ghost function Chunks(file: Bytes): seq<FingerChunk> {
      Records(hashing.digest, mark, file, 0)
    }

    /** The stock of chunk data contains every chunk of every file. */
    ghost predicate Stocked() {
      forall f, r :: f in lib && r in Chunks(f) ==>
        r.offset + r.length <= |f| && f[r.offset..r.offset + r.length] in hashing.stock
    }
  }

  /** The source files are among the files of the world. */
  ghost predicate Within(files: SourceTree, w: World) {
    forall p :: p in files ==> files[p] in w.lib
  }

  /** What a recipe says of one chunk. */
  datatype RecipeEntry = RecipeEntry(hash: Fingerprint, address: Address)

  type Recipe = seq<RecipeEntry>

  type Table = map<Fingerprint, Recipe>

  function RecipeOf(chunks: seq<FingerChunk>): (r: Recipe)
    ensures |r| == |chunks|
  {
    seq(|chunks|, i requires 0 <= i < |chunks| => RecipeEntry(chunks[i].hash, chunks[i].address))
  }

  /** The recipe lists the file's chunks, and each is stored where the recipe says. */
  ghost predicate SoundRecipe(w: World, file: Bytes, recipe: Recipe, contents: Contents) {
    && |recipe| == |w.Chunks(file)|
    && forall i :: 0 <= i < |recipe| ==>
        recipe[i].hash == w.Chunks(file)[i].hash && Holds(contents, recipe[i].address, recipe[i].hash)
  }

  /** The table is right about every file that it knows. */
  ghost predicate TableSound(w: World, table: Table, contents: Contents) {
    forall f :: f in w.lib && w.Digest(f) in table ==> SoundRecipe(w, f, table[w.Digest(f)], contents)
  }

  ghost predicate Keeps(before: Table, after: Table) {
    forall d :: d in before ==> d in after && after[d] == before[d]
  }

  /** `index_insert`: what is known stays. */
  function Insert(table: Table, d: Fingerprint, recipe: Recipe): Table {
    if d in table then table else table[d := recipe]
  }

  lemma SoundExtends(w: World, table: Table, before: Contents, after: Contents)
    requires TableSound(w, table, before) && Extends(before, after)
    ensures TableSound(w, table, after)
  {
    forall f | f in w.lib && w.Digest(f) in table
      ensures SoundRecipe(w, f, table[w.Digest(f)], after)
    {
      var recipe := table[w.Digest(f)];
      assert SoundRecipe(w, f, recipe, before);
      forall i | 0 <= i < |recipe|
        ensures Holds(after, recipe[i].address, recipe[i].hash)
      {
        HoldsExtends(before, after, recipe[i].address, recipe[i].hash);
      }
    }
  }

  lemma SoundInsert(w: World, table: Table, file: Bytes, recipe: Recipe, contents: Contents)
    requires TableSound(w, table, contents) && w.FilesDiffer() && file in w.lib
             && SoundRecipe(w, file, recipe, contents)
    ensures TableSound(w, Insert(table, w.Digest(file), recipe), contents)
    ensures Keeps(table, Insert(table, w.Digest(file), recipe))
  {
    hide SoundRecipe;
  }

  lemma KeepsTransitive(a: Table, b: Table, c: Table)
    requires Keeps(a, b) && Keeps(b, c)
    ensures Keeps(a, c)
  {
  }

  lemma KeepsRefl(a: Table)
    ensures Keeps(a, a)
  {
  }

  /** The recipe made of settled records of the file is sound. */
  lemma SettledRecipe(w: World, file: Bytes, chunks: seq<FingerChunk>, bin: Bin, contents: Contents)
    requires SameIdents(w.Chunks(file), chunks)
    requires forall i :: 0 <= i < |chunks| ==> Settled(chunks[i], bin, contents)
    ensures SoundRecipe(w, file, RecipeOf(chunks), contents)
    ensures Hashes(w.Chunks(file)) <= bin.Keys
  {
    hide Records;
    var rs, recipe := w.Chunks(file), RecipeOf(chunks);
    forall i | 0 <= i < |rs|
      ensures recipe[i].hash == rs[i].hash && Holds(contents, recipe[i].address, recipe[i].hash) && rs[i].hash in bin
    {
      assert SameIdent(rs[i], chunks[i]) && Settled(chunks[i], bin, contents);
    }
  }

  // ------------------------------------------------------------------ chunking

  lemma RecordsInFile(w: World, files: SourceTree, path: string)
    requires w.Stocked() && path in files && files[path] in w.lib
    ensures var rs := w.Chunks(files[path]);
            && (forall i :: 0 <= i < |rs| ==> InFile(w.hashing, files, path, rs[i]) && !rs[i].locked)
            && N.Consecutive(rs)
  {
    hide Records, Tiling, InFile, TotalLength;
    var rs := w.Chunks(files[path]);
    RecordsTile(w.hashing.digest, w.mark, files[path], 0);
    forall i | 0 <= i < |rs|
      ensures InFile(w.hashing, files, path, rs[i]) && !rs[i].locked
      ensures rs[i].offset == TotalLength(rs[..i])
    {
      RecordInFile(w, files, path, rs, i);
      OffsetsAddUp(w.hashing.digest, files[path], rs, i);
    }
  }

  lemma RecordInFile(w: World, files: SourceTree, path: string, rs: seq<FingerChunk>, i: nat)
    requires w.Stocked() && path in files && files[path] in w.lib && rs == w.Chunks(files[path])
    requires Tiling(w.hashing.digest, files[path], rs, 0) && i < |rs|
    ensures InFile(w.hashing, files, path, rs[i]) && !rs[i].locked
  {
    hide Records, World.Chunks;
    assert ValidRecord(w.hashing.digest, files[path], rs[i], i + 1 < |rs|);
    assert rs[i] in rs;
  }

  lemma {:induction false} OffsetsAddUp(digest: Bytes -> Fingerprint, file: Bytes, rs: seq<FingerChunk>, i: nat)
    requires Tiling(digest, file, rs, 0) && i < |rs|
    ensures rs[i].offset == TotalLength(rs[..i])
  {
    if i > 0 {
      OffsetsAddUp(digest, file, rs, i - 1);
      assert rs[..i][..i - 1] == rs[..i - 1];
      assert Abuts(rs, i);
    }
  }

  /** `chunk_file` for one file of a backup. */
  method ChunkOne(rabin: Rabin, digest: Bytes -> Fingerprint, ghost w: World, files: SourceTree, name: string)
    returns (chunks: seq<FingerChunk>)
    requires rabin.Valid() && rabin.mark == w.mark && digest == w.hashing.digest
    requires name in files && Within(files, w) && w.Stocked()
    modifies rabin`window
    ensures rabin.Valid() && chunks == w.Chunks(files[name])
    ensures forall i :: 0 <= i < |chunks| ==> InFile(w.hashing, files, name, chunks[i]) && !chunks[i].locked
    ensures N.Consecutive(chunks)
  {
    hide Records, World.Stocked, InFile, N.Consecutive;
    chunks := ChunkFile(rabin, digest, files[name]);
    RecordsInFile(w, files, name);
  }
}
