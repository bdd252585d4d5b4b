/** server/src/recipe.c and server/src/index.c: recipes appended to a log file, and the index
    from file fingerprints to offsets in that log. */
module RecipeVolume {
  import opened Types
  import opened Container
  import B = BinVolume

  const HEAD_SIZE := 16
  const ENTRY_SIZE := 84
  const MAGIC_KEY := 0xa1b2c3d4

  /** The chunks of a file, each a fingerprint and the address it is stored at. */
  type Recipe = seq<B.Entry>

  // ------------------------------------------------------------------ recipe codec

  /** What is written for a recipe: a 32-bit count and the entries. */
  ghost function Encode(recipe: Recipe): (s: Bytes)
    ensures |s| == 4 + ENTRY_SIZE * |recipe|
  {
    Int32(|recipe|) + B.EncodeEntries(recipe)
  }

  /** What is reserved for it: the count has 64 bits in memory. */
  function Reserved(n: nat): nat {
    8 + ENTRY_SIZE * n
  }

  lemma EncodedEntry(recipe: Recipe, i: nat)
    requires i < |recipe|
    ensures var s, p := Encode(recipe), 4 + ENTRY_SIZE * i;
            p + 84 <= |s| && s[p..p + 20] == recipe[i].finger && s[p + 20..p + 84] == recipe[i].address
  {
    hide B.EncodeEntries, Int32;
    B.EntryAt(recipe, i);
    var s, t, p := Encode(recipe), B.EncodeEntries(recipe), 4 + ENTRY_SIZE * i;
    assert s[p..p + 20] == t[p - 4..p + 16];
    assert s[p + 20..p + 84] == t[p + 16..p + 80];
  }

  /** Reading `n` octets at an offset. */
  function Piece(file: Bytes, from: nat, n: nat): Bytes
    requires from + n <= |file|
  {
    file[from..from + n]
  }

  lemma PieceOfPiece(file: Bytes, from: nat, n: nat, p: nat, k: nat)
    requires from + n <= |file| && p + k <= n
    ensures Piece(file, from + p, k) == Piece(file, from, n)[p..p + k]
  {
    SubSlice(file, from, n, p, p + k);
  }

  /** Seeking beyond the end of a file and writing leaves a hole of zeroes. */
  function WriteBeyond(file: Bytes, offset: nat, data: Bytes): (after: Bytes)
    requires |file| <= offset
    ensures |after| == offset + |data| && file <= after && after[offset..] == data
  {
    file + seq(offset - |file|, _ => 0) + data
  }

  // ------------------------------------------------------------------- the log

  /** The recipe lies at the offset, within the space reserved for it. */
  ghost predicate Lies(file: Bytes, length: nat, offset: nat, recipe: Recipe) {
    && HEAD_SIZE <= offset && offset + Reserved(|recipe|) <= length
    && offset + |Encode(recipe)| <= |file|
    && |recipe| < 0x8000_0000
    && Piece(file, offset, |Encode(recipe)|) == Encode(recipe)
  }

  /** All recipes of the log lie where they were put, in regions that do not overlap. */
  ghost predicate Log(file: Bytes, length: nat, recipes: map<nat, Recipe>) {
    && HEAD_SIZE <= |file| <= length
    && (forall o :: o in recipes ==> Lies(file, length, o, recipes[o]))
    && forall o, p :: o in recipes && p in recipes && o < p ==> o + Reserved(|recipes[o]|) <= p
  }

  lemma LogAppend(file: Bytes, length: nat, recipes: map<nat, Recipe>, recipe: Recipe)
    requires Log(file, length, recipes) && |recipe| < 0x8000_0000
    ensures length !in recipes
    ensures Log(WriteBeyond(file, length, Encode(recipe)), length + Reserved(|recipe|), recipes[length := recipe])
  {
    hide Encode;
    var after := WriteBeyond(file, length, Encode(recipe));
    forall o | o in recipes
      ensures Lies(after, length + Reserved(|recipe|), o, recipes[o])
      ensures o + Reserved(|recipes[o]|) <= length
    {
      assert Lies(file, length, o, recipes[o]);
      assert Piece(after, o, |Encode(recipes[o])|) == Piece(file, o, |Encode(recipes[o])|);
    }
    assert Piece(after, length, |Encode(recipe)|) == Encode(recipe);
  }

  class RecipeVolume {
    var fileNum: nat
    var volumeLength: nat
    /** The file `recipe`. */
    var file: Bytes
    /** Every recipe ever written, by its offset. */
    ghost var recipes: map<nat, Recipe>

    ghost predicate Valid()
      reads this
    {
      Log(file, volumeLength, recipes) && fileNum == |recipes|
    }

    /** `recipe_volume_init` without a file. */
    constructor (head: Bytes)
      requires |head| == HEAD_SIZE
      ensures Valid() && recipes == map[]
    {
      fileNum, volumeLength, file, recipes := 0, HEAD_SIZE, head, map[];
    }

    /** `write_recipe_to_vol`: the recipe goes to a new offset, and whatever was in the file
        before, its head included, is still there. */
    method Write(recipe: Recipe) returns (offset: nat)
      requires Valid() && |recipe| < 0x8000_0000
      modifies this
      ensures Valid() && offset !in old(recipes) && recipes == old(recipes)[offset := recipe]
      ensures old(file) <= file
      ensures offset == old(volumeLength) && volumeLength == offset + 8 + 84 * |recipe| && fileNum == old(fileNum) + 1
      ensures offset + 4 <= |file| && FromInt32(file[offset..offset + 4]) == |recipe|
    {
      hide Encode, Log, FromInt32;
      LogAppend(file, volumeLength, recipes, recipe);
      offset := volumeLength;
      LogEnd(file, volumeLength, recipes);
      var s := EncodeRecipe(recipe);
      file := WriteBeyond(file, offset, s);
      volumeLength := volumeLength + Reserved(|recipe|);
      fileNum := fileNum + 1;
      recipes := recipes[offset := recipe];
      LiesAt(file, volumeLength, recipes, offset);
      CountRead(file, volumeLength, offset, recipe);
    }

    /** `read_recipe_from_vol`. */
    method Read(offset: nat) returns (recipe: Recipe)
      requires Valid() && offset in recipes
      ensures recipe == recipes[offset]
    {
      hide Encode, Log, Int32, FromInt32;
      ghost var r := recipes[offset];
      LiesAt(file, volumeLength, recipes, offset);
      CountRead(file, volumeLength, offset, r);
      var count := FromInt32(Piece(file, offset, 4));
      recipe := [];
      for i := 0 to count
        invariant i <= |r| && recipe == r[..i]
      {
        EntryRead(file, volumeLength, offset, r, i);
        var p := offset + 4 + ENTRY_SIZE * i;
        recipe := recipe + [B.Entry(Piece(file, p, 20), Piece(file, p + 20, 64))];
      }
    }
  }

  /** The writes of `write_recipe_to_vol`. */
  method EncodeRecipe(recipe: Recipe) returns (s: Bytes)
    ensures s == Encode(recipe)
  {
    hide B.EncodeEntries, B.MapOf, Int32;
    s := Int32(|recipe|);
    ghost var entries: Bytes := [];
    B.NoEntries();
    for i := 0 to |recipe|
      invariant s == Int32(|recipe|) + entries && entries == B.EncodeEntries(recipe[..i])
    {
      B.EntriesSnoc(recipe[..i], recipe[i]);
      assert recipe[..i + 1] == recipe[..i] + [recipe[i]];
      s := s + recipe[i].finger + recipe[i].address;
      entries := entries + (recipe[i].finger + recipe[i].address);
    }
    assert recipe[..|recipe|] == recipe;
  }

  lemma LogEnd(file: Bytes, length: nat, recipes: map<nat, Recipe>)
    requires Log(file, length, recipes)
    ensures |file| <= length
  {
  }

  lemma LiesAt(file: Bytes, length: nat, recipes: map<nat, Recipe>, offset: nat)
    requires Log(file, length, recipes) && offset in recipes
    ensures Lies(file, length, offset, recipes[offset])
  {
  }

  lemma CountRead(file: Bytes, length: nat, offset: nat, recipe: Recipe)
    requires Lies(file, length, offset, recipe)
    ensures offset + 4 <= |file| && FromInt32(Piece(file, offset, 4)) == |recipe|
  {
    PieceOfPiece(file, offset, |Encode(recipe)|, 0, 4);
    assert Encode(recipe)[0..4] == Int32(|recipe|);
    Int32RoundTrip(|recipe|);
  }

  lemma EntryRead(file: Bytes, length: nat, offset: nat, recipe: Recipe, i: nat)
    requires Lies(file, length, offset, recipe) && i < |recipe|
    ensures var p := offset + 4 + ENTRY_SIZE * i;
            && p + 84 <= |file|
            && Piece(file, p, 20) == recipe[i].finger && Piece(file, p + 20, 64) == recipe[i].address
  {
    EncodedEntry(recipe, i);
    hide Encode;
    PieceOfPiece(file, offset, |Encode(recipe)|, 4 + ENTRY_SIZE * i, 20);
    PieceOfPiece(file, offset, |Encode(recipe)|, 4 + ENTRY_SIZE * i + 20, 64);
  }

  // ------------------------------------------------------------------- the index

  /** The server's knowledge of files: the index in front of the recipe log. */
  class RecipeStore {
    const volume: RecipeVolume
    /** `mem_index`. */
    var index: map<Fingerprint, nat>

    ghost predicate Valid()
      reads this, volume
    {
      volume.Valid() && forall h :: h in index ==> index[h] in volume.recipes
    }

    /** The recipe of each file that the index knows. */
    ghost function Known(): map<Fingerprint, Recipe>
      requires Valid()
      reads this, volume
    {
      map h | h in index :: volume.recipes[index[h]]
    }

    constructor (head: Bytes)
      requires |head| == HEAD_SIZE
      ensures Valid() && fresh(volume) && Known() == map[]
    {
      volume := new RecipeVolume(head);
      index := map[];
    }

    /** `index_insert`: an entry that is there never moves. */
    method IndexInsert(hash: Fingerprint, offset: nat)
      modifies this`index
      ensures index == if hash in old(index) then old(index) else old(index)[hash := offset]
    {
      if hash !in index {
        index := index[hash := offset];
      }
    }

    /** The server's side of a new file: write its recipe and index it. */
    method StoreRecipe(hash: Fingerprint, recipe: Recipe)
      requires Valid() && |recipe| < 0x8000_0000
      modifies this`index, volume
      ensures Valid()
      ensures Known() == if hash in old(Known()) then old(Known()) else old(Known())[hash := recipe]
      ensures forall h :: h in old(index) ==> h in index && index[h] == old(index)[h]
      ensures forall o :: o in old(volume.recipes) ==>
              o in volume.recipes && volume.recipes[o] == old(volume.recipes)[o]
    {
      hide Log;
      var offset := volume.Write(recipe);
      IndexInsert(hash, offset);
    }

    /** `file_dedup_mark`: a file is a duplicate exactly if the index knows it, and then its
        recipe is read from the log. */
    method FileDedupMark(hash: Fingerprint) returns (recipe: Option<Recipe>)
      requires Valid()
      ensures recipe == if hash in Known() then Some(Known()[hash]) else None
    {
      hide Log;
      if hash !in index {
        return None;
      }
      var r := volume.Read(index[hash]);
      return Some(r);
    }
  }

  // -------------------------------------------------------------------- the head

  function Head(fileNum: nat, length: nat): (s: Bytes)
    ensures |s| == HEAD_SIZE
  {
    Int32(MAGIC_KEY) + Int32(fileNum) + B.Int64(length)
  }

  /** `recipe_volume_flush` writes the two counters into the head, `recipe_volume_init` reads
      them back, and no recipe is touched. */
  lemma FlushInit(file: Bytes, fileNum: nat, length: nat, recipes: map<nat, Recipe>)
    requires Log(file, length, recipes) && fileNum < 0x8000_0000 && length < 0x8000_0000_0000_0000
    ensures var after := Head(fileNum, length) + file[HEAD_SIZE..];
            && FromInt32(after[..4]) == 0xa1b2c3d4 && FromInt32(after[4..8]) == fileNum
            && B.FromInt64(after[8..16]) == length
            && FromInt32(after[8..12]) == length % 0x1_0000_0000 && FromInt32(after[12..16]) == length / 0x1_0000_0000
            && Log(after, length, recipes)
  {
    hide Encode, Int32, FromInt32;
    var after := Head(fileNum, length) + file[HEAD_SIZE..];
    var low, high := length % 0x1_0000_0000, length / 0x1_0000_0000;
    Int32RoundTrip(MAGIC_KEY);
    Int32RoundTrip(fileNum);
    Int32RoundTrip(low);
    Int32RoundTrip(high);
    assert after[..4] == Int32(MAGIC_KEY) && after[4..8] == Int32(fileNum) && after[8..16] == B.Int64(length);
    assert B.Int64(length)[..4] == Int32(low) && B.Int64(length)[4..] == Int32(high);
    assert after[8..12] == Int32(low) && after[12..16] == Int32(high);
    forall o | o in recipes
      ensures Lies(after, length, o, recipes[o])
    {
      assert Lies(file, length, o, recipes[o]);
      assert Piece(after, o, |Encode(recipes[o])|) == Piece(file, o, |Encode(recipes[o])|);
    }
  }
}
