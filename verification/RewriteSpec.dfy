/** A rewrite pass, stated on the chunk records alone. Capping runs one for every window of
    the stream, perfect rewriting a single one at its end; they differ in which containers
    they leave alone (`kept`). */
module RewriteSpec {
  import opened Types
  import opened Store
  import opened ChunkDedup

  /** A run of buffered chunks of one file: the records from `first` up to, not including, `end`. */
  datatype ChunkList = ChunkList(path: string, first: nat, end: nat)

  /** The queue's runs cover the records `from`..`to` one after another, each with the right path. */
  ghost predicate Tiles(queue: seq<ChunkList>, paths: seq<string>, from: nat, to: nat)
  {
    if queue == [] then from == to else
      var cl := queue[|queue| - 1];
      && cl.first <= cl.end == to <= |paths|
      && (forall i :: cl.first <= i < to ==> paths[i] == cl.path)
      && Tiles(queue[..|queue| - 1], paths, from, cl.first)
  }

  lemma {:induction false} TilesAfter(queue: seq<ChunkList>, paths: seq<string>, from: nat, to: nat, more: seq<string>)
    requires Tiles(queue, paths, from, to)
    ensures Tiles(queue, paths + more, from, to)
  {
    if queue != [] {
      TilesAfter(queue[..|queue| - 1], paths, from, queue[|queue| - 1].first, more);
    }
  }

  /** Popping the first run leaves the rest covering what follows it. */
  lemma {:induction false} TilesPop(queue: seq<ChunkList>, paths: seq<string>, from: nat, to: nat)
    requires Tiles(queue, paths, from, to) && queue != []
    ensures queue[0].first == from <= queue[0].end <= to <= |paths|
    ensures forall i :: from <= i < queue[0].end ==> paths[i] == queue[0].path
    ensures Tiles(queue[1..], paths, queue[0].end, to)
  {
    var init := queue[..|queue| - 1];
    if init != [] {
      TilesPop(init, paths, from, queue[|queue| - 1].first);
      assert queue[1..][..|queue| - 2] == init[1..];
    }
  }

  /** Pushing the run of the newest records keeps the covering. */
  lemma TilesPush(queue: seq<ChunkList>, paths: seq<string>, more: seq<string>, to: nat, cl: ChunkList)
    requires Tiles(queue, paths, 0, to) && paths <= more
    requires cl.first == to <= cl.end <= |more| && forall i :: cl.first <= i < cl.end ==> more[i] == cl.path
    ensures Tiles(queue + [cl], more, 0, cl.end)
  {
    TilesAfter(queue, paths, 0, to, more[|paths|..]);
    assert paths + more[|paths|..] == more;
    assert (queue + [cl])[..|queue|] == queue;
  }

  lemma TilesEmpty(paths: seq<string>, from: nat, to: nat)
    requires Tiles([], paths, from, to)
    ensures from == to
  {
  }

  /** A record in the window: locked, and marked against the index as it stood. */
  ghost predicate Buffered(fc: FingerChunk, bin: Bin) {
    && fc.locked
    && if fc.isNew then fc.hash !in bin else fc.hash in bin && fc.address == bin[fc.hash]
  }

  lemma MarkedAgainst(fc: FingerChunk, bin: Bin)
    requires fc.locked && if fc.isNew then fc.hash !in bin else fc.hash in bin && fc.address == bin[fc.hash]
    ensures Buffered(fc, bin)
  {
  }

  /** `table` counts, for each container the duplicates of `cs` refer to, their bytes. */
  ghost predicate Counts(table: map<Address, nat>, cs: seq<FingerChunk>) {
    && (forall a :: a in table ==> table[a] == Weight(cs, {a}))
    && (forall i :: 0 <= i < |cs| && !cs[i].isNew ==> cs[i].address in table)
    && (forall a :: a in table ==> exists i :: 0 <= i < |cs| && !cs[i].isNew && cs[i].address == a)
  }

  lemma {:induction false} WeightOutside(cs: seq<FingerChunk>, a: Address)
    requires forall i :: 0 <= i < |cs| && !cs[i].isNew ==> cs[i].address != a
    ensures Weight(cs, {a}) == 0
  {
    if cs != [] {
      WeightOutside(cs[..|cs| - 1], a);
    }
  }

  /** The counters after one more mark. */
  function CountMark(table: map<Address, nat>, q: FingerChunk): map<Address, nat> {
    if q.isNew then table else table[q.address := q.length + if q.address in table then table[q.address] else 0]
  }

  lemma CountsSnoc(table: map<Address, nat>, cs: seq<FingerChunk>, fc: FingerChunk)
    requires Counts(table, cs)
    ensures Counts(CountMark(table, fc), cs + [fc])
  {
    var more := cs + [fc];
    assert more[..|cs|] == cs;
    forall i | 0 <= i < |cs|
      ensures more[i] == cs[i]
    {
    }
    if !fc.isNew {
      var t := CountMark(table, fc);
      assert more[|cs|] == fc;
      if fc.address !in table {
        WeightOutside(cs, fc.address);
      }
      forall a | a in t
        ensures exists i :: 0 <= i < |more| && !more[i].isNew && more[i].address == a
      {
        if a != fc.address {
          var i :| 0 <= i < |cs| && !cs[i].isNew && cs[i].address == a;
          assert more[i].address == a;
        }
      }
    } else {
      forall a | a in table
        ensures exists i :: 0 <= i < |more| && !more[i].isNew && more[i].address == a
      {
        var i :| 0 <= i < |cs| && !cs[i].isNew && cs[i].address == a;
        assert more[i].address == a;
      }
    }
  }

  /** Containers that received a chunk of these records. */
  ghost function Written(cs: seq<FingerChunk>): set<Address> {
    set i | 0 <= i < |cs| && cs[i].isNew :: cs[i].address
  }

  /** Containers that the remaining duplicates of these records refer to. */
  ghost function Referred(cs: seq<FingerChunk>): set<Address> {
    set i | 0 <= i < |cs| && !cs[i].isNew :: cs[i].address
  }

  /** What a rewrite may do with a record: a duplicate in a kept container stays as it is,
      any other duplicate is stored again, and a new chunk is stored or finds its twin among
      the chunks that this very rewrite stored. */
  ghost predicate Outcome(before: FingerChunk, after: FingerChunk, kept: set<Address>, written: set<Address>) {
    && SameIdent(before, after)
    && !after.locked
    && if before.isNew then after.address in written
       else if before.address in kept then after == before.(locked := false)
       else after.isNew
  }

  /** Of the new chunks with one fingerprint the first is stored, and no other. */
  ghost predicate FirstStored(before: seq<FingerChunk>, after: seq<FingerChunk>, n: nat)
    requires n <= |before| == |after|
  {
    forall i :: 0 <= i < n && before[i].isNew ==> (after[i].isNew <==> before[i].hash !in Hashes(before[..i]))
  }

  ghost predicate Outcomes(before: seq<FingerChunk>, after: seq<FingerChunk>, kept: set<Address>) {
    && |before| == |after|
    && (forall i :: 0 <= i < |after| ==> Outcome(before[i], after[i], kept, Written(after)))
    && FirstStored(before, after, |after|)
  }

  /** The index during a rewrite: an entry is as it was, or names a container just written. */
  ghost predicate Evolved(bin0: Bin, bin: Bin, written: set<Address>) {
    && bin0.Keys <= bin.Keys
    && forall h :: h in bin ==> (h in bin0 && bin[h] == bin0[h]) || bin[h] in written
  }

  /** After `n` of the window's records were decided. */
  ghost predicate Progress(before: seq<FingerChunk>, now: seq<FingerChunk>, n: nat, bin0: Bin, bin: Bin,
                           kept: set<Address>) {
    && n <= |before| == |now|
    && (forall i :: 0 <= i < n ==> Outcome(before[i], now[i], kept, Written(now[..n])))
    && (forall i :: n <= i < |now| ==> now[i] == before[i])
    && (forall i :: 0 <= i < |before| ==> Buffered(before[i], bin0))
    && Evolved(bin0, bin, Written(now[..n]))
    && bin.Keys == bin0.Keys + Hashes(before[..n])
    && FirstStored(before, now, n)
  }

  /** What deciding one record may do, by the branches of `rewrite`. */
  ghost predicate Decision(p: FingerChunk, q: FingerChunk, bin: Bin, bin': Bin, kept: set<Address>) {
    && SameIdent(p, q)
    && !q.locked
    && if p.isNew && p.hash in bin then
         !q.isNew && q.address == bin[p.hash] && bin' == bin
       else if !p.isNew && p.address in kept then
         q == p.(locked := false) && bin' == bin
       else
         q.isNew && bin' == bin[p.hash := q.address]
  }

  /** What a finished pass promises. */
  lemma ProgressDone(before: seq<FingerChunk>, after: seq<FingerChunk>, bin0: Bin, bin: Bin, kept: set<Address>)
    requires Progress(before, after, |before|, bin0, bin, kept)
    ensures Outcomes(before, after, kept) && Evolved(bin0, bin, Written(after))
    ensures forall i :: 0 <= i < |before| ==> Buffered(before[i], bin0)
    ensures bin.Keys == bin0.Keys + Hashes(before)
  {
    hide Outcome, Written, Evolved, Hashes, Buffered, FirstStored;
    assert after[..|before|] == after && before[..|before|] == before;
  }

  lemma WrittenSnoc(cs: seq<FingerChunk>, n: nat, q: FingerChunk)
    requires n < |cs|
    ensures Written(cs[n := q][..n + 1]) == Written(cs[..n]) + if q.isNew then {q.address} else {}
  {
    var a, b := cs[n := q][..n + 1], cs[..n];
    forall x | x in Written(b)
      ensures x in Written(a)
    {
      var i :| 0 <= i < |b| && b[i].isNew && b[i].address == x;
      assert a[i] == b[i];
    }
    forall x | x in Written(a)
      ensures x in Written(b) || (q.isNew && x == q.address)
    {
      var i :| 0 <= i < |a| && a[i].isNew && a[i].address == x;
      assert i < n ==> a[i] == b[i];
    }
    assert a[n] == q;
  }

  lemma ProgressStep(before: seq<FingerChunk>, now: seq<FingerChunk>, n: nat, bin0: Bin, bin: Bin, kept: set<Address>,
                     q: FingerChunk, bin': Bin)
    requires Progress(before, now, n, bin0, bin, kept) && n < |before|
    requires Decision(before[n], q, bin, bin', kept)
    ensures Progress(before, now[n := q], n + 1, bin0, bin', kept)
  {
    hide Hashes, FirstStored, Written, SameIdent;
    var now' := now[n := q];
    var was, written := Written(now[..n]), Written(now'[..n + 1]);
    WrittenSnoc(now, n, q);
    FirstStoredStep(before, now, n, bin0, bin, kept, q, bin');
    assert Buffered(before[n], bin0);
    assert Outcome(before[n], q, kept, written);
    forall i | 0 <= i < n + 1
      ensures Outcome(before[i], now'[i], kept, written)
    {
      if i < n {
        assert Outcome(before[i], now[i], kept, was);
        assert now'[i] == now[i];
      }
    }
  }

  lemma FirstStoredStep(before: seq<FingerChunk>, now: seq<FingerChunk>, n: nat, bin0: Bin, bin: Bin,
                        kept: set<Address>, q: FingerChunk, bin': Bin)
    requires n < |before| == |now| && FirstStored(before, now, n)
    requires bin.Keys == bin0.Keys + Hashes(before[..n]) && Buffered(before[n], bin0)
    requires Decision(before[n], q, bin, bin', kept)
    ensures FirstStored(before, now[n := q], n + 1)
    ensures bin'.Keys == bin0.Keys + Hashes(before[..n + 1])
  {
    hide Hashes;
    HashesSnoc(before[..n], before[n]);
    assert before[..n] + [before[n]] == before[..n + 1];
  }

  /** The next record of the window: described, and if marked a duplicate then stored where
      the record says and still in the index. */
  lemma Marked(before: seq<FingerChunk>, now: seq<FingerChunk>, n: nat, bin0: Bin, bin: Bin, kept: set<Address>,
               contents: Contents, hashing: Hashing, files: SourceTree, paths: seq<string>, chunks: seq<FingerChunk>,
               lo: nat)
    requires Progress(before, now, n, bin0, bin, kept) && n < |before| && BinHolds(bin0, contents)
    requires Described(hashing, files, paths, chunks) && lo <= |chunks| && now == chunks[lo..]
    ensures before[n] == chunks[lo + n] && before[n].locked && InFile(hashing, files, paths[lo + n], chunks[lo + n])
    ensures !before[n].isNew ==> before[n].hash in bin && Holds(contents, before[n].address, before[n].hash)
  {
    assert now[n] == before[n] && Buffered(before[n], bin0);
  }

  lemma Advanced(before: seq<FingerChunk>, lo: nat, n: nat, bin0: Bin, kept: set<Address>,
                 was: seq<FingerChunk>, wasBin: Bin, wasContents: Contents,
                 chunks: seq<FingerChunk>, bin: Bin, contents: Contents)
    requires lo + |before| == |was| && n < |before|
    requires Progress(before, was[lo..], n, bin0, wasBin, kept) && BinHolds(bin0, wasContents)
    requires forall i :: 0 <= i < lo + n ==> Settled(was[i], wasBin, wasContents)
    requires |chunks| == |was| && chunks == was[lo + n := chunks[lo + n]]
    requires before[n] == was[lo + n] && Decision(was[lo + n], chunks[lo + n], wasBin, bin, kept)
    requires Extends(wasContents, contents) && Settled(chunks[lo + n], bin, contents)
    ensures n + 1 <= |before|
    ensures Progress(before, chunks[lo..], n + 1, bin0, bin, kept) && BinHolds(bin0, contents)
    ensures forall i :: 0 <= i < lo + n + 1 ==> Settled(chunks[i], bin, contents)
    ensures SameIdents(was, chunks) && chunks[..lo] == was[..lo]
  {
    hide Progress, Decision, Settled, BinHolds, Extends;
    ProgressStep(before, was[lo..], n, bin0, wasBin, kept, chunks[lo + n], bin);
    DecisionKeeps(was[lo + n], chunks[lo + n], wasBin, bin, kept);
    assert chunks[lo..] == was[lo..][n := chunks[lo + n]];
    BinHoldsExtends(bin0, wasContents, contents);
    forall i | 0 <= i < lo + n + 1
      ensures Settled(chunks[i], bin, contents)
    {
      if i < lo + n {
        SettledStays(was[i], wasBin, wasContents, bin, contents);
      }
    }
  }

  lemma DecisionKeeps(p: FingerChunk, q: FingerChunk, bin: Bin, bin': Bin, kept: set<Address>)
    requires Decision(p, q, bin, bin', kept)
    ensures SameIdent(p, q) && bin.Keys <= bin'.Keys
  {
  }

  lemma StillDescribed(hashing: Hashing, files: SourceTree, paths: seq<string>, was: seq<FingerChunk>,
                       chunks: seq<FingerChunk>)
    requires Described(hashing, files, paths, was) && SameIdents(was, chunks)
    ensures Described(hashing, files, paths, chunks)
  {
    forall i | 0 <= i < |chunks|
      ensures InFile(hashing, files, paths[i], chunks[i])
    {
      assert InFile(hashing, files, paths[i], was[i]) && SameIdent(was[i], chunks[i]);
    }
  }
}
