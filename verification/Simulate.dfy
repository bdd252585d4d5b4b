/** client/src/simulate.c from end to end: the deduplication thread runs a policy over the files
    of a trace and passes each one on, the result thread reports what it reads. */
module Simulate {
  import opened Types
  import opened Store
  import opened ChunkDedup
  import opened Trace
  import H = Handoff
  import L = Lru
  import N = NoRewrite
  import C = Capping
  import G = CappingSpec
  import P = PerfectRewrite
  import F = Cfl
  import S = CflSpec

  /** All records of the files, in order. */
  ghost function Stream(list: seq<FileInfo>): seq<FingerChunk> {
    if list == [] then [] else Stream(list[..|list| - 1]) + list[|list| - 1].chunks
  }

  /** The files as the trace reader makes them: all new, their mutexes free. */
  ghost predicate Given(hashing: Hashing, files: SourceTree, list: seq<FileInfo>) {
    forall f :: f in list ==> GivenFile(hashing, files, f)
  }

  ghost predicate GivenFile(hashing: Hashing, files: SourceTree, f: FileInfo) {
    && !f.isDedup && N.Consecutive(f.chunks)
    && forall i :: 0 <= i < |f.chunks| ==> InFile(hashing, files, f.path, f.chunks[i]) && !f.chunks[i].locked
  }

  /** Every file is in the queue, as the run of its own records. */
  ghost function ItemsOf(list: seq<FileInfo>): seq<H.Item> {
    if list == [] then [] else
      var init := list[..|list| - 1];
      ItemsOf(init) + [H.File(|Stream(init)|, |Stream(list)|)]
  }

  /** In the middle of a simulation: these files are processed and passed on. */
  ghost predicate Handed(list: seq<FileInfo>, trace: seq<Action>, chunks: seq<FingerChunk>) {
    && Replay(trace).pushed == |chunks| && SameIdents(Stream(list), chunks)
    && H.Items(trace) == ItemsOf(list) && PushedAs(list, Pushes(trace))
  }

  /** The deduplication thread did its whole work: every mutex that it took it gave back, and
      every file and the end of the stream are in the queue. */
  ghost predicate Simulated(list: seq<FileInfo>, trace: seq<Action>, chunks: seq<FingerChunk>) {
    && Complete(trace) && H.Final(trace) == chunks
    && SameIdents(Stream(list), chunks)
    && H.Items(trace) == ItemsOf(list) + [H.StreamEnd]
    && PushedAs(list, Pushes(trace))
  }

  /** At each push the records are those of the files so far. */
  ghost predicate PushedAs(list: seq<FileInfo>, pushes: seq<seq<FingerChunk>>) {
    && |pushes| == |list|
    && forall j :: 0 <= j < |list| ==> SameIdents(Stream(list[..j + 1]), pushes[j])
  }

  lemma PushedSnoc(list: seq<FileInfo>, f: FileInfo, pushes: seq<seq<FingerChunk>>, chunks: seq<FingerChunk>)
    requires PushedAs(list, pushes) && SameIdents(Stream(list + [f]), chunks)
    ensures PushedAs(list + [f], pushes + [chunks])
  {
    hide Stream, SameIdents;
    var longer := list + [f];
    assert longer[..|longer|] == longer;
    forall j | 0 <= j < |longer|
      ensures SameIdents(Stream(longer[..j + 1]), (pushes + [chunks])[j])
    {
      if j < |list| {
        assert longer[..j + 1] == list[..j + 1];
      }
    }
  }

  lemma HandedNothing()
    ensures Handed([], [], []) && Pushes([]) == []
  {
  }

  /** One file was processed, then pushed. */
  lemma HandedSnoc(list: seq<FileInfo>, f: FileInfo, trace: seq<Action>, was: seq<FingerChunk>, more: seq<Action>,
                   chunks: seq<FingerChunk>)
    requires Handed(list, trace, was) && Grown(trace, more)
    requires Traced(more, chunks) && SameIdents(was + f.chunks, chunks)
    ensures Handed(list + [f], more + [Push], chunks)
    ensures Pushes(more + [Push]) == Pushes(trace) + [chunks]
  {
    var longer := list + [f];
    assert longer[..|list|] == list;
    ItemsGrown(trace, more);
    PushesGrown(trace, more);
    TracedPush(more, chunks);
    assert (more + [Push])[..|more|] == more;
    assert |Chunks(Replay(more).recs)| == |chunks|;
    forall i | 0 <= i < |chunks|
      ensures SameIdent(Stream(longer)[i], chunks[i])
    {
      assert SameIdent((was + f.chunks)[i], chunks[i]);
      assert i < |was| ==> SameIdent(Stream(list)[i], was[i]);
    }
    PushedSnoc(list, f, Pushes(trace), chunks);
  }

  lemma {:induction false} ItemsGrown(before: seq<Action>, after: seq<Action>)
    requires Grown(before, after)
    ensures H.Items(after) == H.Items(before)
    decreases |after|
  {
    ItemsLocal(before, after);
  }

  lemma {:induction false} ItemsLocal(before: seq<Action>, after: seq<Action>)
    requires before <= after && forall i :: |before| <= i < |after| ==> Local(after[i])
    ensures H.Items(after) == H.Items(before)
    decreases |after|
  {
    if |after| == |before| {
      assert after == before;
    } else {
      ItemsLocal(before, after[..|after| - 1]);
    }
  }

  /** The policy decided the rest, then the end of the stream was pushed. */
  lemma HandedEnd(list: seq<FileInfo>, trace: seq<Action>, was: seq<FingerChunk>, more: seq<Action>,
                  chunks: seq<FingerChunk>)
    requires Handed(list, trace, was) && Grown(trace, more) && Traced(more, chunks)
    requires SameIdents(was, chunks) && forall i :: 0 <= i < |chunks| ==> !chunks[i].locked
    ensures Simulated(list, more + [End], chunks)
    ensures Pushes(more + [End]) == Pushes(trace) && Locks(more + [End]) == Locks(more)
  {
    ItemsGrown(trace, more);
    PushesGrown(trace, more);
    Completed(more, chunks);
    assert (more + [End])[..|more|] == more;
    forall i | 0 <= i < |chunks|
      ensures SameIdent(Stream(list)[i], chunks[i])
    {
      assert SameIdent(Stream(list)[i], was[i]) && SameIdent(was[i], chunks[i]);
    }
  }

  lemma GivenAt(hashing: Hashing, files: SourceTree, list: seq<FileInfo>, k: nat)
    requires Given(hashing, files, list) && k < |list|
    ensures GivenFile(hashing, files, list[k]) && list[..k] + [list[k]] == list[..k + 1]
  {
  }

  lemma AllFree(chunks: seq<FingerChunk>, bin: Bin, contents: Contents)
    requires forall i :: 0 <= i < |chunks| ==> Settled(chunks[i], bin, contents)
    ensures forall i :: 0 <= i < |chunks| ==> !chunks[i].locked
  {
    assert forall i :: 0 <= i < |chunks| ==> Settled(chunks[i], bin, contents);
  }

  // ------------------------------------------------------------------ the policies

  /** Capping. Each mutex is taken once. When a file is passed on, the records of the closed windows
      are final and free, all later ones are held, and they fit the buffer. */
  method SimulateCapping(store: Store, files: SourceTree, list: seq<FileInfo>, bin0: Bin, capacity: nat, maxRefer: nat)
    returns (chunks: seq<FingerChunk>, bin: Bin, ghost trace: seq<Action>,
             ghost windows: seq<G.Window>)
    requires store.Valid() && BinHolds(bin0, store.Contents()) && Given(store.hashing, files, list)
    modifies store.Repr
    ensures store.Valid() && Simulated(list, trace, chunks)
    ensures BinHolds(bin, store.Contents())
            && forall i :: 0 <= i < |chunks| ==> Settled(chunks[i], bin, store.Contents())
    ensures C.CappedStream(windows, chunks, bin0, bin, maxRefer, capacity)
    ensures OnceEach(trace) && forall j :: 0 <= j < |list| ==> HeldBuffer(Pushes(trace)[j], windows, capacity)
    ensures bin.Keys == bin0.Keys + Hashes(chunks)
  {
    hide Store.Valid, BinHolds, Given, InFile, Holds, Settled, Handed, Simulated, Grown, Traced, Replay, Released,
         SameIdents,
         Described, N.Consecutive, Extends, Hashes, Locks, Pushes, Stream,
         C.Capping.Valid, C.CappedStream, HeldBuffer, C.HeldFrom, OnceEach, G.Afters;
    var policy := new C.Capping(store, files, bin0, capacity, maxRefer);
    HandedNothing();
    for k := 0 to |list|
      invariant policy.Valid() && policy.store == store && policy.files == files && fresh(policy)
      invariant store.Valid() && fresh(store.Repr - old(store.Repr))
      invariant Handed(list[..k], policy.trace, policy.chunks)
      invariant policy.bin0 == bin0 && policy.capacity == capacity && policy.maxRefer == maxRefer
      invariant AllHeldBuffer(Pushes(policy.trace), policy.windows, capacity)
    {
      GivenAt(store.hashing, files, list, k);
      ghost var was, done := policy.chunks, policy.trace;
      ghost var before := policy.windows;
      var ok := policy.Process(list[k]);
      policy.OpenValid();
      policy.Held();
      HeldSnoc(Pushes(done), before, policy.windows, policy.chunks, capacity);
      HandedSnoc(list[..k], list[k], done, was, policy.trace, policy.chunks);
      policy.PushFile();
    }
    assert list[..|list|] == list;
    policy.OpenValid();
    ghost var was, done, before := policy.chunks, policy.trace, policy.windows;
    var ok := policy.Finish();
    AllFree(policy.chunks, policy.bin, store.Contents());
    HeldLater(Pushes(done), before, policy.windows, capacity);
    HandedEnd(list, done, was, policy.trace, policy.chunks);
    chunks, bin, trace := policy.chunks, policy.bin, policy.trace + [End];
    windows := policy.windows;
    StreamKeys(windows, chunks, bin0, bin, maxRefer, capacity);
    OnceEachEnd(policy.trace);
    PushCount(list, trace, chunks);
  }

  /** What is held at a push under capping: everything after the first windows. */
  ghost predicate HeldBuffer(push: seq<FingerChunk>, windows: seq<G.Window>, capacity: nat) {
    exists m: nat :: m <= |windows| && C.HeldFrom(push, G.Afters(windows[..m]), capacity)
  }

  ghost predicate AllHeldBuffer(pushes: seq<seq<FingerChunk>>, windows: seq<G.Window>, capacity: nat) {
    forall j :: 0 <= j < |pushes| ==> HeldBuffer(pushes[j], windows, capacity)
  }

  lemma HeldLater(pushes: seq<seq<FingerChunk>>, windows: seq<G.Window>, more: seq<G.Window>, capacity: nat)
    requires AllHeldBuffer(pushes, windows, capacity) && windows <= more
    ensures AllHeldBuffer(pushes, more, capacity)
  {
    hide C.HeldFrom, G.Afters;
    forall j | 0 <= j < |pushes|
      ensures HeldBuffer(pushes[j], more, capacity)
    {
      assert HeldBuffer(pushes[j], windows, capacity);
      var m: nat :| m <= |windows| && C.HeldFrom(pushes[j], G.Afters(windows[..m]), capacity);
      assert more[..m] == windows[..m];
    }
  }

  lemma HeldSnoc(pushes: seq<seq<FingerChunk>>, windows: seq<G.Window>, more: seq<G.Window>, push: seq<FingerChunk>,
                 capacity: nat)
    requires AllHeldBuffer(pushes, windows, capacity) && windows <= more
    requires C.HeldFrom(push, G.Afters(more), capacity)
    ensures AllHeldBuffer(pushes + [push], more, capacity)
  {
    hide C.HeldFrom, G.Afters;
    HeldLater(pushes, windows, more, capacity);
    assert more[..|more|] == more;
    assert HeldBuffer(push, more, capacity);
  }

  lemma StreamKeys(windows: seq<G.Window>, chunks: seq<FingerChunk>, bin0: Bin, bin: Bin, maxRefer: nat, capacity: nat)
    requires C.CappedStream(windows, chunks, bin0, bin, maxRefer, capacity)
    ensures bin.Keys == bin0.Keys + Hashes(chunks)
  {
    hide G.WindowOk, G.Greedy, G.Linked, G.Afters;
    G.LinkedKeys(windows, bin0, bin, maxRefer, capacity);
  }

  lemma OnceEachEnd(trace: seq<Action>)
    requires OnceEach(trace) && Locks(trace + [End]) == Locks(trace)
    ensures OnceEach(trace + [End])
  {
  }

  lemma PushCount(list: seq<FileInfo>, trace: seq<Action>, chunks: seq<FingerChunk>)
    requires Simulated(list, trace, chunks)
    ensures |Pushes(trace)| == |list| && |Locks(trace)| == |chunks|
  {
  }

  /** Perfect rewriting. Each mutex is taken once, and every record is held, just as it was marked
      against the old index, at every push: nothing is decided before the last. */
  method SimulatePerfect(store: Store, files: SourceTree, list: seq<FileInfo>, bin0: Bin, threshold: real)
    returns (chunks: seq<FingerChunk>, bin: Bin, ghost trace: seq<Action>)
    requires store.Valid() && BinHolds(bin0, store.Contents()) && Given(store.hashing, files, list)
    modifies store.Repr
    ensures store.Valid() && Simulated(list, trace, chunks)
    ensures BinHolds(bin, store.Contents())
            && forall i :: 0 <= i < |chunks| ==> Settled(chunks[i], bin, store.Contents())
    ensures var marks := P.Marks(Stream(list), bin0); P.AllOrNothing(marks, chunks, marks, threshold)
    ensures OnceEach(trace) && forall j :: 0 <= j < |list| ==> Pushes(trace)[j] == P.Marks(Stream(list[..j + 1]), bin0)
    ensures bin.Keys == bin0.Keys + Hashes(chunks)
    ensures |chunks| == |Stream(list)|
    ensures forall i :: 0 <= i < |chunks| && Stream(list)[i].hash in bin0 ==>
              var a := bin0[Stream(list)[i].hash];
              chunks[i].isNew <==> Weight(P.Marks(Stream(list), bin0), {a}) as real < threshold * 4194304.0
  {
    hide Store.Valid, BinHolds, Given, InFile, Holds, Settled, Handed, Simulated, Grown, Traced, Replay, Released,
         SameIdents,
         Described, N.Consecutive, Extends, Hashes, Locks, Pushes, Stream,
         P.PerfectRewrite.Valid, P.AllOrNothing, P.Split, OnceEach, P.Marks;
    var policy := new P.PerfectRewrite(store, files, bin0, threshold);
    HandedNothing();
    MarksNothing(bin0);
    for k := 0 to |list|
      invariant policy.Valid() && policy.store == store && policy.files == files && fresh(policy)
      invariant store.Valid() && fresh(store.Repr - old(store.Repr))
      invariant Handed(list[..k], policy.trace, policy.chunks)
      invariant policy.bin == bin0 && policy.threshold == threshold
      invariant policy.chunks == policy.marked == P.Marks(Stream(list[..k]), bin0)
      invariant AllMarked(list[..k], Pushes(policy.trace), bin0)
    {
      GivenAt(store.hashing, files, list, k);
      ghost var was, done := policy.chunks, policy.trace;
      var ok := policy.Process(list[k]);
      policy.OpenValid();
      MarksAreSame(was, list[k], policy.bin);
      StreamMarks(list[..k], list[k], bin0);
      MarkedSnoc(list[..k], list[k], Pushes(done), policy.chunks, bin0);
      HandedSnoc(list[..k], list[k], done, was, policy.trace, policy.chunks);
      policy.PushFile();
    }
    assert list[..|list|] == list;
    policy.OpenValid();
    ghost var was, done := policy.chunks, policy.trace;
    var ok := policy.Finish();
    AllFree(policy.chunks, policy.bin, store.Contents());
    HashesSame(was, policy.chunks);
    HandedEnd(list, done, was, policy.trace, policy.chunks);
    chunks, bin, trace := policy.chunks, policy.bin, policy.trace + [End];
    OnceEachEnd(policy.trace);
    PushCount(list, trace, chunks);
    PerfectInNumbers(Stream(list), chunks, bin0, threshold);
  }

  /** A duplicate is stored again exactly if the whole stream refers to its old container with too few bytes. */
  lemma PerfectInNumbers(stream: seq<FingerChunk>, chunks: seq<FingerChunk>, bin0: Bin, threshold: real)
    requires var marks := P.Marks(stream, bin0); P.AllOrNothing(marks, chunks, marks, threshold)
    ensures |chunks| == |stream|
    ensures forall i :: 0 <= i < |chunks| && stream[i].hash in bin0 ==>
              var a := bin0[stream[i].hash];
              chunks[i].isNew <==> Weight(P.Marks(stream, bin0), {a}) as real < threshold * 4194304.0
  {
    hide Weight, P.AllOrNothing;
    P.AllInNumbers(P.Marks(stream, bin0), chunks, P.Marks(stream, bin0), threshold);
  }

  lemma MarksNothing(bin: Bin)
    ensures P.Marks(Stream([]), bin) == [] && AllMarked([], Pushes([]), bin)
  {
  }

  ghost predicate AllMarked(list: seq<FileInfo>, pushes: seq<seq<FingerChunk>>, bin: Bin) {
    |pushes| == |list| && forall j :: 0 <= j < |list| ==> pushes[j] == P.Marks(Stream(list[..j + 1]), bin)
  }

  lemma StreamMarks(list: seq<FileInfo>, f: FileInfo, bin: Bin)
    ensures P.Marks(Stream(list + [f]), bin) == P.Marks(Stream(list), bin) + P.MarksOf(f, bin, |f.chunks|)
  {
    assert (list + [f])[..|list|] == list;
  }

  lemma MarkedSnoc(list: seq<FileInfo>, f: FileInfo, pushes: seq<seq<FingerChunk>>, push: seq<FingerChunk>, bin: Bin)
    requires AllMarked(list, pushes, bin) && push == P.Marks(Stream(list + [f]), bin)
    ensures AllMarked(list + [f], pushes + [push], bin)
  {
    hide Stream, P.Marks;
    var longer := list + [f];
    assert longer[..|longer|] == longer;
    forall j | 0 <= j < |list|
      ensures (pushes + [push])[j] == P.Marks(Stream(longer[..j + 1]), bin)
    {
      assert longer[..j + 1] == list[..j + 1];
    }
  }

  lemma MarksAreSame(was: seq<FingerChunk>, f: FileInfo, bin: Bin)
    ensures SameIdents(was + f.chunks, was + P.MarksOf(f, bin, |f.chunks|))
  {
  }

  /** CFL. Exactly the mutexes of the records that are held back are taken, once each, and a record
      is held back exactly if it is a duplicate at whose turn the level is below the mark. When a
      file is passed on, those that wait are held and no others. */
  method SimulateCfl(store: Store, files: SourceTree, list: seq<FileInfo>, bin0: Bin, lowWaterMark: real, reuse: real)
    returns (chunks: seq<FingerChunk>, bin: Bin, ghost trace: seq<Action>,
             ghost waits: seq<seq<S.ChunkNode>>)
    requires store.Valid() && BinHolds(bin0, store.Contents()) && Given(store.hashing, files, list)
    modifies store.Repr
    ensures store.Valid() && Simulated(list, trace, chunks)
    ensures BinHolds(bin, store.Contents())
            && forall i :: 0 <= i < |chunks| ==> Settled(chunks[i], bin, store.Contents())
    ensures S.CflStream(chunks, waits, bin0, bin, Locks(trace), lowWaterMark, reuse)
    ensures forall j :: 0 <= j < |list| ==> HeldWaiting(Pushes(trace)[j], waits)
    ensures bin.Keys == bin0.Keys + Hashes(chunks)
    ensures lowWaterMark <= 0.0 ==> Untaken(trace) && FirstsNew(chunks, bin0.Keys)
  {
    hide Store.Valid, BinHolds, Given, InFile, Holds, Settled, Handed, Simulated, Grown, Traced, Replay, Released,
         SameIdents,
         Described, N.Consecutive, Extends, Hashes, Locks, Pushes, Stream,
         F.Cfl.Valid, F.Cfl.Sound, S.ReleasedAs, S.CflStream, HeldWaiting;
    var policy := new F.Cfl(store, files, bin0, lowWaterMark, reuse);
    HandedNothing();
    for k := 0 to |list|
      invariant policy.Valid() && policy.store == store && policy.files == files && fresh(policy)
      invariant store.Valid() && fresh(store.Repr - old(store.Repr))
      invariant Handed(list[..k], policy.trace, policy.chunks)
      invariant policy.bin0 == bin0 && policy.lowWaterMark == lowWaterMark && policy.reuse == reuse
      invariant AllHeldWaiting(Pushes(policy.trace), policy.waits)
    {
      GivenAt(store.hashing, files, list, k);
      ghost var was, done := policy.chunks, policy.trace;
      ghost var before := policy.waits;
      policy.Process(list[k]);
      policy.OpenValid();
      WaitingNow(policy);
      WaitingSnoc(Pushes(done), before, policy.waits, policy.chunks);
      HandedSnoc(list[..k], list[k], done, was, policy.trace, policy.chunks);
      policy.PushFile();
    }
    assert list[..|list|] == list;
    policy.OpenValid();
    ghost var was, done := policy.chunks, policy.trace;
    policy.Finish();
    AllFree(policy.chunks, policy.bin, store.Contents());
    HandedEnd(list, done, was, policy.trace, policy.chunks);
    chunks, bin, trace := policy.chunks, policy.bin, policy.trace + [End];
    waits := policy.waits;
    WaitingKeys(chunks, waits, bin0, bin, Locks(trace), lowWaterMark, reuse);
    PushCount(list, trace, chunks);
    if lowWaterMark <= 0.0 {
      NoMark(chunks, waits, bin0, bin, trace, lowWaterMark, reuse);
    }
  }

  /** Exactly the first records of the fingerprints that are not known are new. */
  ghost predicate FirstsNew(chunks: seq<FingerChunk>, known: set<Fingerprint>) {
    forall i :: 0 <= i < |chunks| ==>
      (chunks[i].isNew <==> chunks[i].hash !in known && forall j :: 0 <= j < i ==> chunks[j].hash != chunks[i].hash)
  }

  /** With a water mark of zero CFL takes no mutex and stores what deduplication alone would. */
  lemma NoMark(chunks: seq<FingerChunk>, waits: seq<seq<S.ChunkNode>>, bin0: Bin, bin: Bin, trace: seq<Action>,
               mark: real, reuse: real)
    requires S.CflStream(chunks, waits, bin0, bin, Locks(trace), mark, reuse) && mark <= 0.0
    ensures Untaken(trace) && FirstsNew(chunks, bin0.Keys)
  {
    hide S.Turns, S.Fated, Hashes, Locks;
    assert |Locks(trace)| == |chunks|;
    S.NoneHeldBack(chunks, waits, bin0, bin, Locks(trace), mark, reuse);
    forall i | 0 <= i < |chunks|
      ensures chunks[i].hash in Hashes(chunks[..i]) <==> exists j :: 0 <= j < i && chunks[j].hash == chunks[i].hash
    {
      S.EarlierHash(chunks, i);
    }
  }

  /** What is held at a push under CFL: the records that wait, all duplicates of one container. */
  ghost predicate HeldWaiting(push: seq<FingerChunk>, waits: seq<seq<S.ChunkNode>>) {
    && |push| < |waits|
    && (forall i :: 0 <= i < |push| ==> (push[i].locked <==> S.IsPending(waits[|push|], i)))
    && forall i, j :: 0 <= i < |push| && 0 <= j < |push| && push[i].locked && push[j].locked ==>
         !push[i].isNew && push[i].address == push[j].address
  }

  ghost predicate AllHeldWaiting(pushes: seq<seq<FingerChunk>>, waits: seq<seq<S.ChunkNode>>) {
    forall j :: 0 <= j < |pushes| ==> HeldWaiting(pushes[j], waits)
  }

  lemma WaitingNow(policy: F.Cfl)
    requires policy.Valid()
    ensures HeldWaiting(policy.chunks, policy.waits)
  {
    hide F.Cfl.Sound, S.Turn, S.IsPending, TotalLength, Hashes, S.Selected;
    policy.Standing();
  }

  lemma WaitingSnoc(pushes: seq<seq<FingerChunk>>, waits: seq<seq<S.ChunkNode>>, more: seq<seq<S.ChunkNode>>,
                    push: seq<FingerChunk>)
    requires AllHeldWaiting(pushes, waits) && waits <= more && HeldWaiting(push, more)
    ensures AllHeldWaiting(pushes + [push], more)
  {
    hide S.IsPending;
    forall j | 0 <= j < |pushes|
      ensures HeldWaiting(pushes[j], more)
    {
      assert HeldWaiting(pushes[j], waits);
      assert more[|pushes[j]|] == waits[|pushes[j]|];
    }
  }

  lemma WaitingKeys(chunks: seq<FingerChunk>, waits: seq<seq<S.ChunkNode>>, bin0: Bin, bin: Bin, locks: seq<nat>,
                    mark: real, reuse: real)
    requires S.CflStream(chunks, waits, bin0, bin, locks, mark, reuse)
    ensures bin.Keys == bin0.Keys + Hashes(chunks)
  {
  }

  /** Without a policy no mutex is ever taken, and a chunk is stored if and only if neither the old
      index nor an earlier chunk of the stream has its fingerprint. */
  method SimulatePlain(store: Store, files: SourceTree, list: seq<FileInfo>, bin0: Bin)
    returns (chunks: seq<FingerChunk>, bin: Bin, ghost trace: seq<Action>)
    requires store.Valid() && BinHolds(bin0, store.Contents()) && Given(store.hashing, files, list)
    modifies store.Repr
    ensures store.Valid() && Simulated(list, trace, chunks)
    ensures BinHolds(bin, store.Contents())
            && forall i :: 0 <= i < |chunks| ==> Settled(chunks[i], bin, store.Contents())
    ensures Untaken(trace) && N.Deduplicated(Stream(list), chunks, bin0, bin) && FirstsNew(chunks, bin0.Keys)
    ensures bin.Keys == bin0.Keys + Hashes(chunks)
  {
    hide Store.Valid, BinHolds, Given, InFile, Holds, Settled, Handed, Simulated, Grown, Traced, Replay, Released,
         SameIdents,
         Described, N.Consecutive, Extends, Hashes, Locks, Pushes, Stream,
         N.NoRewrite.Valid, N.Deduplicated, Untaken, FirstsNew;
    var policy := new N.NoRewrite(store, files, bin0);
    HandedNothing();
    N.DeduplicatedNil(bin0);
    StreamNothing();
    for k := 0 to |list|
      invariant policy.Valid() && policy.store == store && policy.files == files && fresh(policy)
      invariant store.Valid() && fresh(store.Repr - old(store.Repr))
      invariant Handed(list[..k], policy.trace, policy.chunks)
      invariant N.Deduplicated(Stream(list[..k]), policy.chunks, bin0, policy.bin)
    {
      GivenAt(store.hashing, files, list, k);
      ghost var was, done := policy.chunks, policy.trace;
      ghost var wasBin := policy.bin;
      var marked := policy.MarkNewFile(list[k]);
      policy.OpenValid();
      N.DeduplicatedIdents(was, list[k].chunks, marked, wasBin, policy.bin);
      N.DeduplicatedConcat(Stream(list[..k]), was, list[k].chunks, marked, bin0, wasBin, policy.bin);
      StreamSnoc(list[..k], list[k]);
      HandedSnoc(list[..k], list[k], done, was, policy.trace, policy.chunks);
      policy.PushFile();
    }
    assert list[..|list|] == list;
    policy.Finished();
    ghost var was, done := policy.chunks, policy.trace;
    GrownRefl(policy.trace);
    RewriteRefl(store.Contents(), policy.chunks);
    HandedEnd(list, done, was, policy.trace, policy.chunks);
    chunks, bin, trace := policy.chunks, policy.bin, policy.trace + [End];
    UntakenEnd(policy.trace);
    DeduplicatedKeys(Stream(list), chunks, bin0, bin);
    PlainFirsts(Stream(list), chunks, bin0, bin);
  }

  lemma StreamNothing()
    ensures Stream([]) == []
  {
  }

  lemma StreamSnoc(list: seq<FileInfo>, f: FileInfo)
    ensures Stream(list + [f]) == Stream(list) + f.chunks
  {
    assert (list + [f])[..|list|] == list;
  }

  lemma UntakenEnd(trace: seq<Action>)
    requires Untaken(trace) && Locks(trace + [End]) == Locks(trace)
    ensures Untaken(trace + [End])
  {
  }

  lemma DeduplicatedKeys(before: seq<FingerChunk>, after: seq<FingerChunk>, bin0: Bin, bin: Bin)
    requires N.Deduplicated(before, after, bin0, bin)
    ensures bin.Keys == bin0.Keys + Hashes(after)
  {
    hide Hashes;
    forall i | 0 <= i < |after|
      ensures SameIdent(before[i], after[i])
    {
      assert N.DeduplicatedAt(before, after[i], i, bin0, bin);
    }
    HashesSame(before, after);
  }

  // ------------------------------------------------------------------- the result

  /** Whatever the interleaving: the two threads come to an end, and then the report is that of
      the records as the policy finally left them. */
  lemma Reported(list: seq<FileInfo>, trace: seq<Action>, chunks: seq<FingerChunk>, states: seq<H.State>)
    requires Simulated(list, trace, chunks) && H.Run(trace, states)
    ensures |states| - 1 <= |trace| + 2 * (|list| + 1) + 4 * |chunks|
    ensures var s := states[|states| - 1];
            (forall t :: !H.Step(trace, s, t)) ==>
              && s.k == |trace| && s.popped == |list| + 1 && s.reader.Stopped?
              && s.total == H.DuplicateBytes(chunks)
              && ((forall fc :: fc in chunks ==> fc.isNew) ==> s.total == 0)
              && ((forall fc :: fc in chunks ==> !fc.isNew) ==> s.total == TotalLength(Stream(list)))
              && s.misses == L.Misses(H.Addresses(chunks), 4)
              && s.segments == (set fc | fc in chunks :: fc.address)
  {
    hide H.Step, Replay, Released, Legal, H.DuplicateBytes, L.Misses;
    ItemsCount(list);
    H.RunsAreFinite(trace, states);
    var next := H.NoDeadlock(trace, states);
    var s := states[|states| - 1];
    if s.reader.Stopped? && s.k == |trace| {
      H.TotalIsExact(trace, states);
      H.InvRun(trace, states);
      H.StoppedLast(trace, s);
      H.DuplicateBytesPure(chunks);
      TotalSame(Stream(list), chunks);
    }
  }

  /** When exactly the first records of unknown fingerprints are new, as without a policy and under
      CFL with a water mark of zero, the report is the bytes of the records whose fingerprint was
      known or came earlier in the stream. */
  lemma ReportedFirsts(list: seq<FileInfo>, trace: seq<Action>, chunks: seq<FingerChunk>, states: seq<H.State>,
                       known: set<Fingerprint>)
    requires Simulated(list, trace, chunks) && H.Run(trace, states) && FirstsNew(chunks, known)
    ensures var s := states[|states| - 1];
            (forall t :: !H.Step(trace, s, t)) ==> s.total == H.RepeatedBytes(Stream(list), known)
  {
    hide *;
    Reported(list, trace, chunks, states);
    SimulatedSame(list, trace, chunks);
    RepeatsReported(Stream(list), chunks, known);
  }

  lemma SimulatedSame(list: seq<FileInfo>, trace: seq<Action>, chunks: seq<FingerChunk>)
    requires Simulated(list, trace, chunks)
    ensures SameIdents(Stream(list), chunks)
  {
  }

  lemma RepeatsReported(stream: seq<FingerChunk>, chunks: seq<FingerChunk>, known: set<Fingerprint>)
    requires SameIdents(stream, chunks) && FirstsNew(chunks, known)
    ensures H.DuplicateBytes(chunks) == H.RepeatedBytes(stream, known)
  {
    hide H.DuplicateBytes, H.RepeatedBytes;
    H.RepeatedSame(stream, chunks, known);
    H.DuplicatesAreRepeats(chunks, known);
  }

  lemma PlainFirsts(stream: seq<FingerChunk>, chunks: seq<FingerChunk>, bin0: Bin, bin: Bin)
    requires N.Deduplicated(stream, chunks, bin0, bin)
    ensures SameIdents(stream, chunks) && FirstsNew(chunks, bin0.Keys)
  {
    hide Hashes;
    forall i | 0 <= i < |chunks|
      ensures SameIdent(stream[i], chunks[i])
      ensures chunks[i].isNew <==> stream[i].hash !in bin0 && stream[i].hash !in Hashes(stream[..i])
      ensures stream[i].hash in Hashes(stream[..i]) <==> exists j :: 0 <= j < i && stream[j].hash == stream[i].hash
    {
      assert N.DeduplicatedAt(stream, chunks[i], i, bin0, bin);
      S.EarlierHash(stream, i);
    }
  }

  lemma {:induction false} ItemsCount(list: seq<FileInfo>)
    ensures |ItemsOf(list)| == |list|
  {
    if list != [] {
      ItemsCount(list[..|list| - 1]);
    }
  }
}
