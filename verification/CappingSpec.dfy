/** What capping promises, stated on the records alone: which containers a window of chunks
    refers to after rewriting, and why the kept ones are the best choice. */
module CappingSpec {
  import opened Types
  import opened ChunkDedup
  import opened SegmentSort
  import opened RewriteSpec

  // ------------------------------------------------- weights of container sets

  lemma {:induction false} WeightAdd(cs: seq<FingerChunk>, addrs: set<Address>, a: Address)
    requires a !in addrs
    ensures Weight(cs, addrs + {a}) == Weight(cs, addrs) + Weight(cs, {a})
  {
    if cs != [] {
      WeightAdd(cs[..|cs| - 1], addrs, a);
    }
  }

  lemma {:induction false} WeightMonotone(cs: seq<FingerChunk>, addrs: set<Address>, more: set<Address>)
    requires addrs <= more
    ensures Weight(cs, addrs) <= Weight(cs, more)
  {
    if cs != [] {
      WeightMonotone(cs[..|cs| - 1], addrs, more);
    }
  }

  /** The kept entries are the whole table, or as many of the largest as allowed. */
  ghost predicate Best(table: map<Address, nat>, kept: map<Address, nat>, maxRefer: nat) {
    if |table| > maxRefer then Largest(table, kept, maxRefer) else kept == table
  }

  lemma Cardinal<X>(a: set<X>, b: set<X>)
    requires a <= b
    ensures |a| <= |b|
  {
    if x :| x in a {
      Cardinal(a - {x}, b - {x});
    }
  }

  /** Exchange argument: no choice of at most `maxRefer` containers retains more duplicate
      bytes of the window than the kept ones. */
  lemma {:induction false} KeptIsOptimal(
    cs: seq<FingerChunk>, table: map<Address, nat>, kept: map<Address, nat>, maxRefer: nat, choice: set<Address>)
    requires Counts(table, cs) && Best(table, kept, maxRefer)
    requires |choice| <= maxRefer
    ensures Weight(cs, choice) <= Weight(cs, kept.Keys)
    decreases |choice - kept.Keys|
  {
    hide Weight;
    if choice <= kept.Keys {
      WeightMonotone(cs, choice, kept.Keys);
    } else {
      var t :| t in choice && t !in kept;
      if t !in table {
        WeightOutside(cs, t);
        Drop(cs, choice, t);
        assert choice - {t} - kept.Keys == choice - kept.Keys - {t};
        KeptIsOptimal(cs, table, kept, maxRefer, choice - {t});
      } else {
        var k := Replacement(kept.Keys, choice, t);
        assert table[k] >= table[t];
        Drop(cs, choice, t);
        WeightAdd(cs, choice - {t}, k);
        assert (choice - {t} + {k}) - kept.Keys == choice - kept.Keys - {t};
        KeptIsOptimal(cs, table, kept, maxRefer, choice - {t} + {k});
      }
    }
  }

  lemma Drop(cs: seq<FingerChunk>, choice: set<Address>, t: Address)
    requires t in choice
    ensures Weight(cs, choice) == Weight(cs, choice - {t}) + Weight(cs, {t})
  {
    assert choice == choice - {t} + {t};
    WeightAdd(cs, choice - {t}, t);
  }

  lemma Replacement<X>(kept: set<X>, choice: set<X>, t: X) returns (k: X)
    requires |choice| <= |kept| && t in choice && t !in kept
    ensures k in kept && k !in choice
  {
    if kept <= choice {
      Cardinal(kept, choice - {t});
    }
    k :| k in kept && k !in choice;
  }

  // ------------------------------------------------------------ one window

  /** One rewrite: the buffered records, what became of them, the counters and the kept
      containers, and the index before and after. */
  datatype Window = Window(before: seq<FingerChunk>, after: seq<FingerChunk>, table: map<Address, nat>,
                           kept: map<Address, nat>, index: Bin, next: Bin)

  /** The records are marked against the index as it stood when the window began. The rewrite
      enters their fingerprints; an entry stays as it was or names a container of the window. */
  ghost predicate AnchoredWindow(w: Window) {
    && (forall i :: 0 <= i < |w.before| ==> Buffered(w.before[i], w.index))
    && Evolved(w.index, w.next, Written(w.after))
    && w.next.Keys == w.index.Keys + Hashes(w.before)
  }

  ghost predicate WindowOk(w: Window, maxRefer: nat, capacity: int) {
    && AnchoredWindow(w)
    && Outcomes(w.before, w.after, w.kept.Keys)
    && Counts(w.table, w.before)
    && Best(w.table, w.kept, maxRefer)
    && (TotalLength(w.before) <= capacity || |w.before| == 1)
  }

  /** The containers in which duplicates of the window were left in place. */
  ghost function LeftIn(w: Window): set<Address>
    requires |w.before| == |w.after|
  {
    set i | 0 <= i < |w.before| && !w.before[i].isNew && !w.after[i].isNew :: w.before[i].address
  }

  /** The capping bound: duplicates are left in place in at most `maxRefer` containers, whether
      or not the window also writes to them, and besides the containers that it writes to its
      records refer to at most that many. */
  lemma CappingBound(w: Window, maxRefer: nat, capacity: int)
    requires WindowOk(w, maxRefer, capacity)
    ensures |LeftIn(w)| <= maxRefer
    ensures |Referred(w.after) - Written(w.after)| <= maxRefer
  {
    var others := Referred(w.after) - Written(w.after);
    forall a | a in others
      ensures a in LeftIn(w)
    {
      var i :| 0 <= i < |w.after| && !w.after[i].isNew && w.after[i].address == a;
      assert Outcome(w.before[i], w.after[i], w.kept.Keys, Written(w.after));
    }
    forall a | a in LeftIn(w)
      ensures a in w.kept.Keys
    {
      var i :| 0 <= i < |w.before| && !w.before[i].isNew && !w.after[i].isNew && w.before[i].address == a;
      assert Outcome(w.before[i], w.after[i], w.kept.Keys, Written(w.after));
    }
    Cardinal(others, LeftIn(w));
    Cardinal(LeftIn(w), w.kept.Keys);
  }

  /** Duplicate bytes that the window stores again. */
  ghost function Rewritten(before: seq<FingerChunk>, after: seq<FingerChunk>): nat
    requires |before| == |after|
  {
    if before == [] then 0 else
      var n := |before| - 1;
      Rewritten(before[..n], after[..n]) + if !before[n].isNew && after[n].isNew then before[n].length else 0
  }

  lemma {:induction false} RewrittenIsRest(before: seq<FingerChunk>, after: seq<FingerChunk>, kept: set<Address>,
                                           all: set<Address>)
    requires |before| == |after|
    requires forall i :: 0 <= i < |before| && !before[i].isNew ==>
               before[i].address in all && (after[i].isNew <==> before[i].address !in kept)
    ensures Rewritten(before, after) + Weight(before, kept) == Weight(before, all)
  {
    if before != [] {
      var n := |before| - 1;
      RewrittenIsRest(before[..n], after[..n], kept, all);
    }
  }

  /** The rewritten bytes are the fewest that any choice of at most `maxRefer` containers to
      leave alone allows. */
  lemma RewritesFewestBytes(w: Window, maxRefer: nat, capacity: int, choice: set<Address>)
    requires WindowOk(w, maxRefer, capacity) && |choice| <= maxRefer
    ensures Rewritten(w.before, w.after) + Weight(w.before, choice) <= Weight(w.before, w.table.Keys)
  {
    KeptIsOptimal(w.before, w.table, w.kept, maxRefer, choice);
    forall i | 0 <= i < |w.before| && !w.before[i].isNew
      ensures w.before[i].address in w.table.Keys && (w.after[i].isNew <==> w.before[i].address !in w.kept.Keys)
    {
      assert Outcome(w.before[i], w.after[i], w.kept.Keys, Written(w.after));
    }
    RewrittenIsRest(w.before, w.after, w.kept.Keys, w.table.Keys);
  }

  // --------------------------------------------------------- the whole stream

  /** The decided records, window after window. */
  ghost function Afters(windows: seq<Window>): seq<FingerChunk> {
    if windows == [] then [] else Afters(windows[..|windows| - 1]) + windows[|windows| - 1].after
  }

  lemma AftersSnoc(windows: seq<Window>, w: Window)
    ensures Afters(windows + [w]) == Afters(windows) + w.after
  {
    assert (windows + [w])[..|windows|] == windows;
  }

  /** Each window finds the index as the window before it left it. */
  ghost predicate Linked(windows: seq<Window>, bin0: Bin, bin: Bin) {
    if windows == [] then bin == bin0 else
      var w := windows[|windows| - 1];
      Linked(windows[..|windows| - 1], bin0, w.index) && bin == w.next
  }

  lemma LinkedSnoc(windows: seq<Window>, bin0: Bin, w: Window)
    requires Linked(windows, bin0, w.index)
    ensures Linked(windows + [w], bin0, w.next)
  {
    assert (windows + [w])[..|windows|] == windows;
  }

  /** The whole stream enters the index. */
  lemma {:induction false} LinkedKeys(windows: seq<Window>, bin0: Bin, bin: Bin, maxRefer: nat, capacity: nat)
    requires Linked(windows, bin0, bin)
    requires forall i :: 0 <= i < |windows| ==> WindowOk(windows[i], maxRefer, capacity)
    ensures bin.Keys == bin0.Keys + Hashes(Afters(windows))
  {
    hide Hashes, Counts, Best, TotalLength, Evolved, Written, Buffered;
    if windows == [] {
      HashesNil();
    } else {
      var init, w := windows[..|windows| - 1], windows[|windows| - 1];
      LinkedKeys(init, bin0, w.index, maxRefer, capacity);
      HashesConcat(Afters(init), w.after);
      assert SameIdents(w.before, w.after) by { WindowIdents(w, maxRefer, capacity); }
      HashesSame(w.before, w.after);
    }
  }

  lemma WindowIdents(w: Window, maxRefer: nat, capacity: nat)
    requires WindowOk(w, maxRefer, capacity)
    ensures SameIdents(w.before, w.after)
  {
    forall i | 0 <= i < |w.after|
      ensures SameIdent(w.before[i], w.after[i])
    {
      assert Outcome(w.before[i], w.after[i], w.kept.Keys, Written(w.after));
    }
  }

  /** No window was closed early: the record that follows it in the stream did not fit. */
  ghost predicate Full(windows: seq<Window>, i: nat, chunks: seq<FingerChunk>, capacity: nat)
    requires i < |windows|
  {
    var end := |Afters(windows[..i + 1])|;
    end < |chunks| ==> TotalLength(windows[i].before) + chunks[end].length > capacity
  }

  ghost predicate Greedy(windows: seq<Window>, chunks: seq<FingerChunk>, capacity: nat) {
    forall i :: 0 <= i < |windows| ==> Full(windows, i, chunks, capacity)
  }

  lemma {:induction false} AftersMonotone(windows: seq<Window>, i: nat, j: nat)
    requires i <= j <= |windows|
    ensures |Afters(windows[..i])| <= |Afters(windows[..j])|
    decreases j - i
  {
    if i < j {
      AftersMonotone(windows, i, j - 1);
      assert windows[..j][..j - 1] == windows[..j - 1];
    }
  }

  /** The last window was just closed, and the next record `q` was the reason. */
  lemma GreedySnoc(windows: seq<Window>, chunks: seq<FingerChunk>, q: FingerChunk, maxRefer: nat, capacity: nat)
    requires Greedy(windows, chunks, capacity) && |Afters(windows)| <= |chunks|
    requires forall i :: 0 <= i < |windows| ==> WindowOk(windows[i], maxRefer, capacity)
    requires windows != [] && |Afters(windows)| == |chunks| ==>
             TotalLength(windows[|windows| - 1].before) + q.length > capacity
    ensures Greedy(windows, chunks + [q], capacity)
  {
    hide WindowOk, TotalLength, Afters, Full;
    forall i | 0 <= i < |windows|
      ensures Full(windows, i, chunks + [q], capacity)
    {
      assert Full(windows, i, chunks, capacity);
      EmptyWindow(windows[|windows| - 1], maxRefer, capacity);
      FullSnoc(windows, i, chunks, q, capacity);
    }
  }

  lemma FullSnoc(windows: seq<Window>, i: nat, chunks: seq<FingerChunk>, q: FingerChunk, capacity: nat)
    requires i < |windows| && Full(windows, i, chunks, capacity) && |Afters(windows)| <= |chunks|
    requires var w := windows[|windows| - 1];
             && (|Afters(windows)| == |chunks| ==> TotalLength(w.before) + q.length > capacity)
             && (w.after == [] ==> TotalLength(w.before) == 0)
    ensures Full(windows, i, chunks + [q], capacity)
  {
    hide TotalLength, Afters, WindowOk;
    EndsBefore(windows, i);
    var end := |Afters(windows[..i + 1])|;
    if end < |chunks| {
      assert (chunks + [q])[end] == chunks[end];
    }
  }

  lemma EndsBefore(windows: seq<Window>, i: nat)
    requires i < |windows|
    ensures |Afters(windows[..i + 1])| <= |Afters(windows)|
    ensures i + 1 < |windows| && |Afters(windows[..i + 1])| == |Afters(windows)| ==> windows[|windows| - 1].after == []
  {
    hide Afters;
    AftersLast(windows);
    if i + 1 < |windows| {
      AftersMonotone(windows, i + 1, |windows| - 1);
    } else {
      assert windows[..i + 1] == windows;
    }
  }

  lemma AftersLast(windows: seq<Window>)
    requires windows != []
    ensures Afters(windows) == Afters(windows[..|windows| - 1]) + windows[|windows| - 1].after
  {
  }

  lemma EmptyWindow(w: Window, maxRefer: nat, capacity: nat)
    requires WindowOk(w, maxRefer, capacity)
    ensures w.after == [] ==> TotalLength(w.before) == 0
  {
  }

  /** Closing the window at the end of the records so far leaves the earlier ones full. */
  lemma GreedyClose(windows: seq<Window>, w: Window, chunks: seq<FingerChunk>, now: seq<FingerChunk>, capacity: nat)
    requires Greedy(windows, chunks, capacity) && SameIdents(chunks, now) && |Afters(windows + [w])| == |now|
    ensures Greedy(windows + [w], now, capacity)
  {
    hide TotalLength, Afters;
    var more := windows + [w];
    forall i | 0 <= i < |more|
      ensures Full(more, i, now, capacity)
    {
      if i < |windows| {
        assert Full(windows, i, chunks, capacity);
        assert more[..i + 1] == windows[..i + 1];
      } else {
        assert more[..i + 1] == more;
      }
    }
  }

  lemma GreedySame(windows: seq<Window>, chunks: seq<FingerChunk>, now: seq<FingerChunk>, capacity: nat)
    requires Greedy(windows, chunks, capacity) && |chunks| == |now|
    requires forall i :: 0 <= i < |now| ==> SameIdent(chunks[i], now[i])
    ensures Greedy(windows, now, capacity)
  {
    hide TotalLength, Afters;
    forall i | 0 <= i < |windows|
      ensures Full(windows, i, now, capacity)
    {
      assert Full(windows, i, chunks, capacity);
    }
  }
}
