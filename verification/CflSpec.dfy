/** CFL rewriting, stated on the chunk records alone: which records are held back in the course
    of a stream, and what becomes of them. */
module CflSpec {
  import opened Types
  import C = Container
  import opened ChunkDedup

  /** A held-back record, with the path of its file. */
  datatype ChunkNode = ChunkNode(fc: nat, path: string)

  /** The chunk fragmentation level, `num / den`; the division by zero containers of the
      first chunks is plus infinity, as it is in floating point. */
  datatype Level = Level(num: nat, den: nat) {
    predicate Below(mark: real) {
      num as real < mark * den as real
    }
  }

  /** The level after `dataset` bytes that refer to `containers` containers. */
  function LevelOf(dataset: nat, containers: nat): Level {
    Level(dataset / C.CONTAINER_SIZE + 1, containers)
  }

  ghost predicate IsPending(nodes: seq<ChunkNode>, i: nat) {
    exists k :: 0 <= k < |nodes| && nodes[k].fc == i
  }

  /** Bytes of the held-back records. */
  ghost function PendingLength(nodes: seq<ChunkNode>, chunks: seq<FingerChunk>): nat
    requires forall k :: 0 <= k < |nodes| ==> nodes[k].fc < |chunks|
  {
    if nodes == [] then 0 else chunks[nodes[0].fc].length + PendingLength(nodes[1..], chunks)
  }

  ghost predicate Measured(nodes: seq<ChunkNode>, chunks: seq<FingerChunk>, length: nat) {
    && (forall k :: 0 <= k < |nodes| ==> nodes[k].fc < |chunks|)
    && length == PendingLength(nodes, chunks)
  }

  lemma PopPending(nodes: seq<ChunkNode>)
    requires nodes != [] && forall j, k :: 0 <= j < k < |nodes| ==> nodes[j].fc < nodes[k].fc
    ensures !IsPending(nodes[1..], nodes[0].fc)
    ensures forall i :: IsPending(nodes, i) <==> i == nodes[0].fc || IsPending(nodes[1..], i)
  {
    var rest := nodes[1..];
    assert forall k :: 0 <= k < |rest| ==> rest[k] == nodes[k + 1];
    forall i: nat
      ensures IsPending(nodes, i) <==> i == nodes[0].fc || IsPending(rest, i)
    {
      if IsPending(nodes, i) && i != nodes[0].fc {
        var k :| 0 <= k < |nodes| && nodes[k].fc == i;
        assert rest[k - 1].fc == i;
      }
      if IsPending(rest, i) {
        var k :| 0 <= k < |rest| && rest[k].fc == i;
        assert nodes[k + 1].fc == i;
      }
      assert nodes[0].fc == nodes[0].fc;
    }
  }

  lemma PushPending(nodes: seq<ChunkNode>, node: ChunkNode)
    ensures forall i :: IsPending(nodes + [node], i) <==> i == node.fc || IsPending(nodes, i)
  {
    var more := nodes + [node];
    forall i: nat
      ensures IsPending(more, i) <==> i == node.fc || IsPending(nodes, i)
    {
      if IsPending(nodes, i) {
        var k :| 0 <= k < |nodes| && nodes[k].fc == i;
        assert more[k].fc == i;
      }
      assert more[|nodes|] == node;
    }
  }

  lemma {:induction false} PendingLengthSnoc(nodes: seq<ChunkNode>, node: ChunkNode, chunks: seq<FingerChunk>,
                                             more: seq<FingerChunk>)
    requires forall k :: 0 <= k < |nodes| ==> nodes[k].fc < |chunks|
    requires chunks <= more && node.fc < |more|
    ensures forall k :: 0 <= k < |nodes + [node]| ==> (nodes + [node])[k].fc < |more|
    ensures PendingLength(nodes + [node], more) == PendingLength(nodes, chunks) + more[node.fc].length
  {
    if nodes == [] {
    } else {
      assert (nodes + [node])[1..] == nodes[1..] + [node];
      PendingLengthSnoc(nodes[1..], node, chunks, more);
      assert more[..|chunks|][nodes[0].fc] == chunks[nodes[0].fc];
    }
  }

  lemma MeasuredSnoc(nodes: seq<ChunkNode>, node: ChunkNode, chunks: seq<FingerChunk>, more: seq<FingerChunk>,
                     length: nat)
    requires Measured(nodes, chunks, length) && chunks <= more && node.fc < |more|
    ensures Measured(nodes + [node], more, length + more[node.fc].length)
  {
    PendingLengthSnoc(nodes, node, chunks, more);
  }

  lemma {:induction false} MeasuredSame(nodes: seq<ChunkNode>, chunks: seq<FingerChunk>, more: seq<FingerChunk>,
                                        length: nat)
    requires Measured(nodes, chunks, length) && chunks <= more
    ensures Measured(nodes, more, length)
  {
    if nodes != [] {
      MeasuredSame(nodes[1..], chunks, more, PendingLength(nodes[1..], chunks));
    }
  }

  lemma MeasuredNothing(chunks: seq<FingerChunk>)
    ensures Measured([], chunks, 0)
  {
  }

  /** What became of held-back records: all are stored again, or all stay as they were. */
  ghost predicate ReleasedAs(nodes: seq<ChunkNode>, before: seq<FingerChunk>, after: seq<FingerChunk>, again: bool) {
    && |after| == |before|
    && forall i :: 0 <= i < |before| ==>
         if IsPending(nodes, i)
         then SameIdent(before[i], after[i]) && before[i].locked && !after[i].locked
              && if again then after[i].isNew else after[i] == before[i].(locked := false)
         else after[i] == before[i]
  }

  // --------------------------------------------------------- the whole stream

  /** The containers that the decided ones of the first `n` records name. */
  ghost function Named(chunks: seq<FingerChunk>, n: nat, waiting: seq<ChunkNode>): set<Address>
    requires n <= |chunks|
  {
    set j | 0 <= j < n && !IsPending(waiting, j) :: chunks[j].address
  }

  /** The level at the turn of record `n`. */
  ghost function LevelAt(chunks: seq<FingerChunk>, n: nat, waiting: seq<ChunkNode>): Level
    requires n <= |chunks|
  {
    if n == 0 then Level(1, 1) else LevelOf(TotalLength(chunks[..n]), |Named(chunks, n, waiting)|)
  }

  /** Record `i` is held back: it is a duplicate, of a chunk in the old index or earlier in the
      stream, and at its turn the level is below the water mark. `waits[i]` are the records held
      back at its turn. */
  ghost predicate Selected(chunks: seq<FingerChunk>, waits: seq<seq<ChunkNode>>, i: nat, bin0: Bin, mark: real)
    requires i < |chunks| && i < |waits|
  {
    && (chunks[i].hash in bin0 || chunks[i].hash in Hashes(chunks[..i]))
    && LevelAt(chunks, i, waits[i]).Below(mark)
  }

  /** Records held back together were all stored again, if they use too little of a container,
      or all left in place. */
  ghost predicate Fated(chunks: seq<FingerChunk>, group: seq<ChunkNode>, reuse: real) {
    && (forall k :: 0 <= k < |group| ==> group[k].fc < |chunks|)
    && forall k :: 0 <= k < |group| ==>
         && !chunks[group[k].fc].locked
         && (chunks[group[k].fc].isNew <==> PendingLength(group, chunks) as real / C.CONTAINER_SIZE as real < reuse)
  }

  /** The turn of record `i`. A record that is held back joins those that wait, or they are
      decided and it waits alone. The others are decided at their turn. */
  ghost predicate Turn(chunks: seq<FingerChunk>, waits: seq<seq<ChunkNode>>, i: nat, bin0: Bin, mark: real, reuse: real)
    requires i < |chunks| && i + 1 < |waits|
  {
    && (forall j :: 0 <= j < i && !IsPending(waits[i], j) ==> !chunks[j].locked)
    && if Selected(chunks, waits, i, bin0, mark)
       then Joins(waits[i], waits[i + 1], i)
           || (waits[i] != [] && Fated(chunks, waits[i], reuse) && Joins([], waits[i + 1], i))
       else waits[i + 1] == waits[i] && !chunks[i].locked && NewlyStored(chunks, i, bin0)
  }

  /** Record `i` is stored exactly if neither the old index nor an earlier record has its fingerprint. */
  ghost predicate NewlyStored(chunks: seq<FingerChunk>, i: nat, bin0: Bin)
    requires i < |chunks|
  {
    chunks[i].isNew <==> chunks[i].hash !in bin0 && chunks[i].hash !in Hashes(chunks[..i])
  }

  ghost predicate Joins(waiting: seq<ChunkNode>, next: seq<ChunkNode>, i: nat) {
    next != [] && next[|next| - 1].fc == i && next[..|next| - 1] == waiting
  }

  ghost predicate Turns(chunks: seq<FingerChunk>, waits: seq<seq<ChunkNode>>, bin0: Bin, mark: real, reuse: real) {
    && |waits| == |chunks| + 1 && waits[0] == []
    && forall i :: 0 <= i < |chunks| ==> Turn(chunks, waits, i, bin0, mark, reuse)
  }

  /** The account of the stream so far: the turns, the records that wait now, the fingerprints
      in the index, and the mutexes, of which exactly those of held-back records were taken. */
  ghost predicate Account(chunks: seq<FingerChunk>, waits: seq<seq<ChunkNode>>, waiting: seq<ChunkNode>,
                          bin0: Bin, bin: Bin, locks: seq<nat>, mark: real, reuse: real)
  {
    && Turns(chunks, waits, bin0, mark, reuse) && waits[|chunks|] == waiting
    && bin.Keys == bin0.Keys + Hashes(chunks)
    && |locks| == |chunks|
    && forall i :: 0 <= i < |chunks| ==> locks[i] == if Selected(chunks, waits, i, bin0, mark) then 1 else 0
  }

  /** The account of a whole stream, with the records that waited at its end decided too. */
  ghost predicate CflStream(chunks: seq<FingerChunk>, waits: seq<seq<ChunkNode>>, bin0: Bin, bin: Bin,
                            locks: seq<nat>, mark: real, reuse: real)
  {
    && |waits| == |chunks| + 1
    && Account(chunks, waits, waits[|chunks|], bin0, bin, locks, mark, reuse)
    && Fated(chunks, waits[|chunks|], reuse)
  }

  /** Later only records that were held change, and not in fingerprint or length. */
  ghost predicate Steady(before: seq<FingerChunk>, after: seq<FingerChunk>) {
    && |before| <= |after|
    && (forall i :: 0 <= i < |before| ==> SameIdent(before[i], after[i]))
    && forall i :: 0 <= i < |before| && !before[i].locked ==> after[i] == before[i]
  }

  lemma SteadyPrefix(before: seq<FingerChunk>, after: seq<FingerChunk>, n: nat)
    requires Steady(before, after) && n <= |before|
    ensures TotalLength(after[..n]) == TotalLength(before[..n]) && Hashes(after[..n]) == Hashes(before[..n])
  {
    TotalSame(before[..n], after[..n]);
    HashesSame(before[..n], after[..n]);
  }

  lemma LevelStays(before: seq<FingerChunk>, after: seq<FingerChunk>, n: nat, waiting: seq<ChunkNode>)
    requires Steady(before, after) && n <= |before|
    requires forall j :: 0 <= j < n && !IsPending(waiting, j) ==> !before[j].locked
    ensures LevelAt(after, n, waiting) == LevelAt(before, n, waiting)
  {
    hide IsPending, TotalLength, Hashes;
    SteadyPrefix(before, after, n);
    assert Named(after, n, waiting) == Named(before, n, waiting);
  }

  lemma {:induction false} LengthStays(before: seq<FingerChunk>, after: seq<FingerChunk>, nodes: seq<ChunkNode>)
    requires Steady(before, after) && forall k :: 0 <= k < |nodes| ==> nodes[k].fc < |before|
    ensures PendingLength(nodes, after) == PendingLength(nodes, before)
  {
    if nodes != [] {
      LengthStays(before, after, nodes[1..]);
    }
  }

  lemma TurnStays(before: seq<FingerChunk>, after: seq<FingerChunk>, waits: seq<seq<ChunkNode>>,
                  more: seq<seq<ChunkNode>>,
                  i: nat, bin0: Bin, mark: real, reuse: real)
    requires Steady(before, after) && i < |before| && i + 1 < |waits| && waits <= more
    requires Turn(before, waits, i, bin0, mark, reuse)
    ensures Turn(after, more, i, bin0, mark, reuse)
    ensures Selected(after, more, i, bin0, mark) <==> Selected(before, waits, i, bin0, mark)
  {
    hide IsPending, LevelAt, Hashes, PendingLength, Joins;
    LevelStays(before, after, i, waits[i]);
    SteadyPrefix(before, after, i);
    if Fated(before, waits[i], reuse) {
      LengthStays(before, after, waits[i]);
    }
  }

  /** One more turn. */
  lemma AccountSnoc(before: seq<FingerChunk>, after: seq<FingerChunk>, waits: seq<seq<ChunkNode>>,
                    waiting: seq<ChunkNode>, next: seq<ChunkNode>, bin0: Bin, bin: Bin, bin': Bin,
                    locks: seq<nat>, locks': seq<nat>, mark: real, reuse: real, held: bool)
    requires Account(before, waits, waiting, bin0, bin, locks, mark, reuse)
    requires Steady(before, after) && |after| == |before| + 1
    requires forall j :: 0 <= j < |before| && !IsPending(waiting, j) ==> !before[j].locked
    requires held <==> after[|before|].hash in bin && LevelAt(before, |before|, waiting).Below(mark)
    requires if held then Joins(waiting, next, |before|)
                          || (waiting != [] && Fated(after, waiting, reuse) && Joins([], next, |before|))
             else next == waiting && !after[|before|].locked
                  && (after[|before|].isNew <==> after[|before|].hash !in bin)
    requires bin'.Keys == bin.Keys + {after[|before|].hash}
    requires locks' == locks + [if held then 1 else 0]
    ensures Account(after, waits + [next], next, bin0, bin', locks', mark, reuse)
  {
    hide IsPending, LevelAt, Hashes, PendingLength, Joins, Fated, Level.Below, Turn, Selected;
    var n, more := |before|, waits + [next];
    LastTurn(before, after, waits, waiting, next, bin0, bin, mark, reuse, held);
    forall i | 0 <= i < |after|
      ensures Turn(after, more, i, bin0, mark, reuse)
      ensures locks'[i] == if Selected(after, more, i, bin0, mark) then 1 else 0
    {
      if i < n {
        assert Turn(before, waits, i, bin0, mark, reuse);
        TurnStays(before, after, waits, more, i, bin0, mark, reuse);
      }
    }
    HashesSnoc(after[..n], after[n]);
    assert after[..n] + [after[n]] == after;
    SteadyPrefix(before, after, n);
    assert before[..n] == before;
  }

  lemma LastTurn(before: seq<FingerChunk>, after: seq<FingerChunk>, waits: seq<seq<ChunkNode>>,
                 waiting: seq<ChunkNode>, next: seq<ChunkNode>, bin0: Bin, bin: Bin, mark: real, reuse: real,
                 held: bool)
    requires |waits| == |before| + 1 && waits[|before|] == waiting && bin.Keys == bin0.Keys + Hashes(before)
    requires Steady(before, after) && |after| == |before| + 1
    requires forall j :: 0 <= j < |before| && !IsPending(waiting, j) ==> !before[j].locked
    requires held <==> after[|before|].hash in bin && LevelAt(before, |before|, waiting).Below(mark)
    requires if held then Joins(waiting, next, |before|)
                          || (waiting != [] && Fated(after, waiting, reuse) && Joins([], next, |before|))
             else next == waiting && !after[|before|].locked
                  && (after[|before|].isNew <==> after[|before|].hash !in bin)
    ensures Turn(after, waits + [next], |before|, bin0, mark, reuse)
    ensures Selected(after, waits + [next], |before|, bin0, mark) <==> held
  {
    hide IsPending, LevelAt, Hashes, PendingLength, Joins, Fated, Level.Below;
    var n := |before|;
    LevelStays(before, after, n, waiting);
    SteadyPrefix(before, after, n);
    assert before[..n] == before;
  }

  lemma AccountNothing(bin: Bin, mark: real, reuse: real)
    ensures Account([], [[]], [], bin, bin, [], mark, reuse)
  {
    HashesNil();
  }

  /** The records that wait are released at last; no turn changes. */
  lemma AccountEnd(before: seq<FingerChunk>, after: seq<FingerChunk>, waits: seq<seq<ChunkNode>>,
                   waiting: seq<ChunkNode>, bin0: Bin, bin: Bin, bin': Bin, locks: seq<nat>, mark: real, reuse: real)
    requires Account(before, waits, waiting, bin0, bin, locks, mark, reuse)
    requires Steady(before, after) && |after| == |before| && bin'.Keys == bin.Keys
    ensures Account(after, waits, waiting, bin0, bin', locks, mark, reuse)
  {
    hide Hashes, Turn, Selected;
    forall i | 0 <= i < |after|
      ensures Turn(after, waits, i, bin0, mark, reuse)
      ensures locks[i] == if Selected(after, waits, i, bin0, mark) then 1 else 0
    {
      assert Turn(before, waits, i, bin0, mark, reuse);
      TurnStays(before, after, waits, waits, i, bin0, mark, reuse);
    }
    SteadyPrefix(before, after, |before|);
    assert before[..|before|] == before && after[..|after|] == after;
  }

  /** What holding a record back does to the others, by whether those that wait are released first. */
  lemma SelectiveTurn(was: seq<FingerChunk>, now: seq<FingerChunk>, nodes: seq<ChunkNode>, next: seq<ChunkNode>,
                      released: bool, length: nat, path: string, reuse: real)
    requires |now| == |was| + 1 && Measured(nodes, was, length)
    requires forall k :: 0 <= k < |nodes| ==> !was[nodes[k].fc].isNew
    requires if released
             then nodes != [] && next == [ChunkNode(|was|, path)]
                  && ReleasedAs(nodes, was, now[..|was|], length as real / C.CONTAINER_SIZE as real < reuse)
             else next == nodes + [ChunkNode(|was|, path)] && now[..|was|] == was
    ensures Steady(was, now)
    ensures Joins(nodes, next, |was|) || (nodes != [] && Fated(now, nodes, reuse) && Joins([], next, |was|))
  {
    hide PendingLength;
    var n := |was|;
    assert forall i :: 0 <= i < n ==> now[i] == now[..n][i];
    if released {
      ReleasedFate(nodes, was, now[..n], length, reuse);
      LengthPrefix(now[..n], now, nodes);
    }
  }

  lemma ReleasedFate(nodes: seq<ChunkNode>, was: seq<FingerChunk>, now: seq<FingerChunk>, length: nat, reuse: real)
    requires Measured(nodes, was, length) && forall k :: 0 <= k < |nodes| ==> !was[nodes[k].fc].isNew
    requires ReleasedAs(nodes, was, now, length as real / C.CONTAINER_SIZE as real < reuse)
    ensures Steady(was, now) && Fated(now, nodes, reuse)
  {
    hide PendingLength;
    assert forall k :: 0 <= k < |nodes| ==> IsPending(nodes, nodes[k].fc);
    LengthStays(was, now, nodes);
  }

  lemma {:induction false} LengthPrefix(chunks: seq<FingerChunk>, more: seq<FingerChunk>, nodes: seq<ChunkNode>)
    requires chunks <= more && forall k :: 0 <= k < |nodes| ==> nodes[k].fc < |chunks|
    ensures PendingLength(nodes, more) == PendingLength(nodes, chunks)
  {
    if nodes != [] {
      LengthPrefix(chunks, more, nodes[1..]);
    }
  }

  // -------------------------------------------------------------- in numbers

  /** The test against the water mark; over no container the level is never below it. */
  lemma LevelInNumbers(dataset: nat, containers: nat, mark: real)
    ensures Level(1, 1).Below(mark) <==> 1.0 < mark
    ensures LevelOf(dataset, containers).Below(mark) <==>
            containers > 0 && (dataset / 4194304 + 1) as real / containers as real < mark
  {
    var level := LevelOf(dataset, containers);
    if containers == 0 {
      assert mark * 0.0 == 0.0;
    } else {
      Quotient(level.num as real, containers as real, mark);
    }
  }

  /** Which records of a stream are held back. The first is if it is a duplicate and the water mark
      is above 1. A later one is if it is a duplicate and the bytes before it, counted in containers
      begun, are fewer than the mark for each container that the decided ones refer to. */
  lemma HeldInNumbers(chunks: seq<FingerChunk>, waits: seq<seq<ChunkNode>>, waiting: seq<ChunkNode>,
                      bin0: Bin, bin: Bin, locks: seq<nat>, mark: real, reuse: real, i: nat)
    requires Account(chunks, waits, waiting, bin0, bin, locks, mark, reuse) && i < |chunks|
    ensures locks[i] == 0 || locks[i] == 1
    ensures locks[i] == 0 ==> (chunks[i].isNew <==> chunks[i].hash !in bin0 && chunks[i].hash !in Hashes(chunks[..i]))
    ensures locks[i] == 1 <==>
            && (chunks[i].hash in bin0 || exists j :: 0 <= j < i && chunks[j].hash == chunks[i].hash)
            && if i == 0 then 1.0 < mark
               else var c := |set j | 0 <= j < i && (forall k :: 0 <= k < |waits[i]| ==> waits[i][k].fc != j)
                             :: chunks[j].address|;
                 c > 0 && (TotalLength(chunks[..i]) / 4194304 + 1) as real / c as real < mark
  {
    hide TotalLength, Level.Below, LevelOf, Fated, Joins;
    assert Turn(chunks, waits, i, bin0, mark, reuse);
    EarlierHash(chunks, i);
    var named := set j | 0 <= j < i && (forall k :: 0 <= k < |waits[i]| ==> waits[i][k].fc != j) :: chunks[j].address;
    assert named == Named(chunks, i, waits[i]);
    LevelInNumbers(TotalLength(chunks[..i]), |named|, mark);
  }

  lemma EarlierHash(chunks: seq<FingerChunk>, i: nat)
    requires i < |chunks|
    ensures chunks[i].hash in Hashes(chunks[..i]) <==> exists j :: 0 <= j < i && chunks[j].hash == chunks[i].hash
  {
    if j :| 0 <= j < i && chunks[j].hash == chunks[i].hash {
      assert chunks[..i][j] == chunks[j];
    }
    if chunks[i].hash in Hashes(chunks[..i]) {
      var j :| 0 <= j < i && chunks[..i][j].hash == chunks[i].hash;
      assert chunks[j].hash == chunks[i].hash;
    }
  }

  /** The records of a group, in order. */
  ghost function Group(chunks: seq<FingerChunk>, nodes: seq<ChunkNode>): seq<FingerChunk>
    requires forall k :: 0 <= k < |nodes| ==> nodes[k].fc < |chunks|
  {
    seq(|nodes|, k requires 0 <= k < |nodes| => chunks[nodes[k].fc])
  }

  /** The fate of a group: stored again exactly if its bytes are below the reuse share of 4 MiB. */
  lemma FateInNumbers(chunks: seq<FingerChunk>, group: seq<ChunkNode>, reuse: real, k: nat)
    requires Fated(chunks, group, reuse) && k < |group|
    ensures chunks[group[k].fc].isNew <==> TotalLength(Group(chunks, group)) as real < reuse * 4194304.0
  {
    hide PendingLength, TotalLength;
    PendingTotal(chunks, group);
    Quotient(PendingLength(group, chunks) as real, 4194304.0, reuse);
  }

  /** Every record held back waits in one last group, up to a turn `m`, and shares the fate of that group. */
  lemma {:induction false} HeldFate(chunks: seq<FingerChunk>, waits: seq<seq<ChunkNode>>, bin0: Bin, bin: Bin,
                                    locks: seq<nat>, mark: real, reuse: real, i: nat, from: nat) returns (m: nat)
    requires CflStream(chunks, waits, bin0, bin, locks, mark, reuse)
    requires i < |chunks| && locks[i] == 1 && i < from <= |chunks|
    requires from == i + 1 || IsPending(waits[from], i)
    ensures i < m <= |chunks| && IsPending(waits[m], i) && (m < |chunks| ==> !IsPending(waits[m + 1], i))
    ensures forall k :: 0 <= k < |waits[m]| ==> waits[m][k].fc < |chunks|
    ensures chunks[i].isNew <==> TotalLength(Group(chunks, waits[m])) as real < reuse * 4194304.0
    decreases |chunks| - from
  {
    hide TotalLength, PendingLength, Hashes, LevelAt, Level.Below;
    if from == i + 1 {
      assert Turn(chunks, waits, i, bin0, mark, reuse);
      assert waits[from][|waits[from]| - 1].fc == i;
    }
    if from < |chunks| && IsPending(waits[from + 1], i) {
      m := HeldFate(chunks, waits, bin0, bin, locks, mark, reuse, i, from + 1);
    } else {
      m := from;
      if from < |chunks| {
        assert Turn(chunks, waits, from, bin0, mark, reuse);
        StillPending(waits[from], waits[from + 1], i, from);
      }
      var k :| 0 <= k < |waits[m]| && waits[m][k].fc == i;
      FateInNumbers(chunks, waits[m], reuse, k);
    }
  }

  lemma StillPending(waiting: seq<ChunkNode>, next: seq<ChunkNode>, i: nat, n: nat)
    requires IsPending(waiting, i)
    ensures Joins(waiting, next, n) || next == waiting ==> IsPending(next, i)
  {
    var k :| 0 <= k < |waiting| && waiting[k].fc == i;
    if Joins(waiting, next, n) {
      assert next[k] == next[..|next| - 1][k];
    }
  }

  lemma {:induction false} PendingTotal(chunks: seq<FingerChunk>, nodes: seq<ChunkNode>)
    requires forall k :: 0 <= k < |nodes| ==> nodes[k].fc < |chunks|
    ensures PendingLength(nodes, chunks) == TotalLength(Group(chunks, nodes))
  {
    hide TotalLength;
    TotalNil();
    if nodes != [] {
      PendingTotal(chunks, nodes[1..]);
      TotalCons(chunks[nodes[0].fc], Group(chunks, nodes[1..]));
      assert Group(chunks, nodes) == [chunks[nodes[0].fc]] + Group(chunks, nodes[1..]);
    }
  }

  /** Below a water mark of zero no record is held back, and so no duplicate is stored again. */
  lemma NoneHeldBack(chunks: seq<FingerChunk>, waits: seq<seq<ChunkNode>>, bin0: Bin, bin: Bin, locks: seq<nat>,
                     mark: real, reuse: real)
    requires CflStream(chunks, waits, bin0, bin, locks, mark, reuse) && mark <= 0.0
    ensures forall i :: 0 <= i < |chunks| ==> locks[i] == 0
    ensures forall i :: 0 <= i < |chunks| ==>
              (chunks[i].isNew <==> chunks[i].hash !in bin0 && chunks[i].hash !in Hashes(chunks[..i]))
  {
    hide Fated, Hashes, Named, TotalLength, IsPending, Joins, Selected;
    forall i | 0 <= i < |chunks|
      ensures locks[i] == 0
      ensures chunks[i].isNew <==> chunks[i].hash !in bin0 && chunks[i].hash !in Hashes(chunks[..i])
    {
      assert Turn(chunks, waits, i, bin0, mark, reuse);
      NotSelected(chunks, waits, i, bin0, mark);
    }
  }

  lemma NotSelected(chunks: seq<FingerChunk>, waits: seq<seq<ChunkNode>>, i: nat, bin0: Bin, mark: real)
    requires i < |chunks| && i < |waits| && mark <= 0.0
    ensures !Selected(chunks, waits, i, bin0, mark)
  {
    hide Hashes, Named, TotalLength;
    var den := LevelAt(chunks, i, waits[i]).den;
    assert mark * den as real <= 0.0;
  }
}
