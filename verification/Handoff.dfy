/** client/src/simulate.c: the deduplication thread passes files to the result thread through a
    queue, while a rewrite policy may still hold back the decision on some of their chunks by
    holding the chunk's mutex. The deduplication thread carries out a legal trace, one action
    at a time; every interleaving with the result thread is a run of this machine. */
module Handoff {
  import opened Types
  import opened ChunkDedup
  import opened Trace
  import L = Lru

  /** Containers in `simulator_traditional_restore_cache`. */
  const CACHE_SIZE := 4

  /** An element of `simulate_chunk_dedup_queue`: a file, which is a run of records, or the mark
      of the end of the stream. */
  datatype Item = File(first: nat, end: nat) | StreamEnd

  /** What the result thread did with the record it is at. */
  datatype Stage = Waiting | Holding | Counted | Looked

  /** The result thread waits for an item, is at record `i` of a file, or is through. */
  datatype Reader = Popping | Reading(i: nat, end: nat, stage: Stage) | Stopped

  datatype State = State(
    /** The deduplication thread's next action, and the items that were taken from the queue. */
    k: nat,
    popped: nat,
    reader: Reader,
    /** What the result thread read from the records, in order. */
    flags: seq<bool>,
    addresses: seq<Address>,
    /** `total_dedup_size`, `restore_segments`, and the cache with its counter of misses. */
    total: nat,
    segments: set<Address>,
    cache: seq<Address>,
    misses: nat)

  const START := State(0, 0, Popping, [], [], 0, {}, [], 0)

  /** All items ever pushed. */
  ghost function Items(trace: seq<Action>): seq<Item> {
    if trace == [] then [] else
      var init := trace[..|trace| - 1];
      Items(init) + NewItems(Replay(init), trace[|trace| - 1])
  }

  /** What an action puts into the queue. */
  ghost function NewItems(log: Log, a: Action): seq<Item> {
    match a
    case Push => [File(log.pushed, |log.recs|)]
    case End => [StreamEnd]
    case _ => []
  }

  /** The shared memory after the first `k` actions. */
  ghost function At(trace: seq<Action>, k: nat): Log
    requires k <= |trace|
  {
    Replay(trace[..k])
  }

  predicate HasMutex(s: State, i: nat) {
    s.reader.Reading? && s.reader.i == i && !s.reader.stage.Waiting?
  }

  // ------------------------------------------------------------------------ steps

  /** The deduplication thread performs its next action. It waits if it wants a mutex that the
      result thread has. */
  ghost predicate Work(trace: seq<Action>, s: State, t: State) {
    && s.k < |trace| && !(trace[s.k].Lock? && HasMutex(s, trace[s.k].i))
    && t == s.(k := s.k + 1)
  }

  ghost predicate Pop(trace: seq<Action>, s: State, t: State) {
    && s.reader.Popping? && s.k <= |trace| && s.popped < |Items(trace[..s.k])|
    && t == s.(popped := s.popped + 1, reader :=
         match Items(trace[..s.k])[s.popped]
         case File(first, end) => Reading(first, end, Waiting)
         case StreamEnd => Stopped)
  }

  /** It has a record before it, and the record's mutex if it is past waiting. */
  ghost predicate Facing(trace: seq<Action>, s: State, stage: Stage) {
    && s.k <= |trace| && s.reader.Reading? && s.reader.stage == stage
    && s.reader.i < s.reader.end && s.reader.i < |At(trace, s.k).recs|
  }

  /** It takes the mutex, once the policy does not hold it. */
  ghost predicate Take(trace: seq<Action>, s: State, t: State) {
    && Facing(trace, s, Waiting) && !At(trace, s.k).recs[s.reader.i].fc.locked
    && t == s.(reader := s.reader.(stage := Holding))
  }

  /** It reads the flag and counts a duplicate. */
  ghost predicate Count(trace: seq<Action>, s: State, t: State) {
    && Facing(trace, s, Holding)
    && var fc := At(trace, s.k).recs[s.reader.i].fc;
       t == s.(reader := s.reader.(stage := Counted), flags := s.flags + [fc.isNew],
               total := s.total + if fc.isNew then 0 else fc.length)
  }

  /** It reads the address, notes the container and looks it up in the cache. */
  ghost predicate Look(trace: seq<Action>, s: State, t: State) {
    && Facing(trace, s, Counted)
    && var a := At(trace, s.k).recs[s.reader.i].fc.address;
       t == s.(reader := s.reader.(stage := Looked), addresses := s.addresses + [a], segments := s.segments + {a},
               misses := s.misses + (if a in s.cache then 0 else 1), cache := L.Touch(s.cache, CACHE_SIZE, a))
  }

  /** It gives the mutex back and goes to the next record. */
  ghost predicate Give(trace: seq<Action>, s: State, t: State) {
    && Facing(trace, s, Looked)
    && t == s.(reader := Reading(s.reader.i + 1, s.reader.end, Waiting))
  }

  ghost predicate FileDone(s: State, t: State) {
    && s.reader.Reading? && s.reader.stage.Waiting? && s.reader.i >= s.reader.end
    && t == s.(reader := Popping)
  }

  ghost predicate Step(trace: seq<Action>, s: State, t: State) {
    || Work(trace, s, t) || Pop(trace, s, t) || Take(trace, s, t) || Count(trace, s, t)
    || Look(trace, s, t) || Give(trace, s, t) || FileDone(s, t)
  }

  ghost predicate Run(trace: seq<Action>, states: seq<State>) {
    && states != [] && states[0] == START
    && forall i :: 0 < i < |states| ==> StepTo(trace, states, i)
  }

  ghost predicate StepTo(trace: seq<Action>, states: seq<State>, i: nat)
    requires 0 < i < |states|
  {
    Step(trace, states[i - 1], states[i])
  }

  lemma RunInit(trace: seq<Action>, states: seq<State>)
    requires Run(trace, states) && |states| > 1
    ensures Run(trace, states[..|states| - 1]) && Step(trace, states[|states| - 2], states[|states| - 1])
  {
    hide Step;
    var init := states[..|states| - 1];
    forall i | 0 < i < |init|
      ensures StepTo(trace, init, i)
    {
      assert StepTo(trace, states, i);
    }
    assert StepTo(trace, states, |states| - 1);
  }

  // -------------------------------------------------------------------- the queue

  /** How many records the items cover. */
  ghost function Reached(items: seq<Item>): nat {
    if items == [] then 0 else
      match items[|items| - 1]
      case File(_, end) => end
      case StreamEnd => Reached(items[..|items| - 1])
  }

  /** The files follow one another, and the mark of the end is the last item if it is there. */
  ghost predicate InOrder(items: seq<Item>, pushed: nat, ended: bool) {
    && Reached(items) == pushed
    && (ended <==> items != [] && items[|items| - 1].StreamEnd?)
    && forall j :: 0 <= j < |items| ==> ItemAt(items, j, pushed)
  }

  ghost predicate ItemAt(items: seq<Item>, j: nat, pushed: nat)
    requires j < |items|
  {
    match items[j]
    case File(first, end) => first == Reached(items[..j]) && first <= end <= pushed
    case StreamEnd => j == |items| - 1
  }

  lemma {:induction false} ItemsInOrder(trace: seq<Action>)
    requires Legal(trace)
    ensures InOrder(Items(trace), Replay(trace).pushed, Replay(trace).ended)
  {
    hide InOrder, NewItems, Allowed, Perform;
    if trace == [] {
      NoItems();
    } else {
      var init := trace[..|trace| - 1];
      ItemsInOrder(init);
      LegalCounts(init);
      OrderStep(Items(init), Replay(init), trace[|trace| - 1]);
    }
  }

  lemma NoItems()
    ensures InOrder([], EMPTY.pushed, EMPTY.ended)
  {
  }

  lemma OrderStep(items: seq<Item>, log: Log, a: Action)
    requires InOrder(items, log.pushed, log.ended) && Allowed(log, a) && log.pushed <= |log.recs|
    ensures InOrder(items + NewItems(log, a), Perform(log, a).pushed, Perform(log, a).ended)
  {
    var more, now := items + NewItems(log, a), Perform(log, a);
    assert more[..|items|] == items;
    forall j | 0 <= j < |more|
      ensures ItemAt(more, j, now.pushed)
    {
      if j < |items| {
        assert ItemAt(items, j, log.pushed);
        assert more[..j] == items[..j];
      }
    }
  }

  lemma {:induction false} ItemsGrow(trace: seq<Action>, k: nat)
    requires k <= |trace|
    ensures Items(trace[..k]) <= Items(trace)
    decreases |trace|
  {
    if k == |trace| {
      assert trace[..k] == trace;
    } else {
      var init := trace[..|trace| - 1];
      ItemsGrow(init, k);
      assert init[..k] == trace[..k];
    }
  }

  // -------------------------------------------------------------------- invariant

  /** Bytes of the duplicates among the records. */
  ghost function DuplicateBytes(cs: seq<FingerChunk>): nat {
    if cs == [] then 0 else
      var last := cs[|cs| - 1];
      DuplicateBytes(cs[..|cs| - 1]) + if last.isNew then 0 else last.length
  }

  /** Of new records it is nothing, of duplicates all their bytes. */
  lemma {:induction false} DuplicateBytesPure(cs: seq<FingerChunk>)
    ensures (forall i :: 0 <= i < |cs| ==> cs[i].isNew) ==> DuplicateBytes(cs) == 0
    ensures (forall i :: 0 <= i < |cs| ==> !cs[i].isNew) ==> DuplicateBytes(cs) == TotalLength(cs)
  {
    if cs != [] {
      DuplicateBytesPure(cs[..|cs| - 1]);
    }
  }

  lemma {:induction false} DuplicateBytesConcat(a: seq<FingerChunk>, b: seq<FingerChunk>)
    ensures DuplicateBytes(a + b) == DuplicateBytes(a) + DuplicateBytes(b)
  {
    if b == [] {
      assert a + b == a;
    } else {
      DuplicateBytesConcat(a, b[..|b| - 1]);
      assert (a + b)[..|a + b| - 1] == a + b[..|b| - 1];
    }
  }

  /** It is what the duplicates take up in all containers together. */
  lemma {:induction false} DuplicateBytesWeight(cs: seq<FingerChunk>, addrs: set<Address>)
    requires forall i :: 0 <= i < |cs| && !cs[i].isNew ==> cs[i].address in addrs
    ensures DuplicateBytes(cs) == Weight(cs, addrs)
  {
    if cs != [] {
      DuplicateBytesWeight(cs[..|cs| - 1], addrs);
    }
  }

  /** The bytes of the records whose fingerprint is in the old index or came earlier, whatever
      the flags say. */
  ghost function RepeatedBytes(cs: seq<FingerChunk>, known: set<Fingerprint>): nat {
    if cs == [] then 0 else
      (if cs[0].hash in known then cs[0].length else 0) + RepeatedBytes(cs[1..], known + {cs[0].hash})
  }

  /** When exactly the first records of unknown fingerprints are new, the total is the repeated bytes. */
  lemma {:induction false} DuplicatesAreRepeats(cs: seq<FingerChunk>, known: set<Fingerprint>)
    requires forall i :: 0 <= i < |cs| ==>
               (cs[i].isNew <==> cs[i].hash !in known && forall j :: 0 <= j < i ==> cs[j].hash != cs[i].hash)
    ensures DuplicateBytes(cs) == RepeatedBytes(cs, known)
  {
    if cs != [] {
      var rest, more := cs[1..], known + {cs[0].hash};
      forall i | 0 <= i < |rest|
        ensures rest[i].isNew <==> rest[i].hash !in more && forall j :: 0 <= j < i ==> rest[j].hash != rest[i].hash
      {
        assert rest[i] == cs[i + 1];
        assert forall j :: 0 <= j < i ==> rest[j] == cs[j + 1];
        if rest[i].hash !in more && forall j :: 0 <= j < i ==> rest[j].hash != rest[i].hash {
          forall j | 0 <= j < i + 1
            ensures cs[j].hash != cs[i + 1].hash
          {
            assert j > 0 ==> cs[j] == rest[j - 1];
          }
        }
      }
      DuplicatesAreRepeats(rest, more);
      DuplicateBytesConcat([cs[0]], rest);
      assert cs == [cs[0]] + rest && [cs[0]][..0] == [];
    }
  }

  /** Streams that agree in fingerprints and lengths repeat the same bytes. */
  lemma {:induction false} RepeatedSame(a: seq<FingerChunk>, b: seq<FingerChunk>, known: set<Fingerprint>)
    requires |a| == |b| && forall i :: 0 <= i < |a| ==> SameIdent(a[i], b[i])
    ensures RepeatedBytes(a, known) == RepeatedBytes(b, known)
  {
    if a != [] {
      RepeatedSame(a[1..], b[1..], known + {a[0].hash});
    }
  }

  ghost function Addresses(cs: seq<FingerChunk>): seq<Address> {
    seq(|cs|, i requires 0 <= i < |cs| => cs[i].address)
  }

  /** The records in their final form. */
  ghost function Final(trace: seq<Action>): seq<FingerChunk> {
    Chunks(Replay(trace).recs)
  }

  /** The result thread's next record. */
  ghost function Next(items: seq<Item>, s: State): nat {
    if s.reader.Reading? then s.reader.i
    else if s.popped <= |items| then Reached(items[..s.popped]) else 0
  }

  ghost predicate Place(items: seq<Item>, log: Log, s: State) {
    && s.popped <= |items|
    && match s.reader
       case Popping => s.popped > 0 ==> items[s.popped - 1].File?
       case Reading(i, end, stage) =>
         && s.popped > 0 && items[s.popped - 1].File? && items[s.popped - 1].end == end && i <= end
         && (!stage.Waiting? ==> i < end && Quiet(log, i))
       case Stopped => s.popped > 0 && items[s.popped - 1].StreamEnd?
  }

  /** Everything read so far is what the records say in the end. */
  ghost predicate Exact(final: seq<FingerChunk>, n: nat, s: State) {
    && |s.flags| == n + (if s.reader.Reading?
                         && (s.reader.stage.Counted? || s.reader.stage.Looked?) then 1 else 0) <= |final|
    && |s.addresses| == n + (if s.reader.Reading? && s.reader.stage.Looked? then 1 else 0)
    && (forall j :: 0 <= j < |s.flags| ==> s.flags[j] == final[j].isNew)
    && s.addresses == Addresses(final[..|s.addresses|])
    && s.total == DuplicateBytes(final[..|s.flags|])
    && s.segments == Elems(s.addresses)
    && s.cache == L.Content(s.addresses, CACHE_SIZE) && s.misses == L.Misses(s.addresses, CACHE_SIZE)
  }

  ghost predicate Inv(trace: seq<Action>, s: State) {
    && s.k <= |trace|
    && Place(Items(trace[..s.k]), At(trace, s.k), s)
    && Exact(Final(trace), Next(Items(trace[..s.k]), s), s)
  }

  lemma InvStart(trace: seq<Action>)
    ensures Inv(trace, START)
  {
    assert Final(trace)[..0] == [];
    assert Addresses([]) == [];
    assert trace[..0] == [];
  }

  lemma InvStep(trace: seq<Action>, s: State, t: State)
    requires Legal(trace) && Inv(trace, s) && Step(trace, s, t)
    ensures Inv(trace, t)
  {
    hide Exact, Place, Items, Reached, Replay, Legal;
    if Work(trace, s, t) {
      WorkKeeps(trace, s, t);
    } else if Pop(trace, s, t) {
      PopKeeps(trace, s, t);
    } else if Take(trace, s, t) {
      TakeKeeps(trace, s, t);
    } else if Count(trace, s, t) {
      CountKeeps(trace, s, t);
    } else if Look(trace, s, t) {
      LookKeeps(trace, s, t);
    } else if Give(trace, s, t) {
      GiveKeeps(trace, s, t);
    } else {
      DoneKeeps(trace, s, t);
    }
  }

  lemma WorkKeeps(trace: seq<Action>, s: State, t: State)
    requires Legal(trace) && Inv(trace, s) && Work(trace, s, t)
    ensures Inv(trace, t)
  {
    hide DuplicateBytes, Legal, L.Content, L.Misses, Items, Reached, Allowed, Perform, Quiet;
    var a, now := trace[s.k], trace[..s.k];
    assert now + [a] == trace[..t.k];
    LegalPrefix(trace, s.k);
    ReplaySnoc(now, a);
    ItemsGrow(trace[..t.k], s.k);
    assert trace[..t.k][..s.k] == now;
    assert Items(trace[..t.k])[..s.popped] == Items(now)[..s.popped];
    if s.reader.Reading? && !s.reader.stage.Waiting? {
      QuietStep(Replay(now), a, s.reader.i);
    }
  }

  lemma PopKeeps(trace: seq<Action>, s: State, t: State)
    requires Legal(trace) && Inv(trace, s) && Pop(trace, s, t)
    ensures Inv(trace, t)
  {
    hide DuplicateBytes, Legal, Items, L.Content, L.Misses;
    var items := Items(trace[..s.k]);
    LegalPrefix(trace, s.k);
    ItemsInOrder(trace[..s.k]);
    assert ItemAt(items, s.popped, At(trace, s.k).pushed);
    assert items[..t.popped][..s.popped] == items[..s.popped];
  }

  lemma TakeKeeps(trace: seq<Action>, s: State, t: State)
    requires Legal(trace) && Inv(trace, s) && Take(trace, s, t)
    ensures Inv(trace, t)
  {
    hide DuplicateBytes, Legal, Items, Reached, L.Content, L.Misses;
    var items := Items(trace[..s.k]);
    LegalPrefix(trace, s.k);
    ItemsInOrder(trace[..s.k]);
    assert ItemAt(items, s.popped - 1, At(trace, s.k).pushed);
  }

  /** What the result thread sees while it has the mutex is final. */
  lemma HeldIsFinal(trace: seq<Action>, s: State, i: nat)
    requires Legal(trace) && Inv(trace, s) && HasMutex(s, i)
    ensures i < |At(trace, s.k).recs| && i < |Final(trace)|
    ensures At(trace, s.k).recs[i].fc == Final(trace)[i]
  {
    QuietIsFinal(trace, s.k, i);
  }

  lemma CountKeeps(trace: seq<Action>, s: State, t: State)
    requires Legal(trace) && Inv(trace, s) && Count(trace, s, t)
    ensures Inv(trace, t)
  {
    hide Legal, Items, Reached, L.Content, L.Misses, Replay;
    var final := Final(trace);
    HeldIsFinal(trace, s, s.reader.i);
    assert final[..|t.flags|][..|s.flags|] == final[..|s.flags|];
  }

  lemma LookKeeps(trace: seq<Action>, s: State, t: State)
    requires Legal(trace) && Inv(trace, s) && Look(trace, s, t)
    ensures Inv(trace, t)
  {
    hide DuplicateBytes, Legal, Items, Reached, Replay, L.Content, L.Touch;
    var final, a := Final(trace), At(trace, s.k).recs[s.reader.i].fc.address;
    HeldIsFinal(trace, s, s.reader.i);
    assert t.addresses[..|s.addresses|] == s.addresses;
    assert t.addresses == Addresses(final[..|t.addresses|]);
    ElemsSnoc(s.addresses, a);
    L.TouchIsContent(s.addresses, CACHE_SIZE, a);
  }

  lemma GiveKeeps(trace: seq<Action>, s: State, t: State)
    requires Legal(trace) && Inv(trace, s) && Give(trace, s, t)
    ensures Inv(trace, t)
  {
    hide DuplicateBytes, Legal, Items, Reached, Replay, L.Content, L.Misses;
  }

  lemma DoneKeeps(trace: seq<Action>, s: State, t: State)
    requires Legal(trace) && Inv(trace, s) && FileDone(s, t)
    ensures Inv(trace, t)
  {
    hide DuplicateBytes, Legal, Items, Replay, L.Content, L.Misses;
    var items := Items(trace[..s.k]);
    assert items[..s.popped][s.popped - 1] == items[s.popped - 1];
  }

  lemma {:induction false} InvRun(trace: seq<Action>, states: seq<State>)
    requires Legal(trace) && Run(trace, states)
    ensures Inv(trace, states[|states| - 1])
  {
    hide Step, Inv, Legal;
    if |states| == 1 {
      InvStart(trace);
    } else {
      RunInit(trace, states);
      InvRun(trace, states[..|states| - 1]);
      InvStep(trace, states[|states| - 2], states[|states| - 1]);
    }
  }

  // ----------------------------------------------------------------------- safety

  /** Whatever the result thread has read, at any moment of any run, is what the record says
      at the end of the stream. */
  lemma ReadIsFinal(trace: seq<Action>, states: seq<State>)
    requires Legal(trace) && Run(trace, states)
    ensures var s, final := states[|states| - 1], Final(trace);
            && |s.addresses| <= |s.flags| <= |final|
            && (forall j :: 0 <= j < |s.flags| ==> s.flags[j] == final[j].isNew)
            && (forall j :: 0 <= j < |s.addresses| ==> s.addresses[j] == final[j].address)
  {
    hide Step, Legal, Replay, Items, Reached, DuplicateBytes;
    InvRun(trace, states);
    var s := states[|states| - 1];
    assert forall j :: 0 <= j < |s.addresses| ==> s.addresses[j] == Addresses(Final(trace)[..|s.addresses|])[j];
  }

  /** No race: while the result thread has a record's mutex, the policy does not have it, and
      the deduplication thread's next action is about another record. So it never waits. */
  lemma NoRace(trace: seq<Action>, states: seq<State>, i: nat)
    requires Legal(trace) && Run(trace, states)
    ensures var s := states[|states| - 1];
            s.k <= |trace| && (s.k < |trace| ==> Step(trace, s, s.(k := s.k + 1)))
    ensures var s := states[|states| - 1];
            s.reader.Reading? && s.reader.i == i && !s.reader.stage.Waiting? ==>
              && i < |At(trace, s.k).recs| && !At(trace, s.k).recs[i].fc.locked
              && (s.k < |trace| ==>
                    && trace[s.k] != Lock(i) && trace[s.k] != Unlock(i)
                    && (forall isNew :: trace[s.k] != SetNew(i, isNew))
                    && (forall address :: trace[s.k] != SetAddress(i, address)))
  {
    hide Step, Exact;
    InvRun(trace, states);
    var s := states[|states| - 1];
    LegalPrefix(trace, s.k);
    if s.k < |trace| {
      CanWork(trace, s);
    }
  }

  lemma CanWork(trace: seq<Action>, s: State)
    requires Legal(trace) && Inv(trace, s) && s.k < |trace|
    ensures Step(trace, s, s.(k := s.k + 1))
  {
    hide Exact;
    LegalPrefix(trace, s.k);
    assert Work(trace, s, s.(k := s.k + 1));
  }

  // --------------------------------------------------------------------- liveness

  /** What the result thread still has to do, and the deduplication thread's actions. */
  ghost function Left(trace: seq<Action>, s: State): int {
    (|trace| - s.k) + 2 * (|Items(trace)| - s.popped) +
    4 * (|Final(trace)| - Next(Items(trace), s)) +
    match s.reader
    case Reading(_, _,
                 stage) => 1 - (match stage case Waiting => 0 case Holding => 1 case Counted => 2 case Looked => 3)
    case _ => 0
  }

  /** Every step of either thread brings the run closer to its end. */
  lemma StepsDown(trace: seq<Action>, s: State, t: State)
    requires Legal(trace) && Inv(trace, s) && Step(trace, s, t)
    ensures 0 <= Left(trace, t) < Left(trace, s)
  {
    hide Legal, Replay, DuplicateBytes, Exact, Items, L.Content, L.Misses, L.Touch;
    InvStep(trace, s, t);
    NextSame(trace, s);
    NextSame(trace, t);
    LeftIsNat(trace, t);
    if Pop(trace, s, t) {
      PopPlace(trace, s, t);
    } else if FileDone(s, t) {
      var items := Items(trace[..s.k]);
      assert items[..s.popped][s.popped - 1] == items[s.popped - 1];
    }
  }

  lemma PopPlace(trace: seq<Action>, s: State, t: State)
    requires Legal(trace) && Inv(trace, s) && Pop(trace, s, t)
    ensures Next(Items(trace[..s.k]), t) == Next(Items(trace[..s.k]), s)
  {
    hide Legal, Replay, Exact, Items;
    var items := Items(trace[..s.k]);
    LegalPrefix(trace, s.k);
    ItemsInOrder(trace[..s.k]);
    assert ItemAt(items, s.popped, At(trace, s.k).pushed);
    assert items[..t.popped][..s.popped] == items[..s.popped];
  }

  lemma NextSame(trace: seq<Action>, s: State)
    requires Inv(trace, s)
    ensures s.popped <= |Items(trace)| && Next(Items(trace), s) == Next(Items(trace[..s.k]), s)
  {
    hide Exact;
    ItemsGrow(trace, s.k);
    assert Items(trace)[..s.popped] == Items(trace[..s.k])[..s.popped];
  }

  lemma LeftIsNat(trace: seq<Action>, s: State)
    requires Legal(trace) && Inv(trace, s)
    ensures Left(trace, s) >= 0
  {
    NextSame(trace, s);
    if s.reader.Reading? && !s.reader.stage.Waiting? {
      HeldIsFinal(trace, s, s.reader.i);
    }
  }

  /** So a run has bounded length. */
  lemma {:induction false} RunsAreFinite(trace: seq<Action>, states: seq<State>)
    requires Legal(trace) && Run(trace, states)
    ensures |states| - 1 + Left(trace, states[|states| - 1]) <= Left(trace, START)
    ensures |states| - 1 <= |trace| + 2 * |Items(trace)| + 4 * |Final(trace)|
  {
    hide Step, Inv, Legal, Left;
    InvRun(trace, states);
    LeftIsNat(trace, states[|states| - 1]);
    LeftAtStart(trace);
    if |states| > 1 {
      RunInit(trace, states);
      RunsAreFinite(trace, states[..|states| - 1]);
      InvRun(trace, states[..|states| - 1]);
      StepsDown(trace, states[|states| - 2], states[|states| - 1]);
    }
  }

  lemma LeftAtStart(trace: seq<Action>)
    ensures Left(trace, START) == |trace| + 2 * |Items(trace)| + 4 * |Final(trace)|
  {
    assert Items(trace)[..0] == [];
  }

  /** The two threads are never stuck before both are through, if the deduplication thread
      carries out a complete trace. */
  lemma NoDeadlock(trace: seq<Action>, states: seq<State>) returns (next: State)
    requires Complete(trace) && Run(trace, states)
    ensures var s := states[|states| - 1];
            (s.reader.Stopped? && s.k == |trace|) || Step(trace, s, next)
  {
    hide Step, Inv, Legal, Replay;
    InvRun(trace, states);
    next := states[|states| - 1];
    InRange(trace, next);
    if next.k < |trace| {
      CanWork(trace, next);
      next := next.(k := next.k + 1);
    } else if !next.reader.Stopped? {
      next := CanRead(trace, next);
    }
  }

  lemma InRange(trace: seq<Action>, s: State)
    requires Inv(trace, s)
    ensures s.k <= |trace|
  {
  }

  /** Once the deduplication thread is through, the result thread can go on. */
  lemma CanRead(trace: seq<Action>, s: State) returns (t: State)
    requires Complete(trace) && Inv(trace, s) && s.k == |trace| && !s.reader.Stopped?
    ensures Step(trace, s, t)
  {
    hide Legal, Exact, Replay;
    assert trace[..s.k] == trace;
    ItemsInOrder(trace);
    var log := Replay(trace);
    match s.reader {
      case Popping =>
        AtEnd(trace, s);
        t := s.(popped := s.popped + 1, reader := match Items(trace)[s.popped]
               case File(first, end) => Reading(first, end, Waiting)
               case StreamEnd => Stopped);
        assert Pop(trace, s, t);
      case Reading(i, end, stage) =>
        assert ItemAt(Items(trace), s.popped - 1, log.pushed);
        if i == end {
          t := s.(reader := Popping);
          assert FileDone(s, t);
        } else {
          t := CanHandle(trace, s);
        }
    }
  }

  lemma AtEnd(trace: seq<Action>, s: State)
    requires Complete(trace) && Inv(trace, s) && s.k == |trace| && s.reader.Popping?
    ensures s.popped < |Items(trace)|
  {
    assert trace[..s.k] == trace;
    ItemsInOrder(trace);
  }

  lemma CanHandle(trace: seq<Action>, s: State) returns (t: State)
    requires Complete(trace) && Inv(trace, s) && s.k == |trace| && s.reader.Reading? && s.reader.i < s.reader.end
    requires s.reader.end <= Replay(trace).pushed
    ensures Step(trace, s, t)
  {
    hide Legal, Exact, Items, Replay;
    assert trace[..s.k] == trace;
    LegalCounts(trace);
    var i := s.reader.i;
    var fc := Replay(trace).recs[i].fc;
    assert Trace.Counted(Replay(trace).recs[i]);
    match s.reader.stage {
      case Waiting =>
        t := s.(reader := s.reader.(stage := Holding));
        assert Take(trace, s, t);
      case Holding =>
        t := s.(reader := s.reader.(stage := Stage.Counted), flags := s.flags + [fc.isNew],
                total := s.total + if fc.isNew then 0 else fc.length);
        assert Count(trace, s, t);
      case Counted =>
        t := s.(reader := s.reader.(stage := Looked), addresses := s.addresses + [fc.address],
                segments := s.segments + {fc.address},
                misses := s.misses + (if fc.address in s.cache then 0 else 1),
                cache := L.Touch(s.cache, CACHE_SIZE, fc.address));
        assert Look(trace, s, t);
      case Looked =>
        t := s.(reader := Reading(i + 1, s.reader.end, Waiting));
        assert Give(trace, s, t);
    }
  }

  // ----------------------------------------------------------------------- result

  /** When the result thread has stopped, it has read every record in its final form: the total
      is the bytes of the records finally marked duplicate, the cache went through the final
      addresses and missed as often as an LRU cache of its size does, and the containers noted
      for the restore are those that the records name. */
  lemma TotalIsExact(trace: seq<Action>, states: seq<State>)
    requires Complete(trace) && Run(trace, states) && states[|states| - 1].reader.Stopped?
    ensures var s, final := states[|states| - 1], Final(trace);
            && s.k == |trace|
            && |s.flags| == |s.addresses| == |final|
            && s.total == DuplicateBytes(final)
            && s.addresses == Addresses(final)
            && s.cache == L.Content(Addresses(final), CACHE_SIZE)
            && s.misses == L.Misses(Addresses(final), CACHE_SIZE)
            && s.segments == (set fc | fc in final :: fc.address)
            && |s.segments| == L.Misses(Addresses(final), 0) <= s.misses
  {
    hide Step, Legal, Items, Replay, DuplicateBytes, L.Content, L.Misses, Reached, Released;
    InvRun(trace, states);
    var s, final := states[|states| - 1], Final(trace);
    StoppedAtEnd(trace, s);
    assert final[..|final|] == final;
    NamesOf(final);
    Distincts(s.addresses);
    L.MissesUnbounded(s.addresses);
    L.MissesMonotone(s.addresses, CACHE_SIZE, 0);
  }

  lemma StoppedAtEnd(trace: seq<Action>, s: State)
    requires Complete(trace) && Inv(trace, s) && s.reader.Stopped?
    ensures s.k == |trace| && Next(Items(trace[..s.k]), s) == |Final(trace)|
  {
    hide Legal, Exact, Items;
    var items := Items(trace[..s.k]);
    LegalPrefix(trace, s.k);
    ItemsInOrder(trace[..s.k]);
    assert ItemAt(items, s.popped - 1, At(trace, s.k).pushed);
    assert trace[..|trace|] == trace;
    assert items[..s.popped] == items;
  }

  lemma NamesOf(final: seq<FingerChunk>)
    ensures Elems(Addresses(final)) == (set fc | fc in final :: fc.address)
  {
    var names := Addresses(final);
    forall fc | fc in final
      ensures fc.address in names
    {
      var j :| 0 <= j < |final| && final[j] == fc;
      assert names[j] == fc.address;
    }
  }

  lemma StoppedLast(trace: seq<Action>, s: State)
    requires Complete(trace) && Inv(trace, s) && s.reader.Stopped? && s.k == |trace|
    ensures s.popped == |Items(trace)|
  {
    hide Legal, Exact, Items;
    assert trace[..s.k] == trace;
    ItemsInOrder(trace);
    assert ItemAt(Items(trace), s.popped - 1, Replay(trace).pushed);
  }

  /** The names in a trace, counted once each, are as many as its list of recent names. */
  lemma Distincts(s: seq<Address>)
    ensures |Elems(s)| == |L.Recent(s)|
  {
    L.RecentIsTrace(s);
    assert Elems(s) == Elems(L.Recent(s));
    DistinctSize(L.Recent(s));
  }
}
