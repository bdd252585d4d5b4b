/** What the deduplication thread does to the chunk records, one atomic action at a time, and
    the discipline that makes it safe to pass the records to another thread meanwhile. Every
    policy keeps the trace of its actions and proves that it is legal. */
module Trace {
  import opened Types
  import opened ChunkDedup

  /** The actions on record `i`: take its mutex, write its flag, write its address, give the
      mutex back. A record enters the stream with its file; the file is pushed to the next
      thread, or dropped with all its records; at last the end of the stream is pushed. */
  datatype Action =
    | Append(fc: FingerChunk)
    | Lock(i: nat)
    | SetNew(i: nat, isNew: bool)
    | SetAddress(i: nat, address: Address)
    | Unlock(i: nat)
    | Push
    | Drop(first: nat)
    | End

  /** A record, and how often its mutex was taken and given back. */
  datatype Rec = Rec(fc: FingerChunk, locks: nat, unlocks: nat)

  /** The records in the stream, how many of them the next thread can see, and the records of
      dropped files. */
  datatype Log = Log(recs: seq<Rec>, pushed: nat, lost: seq<Rec>, ended: bool)

  const EMPTY := Log([], 0, [], false)

  /** The effect of an action on one record. */
  function Change(r: Rec, a: Action): Rec {
    match a
    case Lock(_) => r.(fc := r.fc.(locked := true), locks := r.locks + 1)
    case SetNew(_, isNew) => r.(fc := r.fc.(isNew := isNew))
    case SetAddress(_, address) => r.(fc := r.fc.(address := address))
    case Unlock(_) => r.(fc := r.fc.(locked := false), unlocks := r.unlocks + 1)
    case _ => r
  }

  function Perform(log: Log, a: Action): Log {
    match a
    case Append(fc) => log.(recs := log.recs + [Rec(fc, 0, 0)])
    case Push => log.(pushed := |log.recs|)
    case Drop(first) =>
      if first <= |log.recs| then log.(recs := log.recs[..first], lost := log.lost + log.recs[first..]) else log
    case End => log.(ended := true)
    case _ => if a.i < |log.recs| then log.(recs := log.recs[a.i := Change(log.recs[a.i], a)]) else log
  }

  /** The discipline. A mutex is taken once at most, and only while the record's file is not
      pushed; what the next thread can see is written under the record's mutex only. */
  predicate Allowed(log: Log, a: Action) {
    && !log.ended
    && match a
       case Append(fc) => !fc.locked
       case Lock(i) => log.pushed <= i < |log.recs| && !log.recs[i].fc.locked && log.recs[i].locks == 0
       case SetNew(i, _) => i < |log.recs| && (log.recs[i].fc.locked || log.pushed <= i)
       case SetAddress(i, _) => i < |log.recs| && (log.recs[i].fc.locked || log.pushed <= i)
       case Unlock(i) => i < |log.recs| && log.recs[i].fc.locked
       case Push => true
       case Drop(first) => log.pushed <= first <= |log.recs|
       case End => true
  }

  ghost function Replay(trace: seq<Action>): Log {
    if trace == [] then EMPTY else Perform(Replay(trace[..|trace| - 1]), trace[|trace| - 1])
  }

  ghost predicate Legal(trace: seq<Action>) {
    trace != [] ==> Legal(trace[..|trace| - 1]) && Allowed(Replay(trace[..|trace| - 1]), trace[|trace| - 1])
  }

  ghost function Chunks(recs: seq<Rec>): (cs: seq<FingerChunk>)
    ensures |cs| == |recs|
  {
    seq(|recs|, i requires 0 <= i < |recs| => recs[i].fc)
  }

  lemma ReplaySnoc(trace: seq<Action>, a: Action)
    ensures Replay(trace + [a]) == Perform(Replay(trace), a)
    ensures Legal(trace + [a]) <==> Legal(trace) && Allowed(Replay(trace), a)
  {
    assert (trace + [a])[..|trace|] == trace;
  }

  // ------------------------------------------------------------- what legality gives

  /** A record is locked exactly if its mutex was taken once more than given back, and it is
      taken once at most. */
  ghost predicate Counted(r: Rec) {
    r.locks <= 1 && r.locks == r.unlocks + if r.fc.locked then 1 else 0
  }

  ghost predicate AllCounted(log: Log) {
    && log.pushed <= |log.recs|
    && (forall i :: 0 <= i < |log.recs| ==> Counted(log.recs[i]))
    && forall i :: 0 <= i < |log.lost| ==> Counted(log.lost[i])
  }

  lemma {:induction false} LegalCounts(trace: seq<Action>)
    requires Legal(trace)
    ensures AllCounted(Replay(trace))
  {
    hide Allowed, Perform, Counted, AllCounted;
    if trace == [] {
      assert AllCounted(EMPTY) by { NothingCounted(); }
    } else {
      LegalCounts(trace[..|trace| - 1]);
      CountedStep(Replay(trace[..|trace| - 1]), trace[|trace| - 1]);
    }
  }

  lemma NothingCounted()
    ensures AllCounted(EMPTY)
  {
  }

  lemma CountedStep(log: Log, a: Action)
    requires AllCounted(log) && Allowed(log, a)
    ensures AllCounted(Perform(log, a))
  {
    hide Change, Counted;
    var now := Perform(log, a);
    match a {
      case Append(fc) => NewCounted(fc);
      case Push =>
      case Drop(first) =>
      case End =>
      case _ => ChangeCounted(log.recs[a.i], a);
    }
  }

  lemma NewCounted(fc: FingerChunk)
    requires !fc.locked
    ensures Counted(Rec(fc, 0, 0))
  {
  }

  lemma ChangeCounted(r: Rec, a: Action)
    requires Counted(r) && (a.Lock? ==> !r.fc.locked && r.locks == 0) && (a.Unlock? ==> r.fc.locked)
    ensures Counted(Change(r, a))
  {
  }

  /** Record `i` can be seen by the next thread, and the policy does not hold it. */
  ghost predicate Quiet(log: Log, i: nat) {
    i < log.pushed && i < |log.recs| && !log.recs[i].fc.locked
  }

  lemma QuietStep(log: Log, a: Action, i: nat)
    requires Quiet(log, i) && Allowed(log, a)
    ensures Quiet(Perform(log, a), i) && Perform(log, a).recs[i] == log.recs[i]
  {
  }

  /** Once the policy has given back a pushed record, it never touches it again. */
  lemma {:induction false} QuietIsFinal(trace: seq<Action>, k: nat, i: nat)
    requires Legal(trace) && k <= |trace| && Quiet(Replay(trace[..k]), i)
    ensures Quiet(Replay(trace), i) && Replay(trace).recs[i] == Replay(trace[..k]).recs[i]
    decreases |trace| - k
  {
    if k == |trace| {
      assert trace[..k] == trace;
    } else {
      LegalPrefix(trace, k);
      QuietStep(Replay(trace[..k]), trace[k], i);
      assert trace[..k] + [trace[k]] == trace[..k + 1];
      ReplaySnoc(trace[..k], trace[k]);
      QuietIsFinal(trace, k + 1, i);
    }
  }

  /** Every prefix of a legal trace is legal, and so is the action that follows it. */
  lemma {:induction false} LegalPrefix(trace: seq<Action>, k: nat)
    requires Legal(trace) && k <= |trace|
    ensures Legal(trace[..k]) && (k < |trace| ==> Allowed(Replay(trace[..k]), trace[k]))
    decreases |trace|
  {
    if k == |trace| {
      assert trace[..k] == trace;
    } else {
      var init := trace[..|trace| - 1];
      LegalPrefix(init, k);
      assert init[..k] == trace[..k];
    }
  }

  // --------------------------------------------------------- how a policy keeps its trace

  /** The trace of a policy is legal and leads to the records it has. */
  ghost predicate Traced(trace: seq<Action>, chunks: seq<FingerChunk>) {
    Legal(trace) && !Replay(trace).ended && Chunks(Replay(trace).recs) == chunks
  }

  /** The action is about one record. */
  predicate Local(a: Action) {
    !a.Push? && !a.Drop? && !a.End?
  }

  /** How often the mutex of each record was taken. */
  ghost function Locks(trace: seq<Action>): (s: seq<nat>)
    ensures |s| == |Replay(trace).recs|
  {
    var recs := Replay(trace).recs;
    seq(|recs|, i requires 0 <= i < |recs| => recs[i].locks)
  }

  /** More was done since, but nothing was pushed or dropped, and no mutex of a record that was
      there before was taken. */
  ghost predicate Grown(before: seq<Action>, after: seq<Action>) {
    && Locks(before) <= Locks(after)
    && before <= after
    && (forall i :: |before| <= i < |after| ==> Local(after[i]))
    && Replay(after).pushed == Replay(before).pushed
    && Replay(after).lost == Replay(before).lost
  }

  lemma GrownRefl(trace: seq<Action>)
    ensures Grown(trace, trace)
  {
  }

  lemma GrownKeeps(before: seq<Action>, after: seq<Action>)
    requires Grown(before, after)
    ensures Replay(after).pushed == Replay(before).pushed && Replay(after).lost == Replay(before).lost
    ensures Locks(before) <= Locks(after)
  {
  }

  lemma GrownTransitive(a: seq<Action>, b: seq<Action>, c: seq<Action>)
    requires Grown(a, b) && Grown(b, c)
    ensures Grown(a, c)
  {
  }

  /** Record `i` is new to the stream: its file is not pushed, and its mutex was never taken. */
  ghost predicate Unseen(trace: seq<Action>, i: nat) {
    var log := Replay(trace);
    log.pushed <= i < |log.recs| && log.recs[i].locks == 0
  }

  lemma TracedNothing()
    ensures Traced([], [])
  {
  }

  lemma Performed(trace: seq<Action>, chunks: seq<FingerChunk>, a: Action, now: seq<FingerChunk>)
    requires Traced(trace, chunks) && !a.End? && Allowed(Replay(trace), a)
    requires Chunks(Perform(Replay(trace), a).recs) == now
    ensures Traced(trace + [a], now)
    ensures Local(a) && !a.Lock? ==> Grown(trace, trace + [a])
    ensures a.SetNew? || a.SetAddress? || a.Unlock? ==> Locks(trace + [a]) == Locks(trace)
  {
    ReplaySnoc(trace, a);
  }

  /** A mutex is taken for the first time; the record came in since `start`. */
  lemma Taken(start: seq<Action>, trace: seq<Action>, chunks: seq<FingerChunk>, i: nat)
    requires Grown(start, trace) && Traced(trace, chunks) && |Locks(start)| <= i && Unseen(trace, i)
    ensures Grown(start, trace + [Lock(i)]) && Locks(trace + [Lock(i)]) == Locks(trace)[i := 1]
  {
    ReplaySnoc(trace, Lock(i));
  }

  lemma LocksSize(trace: seq<Action>, chunks: seq<FingerChunk>)
    requires Traced(trace, chunks)
    ensures |Locks(trace)| == |chunks|
  {
  }

  lemma ChangeOne(recs: seq<Rec>, i: nat, a: Action)
    requires i < |recs|
    ensures Chunks(recs[i := Change(recs[i], a)]) == Chunks(recs)[i := Change(recs[i], a).fc]
  {
  }

  method AppendRecord(chunks: seq<FingerChunk>, ghost start: seq<Action>, ghost trace: seq<Action>, fc: FingerChunk)
    returns (now: seq<FingerChunk>, ghost more: seq<Action>)
    requires Grown(start, trace) && Traced(trace, chunks) && !fc.locked
    ensures now == chunks + [fc] && Traced(more, now) && Unseen(more, |chunks|)
    ensures Grown(start, more) && Locks(more) == Locks(trace) + [0]
  {
    LegalCounts(trace);
    now, more := chunks + [fc], trace + [Append(fc)];
    assert Chunks(Perform(Replay(trace), Append(fc)).recs) == now;
    Performed(trace, chunks, Append(fc), now);
    ReplaySnoc(trace, Append(fc));
  }

  method WriteNew(chunks: seq<FingerChunk>, ghost start: seq<Action>, ghost trace: seq<Action>, i: nat, isNew: bool)
    returns (now: seq<FingerChunk>, ghost more: seq<Action>)
    requires Grown(start, trace) && Traced(trace, chunks) && i < |chunks| && (chunks[i].locked || Unseen(trace, i))
    ensures now == chunks[i := chunks[i].(isNew := isNew)] && Traced(more, now)
    ensures Grown(start, more) && Locks(more) == Locks(trace)
    ensures Unseen(trace, i) ==> Unseen(more, i)
  {
    now, more := chunks[i := chunks[i].(isNew := isNew)], trace + [SetNew(i, isNew)];
    ChangeOne(Replay(trace).recs, i, SetNew(i, isNew));
    Performed(trace, chunks, SetNew(i, isNew), now);
    ReplaySnoc(trace, SetNew(i, isNew));
  }

  method WriteAddress(chunks: seq<FingerChunk>, ghost start: seq<Action>, ghost trace: seq<Action>, i: nat,
                      address: Address)
    returns (now: seq<FingerChunk>, ghost more: seq<Action>)
    requires Grown(start, trace) && Traced(trace, chunks) && i < |chunks| && (chunks[i].locked || Unseen(trace, i))
    ensures now == chunks[i := chunks[i].(address := address)] && Traced(more, now)
    ensures Grown(start, more) && Locks(more) == Locks(trace)
    ensures Unseen(trace, i) ==> Unseen(more, i)
  {
    now, more := chunks[i := chunks[i].(address := address)], trace + [SetAddress(i, address)];
    ChangeOne(Replay(trace).recs, i, SetAddress(i, address));
    Performed(trace, chunks, SetAddress(i, address), now);
    ReplaySnoc(trace, SetAddress(i, address));
  }

  /** `pthread_mutex_lock`. */
  method LockRecord(chunks: seq<FingerChunk>, ghost start: seq<Action>, ghost trace: seq<Action>, i: nat)
    returns (now: seq<FingerChunk>, ghost more: seq<Action>)
    requires Grown(start, trace) && Traced(trace, chunks) && i < |chunks| && !chunks[i].locked && Unseen(trace, i)
    requires |Locks(start)| <= i
    ensures now == chunks[i := chunks[i].(locked := true)] && Traced(more, now)
    ensures Grown(start, more) && Locks(more) == Locks(trace)[i := 1]
  {
    now, more := chunks[i := chunks[i].(locked := true)], trace + [Lock(i)];
    ChangeOne(Replay(trace).recs, i, Lock(i));
    Performed(trace, chunks, Lock(i), now);
    Taken(start, trace, chunks, i);
  }

  /** `pthread_mutex_unlock`. */
  method UnlockRecord(chunks: seq<FingerChunk>, ghost start: seq<Action>, ghost trace: seq<Action>, i: nat)
    returns (now: seq<FingerChunk>, ghost more: seq<Action>)
    requires Grown(start, trace) && Traced(trace, chunks) && i < |chunks| && chunks[i].locked
    ensures now == chunks[i := chunks[i].(locked := false)] && Traced(more, now)
    ensures Grown(start, more)
  {
    now, more := chunks[i := chunks[i].(locked := false)], trace + [Unlock(i)];
    ChangeOne(Replay(trace).recs, i, Unlock(i));
    Performed(trace, chunks, Unlock(i), now);
  }

  /** A record becomes a duplicate: first its flag is written, then its address. */
  method TakeOver(chunks: seq<FingerChunk>, ghost start: seq<Action>, ghost trace: seq<Action>, i: nat,
                  address: Address)
    returns (now: seq<FingerChunk>, ghost more: seq<Action>)
    requires Grown(start, trace) && Traced(trace, chunks) && i < |chunks| && (chunks[i].locked || Unseen(trace, i))
    ensures now == chunks[i := chunks[i].(isNew := false, address := address)] && Traced(more, now)
    ensures Locks(more) == Locks(trace) && Grown(start, more) && (Unseen(trace, i) ==> Unseen(more, i))
  {
    hide Traced, Grown, Unseen;
    now, more := WriteNew(chunks, start, trace, i, false);
    now, more := WriteAddress(now, start, more, i, address);
  }

  /** A record was stored: its address is written, and if it was stored again then its flag. */
  method Stored(chunks: seq<FingerChunk>, ghost start: seq<Action>, ghost trace: seq<Action>, i: nat, address: Address,
                again: bool)
    returns (now: seq<FingerChunk>, ghost more: seq<Action>)
    requires Grown(start, trace) && Traced(trace, chunks) && i < |chunks| && (chunks[i].locked || Unseen(trace, i))
    requires !again ==> chunks[i].isNew
    ensures now == chunks[i := chunks[i].(isNew := true, address := address)] && Traced(more, now)
    ensures Grown(start, more) && (Unseen(trace, i) ==> Unseen(more, i))
  {
    hide Traced, Grown, Unseen;
    now, more := WriteAddress(chunks, start, trace, i, address);
    if again {
      now, more := WriteNew(now, start, more, i, true);
    }
  }

  /** A held record is given back, after the writes for storing it again if it was. */
  method GiveBack(chunks: seq<FingerChunk>, ghost trace: seq<Action>, i: nat, again: bool, address: Address)
    returns (now: seq<FingerChunk>, ghost more: seq<Action>)
    requires Traced(trace, chunks) && i < |chunks| && chunks[i].locked
    ensures Traced(more, now) && Grown(trace, more)
    ensures now == chunks[i := if again then chunks[i].(isNew := true, address := address, locked := false)
                               else chunks[i].(locked := false)]
  {
    hide Traced, Grown, Unseen;
    GrownRefl(trace);
    now, more := chunks, trace;
    if again {
      now, more := Stored(now, trace, more, i, address, true);
    }
    now, more := UnlockRecord(now, trace, more, i);
  }

  /** A record enters the stream and is marked against the index, its mutex taken before the
      mark or after it. */
  method Enter(chunks: seq<FingerChunk>, ghost start: seq<Action>, ghost trace: seq<Action>, fc: FingerChunk, bin: Bin,
               lockFirst: bool)
    returns (now: seq<FingerChunk>, ghost more: seq<Action>)
    requires Grown(start, trace) && Traced(trace, chunks) && !fc.locked
    ensures now == chunks + [MarkOf(fc, bin)] && Traced(more, now)
    ensures Grown(start, more) && Locks(more) == Locks(trace) + [1]
  {
    hide Traced, Grown, Unseen, Locks;
    var n := |chunks|;
    GrownKeeps(start, trace);
    LocksSize(trace, chunks);
    now, more := AppendRecord(chunks, start, trace, fc);
    if lockFirst {
      now, more := LockRecord(now, start, more, n);
    }
    if fc.hash in bin {
      now, more := TakeOver(now, start, more, n, bin[fc.hash]);
    } else {
      now, more := WriteNew(now, start, more, n, true);
    }
    if !lockFirst {
      now, more := LockRecord(now, start, more, n);
    }
  }

  /** A record enters the stream, its flag and its address are written, and if it is to be held
      back then its mutex is taken. */
  method EnterAs(chunks: seq<FingerChunk>, ghost start: seq<Action>, ghost trace: seq<Action>, fc: FingerChunk,
                 isNew: bool, address: Address, hold: bool)
    returns (now: seq<FingerChunk>, ghost more: seq<Action>)
    requires Grown(start, trace) && Traced(trace, chunks) && !fc.locked
    ensures now == chunks + [fc.(isNew := isNew, address := address, locked := hold)] && Traced(more, now)
    ensures Grown(start, more) && Locks(more) == Locks(trace) + [if hold then 1 else 0]
  {
    hide Traced, Grown, Unseen, Locks;
    var n := |chunks|;
    GrownKeeps(start, trace);
    LocksSize(trace, chunks);
    now, more := AppendRecord(chunks, start, trace, fc);
    now, more := WriteNew(now, start, more, n, isNew);
    now, more := WriteAddress(now, start, more, n, address);
    if hold {
      now, more := LockRecord(now, start, more, n);
    }
  }

  /** Every mutex was taken, and none twice. */
  ghost predicate OnceEach(trace: seq<Action>) {
    forall i :: 0 <= i < |Locks(trace)| ==> Locks(trace)[i] == 1
  }

  /** A record came in and is held. */
  lemma OnceEachSnoc(before: seq<Action>, was: seq<FingerChunk>, after: seq<Action>, now: seq<FingerChunk>)
    requires OnceEach(before) && Traced(before, was) && Grown(before, after) && Traced(after, now)
    requires |now| == |was| + 1 && now[|was|].locked
    ensures OnceEach(after)
  {
    hide Legal, Replay;
    LegalCounts(after);
    assert Counted(Replay(after).recs[|was|]);
  }

  /** Nothing came in. */
  lemma OnceEachSame(before: seq<Action>, was: seq<FingerChunk>, after: seq<Action>, now: seq<FingerChunk>)
    requires OnceEach(before) && Traced(before, was) && Grown(before, after) && Traced(after, now)
    requires |now| == |was|
    ensures OnceEach(after)
  {
  }

  lemma OnceEachHeld(trace: seq<Action>, chunks: seq<FingerChunk>)
    requires Traced(trace, chunks) && forall i :: 0 <= i < |chunks| ==> chunks[i].locked
    ensures OnceEach(trace)
  {
    hide Legal, Replay;
    LegalCounts(trace);
    forall i | 0 <= i < |chunks|
      ensures Locks(trace)[i] == 1
    {
      assert chunks[i] == Replay(trace).recs[i].fc && Counted(Replay(trace).recs[i]);
    }
  }

  /** A record came in and is held: only its mutex was taken. */
  lemma LocksHeld(before: seq<Action>, was: seq<FingerChunk>, after: seq<Action>, now: seq<FingerChunk>)
    requires Traced(before, was) && Grown(before, after) && Traced(after, now)
    requires |now| == |was| + 1 && now[|was|].locked
    ensures Locks(after) == Locks(before) + [1]
  {
    hide Legal, Replay;
    LegalCounts(after);
    assert Counted(Replay(after).recs[|was|]);
  }

  lemma LocksSame(before: seq<Action>, was: seq<FingerChunk>, after: seq<Action>, now: seq<FingerChunk>)
    requires Traced(before, was) && Grown(before, after) && Traced(after, now) && |now| == |was|
    ensures Locks(after) == Locks(before)
  {
  }

  /** No mutex was ever taken. */
  ghost predicate Untaken(trace: seq<Action>) {
    forall i :: 0 <= i < |Locks(trace)| ==> Locks(trace)[i] == 0
  }

  lemma OnceEachNothing()
    ensures OnceEach([]) && Untaken([])
  {
  }

  // ------------------------------------------------------------- files and the stream

  /** The records as they stood at each push of a file. */
  ghost function Pushes(trace: seq<Action>): seq<seq<FingerChunk>> {
    if trace == [] then [] else
      var init := trace[..|trace| - 1];
      Pushes(init) + if trace[|trace| - 1].Push? then [Chunks(Replay(init).recs)] else []
  }

  lemma {:induction false} PushesGrown(before: seq<Action>, after: seq<Action>)
    requires before <= after && forall i :: |before| <= i < |after| ==> Local(after[i])
    ensures Pushes(after) == Pushes(before)
    decreases |after|
  {
    if |after| == |before| {
      assert after == before;
    } else {
      PushesGrown(before, after[..|after| - 1]);
    }
  }

  lemma TracedPush(trace: seq<Action>, chunks: seq<FingerChunk>)
    requires Traced(trace, chunks)
    ensures Traced(trace + [Push], chunks) && Replay(trace + [Push]).pushed == |chunks|
    ensures Locks(trace + [Push]) == Locks(trace) && Pushes(trace + [Push]) == Pushes(trace) + [chunks]
  {
    hide Legal, Replay;
    ReplaySnoc(trace, Push);
    assert (trace + [Push])[..|trace|] == trace;
  }

  /** A file that is not pushed may be dropped: its records leave the stream. */
  lemma TracedDrop(trace: seq<Action>, chunks: seq<FingerChunk>, first: nat)
    requires Traced(trace, chunks) && Replay(trace).pushed <= first <= |chunks|
    ensures Traced(trace + [Drop(first)], chunks[..first])
    ensures Replay(trace + [Drop(first)]).pushed == Replay(trace).pushed
    ensures Chunks(Replay(trace + [Drop(first)]).lost) == Chunks(Replay(trace).lost) + chunks[first..]
    ensures |Locks(trace)| == |chunks| && Locks(trace + [Drop(first)]) == Locks(trace)[..first]
  {
    hide Legal, Replay;
    ReplaySnoc(trace, Drop(first));
    DropChunks(Replay(trace), first);
    DropLocks(trace, first);
  }

  lemma DropChunks(log: Log, first: nat)
    requires first <= |log.recs|
    ensures Chunks(Perform(log, Drop(first)).recs) == Chunks(log.recs)[..first]
    ensures Chunks(Perform(log, Drop(first)).lost) == Chunks(log.lost) + Chunks(log.recs)[first..]
  {
  }

  lemma DropLocks(trace: seq<Action>, first: nat)
    requires first <= |Replay(trace).recs| && Replay(trace + [Drop(first)]) == Perform(Replay(trace), Drop(first))
    ensures Locks(trace + [Drop(first)]) == Locks(trace)[..first]
  {
    hide Replay;
  }

  lemma PushedBelow(trace: seq<Action>, chunks: seq<FingerChunk>)
    requires Traced(trace, chunks)
    ensures Replay(trace).pushed <= |chunks|
  {
    LegalCounts(trace);
  }

  /** Every mutex that was taken was given back, and was taken once at most. */
  ghost predicate Released(recs: seq<Rec>) {
    forall i :: 0 <= i < |recs| ==> recs[i].locks == recs[i].unlocks <= 1
  }

  lemma AllReleased(trace: seq<Action>, chunks: seq<FingerChunk>)
    requires Traced(trace, chunks) && forall i :: 0 <= i < |chunks| ==> !chunks[i].locked
    ensures Released(Replay(trace).recs)
  {
    LegalCounts(trace);
    forall i | 0 <= i < |chunks|
      ensures Replay(trace).recs[i].locks == Replay(trace).recs[i].unlocks <= 1
    {
      assert chunks[i] == Replay(trace).recs[i].fc && Counted(Replay(trace).recs[i]);
    }
  }

  /** The whole work of the deduplication thread: it pushed every record and the end of the
      stream, and gave back every mutex. */
  ghost predicate Complete(trace: seq<Action>) {
    var log := Replay(trace);
    Legal(trace) && log.ended && log.pushed == |log.recs| && Released(log.recs)
  }

  lemma Completed(trace: seq<Action>, chunks: seq<FingerChunk>)
    requires Traced(trace, chunks) && Replay(trace).pushed == |chunks|
    requires forall i :: 0 <= i < |chunks| ==> !chunks[i].locked
    ensures Complete(trace + [End]) && Chunks(Replay(trace + [End]).recs) == chunks
    ensures Locks(trace + [End]) == Locks(trace) && Pushes(trace + [End]) == Pushes(trace)
  {
    AllReleased(trace, chunks);
    ReplaySnoc(trace, End);
    assert (trace + [End])[..|trace|] == trace;
  }
}
