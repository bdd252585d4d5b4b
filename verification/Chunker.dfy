/** Content-defined chunking: `chunk_data` of client/lib/rabin.c, and `chunk_file` of
    client/src/backup.c, which reads a file piecewise into a buffer of two maximal chunks. */
module Chunker {
  import opened Types
  import opened ChunkDedup
  import C = Container

  /** The octets that a Rabin fingerprint covers. */
  const WINDOW := 48

  /** Whether the fingerprint of a window has the break mark. */
  type Mark = Bytes -> bool

  // --------------------------------------------------------------- one-shot

  /** A chunk may end after the first `i` octets of `s`. */
  predicate EndsAt(mark: Mark, s: Bytes, i: nat)
    requires 0 < i <= |s|
  {
    (i >= MIN_CHUNK_SIZE && mark(s[i - WINDOW..i])) || i >= MAX_CHUNK_SIZE || i == |s|
  }

  ghost function CutFrom(mark: Mark, s: Bytes, i: nat): (cut: nat)
    requires 0 < i <= |s|
    ensures i <= cut <= |s| && EndsAt(mark, s, cut)
    ensures forall k :: i <= k < cut ==> !EndsAt(mark, s, k)
    decreases |s| - i
  {
    if EndsAt(mark, s, i) then i else CutFrom(mark, s, i + 1)
  }

  /** The length of the first chunk of `s`: the first place where a chunk may end. */
  ghost function Cut(mark: Mark, s: Bytes): (cut: nat)
    requires s != []
    ensures 0 < cut <= |s| && EndsAt(mark, s, cut)
    ensures forall k :: 0 < k < cut ==> !EndsAt(mark, s, k)
  {
    CutFrom(mark, s, 1)
  }

  /** The chunk record that `chunk_file` makes. */
  function Record(digest: Bytes -> Fingerprint, data: Bytes, offset: nat): FingerChunk {
    FingerChunk(digest(data), |data|, offset, true, "", false)
  }

  /** All chunks of `file` from `offset` on, by cutting what is left again and again. */
  ghost function Records(digest: Bytes -> Fingerprint, mark: Mark, file: Bytes, offset: nat): seq<FingerChunk>
    requires offset <= |file|
    decreases |file| - offset
  {
    if offset == |file| then [] else
      var n := Cut(mark, file[offset..]);
      [Record(digest, file[offset..offset + n], offset)] + Records(digest, mark, file, offset + n)
  }

  lemma CutIs(mark: Mark, s: Bytes, i: nat)
    requires 0 < i <= |s| && EndsAt(mark, s, i)
    requires forall k :: 0 < k < i ==> !EndsAt(mark, s, k)
    ensures Cut(mark, s) == i
  {
  }

  /** A cut is bounded, and all but the last chunk of a file have the minimum size. */
  lemma CutBounds(mark: Mark, s: Bytes)
    requires s != []
    ensures Cut(mark, s) <= MAX_CHUNK_SIZE
    ensures Cut(mark, s) < |s| ==> Cut(mark, s) >= MIN_CHUNK_SIZE
    ensures |s| <= MIN_CHUNK_SIZE ==> Cut(mark, s) == |s|
  {
    var c := Cut(mark, s);
    if c > MAX_CHUNK_SIZE {
      assert EndsAt(mark, s, MAX_CHUNK_SIZE);
    }
  }

  /** The 48 octets in front of place `k`. */
  function Before(s: Bytes, k: nat): Bytes
    requires 48 <= k <= |s|
  {
    s[k - 48..k]
  }

  /** The first marked place from 2048 octets on is the cut, unless the data or 65536 octets end
      before it. */
  lemma CutAtMark(mark: Mark, s: Bytes, i: nat)
    requires 2048 <= i < |s| && i < 65536 && mark(s[i - 48..i])
    requires forall k :: 2048 <= k < i ==> !mark(Before(s, k))
    ensures Cut(mark, s) == i
  {
    forall k | 0 < k < i
      ensures !EndsAt(mark, s, k)
    {
      if k >= 2048 {
        assert !mark(Before(s, k));
      }
    }
    CutIs(mark, s, i);
  }

  /** Without a mark the chunk is as long as the data and the maximum allow. */
  lemma CutUnmarked(mark: Mark, s: Bytes)
    requires s != [] && forall k :: 2048 <= k < |s| && k < 65536 ==> !mark(Before(s, k))
    ensures Cut(mark, s) == if |s| < 65536 then |s| else 65536
  {
    var n := if |s| < 65536 then |s| else 65536;
    forall k | 0 < k < n
      ensures !EndsAt(mark, s, k)
    {
      if k >= 2048 {
        assert !mark(Before(s, k));
      }
    }
    CutIs(mark, s, n);
  }

  /** The chunk of a file that starts at `offset` follows the marks: it has none at an inner
      place from 2048 octets on, and it ends at a mark, at 65536 octets or with the file. */
  ghost predicate FollowsMarks(mark: Mark, file: Bytes, fc: FingerChunk) {
    var s, n := fc.offset, fc.length;
    && 0 < n <= 65536 && s + n <= |file|
    && (forall k :: s + 2048 <= k < s + n ==> !mark(Before(file, k)))
    && (s + n == |file| || n == 65536 || (n >= 2048 && mark(file[s + n - 48..s + n])))
  }

  lemma {:induction false} RecordsFollowMarks(digest: Bytes -> Fingerprint, mark: Mark, file: Bytes, offset: nat)
    requires offset <= |file|
    ensures forall fc :: fc in Records(digest, mark, file, offset) ==> FollowsMarks(mark, file, fc)
    decreases |file| - offset
  {
    if offset < |file| {
      var rest := file[offset..];
      var n := Cut(mark, rest);
      CutBounds(mark, rest);
      forall k | offset + 2048 <= k < offset + n
        ensures !mark(Before(file, k))
      {
        assert !EndsAt(mark, rest, k - offset) && rest[k - offset - 48..k - offset] == Before(file, k);
      }
      assert EndsAt(mark, rest, n);
      assert n >= 2048 ==> rest[n - 48..n] == file[offset + n - 48..offset + n];
      RecordsFollowMarks(digest, mark, file, offset + n);
    }
  }

  /** A cut that was not forced by the end of the data stays when more data follows. */
  lemma CutStable(mark: Mark, s: Bytes, more: Bytes)
    requires s != [] && (Cut(mark, s) < |s| || |s| >= MAX_CHUNK_SIZE)
    ensures Cut(mark, s + more) == Cut(mark, s)
  {
    var t, c := s + more, Cut(mark, s);
    CutBounds(mark, s);
    CutBounds(mark, t);
    forall k | 0 < k <= c
      ensures k < c ==> !EndsAt(mark, t, k)
      ensures k == c ==> EndsAt(mark, t, k)
    {
      if k >= MIN_CHUNK_SIZE {
        assert t[k - WINDOW..k] == s[k - WINDOW..k];
      }
      assert k < c ==> !EndsAt(mark, s, k);
    }
    CutIs(mark, t, c);
  }

  // ------------------------------------------------------------ what chunks are

  /** The bytes of the records, one after another. */
  ghost function Joined(file: Bytes, records: seq<FingerChunk>): Bytes
  {
    if records == [] then [] else
      var fc := records[0];
      (if fc.offset + fc.length <= |file| then file[fc.offset..fc.offset + fc.length] else []) +
      Joined(file, records[1..])
  }

  ghost predicate ValidRecord(digest: Bytes -> Fingerprint, file: Bytes, fc: FingerChunk, more: bool) {
    && 0 < fc.length <= MAX_CHUNK_SIZE && fc.offset + fc.length <= |file|
    && (more ==> fc.length >= MIN_CHUNK_SIZE)
    && fc == Record(digest, file[fc.offset..fc.offset + fc.length], fc.offset)
  }

  /** Each record begins where the one before it ends, none is empty or too long, and only
      the last may be short. */
  ghost predicate Tiling(digest: Bytes -> Fingerprint, file: Bytes, records: seq<FingerChunk>, offset: nat) {
    && (forall i :: 0 <= i < |records| ==> ValidRecord(digest, file, records[i], i + 1 < |records|))
    && (records != [] ==> records[0].offset == offset)
    && (forall i :: 0 < i < |records| ==> Abuts(records, i))
  }

  ghost predicate Abuts(records: seq<FingerChunk>, i: nat)
    requires 0 < i < |records|
  {
    records[i].offset == records[i - 1].offset + records[i - 1].length
  }

  lemma {:induction false} TilingCons(digest: Bytes -> Fingerprint, file: Bytes, fc: FingerChunk,
                                      records: seq<FingerChunk>)
    requires ValidRecord(digest, file, fc, records != [])
    requires Tiling(digest, file, records, fc.offset + fc.length)
    ensures Tiling(digest, file, [fc] + records, fc.offset)
  {
    hide Record;
    var rs := [fc] + records;
    forall i | 0 <= i < |rs|
      ensures ValidRecord(digest, file, rs[i], i + 1 < |rs|)
    {
      if i > 0 {
        assert rs[i] == records[i - 1];
      }
    }
    forall i | 0 < i < |rs|
      ensures Abuts(rs, i)
    {
      assert rs[i] == records[i - 1];
      assert i > 1 ==> rs[i - 1] == records[i - 2] && Abuts(records, i - 1);
    }
  }

  lemma TilingNil(digest: Bytes -> Fingerprint, file: Bytes, offset: nat)
    ensures Tiling(digest, file, [], offset)
  {
  }

  lemma ValidFirst(digest: Bytes -> Fingerprint, mark: Mark, file: Bytes, offset: nat)
    requires offset < |file|
    ensures var n := Cut(mark, file[offset..]);
            var fc := Record(digest, file[offset..offset + n], offset);
            fc.offset == offset && fc.length == n && ValidRecord(digest, file, fc, offset + n < |file|)
  {
    CutFacts(mark, file[offset..]);
  }

  /** The chunks of a file tile it, and joined they are the file. */
  lemma {:induction false} RecordsTile(digest: Bytes -> Fingerprint, mark: Mark, file: Bytes, offset: nat)
    requires offset <= |file|
    ensures Tiling(digest, file, Records(digest, mark, file, offset), offset)
    ensures Records(digest, mark, file, offset) == [] <==> offset == |file|
    ensures Joined(file, Records(digest, mark, file, offset)) == file[offset..]
    decreases |file| - offset
  {
    hide EndsAt, Tiling, ValidRecord, Record, Cut;
    if offset == |file| {
      TilingNil(digest, file, offset);
    } else {
      var rest := file[offset..];
      var n := Cut(mark, rest);
      CutFacts(mark, rest);
      RecordsTile(digest, mark, file, offset + n);
      var rs, tail := Records(digest, mark, file, offset), Records(digest, mark, file, offset + n);
      var fc := Record(digest, file[offset..offset + n], offset);
      assert file[offset..] == file[offset..offset + n] + file[offset + n..];
      ValidFirst(digest, mark, file, offset);
      TilingCons(digest, file, fc, tail);
      assert rs == [fc] + tail && rs[1..] == tail;
    }
  }

  // ----------------------------------------------------------- rolling window

  class Rabin {
    const mark: Mark
    /** The octets under the fingerprint, oldest first; kept from one call to the next. */
    var window: Bytes

    ghost predicate Valid()
      reads this
    {
      |window| == WINDOW
    }

    /** `chunk_alg_init`. */
    constructor (mark: Mark)
      ensures Valid() && this.mark == mark
    {
      this.mark := mark;
      window := seq(WINDOW, _ => 0);
    }

    /** `chunk_data`: slide over the octets from `p` on until a chunk may end. The window is
        not cleared first, but since no chunk is tested before it has MIN_CHUNK_SIZE octets,
        what the window held before makes no difference. */
    method ChunkData(src: array<Byte>, p: nat, n: nat) returns (size: nat)
      requires Valid() && 0 < n && p + n <= src.Length
      modifies this`window
      ensures Valid()
      ensures size == Cut(mark, src[p..p + n])
    {
      ghost var s := src[p..p + n];
      var i := 1;
      while i <= n
        invariant 1 <= i <= n && Valid()
        invariant i > WINDOW ==> window == s[i - 1 - WINDOW..i - 1]
        invariant i <= WINDOW ==> window[WINDOW - (i - 1)..] == s[..i - 1]
        invariant forall k :: 0 < k < i ==> !EndsAt(mark, s, k)
        decreases n - i
      {
        window := window[1..] + [src[p + i - 1]];
        assert src[p + i - 1] == s[i - 1];
        if i >= WINDOW {
          assert window == s[i - WINDOW..i];
        } else {
          assert window[WINDOW - i..] == s[..i];
        }
        if (mark(window) && i >= MIN_CHUNK_SIZE) || i >= MAX_CHUNK_SIZE || i == n {
          break;
        } else {
          i := i + 1;
        }
      }
      size := i;
      CutIs(mark, s, i);
    }
  }

  // --------------------------------------------------------- buffered chunking

  /** `readn` on a regular file: fewer than `n` octets only at its end. */
  method Readn(file: Bytes, pos: nat, src: array<Byte>, at: nat, n: nat) returns (k: nat)
    requires pos <= |file| && at + n <= src.Length
    modifies src
    ensures k == if |file| - pos < n then |file| - pos else n
    ensures src[..at + k] == old(src[..at]) + file[pos..pos + k]
  {
    k := if |file| - pos < n then |file| - pos else n;
    forall i | 0 <= i < k {
      src[at + i] := file[pos + i];
    }
  }

  /** `memmove(src, src + len, n)`. */
  method MoveDown(src: array<Byte>, len: nat, n: nat)
    requires len + n <= src.Length
    modifies src
    ensures src[..n] == old(src[len..len + n])
  {
    forall i | 0 <= i < n {
      src[i] := src[len + i];
    }
  }

  /** The records made so far, and what is left of the file, add up to the whole file. */
  ghost predicate Partial(digest: Bytes -> Fingerprint, mark: Mark, file: Bytes, chunks: seq<FingerChunk>,
                          offset: nat) {
    offset <= |file| && chunks + Records(digest, mark, file, offset) == Records(digest, mark, file, 0)
  }

  lemma PartialStep(digest: Bytes -> Fingerprint, mark: Mark, file: Bytes, chunks: seq<FingerChunk>, offset: nat,
                    n: nat)
    requires Partial(digest, mark, file, chunks, offset)
    requires offset < |file| && n == Cut(mark, file[offset..])
    ensures Partial(digest, mark, file, chunks + [Record(digest, file[offset..offset + n], offset)], offset + n)
  {
    var r := Record(digest, file[offset..offset + n], offset);
    var rest := Records(digest, mark, file, offset + n);
    assert chunks + [r] + rest == chunks + ([r] + rest);
  }

  /** The inner loop of `chunk_file`: emit every chunk that does not depend on data still to
      be read, and move the rest to the front of the buffer. */
  method EmitChunks(rabin: Rabin, digest: Bytes -> Fingerprint, ghost file: Bytes, src: array<Byte>, srclen: nat,
                    chunks0: seq<FingerChunk>, offset0: nat)
    returns (chunks: seq<FingerChunk>, offset: nat, leftBytes: nat)
    requires rabin.Valid() && 0 < srclen <= src.Length && offset0 + srclen <= |file|
    requires src[..srclen] == file[offset0..offset0 + srclen]
    requires Partial(digest, rabin.mark, file, chunks0, offset0)
    modifies rabin`window, src
    ensures rabin.Valid() && Partial(digest, rabin.mark, file, chunks, offset)
    ensures leftBytes < MAX_CHUNK_SIZE && leftBytes <= src.Length && offset + leftBytes == offset0 + srclen
    ensures src[..leftBytes] == file[offset..offset + leftBytes]
    ensures leftBytes > 0 ==> Cut(rabin.mark, src[..leftBytes]) == leftBytes
  {
    hide Partial, Records, Record, Cut, EndsAt;
    chunks, offset, leftBytes := chunks0, offset0, 0;
    var len := 0;
    while len < srclen
      invariant len <= srclen && offset == offset0 + len && leftBytes == 0
      invariant rabin.Valid() && src[..srclen] == file[offset0..offset0 + srclen]
      invariant Partial(digest, rabin.mark, file, chunks, offset)
    {
      var n := srclen - len;
      ghost var ahead := src[len..srclen];
      C.SubSlice(src[..], 0, srclen, len, srclen);
      C.SubSlice(file, offset0, srclen, len, srclen);
      assert src[len..len + n] == ahead;
      var size := rabin.ChunkData(src, len, n);
      CutFacts(rabin.mark, ahead);
      if n == size && n < MAX_CHUNK_SIZE {
        MoveDown(src, len, n);
        assert src[..n] == ahead;
        leftBytes := n;
        break;
      }
      SplitAt(file, offset, n);
      CutStable(rabin.mark, ahead, file[offset + n..]);
      PartialStep(digest, rabin.mark, file, chunks, offset, size);
      C.SubSlice(file, offset, n, 0, size);
      C.SubSlice(src[..], len, n, 0, size);
      chunks := chunks + [Record(digest, src[len..len + size], offset)];
      offset := offset + size;
      len := len + size;
    }
  }

  lemma SplitAt(file: Bytes, offset: nat, n: nat)
    requires offset + n <= |file|
    ensures file[offset..] == file[offset..offset + n] + file[offset + n..]
  {
  }

  lemma Joins(file: Bytes, a: nat, b: nat, c: nat)
    requires a <= b <= c <= |file|
    ensures file[a..b] + file[b..c] == file[a..c]
  {
  }

  lemma CutFacts(mark: Mark, s: Bytes)
    requires s != []
    ensures 0 < Cut(mark, s) <= |s| && Cut(mark, s) <= MAX_CHUNK_SIZE
    ensures Cut(mark, s) < |s| ==> Cut(mark, s) >= MIN_CHUNK_SIZE
    ensures |s| <= MIN_CHUNK_SIZE ==> Cut(mark, s) == |s|
  {
    CutBounds(mark, s);
  }

  /** `chunk_file`: whatever the pieces in which the file arrives in the buffer, its chunks are
      those of cutting the whole file again and again. The buffer never overflows. */
  method ChunkFile(rabin: Rabin, digest: Bytes -> Fingerprint, file: Bytes) returns (chunks: seq<FingerChunk>)
    requires rabin.Valid()
    modifies rabin`window
    ensures rabin.Valid()
    ensures chunks == Records(digest, rabin.mark, file, 0)
    ensures forall fc :: fc in chunks ==> FollowsMarks(rabin.mark, file, fc)
  {
    hide Partial, Records, Record, Cut, EndsAt, FollowsMarks;
    var src := new Byte[MAX_CHUNK_SIZE * 2](_ => 0);
    var pos: nat, leftBytes: nat, srclen: nat, offset: nat := 0, 0, 0, 0;
    chunks := [];
    PartialStart(digest, rabin.mark, file);
    while true
      invariant rabin.Valid() && leftBytes < MAX_CHUNK_SIZE
      invariant pos == offset + leftBytes <= |file| && src[..leftBytes] == file[offset..pos]
      invariant leftBytes > 0 ==> Cut(rabin.mark, src[..leftBytes]) == leftBytes
      invariant Partial(digest, rabin.mark, file, chunks, offset)
      decreases |file| - pos
    {
      srclen := Readn(file, pos, src, leftBytes, MAX_CHUNK_SIZE);
      if srclen <= 0 {
        assert src[..leftBytes] == file[offset..pos];
        break;
      }
      Joins(file, offset, pos, pos + srclen);
      pos := pos + srclen;
      if leftBytes > 0 {
        srclen := srclen + leftBytes;
        leftBytes := 0;
      }
      if srclen < MIN_CHUNK_SIZE {
        CutFacts(rabin.mark, src[..srclen]);
        assert Cut(rabin.mark, src[..srclen]) == srclen;
        break;
      }
      chunks, offset, leftBytes := EmitChunks(rabin, digest, file, src, srclen, chunks, offset);
    }
    var len := if srclen > 0 then srclen else leftBytes;
    assert src[..len] == file[offset..] && offset + len == |file|;
    if len > 0 {
      assert Cut(rabin.mark, src[..len]) == len;
      PartialStep(digest, rabin.mark, file, chunks, offset, len);
      assert file[offset..offset + len] == file[offset..];
      chunks := chunks + [Record(digest, src[..len], offset)];
    }
    PartialEnd(digest, rabin.mark, file, chunks);
    RecordsFollowMarks(digest, rabin.mark, file, 0);
  }

  lemma PartialStart(digest: Bytes -> Fingerprint, mark: Mark, file: Bytes)
    ensures Partial(digest, mark, file, [], 0)
  {
  }

  lemma PartialEnd(digest: Bytes -> Fingerprint, mark: Mark, file: Bytes, chunks: seq<FingerChunk>)
    requires Partial(digest, mark, file, chunks, |file|)
    ensures chunks == Records(digest, mark, file, 0)
  {
  }
}
