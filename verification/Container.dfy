/** client/src/container.c: a container of chunks, its 4 MB data buffer, and the byte
    format in which it is written to the container directory and read back. */
module Container {
  import opened Types

  const CONTAINER_SIZE := 4 * 1024 * 1024
  const TAB: Byte := 9

  /** `container_valid`, 0xf5f5e4e4, as `memcpy` lays it out. */
  const MAGIC: Bytes := [0xe4, 0xe4, 0xf5, 0xf5]

  datatype Chunk = Chunk(hash: Fingerprint, data: Bytes)

  datatype ChunkAddr = ChunkAddr(offset: nat, length: nat, hash: Fingerprint)

  // ---------------------------------------------------------------- layout

  /** The data section after appending `cs`: every chunk is followed by a tab. */
  ghost function Payload(cs: seq<Chunk>): Bytes {
    if cs == [] then [] else Payload(cs[..|cs| - 1]) + cs[|cs| - 1].data + [TAB]
  }

  /** The table entry of the chunk at position `i`. */
  ghost function AddrOf(cs: seq<Chunk>, i: nat): ChunkAddr
    requires i < |cs|
  {
    ChunkAddr(|Payload(cs[..i])|, |cs[i].data|, cs[i].hash)
  }

  ghost function Layout(cs: seq<Chunk>): (addrs: seq<ChunkAddr>)
    ensures |addrs| == |cs|
  {
    seq(|cs|, i requires 0 <= i < |cs| => AddrOf(cs, i))
  }

  /** Every entry designates its chunk's bytes, with the sentinel tab right behind them. */
  lemma {:induction false} PayloadSlice(cs: seq<Chunk>, i: nat)
    requires i < |cs|
    ensures var a := AddrOf(cs, i);
            && a.offset + a.length < |Payload(cs)|
            && Payload(cs)[a.offset..a.offset + a.length] == cs[i].data
            && Payload(cs)[a.offset + a.length] == 9
  {
    var init := cs[..|cs| - 1];
    if i == |cs| - 1 {
      assert cs[..i] == init;
    } else {
      PayloadSlice(init, i);
      assert init[..i] == cs[..i];
      var a := AddrOf(cs, i);
      assert a == AddrOf(init, i);
      assert Payload(cs)[a.offset..a.offset + a.length] == Payload(init)[a.offset..a.offset + a.length];
    }
  }

  /** The entries of a container tile its data section, in order and without gaps. */
  lemma {:induction false} LayoutTiles(cs: seq<Chunk>, i: nat)
    requires i < |cs|
    ensures var a := AddrOf(cs, i);
            a.offset + a.length + 1 == if i + 1 < |cs| then AddrOf(cs, i + 1).offset else |Payload(cs)|
  {
    var upto := cs[..i + 1];
    assert upto[..i] == cs[..i];
    if i + 1 == |cs| {
      assert upto == cs;
    }
  }

  lemma LayoutSnoc(cs: seq<Chunk>, c: Chunk)
    ensures Layout(cs + [c]) == Layout(cs) + [ChunkAddr(|Payload(cs)|, |c.data|, c.hash)]
    ensures Payload(cs + [c]) == Payload(cs) + c.data + [TAB]
  {
    var all := cs + [c];
    assert all[..|cs|] == cs;
    forall i | 0 <= i < |cs|
      ensures AddrOf(all, i) == AddrOf(cs, i)
    {
      assert all[..i] == cs[..i];
    }
  }

  // ------------------------------------------------------------- byte codec

  /** A nonnegative int32 as `memcpy` stores it on a little-endian machine. */
  function Int32(n: nat): (s: Bytes)
    ensures |s| == 4
  {
    [(n % 256) as Byte, (n / 256 % 256) as Byte, (n / 65536 % 256) as Byte, (n / 16777216 % 256) as Byte]
  }

  function FromInt32(s: Bytes): (n: nat)
    requires |s| == 4
  {
    s[0] as nat + 256 * s[1] as nat + 65536 * s[2] as nat + 16777216 * s[3] as nat
  }

  lemma Int32RoundTrip(n: nat)
    requires n < 0x1_0000_0000
    ensures FromInt32(Int32(n)) == n
  {
    assert n == n % 256 + 256 * (n / 256);
    assert n / 256 == n / 256 % 256 + 256 * (n / 65536);
    assert n / 65536 == n / 65536 % 256 + 256 * (n / 16777216);
  }

  /** The low octet comes first, as in memory. */
  lemma LowOctetFirst(n: nat, s: Bytes)
    requires |s| == 4
    ensures Int32(n)[0] as nat == n % 256 && FromInt32(s) % 256 == s[0] as nat
    ensures n < 0x1_0000_0000 ==> Int32(n)[3] as nat == n / 0x100_0000
    ensures Int32(0xf5f5e4e4) == MAGIC && FromInt32([0, 0, 0, 1]) == 0x100_0000
  {
    assert s[0] as nat + 256 * (s[1] as nat + 256 * s[2] as nat + 65536 * s[3] as nat) == FromInt32(s);
  }

  function EncodeAddr(a: ChunkAddr): (s: Bytes)
    ensures |s| == 28
  {
    Int32(a.offset) + Int32(a.length) + a.hash
  }

  ghost function EncodeAddrs(addrs: seq<ChunkAddr>): (s: Bytes)
    ensures |s| == 28 * |addrs|
  {
    if addrs == [] then [] else EncodeAddrs(addrs[..|addrs| - 1]) + EncodeAddr(addrs[|addrs| - 1])
  }

  /** The file written for a container whose table is walked in the order `addrs`. */
  ghost function EncodeFile(addrs: seq<ChunkAddr>, data: Bytes): (s: Bytes)
    ensures |s| == 12 + 28 * |addrs| + |data|
  {
    MAGIC + Int32(|addrs|) + Int32(|data|) + EncodeAddrs(addrs) + data
  }

  /** `file` is what writing a container with chunks `cs` may produce: the order in which
      the hash table emits its entries is left open. */
  ghost predicate Encodes(file: Bytes, cs: seq<Chunk>) {
    exists order :: multiset(order) == multiset(Layout(cs)) && file == EncodeFile(order, Payload(cs))
  }

  ghost predicate Fits(cs: seq<Chunk>) {
    32 + 28 * |cs| + |Payload(cs)| <= CONTAINER_SIZE
  }

  /** Octets of the chunks themselves. */
  ghost function DataOctets(cs: seq<Chunk>): nat {
    if cs == [] then 0 else DataOctets(cs[1..]) + |cs[0].data|
  }

  /** The limit in numbers: besides its own octets a chunk takes 29, for its entry and its tab, and
      the container takes 32, of 4 MiB. */
  lemma FitsInNumbers(cs: seq<Chunk>)
    ensures Fits(cs) <==> 32 + 29 * |cs| + DataOctets(cs) <= 4194304
  {
    PayloadOctets(cs);
  }

  lemma {:induction false} PayloadOctets(cs: seq<Chunk>)
    ensures |Payload(cs)| == DataOctets(cs) + |cs|
  {
    if cs != [] {
      var init := cs[..|cs| - 1];
      PayloadOctets(init);
      DataOctetsSnoc(init, cs[|cs| - 1]);
      assert init + [cs[|cs| - 1]] == cs;
    }
  }

  lemma {:induction false} DataOctetsSnoc(cs: seq<Chunk>, c: Chunk)
    ensures DataOctets(cs + [c]) == DataOctets(cs) + |c.data|
  {
    if cs == [] {
      assert (cs + [c])[1..] == [];
    } else {
      DataOctetsSnoc(cs[1..], c);
      assert (cs + [c])[1..] == cs[1..] + [c];
    }
  }

  lemma {:induction false} EncodeAddrsAt(addrs: seq<ChunkAddr>, i: nat)
    requires i < |addrs|
    ensures EncodeAddrs(addrs)[28 * i..28 * i + 28] == EncodeAddr(addrs[i])
  {
    var init := addrs[..|addrs| - 1];
    if i < |addrs| - 1 {
      EncodeAddrsAt(init, i);
      assert EncodeAddrs(addrs)[28 * i..28 * i + 28] == EncodeAddrs(init)[28 * i..28 * i + 28];
    }
  }

  lemma SameMultisetSameMembers<X>(s: seq<X>, t: seq<X>)
    requires multiset(s) == multiset(t)
    ensures |s| == |t|
    ensures forall x :: x in s <==> x in t
  {
    assert |multiset(s)| == |multiset(t)|;
    forall x
      ensures x in s <==> x in t
    {
      assert x in s <==> x in multiset(s);
      assert x in t <==> x in multiset(t);
    }
  }

  // ---------------------------------------------------------- the container

  class Container {
    var name: Address
    var dataSize: nat
    var chunkNum: nat
    /** The meta table; htable.c implements exactly this multiset of entries. */
    var metaTable: multiset<ChunkAddr>
    const dataBuffer: array<Byte>
    /** The chunks held, in the order in which they were appended. */
    ghost var chunks: seq<Chunk>

    ghost predicate Valid()
      reads this, dataBuffer
    {
      && dataBuffer.Length == CONTAINER_SIZE
      && Fits(chunks)
      && chunkNum == |chunks|
      && dataSize == |Payload(chunks)|
      && metaTable == multiset(Layout(chunks))
      && dataBuffer[..dataSize] == Payload(chunks)
    }

    constructor (name: Address)
      ensures Valid() && chunks == [] && this.name == name
      ensures fresh(dataBuffer)
    {
      this.name := name;
      dataSize, chunkNum := 0, 0;
      metaTable := multiset{};
      dataBuffer := new Byte[CONTAINER_SIZE](_ => 0);
      chunks := [];
    }

    /** `AppendChunkToContainer`: refuse a chunk that would overrun the write buffer. */
    method AppendChunk(chunk: Chunk) returns (ok: bool)
      requires Valid() && |chunk.data| <= MAX_CHUNK_SIZE
      modifies this`dataSize, this`chunkNum, this`metaTable, this`chunks, dataBuffer
      ensures Valid()
      ensures ok <==> Fits(old(chunks) + [chunk])
      ensures ok <==> 32 + 29 * (|old(chunks)| + 1) + DataOctets(old(chunks)) + |chunk.data| <= 4194304
      ensures chunks == if ok then old(chunks) + [chunk] else old(chunks)
    {
      LayoutSnoc(chunks, chunk);
      FitsInNumbers(chunks + [chunk]);
      DataOctetsSnoc(chunks, chunk);
      hide Layout, AddrOf, Payload;
      if 32 + |metaTable| * 28 + dataSize > CONTAINER_SIZE - 28 - |chunk.data| - 1 {
        return false;
      }
      CopyIn(chunk.data);
      metaTable := metaTable + multiset{ChunkAddr(dataSize, |chunk.data|, chunk.hash)};
      dataSize := dataSize + |chunk.data| + 1;
      chunkNum := chunkNum + 1;
      chunks := chunks + [chunk];
      return true;
    }

    /** Copy the data and its sentinel behind the data already held. */
    method CopyIn(data: Bytes)
      requires dataSize + |data| + 1 <= dataBuffer.Length
      modifies dataBuffer
      ensures dataBuffer[..dataSize + |data| + 1] == old(dataBuffer[..dataSize]) + data + [TAB]
    {
      forall i | 0 <= i < |data| {
        dataBuffer[dataSize + i] := data[i];
      }
      dataBuffer[dataSize + |data|] := TAB;
    }

    /** The write buffer of `WriteContainer`. */
    method Serialize() returns (file: Bytes)
      requires Valid()
      ensures Encodes(file, chunks)
      ensures |file| <= CONTAINER_SIZE
    {
      hide Layout, Payload, AddrOf, Encodes;
      var entries, order := WriteMetaTable(metaTable);
      SameMultisetSameMembers(order, Layout(chunks));
      file := MAGIC + Int32(chunkNum) + Int32(dataSize) + entries + dataBuffer[..dataSize];
      assert file == EncodeFile(order, Payload(chunks));
      WriteFits(file, order, chunks);
    }

    /** `ReadContainer` into an empty container. A file without the magic number is refused;
        `cs` are the chunks whose writing produced any other file. */
    method Deserialize(name: Address, file: Bytes, ghost cs: seq<Chunk>) returns (ok: bool)
      requires Valid() && chunks == []
      requires |file| >= 4 && (file[..4] == MAGIC ==> Fits(cs) && Encodes(file, cs))
      modifies this, dataBuffer
      ensures Valid() && this.name == name
      ensures ok <==> file[..4] == MAGIC
      ensures chunks == if ok then cs else []
    {
      hide Layout, AddrOf, Payload, EncodeFile;
      this.name := name;
      if file[..4] != MAGIC {
        return false;
      }
      ghost var order :| multiset(order) == multiset(Layout(cs)) && file == EncodeFile(order, Payload(cs));
      SameMultisetSameMembers(order, Layout(cs));
      FileFields(order, Payload(cs));
      chunkNum := FromInt32(file[4..8]);
      dataSize := FromInt32(file[8..12]);
      metaTable := ReadMetaTable(file, chunkNum, cs, order);
      ReadData(file, 12 + 28 * chunkNum);
      chunks := cs;
      return true;
    }

    /** The final `memcpy` of `ReadContainer`. */
    method ReadData(file: Bytes, p: nat)
      requires p + dataSize <= |file| && dataSize <= dataBuffer.Length
      modifies dataBuffer
      ensures dataBuffer[..dataSize] == file[p..p + dataSize]
    {
      forall k | 0 <= k < dataSize {
        dataBuffer[k] := file[p + k];
      }
    }

    /** `ReadChunkFromContainer`: the lookup may answer with any entry of this hash. */
    method ReadChunk(hash: Fingerprint) returns (data: Option<Bytes>)
      requires Valid()
      ensures data.Some? <==> exists c :: c in chunks && c.hash == hash
      ensures data.Some? ==> Chunk(hash, data.value) in chunks
    {
      forall c | c in chunks && c.hash == hash
        ensures exists addr :: addr in metaTable && addr.hash == hash
      {
        var i :| 0 <= i < |chunks| && chunks[i] == c;
        assert Layout(chunks)[i] in multiset(Layout(chunks));
      }
      if addr :| addr in metaTable && addr.hash == hash {
        ghost var i :| 0 <= i < |chunks| && Layout(chunks)[i] == addr;
        PayloadSlice(chunks, i);
        if addr.offset > dataSize {
          assert false;
          return None;
        }
        if dataBuffer[addr.offset + addr.length] != TAB {
          assert false;
          return None;
        }
        assert chunks[i] == Chunk(hash, dataBuffer[addr.offset..addr.offset + addr.length]);
        return Some(dataBuffer[addr.offset..addr.offset + addr.length]);
      }
      return None;
    }
  }

  lemma WriteFits(file: Bytes, order: seq<ChunkAddr>, cs: seq<Chunk>)
    requires Fits(cs) && multiset(order) == multiset(Layout(cs)) && file == EncodeFile(order, Payload(cs))
    ensures Encodes(file, cs) && |file| <= CONTAINER_SIZE
  {
    SameMultisetSameMembers(order, Layout(cs));
  }

  /** The loop of `WriteContainer` over the table, which emits its entries in any order. */
  method WriteMetaTable(table: multiset<ChunkAddr>) returns (entries: Bytes, ghost order: seq<ChunkAddr>)
    ensures multiset(order) == table && entries == EncodeAddrs(order)
  {
    entries, order := [], [];
    var remaining := table;
    while remaining != multiset{}
      invariant multiset(order) + remaining == table
      invariant entries == EncodeAddrs(order)
      decreases |remaining|
    {
      var addr :| addr in remaining;
      entries := entries + EncodeAddr(addr);
      remaining := remaining - multiset{addr};
      assert (order + [addr])[..|order|] == order;
      order := order + [addr];
    }
  }

  /** The loop of `ReadContainer` over the entries. */
  method ReadMetaTable(file: Bytes, chunkNum: nat, ghost cs: seq<Chunk>, ghost order: seq<ChunkAddr>)
    returns (table: multiset<ChunkAddr>)
    requires Fits(cs) && multiset(order) == multiset(Layout(cs)) && chunkNum == |order|
    requires file == EncodeFile(order, Payload(cs))
    ensures table == multiset(Layout(cs))
  {
    hide Layout, AddrOf, EncodeFile;
    table := multiset{};
    var i := 0;
    while i < chunkNum
      invariant i <= chunkNum
      invariant table == multiset(order[..i])
    {
      LayoutBounds(cs, order, i);
      FileEntry(order, Payload(cs), i);
      var p := 12 + 28 * i;
      var addr := ChunkAddr(FromInt32(file[p..p + 4]), FromInt32(file[p + 4..p + 8]), file[p + 8..p + 28]);
      assert order[..i + 1] == order[..i] + [order[i]];
      table := table + multiset{addr};
      i := i + 1;
    }
    assert order[..i] == order;
  }

  lemma FileFields(order: seq<ChunkAddr>, data: Bytes)
    requires |order| < 0x1_0000_0000 && |data| < 0x1_0000_0000
    ensures var file := EncodeFile(order, data);
            && file[..4] == MAGIC
            && FromInt32(file[4..8]) == |order|
            && FromInt32(file[8..12]) == |data|
            && file[12 + 28 * |order|..] == data
  {
    var file := EncodeFile(order, data);
    Int32RoundTrip(|order|);
    Int32RoundTrip(|data|);
    assert file[4..8] == Int32(|order|);
    assert file[8..12] == Int32(|data|);
  }

  lemma FileEntry(order: seq<ChunkAddr>, data: Bytes, i: nat)
    requires i < |order|
    requires order[i].offset < 0x1_0000_0000 && order[i].length < 0x1_0000_0000
    ensures var file, p := EncodeFile(order, data), 12 + 28 * i;
            && p + 28 <= |file|
            && FromInt32(file[p..p + 4]) == order[i].offset
            && FromInt32(file[p + 4..p + 8]) == order[i].length
            && file[p + 8..p + 28] == order[i].hash
  {
    var file, p := EncodeFile(order, data), 12 + 28 * i;
    var e := EncodeAddr(order[i]);
    assert file[p..p + 28] == e by {
      EncodeAddrsAt(order, i);
      assert file[p..p + 28] == EncodeAddrs(order)[28 * i..28 * i + 28];
    }
    hide EncodeFile, EncodeAddrs, Int32, FromInt32;
    SubSlice(file, p, 28, 0, 4);
    SubSlice(file, p, 28, 4, 8);
    SubSlice(file, p, 28, 8, 28);
    assert e[0..4] == Int32(order[i].offset);
    assert e[4..8] == Int32(order[i].length);
    assert e[8..28] == order[i].hash;
    Int32RoundTrip(order[i].offset);
    Int32RoundTrip(order[i].length);
  }

  lemma SubSlice<X>(s: seq<X>, p: nat, n: nat, from: nat, to: nat)
    requires p + n <= |s| && from <= to <= n
    ensures s[p + from..p + to] == s[p..p + n][from..to]
  {
    var t := s[p..p + n];
    forall k | 0 <= k < to - from
      ensures s[p + from..p + to][k] == t[from..to][k]
    {
      assert t[from + k] == s[p + from + k];
    }
  }

  lemma LayoutBounds(cs: seq<Chunk>, order: seq<ChunkAddr>, i: nat)
    requires Fits(cs) && multiset(order) == multiset(Layout(cs)) && i < |order|
    ensures order[i].offset < CONTAINER_SIZE && order[i].length < CONTAINER_SIZE
  {
    SameMultisetSameMembers(order, Layout(cs));
    assert order[i] in Layout(cs);
    var k :| 0 <= k < |cs| && Layout(cs)[k] == order[i];
    PayloadSlice(cs, k);
  }

  /** Any single chunk fits an empty container, so the retry of `store_chunk` succeeds. */
  lemma OneChunkFits(c: Chunk)
    requires |c.data| <= MAX_CHUNK_SIZE
    ensures Fits([c])
  {
    LayoutSnoc([], c);
  }
}
