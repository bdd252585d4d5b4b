/** client/src/extreme_binning.c: bins (fingerprint indexes) kept in volumes of size classes,
    one volume for each level, and the cache of loaded bins in front of them. */
module BinVolume {
  import opened Types
  import opened Container

  const HEAD_SIZE := 20
  const MAX_LEVEL := 30
  const LEVEL_FACTOR := 512
  /** No bin whose length fits 31 bits needs a higher level. */
  const TOP_LEVEL := 22
  const ENTRY_SIZE := 84
  const TWO56 := 0x100_0000_0000_0000

  /** A `Chunkaddress` as it lies in memory and on disk. */
  type RawAddress = s: Bytes | |s| == CHUNK_ADDRESS_LENGTH witness seq(CHUNK_ADDRESS_LENGTH, _ => 0)

  type Fingers = map<Fingerprint, RawAddress>

  datatype Entry = Entry(finger: Fingerprint, address: RawAddress)

  // ------------------------------------------------------------- size classes

  /** `level_to_max_amount`. */
  function LevelSize(level: nat): (size: nat)
    ensures size >= LEVEL_FACTOR
  {
    Pow2(level) * LEVEL_FACTOR
  }

  function BinLength(n: nat): nat {
    24 + ENTRY_SIZE * n
  }

  /** The lowest level has slots of 512 octets, each next one of twice as many. The first slot
      of a volume lies behind its head of 20 octets. */
  lemma LevelsDouble(level: nat)
    ensures LevelSize(0) == 512 && LevelSize(level + 1) == 2 * LevelSize(level)
    ensures Offset(level, 0) == 20
  {
  }

  lemma {:induction false} LevelsGrow(low: nat, high: nat)
    requires low <= high
    ensures LevelSize(low) <= LevelSize(high)
    decreases high - low
  {
    if low < high {
      LevelsGrow(low, high - 1);
    }
  }

  lemma TopLevelFits()
    ensures LevelSize(TOP_LEVEL) == 0x8000_0000
  {
    assert Pow2(4) == 16;
    assert Pow2(8) == 256;
    assert Pow2(12) == 4096;
    assert Pow2(16) == 65536;
    assert Pow2(20) == 1048576;
  }

  /** The level search of `WriteBinToVolume`: it ends at the lowest level, from the bin's own
      upwards, that is large enough, and forgets the offset if that is a new level. */
  method FindLevel(nlen: nat, level0: nat, offset0: nat) returns (level: nat, offset: nat)
    requires nlen < 0x8000_0000 && level0 <= TOP_LEVEL
    ensures level0 <= level <= TOP_LEVEL && nlen <= LevelSize(level)
    ensures forall l :: level0 <= l < level ==> LevelSize(l) < nlen
    ensures offset == if level == level0 then offset0 else 0
  {
    TopLevelFits();
    level, offset := level0, offset0;
    while nlen > LevelSize(level)
      invariant level0 <= level <= TOP_LEVEL
      invariant forall l :: level0 <= l < level ==> LevelSize(l) < nlen
      invariant offset == if level == level0 then offset0 else 0
      decreases TOP_LEVEL - level
    {
      level := level + 1;
      offset := 0;
    }
  }

  // ------------------------------------------------------------ packed addresses

  function Pack(level: nat, offset: nat): nat {
    level * TWO56 + offset
  }

  /** The high octet of an address is the level, the rest is the offset. */
  lemma PackRoundTrip(level: nat, offset: nat)
    requires offset < TWO56
    ensures Pack(level, offset) / TWO56 == level && Pack(level, offset) % TWO56 == offset
    ensures Pack(level, offset) == level * 0x100_0000_0000_0000 + offset
  {
  }

  // ------------------------------------------------------------------ bin codec

  ghost function MapOf(order: seq<Entry>): Fingers {
    if order == [] then map[] else
      var last := order[|order| - 1];
      MapOf(order[..|order| - 1])[last.finger := last.address]
  }

  ghost function EncodeEntries(order: seq<Entry>): (s: Bytes)
    ensures |s| == ENTRY_SIZE * |order|
  {
    if order == [] then [] else
      var last := order[|order| - 1];
      EncodeEntries(order[..|order| - 1]) + (last.finger + last.address)
  }

  function Filler(n: nat): (s: Bytes)
    ensures |s| == n
  {
    seq(n, _ => 0xcf)
  }

  /** The slot of a bin whose table is walked in the given order. */
  ghost function EncodeBin(rep: Fingerprint, order: seq<Entry>, size: nat): (s: Bytes)
    requires BinLength(|order|) <= size
    ensures |s| == size
  {
    rep + Int32(|order|) + EncodeEntries(order) + Filler(size - BinLength(|order|))
  }

  /** The slot holds the bin of `rep` with these fingerprints, in some order. */
  ghost predicate IsBin(slot: Bytes, rep: Fingerprint, fingers: Fingers) {
    exists order :: MapOf(order) == fingers && |order| == |fingers| < 0x1_0000_0000 &&
                    BinLength(|order|) <= |slot| && slot == EncodeBin(rep, order, |slot|)
  }

  lemma {:induction false} EntryAt(order: seq<Entry>, i: nat)
    requires i < |order|
    ensures var s := EncodeEntries(order);
            && s[ENTRY_SIZE * i..ENTRY_SIZE * i + 20] == order[i].finger
            && s[ENTRY_SIZE * i + 20..ENTRY_SIZE * i + 84] == order[i].address
  {
    var init := order[..|order| - 1];
    var s, t := EncodeEntries(order), EncodeEntries(init);
    if i < |order| - 1 {
      EntryAt(init, i);
      assert s[ENTRY_SIZE * i..ENTRY_SIZE * i + 20] == t[ENTRY_SIZE * i..ENTRY_SIZE * i + 20];
      assert s[ENTRY_SIZE * i + 20..ENTRY_SIZE * i + 84] == t[ENTRY_SIZE * i + 20..ENTRY_SIZE * i + 84];
    }
  }

  /** The loop of `WriteBinToVolume` over the table of the bin. */
  method WriteEntries(fingers: Fingers) returns (entries: Bytes, ghost order: seq<Entry>)
    ensures MapOf(order) == fingers && |order| == |fingers| && entries == EncodeEntries(order)
  {
    hide EncodeEntries, MapOf;
    entries, order := [], [];
    NoEntries();
    var remaining := fingers.Keys;
    while remaining != {}
      invariant remaining <= fingers.Keys && |order| + |remaining| == |fingers|
      invariant MapOf(order).Keys == fingers.Keys - remaining
      invariant forall f :: f in MapOf(order) ==> MapOf(order)[f] == fingers[f]
      invariant entries == EncodeEntries(order)
      decreases |remaining|
    {
      var f: Fingerprint :| f in remaining;
      EntriesSnoc(order, Entry(f, fingers[f]));
      entries := entries + (f + fingers[f]);
      remaining := remaining - {f};
      order := order + [Entry(f, fingers[f])];
    }
  }

  lemma NoEntries()
    ensures MapOf([]) == map[] && EncodeEntries([]) == []
  {
  }

  lemma EntriesSnoc(order: seq<Entry>, e: Entry)
    ensures MapOf(order + [e]) == MapOf(order)[e.finger := e.address]
    ensures EncodeEntries(order + [e]) == EncodeEntries(order) + (e.finger + e.address)
  {
    assert (order + [e])[..|order|] == order;
  }

  /** Reading the slot's `i`-th entry takes the map of the entries so far one further. */
  lemma NextEntry(rep: Fingerprint, order: seq<Entry>, size: nat, i: nat)
    requires BinLength(|order|) <= size && i < |order|
    ensures var slot, p := EncodeBin(rep, order, size), 24 + ENTRY_SIZE * i;
            && p + 84 <= |slot| == size
            && MapOf(order[..i + 1]) == MapOf(order[..i])[slot[p..p + 20] := slot[p + 20..p + 84]]
  {
    hide EncodeEntries, MapOf, Int32, Filler;
    BinEntry(rep, order, size, i);
    EntriesSnoc(order[..i], order[i]);
    assert order[..i + 1] == order[..i] + [order[i]];
  }

  /** The write buffer of `WriteBinToVolume`. */
  method SerializeBin(rep: Fingerprint, fingers: Fingers, size: nat) returns (slot: Bytes)
    requires BinLength(|fingers|) <= size && |fingers| < 0x1_0000_0000
    ensures |slot| == size && IsBin(slot, rep, fingers)
    ensures slot[..20] == rep && FromInt32(slot[20..24]) == |fingers|
    ensures forall i :: 24 + 84 * |fingers| <= i < size ==> slot[i] == 0xcf
  {
    hide EncodeEntries, MapOf, Int32, FromInt32;
    var entries, order := WriteEntries(fingers);
    slot := rep + Int32(|fingers|) + entries + Filler(size - BinLength(|fingers|));
    assert slot == EncodeBin(rep, order, size);
    BinFields(rep, order, size);
  }

  lemma BinFields(rep: Fingerprint, order: seq<Entry>, size: nat)
    requires BinLength(|order|) <= size && |order| < 0x1_0000_0000
    ensures var slot := EncodeBin(rep, order, size);
            slot[..20] == rep && FromInt32(slot[20..24]) == |order|
  {
    var slot := EncodeBin(rep, order, size);
    Int32RoundTrip(|order|);
    assert slot[20..24] == Int32(|order|);
  }

  lemma BinEntry(rep: Fingerprint, order: seq<Entry>, size: nat, i: nat)
    requires BinLength(|order|) <= size && i < |order|
    ensures var slot, p := EncodeBin(rep, order, size), 24 + ENTRY_SIZE * i;
            p + 84 <= size && slot[p..p + 20] == order[i].finger && slot[p + 20..p + 84] == order[i].address
  {
    hide EncodeEntries, Int32, Filler;
    EntryAt(order, i);
    var slot, s, p := EncodeBin(rep, order, size), EncodeEntries(order), 24 + ENTRY_SIZE * i;
    assert slot[24..24 + |s|] == s;
    assert slot[p..p + 20] == s[p - 24..p - 4];
    assert slot[p + 20..p + 84] == s[p - 4..p + 60];
  }

  /** Reading a slot back gives exactly the fingerprints written; a slot with another
      representative fingerprint is refused. */
  method DeserializeBin(slot: Bytes, rep: Fingerprint, ghost owner: Fingerprint, ghost written: Fingers)
    returns (fingers: Option<Fingers>)
    requires IsBin(slot, owner, written)
    ensures fingers == if rep == owner then Some(written) else None
  {
    hide EncodeBin, EncodeEntries, MapOf, Int32, FromInt32;
    NoEntries();
    ghost var order :| MapOf(order) == written && |order| == |written| < 0x1_0000_0000 &&
                       BinLength(|order|) <= |slot| && slot == EncodeBin(owner, order, |slot|);
    BinFields(owner, order, |slot|);
    if slot[..20] != rep {
      return None;
    }
    var chunknum := FromInt32(slot[20..24]);
    var m: Fingers := map[];
    for i := 0 to chunknum
      invariant i <= |order| && m == MapOf(order[..i])
    {
      var p := 24 + ENTRY_SIZE * i;
      NextEntry(owner, order, |slot|, i);
      m := m[slot[p..p + 20] := slot[p + 20..p + 84]];
    }
    assert order[..chunknum] == order;
    return Some(m);
  }

  // -------------------------------------------------------------------- volumes

  datatype Volume = Volume(binNum: nat, length: nat, file: Bytes)

  /** Where a bin lies: slot number `k` of the volume of its level. */
  datatype Place = Place(level: nat, k: nat)

  function Offset(level: nat, k: nat): (offset: nat)
    ensures offset >= HEAD_SIZE
  {
    HEAD_SIZE + k * LevelSize(level)
  }

  lemma SlotsApart(level: nat, j: nat, k: nat)
    requires j < k
    ensures Offset(level, j) + LevelSize(level) == Offset(level, j + 1) <= Offset(level, k)
  {
    hide LevelSize;
    Multiples(j, k, LevelSize(level));
  }

  lemma {:induction false} Multiples(j: nat, k: nat, s: nat)
    requires j < k
    ensures j * s + s == (j + 1) * s <= k * s
    decreases k
  {
    if j + 1 < k {
      Multiples(j, k - 1, s);
      assert (k - 1) * s + s == k * s;
    }
  }

  lemma SlotAfter(level: nat, k: nat)
    ensures Offset(level, k) + LevelSize(level) == Offset(level, k + 1)
  {
    SlotsApart(level, k, k + 1);
  }

  /** The volume is its head and its slots, without a gap. */
  ghost predicate VolumeOk(v: Volume, level: nat) {
    v.length == |v.file| == Offset(level, v.binNum)
  }

  ghost predicate Stored(v: Volume, place: Place, rep: Fingerprint, fingers: Fingers) {
    && place.k < v.binNum
    && Offset(place.level, place.k) + LevelSize(place.level) <= |v.file|
    && IsBin(SlotOf(v.file, place), rep, fingers)
  }

  ghost function SlotOf(file: Bytes, place: Place): (slot: Bytes)
    requires Offset(place.level, place.k) + LevelSize(place.level) <= |file|
    ensures |slot| == LevelSize(place.level)
  {
    file[Offset(place.level, place.k)..Offset(place.level, place.k) + LevelSize(place.level)]
  }

  /** `lseek` and `write`. */
  function WriteAt(file: Bytes, offset: nat, data: Bytes): Bytes
    requires offset <= |file|
  {
    file[..offset] + data + if offset + |data| <= |file| then file[offset + |data|..] else []
  }

  lemma WriteHere(file: Bytes, place: Place, data: Bytes)
    requires Offset(place.level, place.k) <= |file| && |data| == LevelSize(place.level)
    ensures |WriteAt(file, Offset(place.level, place.k), data)| >= Offset(place.level, place.k) + |data|
    ensures SlotOf(WriteAt(file, Offset(place.level, place.k), data), place) == data
  {
  }

  /** Writing one slot leaves every other slot of the volume as it was. */
  lemma WriteElsewhere(file: Bytes, place: Place, k: nat, data: Bytes)
    requires place.k != k && |data| == LevelSize(place.level) && Offset(place.level, k) <= |file|
    requires Offset(place.level, place.k) + LevelSize(place.level) <= |file|
    ensures var after := WriteAt(file, Offset(place.level, k), data);
            |after| >= |file| && SlotOf(after, place) == SlotOf(file, place)
  {
    if place.k < k {
      SlotsApart(place.level, place.k, k);
    } else {
      SlotsApart(place.level, k, place.k);
    }
    Elsewhere(file, Offset(place.level, k), data, Offset(place.level, place.k),
              Offset(place.level, place.k) + LevelSize(place.level));
  }

  lemma Elsewhere(file: Bytes, offset: nat, data: Bytes, from: nat, to: nat)
    requires offset <= |file| && from <= to <= |file| && (to <= offset || offset + |data| <= from)
    ensures |WriteAt(file, offset, data)| >= |file| && WriteAt(file, offset, data)[from..to] == file[from..to]
  {
  }

  // ------------------------------------------------------------- extreme binning

  datatype Bin = Bin(fingers: Fingers, address: nat)

  /** All the bins of `places` are stored, each in a slot of its own. */
  ghost predicate AllStored(volumes: seq<Volume>, places: map<Fingerprint, Place>, saved: map<Fingerprint, Fingers>) {
    && |volumes| == MAX_LEVEL
    && (forall l :: 0 <= l < MAX_LEVEL ==> VolumeOk(volumes[l], l))
    && places.Keys == saved.Keys
    && (forall r :: r in places ==>
        places[r].level <= TOP_LEVEL && Stored(volumes[places[r].level], places[r], r, saved[r]))
    && forall r, t :: r in places && t in places && r != t ==> places[r] != places[t]
  }

  /** The effect of one write on a volume. */
  function Put(v: Volume, offset: nat, data: Bytes, grows: bool): Volume
    requires offset <= |v.file|
  {
    Volume(if grows then v.binNum + 1 else v.binNum, if grows then v.length + |data| else v.length,
           WriteAt(v.file, offset, data))
  }

  /** A bin goes into a new slot at the end of its volume. */
  lemma PutNew(v: Volume, place: Place, rep: Fingerprint, fingers: Fingers, data: Bytes)
    requires VolumeOk(v, place.level) && place.k == v.binNum
    requires |data| == LevelSize(place.level) && IsBin(data, rep, fingers)
    ensures Offset(place.level, place.k) <= |v.file|
    ensures var now := Put(v, Offset(place.level, place.k), data, true);
            VolumeOk(now, place.level) && Stored(now, place, rep, fingers)
  {
    hide IsBin, LevelSize, Offset, WriteAt, SlotOf;
    SlotAfter(place.level, place.k);
    WriteHere(v.file, place, data);
    WriteLength(v.file, Offset(place.level, place.k), data);
  }

  /** A bin goes over its old slot. */
  lemma PutOver(v: Volume, place: Place, rep: Fingerprint, was: Fingers, fingers: Fingers, data: Bytes)
    requires VolumeOk(v, place.level) && Stored(v, place, rep, was)
    requires |data| == LevelSize(place.level) && IsBin(data, rep, fingers)
    ensures Offset(place.level, place.k) <= |v.file|
    ensures var now := Put(v, Offset(place.level, place.k), data, false);
            VolumeOk(now, place.level) && Stored(now, place, rep, fingers)
  {
    hide IsBin, LevelSize, Offset, WriteAt, SlotOf;
    WriteHere(v.file, place, data);
    WriteLength(v.file, Offset(place.level, place.k), data);
  }

  /** Every other bin of the volume stays. */
  lemma PutElsewhere(v: Volume, place: Place, data: Bytes, grows: bool, other: Place, rep: Fingerprint,
                     fingers: Fingers)
    requires Stored(v, other, rep, fingers) && other.level == place.level && other.k != place.k
    requires |data| == LevelSize(place.level) && Offset(place.level, place.k) <= |v.file|
    ensures Stored(Put(v, Offset(place.level, place.k), data, grows), other, rep, fingers)
  {
    hide IsBin, LevelSize, Offset, WriteAt, SlotOf;
    WriteElsewhere(v.file, other, place.k, data);
  }

  /** Writing a bin, over its old slot or into a new one at the end of a volume, changes that
      bin and no other. */
  lemma PutKeeps(volumes: seq<Volume>, places: map<Fingerprint, Place>, saved: map<Fingerprint, Fingers>,
                 rep: Fingerprint, fingers: Fingers, place: Place, data: Bytes, grows: bool)
    requires AllStored(volumes, places, saved) && place.level <= TOP_LEVEL
    requires |data| == LevelSize(place.level) && IsBin(data, rep, fingers)
    requires if grows then place.k == volumes[place.level].binNum else rep in places && places[rep] == place
    ensures Offset(place.level, place.k) <= |volumes[place.level].file|
    ensures var v := Put(volumes[place.level], Offset(place.level, place.k), data, grows);
            AllStored(volumes[place.level := v], places[rep := place], saved[rep := fingers])
  {
    hide IsBin, LevelSize, Offset, WriteAt, SlotOf, Put;
    var l := place.level;
    assert VolumeOk(volumes[l], l);
    if grows {
      PutNew(volumes[l], place, rep, fingers, data);
    } else {
      PutOver(volumes[l], place, rep, saved[rep], fingers, data);
    }
    var v := Put(volumes[l], Offset(l, place.k), data, grows);
    var volumes', places', saved' := volumes[l := v], places[rep := place], saved[rep := fingers];
    forall r | r in places && r != rep
      ensures places[r] != place && Stored(volumes'[places[r].level], places[r], r, saved[r])
    {
      assert Stored(volumes[places[r].level], places[r], r, saved[r]);
      if places[r].level == l {
        PutElsewhere(volumes[l], place, data, grows, places[r], r, saved[r]);
      }
    }
  }

  lemma WriteLength(file: Bytes, offset: nat, data: Bytes)
    requires offset <= |file|
    ensures |WriteAt(file, offset, data)| == if offset + |data| <= |file| then |file| else offset + |data|
  {
  }

  /** The primary index holds the packed address of every stored bin, and 0 for the others. */
  ghost predicate Indexed(mainTable: map<Fingerprint, nat>, places: map<Fingerprint, Place>) {
    && places.Keys <= mainTable.Keys
    && forall r :: r in mainTable ==> AddressOf(mainTable[r], places, r)
  }

  ghost predicate AddressOf(address: nat, places: map<Fingerprint, Place>, rep: Fingerprint) {
    if rep in places then
      Offset(places[rep].level, places[rep].k) < TWO56
          && address == Pack(places[rep].level, Offset(places[rep].level, places[rep].k))
    else
      address == 0
  }

  lemma IndexedNew(mainTable: map<Fingerprint, nat>, places: map<Fingerprint, Place>, rep: Fingerprint)
    requires Indexed(mainTable, places) && rep !in mainTable
    ensures Indexed(mainTable[rep := 0], places)
  {
  }

  lemma IndexedMove(mainTable: map<Fingerprint, nat>, places: map<Fingerprint, Place>, rep: Fingerprint, place: Place,
                    address: nat)
    requires Indexed(mainTable, places) && AddressOf(address, places[rep := place], rep)
    ensures Indexed(mainTable[rep := address], places[rep := place])
  {
    hide Offset, Pack;
    forall r | r in mainTable && r != rep
      ensures AddressOf(mainTable[r], places[rep := place], r)
    {
      assert AddressOf(mainTable[r], places, r);
    }
  }

  class ExtremeBinning {
    var volumes: seq<Volume>
    /** The primary index: the packed address of each bin, or 0. */
    var mainTable: map<Fingerprint, nat>
    var binCache: map<Fingerprint, Bin>
    ghost var places: map<Fingerprint, Place>
    /** What the volumes hold. */
    ghost var saved: map<Fingerprint, Fingers>

    ghost predicate Valid()
      reads this
    {
      && AllStored(volumes, places, saved)
      && Indexed(mainTable, places)
      && (forall r :: r in binCache ==> r in mainTable && binCache[r].address == mainTable[r])
    }

    /** The current content of the bin of a representative fingerprint. */
    ghost function Content(rep: Fingerprint): Fingers
      reads this
    {
      if rep in binCache then binCache[rep].fingers else if rep in saved then saved[rep] else map[]
    }

    /** `ExtremeBinningInit` with no files there yet. */
    constructor (heads: seq<Bytes>)
      requires |heads| == MAX_LEVEL && forall l :: 0 <= l < MAX_LEVEL ==> |heads[l]| == HEAD_SIZE
      ensures Valid() && forall r :: Content(r) == map[]
    {
      volumes := seq(MAX_LEVEL, l requires 0 <= l < MAX_LEVEL => Volume(0, HEAD_SIZE, heads[l]));
      mainTable, binCache, places, saved := map[], map[], map[], map[];
    }

    /** `WriteBinToVolume`: overwrite the bin's slot, or take a new one if the bin has none or
        has outgrown its level. */
    method WriteBin(rep: Fingerprint, fingers: Fingers, address: nat) returns (newAddress: nat)
      requires AllStored(volumes, places, saved) && rep in mainTable && Indexed(mainTable, places)
               && address == mainTable[rep]
      requires BinLength(|fingers|) < 0x8000_0000
      requires forall l :: 0 <= l < MAX_LEVEL ==> volumes[l].length < TWO56
      modifies this`volumes, this`places, this`saved
      ensures AllStored(volumes, places, saved) && saved == old(saved)[rep := fingers]
      ensures rep in places && places == old(places)[rep := places[rep]]
      ensures AddressOf(newAddress, places, rep) && newAddress != 0
      ensures rep in old(places) && BinLength(|fingers|) <= LevelSize(old(places)[rep].level) ==> newAddress == address
      ensures BinLength(|fingers|) <= LevelSize(places[rep].level)
      ensures forall l :: (if rep in old(places) then old(places)[rep].level else 0) <= l < places[rep].level ==>
              LevelSize(l) < BinLength(|fingers|)
      ensures forall l :: 0 <= l < MAX_LEVEL && l != places[rep].level ==> volumes[l] == old(volumes)[l]
    {
      hide IsBin, LevelSize, Offset, AllStored, Put, Indexed;
      DecodeAddress(rep);
      var level, offset := address / TWO56, address % TWO56;
      var nlen := BinLength(|fingers|);
      level, offset := FindLevel(nlen, level, offset);
      var slot := SerializeBin(rep, fingers, LevelSize(level));
      var bvol := volumes[level];
      ghost var grows := offset == 0;
      if offset == 0 {
        VolumeEnd(level);
        offset := bvol.length;
        bvol := bvol.(binNum := bvol.binNum + 1, length := bvol.length + LevelSize(level));
      }
      ghost var place := if grows then Place(level, volumes[level].binNum) else places[rep];
      PutKeeps(volumes, places, saved, rep, fingers, place, slot, grows);
      bvol := bvol.(file := WriteAt(bvol.file, offset, slot));
      PutIs(volumes[level], offset, slot, grows);
      volumes := volumes[level := bvol];
      places := places[rep := place];
      saved := saved[rep := fingers];
      newAddress := Pack(level, offset);
    }

    lemma DecodeAddress(rep: Fingerprint)
      requires AllStored(volumes, places, saved) && rep in mainTable && Indexed(mainTable, places)
      ensures |volumes| == MAX_LEVEL && places.Keys == saved.Keys
      ensures var level, offset := mainTable[rep] / TWO56, mainTable[rep] % TWO56;
              && level <= TOP_LEVEL
              && (rep in places ==> offset == Offset(level, places[rep].k) != 0 && level == places[rep].level
                                    && Stored(volumes[level], places[rep], rep, saved[rep]))
              && (rep !in places ==> level == 0 && offset == 0)
    {
      assert AddressOf(mainTable[rep], places, rep);
      if rep in places {
        PackRoundTrip(places[rep].level, Offset(places[rep].level, places[rep].k));
      }
    }

    lemma VolumeEnd(level: nat)
      requires AllStored(volumes, places, saved) && level < MAX_LEVEL
      ensures volumes[level].length == |volumes[level].file| == Offset(level, volumes[level].binNum) >= HEAD_SIZE
    {
      assert VolumeOk(volumes[level], level);
    }

    /** `ReadBinFromVolume`. */
    method ReadBin(rep: Fingerprint, address: nat) returns (fingers: Option<Fingers>)
      requires Valid() && rep in places && rep in mainTable && address == mainTable[rep]
      ensures fingers == Some(saved[rep])
    {
      hide IsBin, LevelSize, Offset, AllStored, Indexed;
      DecodeAddress(rep);
      var level, offset := address / TWO56, address % TWO56;
      var slot := volumes[level].file[offset..offset + LevelSize(level)];
      fingers := DeserializeBin(slot, rep, rep, saved[rep]);
    }

    /** `LoadBin`: the bin's current content, from the cache, from its volume, or new. */
    method LoadBin(rep: Fingerprint) returns (fingers: Fingers)
      requires Valid()
      modifies this`mainTable, this`binCache
      ensures Valid() && rep in binCache && fingers == old(Content(rep))
      ensures forall r :: Content(r) == old(Content(r))
    {
      hide AllStored, IsBin, LevelSize, Offset, Pack, BinLength, Indexed, AddressOf;
      SameKeys();
      if rep in binCache {
        return binCache[rep].fingers;
      }
      if rep !in mainTable {
        IndexedNew(mainTable, places, rep);
        mainTable := mainTable[rep := 0];
      }
      var addr := mainTable[rep];
      PackNotZero(rep);
      fingers := map[];
      if addr != 0 {
        var read := ReadBin(rep, addr);
        fingers := read.value;
      }
      binCache := binCache[rep := Bin(fingers, addr)];
    }

    lemma SameKeys()
      requires AllStored(volumes, places, saved)
      ensures places.Keys == saved.Keys
    {
    }

    lemma PackNotZero(rep: Fingerprint)
      requires rep in mainTable && Indexed(mainTable, places)
      ensures mainTable[rep] == 0 <==> rep !in places
    {
      assert AddressOf(mainTable[rep], places, rep);
    }

    /** What the deduplication policies do with a loaded bin. */
    method UpdateBin(rep: Fingerprint, fingers: Fingers)
      requires Valid() && rep in binCache
      modifies this`binCache
      ensures Valid() && rep in binCache && Content(rep) == fingers
      ensures forall r :: r != rep ==> Content(r) == old(Content(r))
    {
      hide AllStored, IsBin, LevelSize, Offset, Pack, Indexed;
      SameKeys();
      binCache := binCache[rep := binCache[rep].(fingers := fingers)];
    }

    /** `FreeBin`: write the bin back and drop it from the cache; no bin's content changes. */
    method FreeBin(rep: Fingerprint) returns (ok: bool)
      requires Valid() && rep in binCache && BinLength(|binCache[rep].fingers|) < 0x8000_0000
      requires forall l :: 0 <= l < MAX_LEVEL ==> volumes[l].length < TWO56
      modifies this
      ensures ok && Valid() && binCache == old(binCache) - {rep}
      ensures rep in saved && saved[rep] == old(binCache)[rep].fingers
      ensures forall r :: Content(r) == old(Content(r))
    {
      hide AllStored, IsBin, LevelSize, Offset, Pack, BinLength, Indexed, AddressOf;
      var bin := binCache[rep];
      var newAddress := WriteBin(rep, bin.fingers, bin.address);
      if newAddress != 0 {
        if rep !in mainTable {
          return false;
        }
        IndexedMove(mainTable, old(places), rep, places[rep], newAddress);
        mainTable := mainTable[rep := newAddress];
      }
      binCache := binCache - {rep};
      ok := true;
    }
  }

  lemma PutIs(v: Volume, offset: nat, data: Bytes, grows: bool)
    requires offset <= |v.file|
    ensures Put(v, offset, data, grows) ==
            Volume(if grows then v.binNum + 1 else v.binNum, if grows then v.length + |data| else v.length,
                   WriteAt(v.file, offset, data))
  {
  }

  // ----------------------------------------------------------------- volume head

  /** `BinVolumeFlush` writes the head, and `BinVolumeInit` reads it back. */
  const VOLUME_MAGIC := 0xa1b2c3d4

  function Int64(n: nat): (s: Bytes)
    ensures |s| == 8
  {
    Int32(n % 0x1_0000_0000) + Int32(n / 0x1_0000_0000)
  }

  function FromInt64(s: Bytes): nat
    requires |s| == 8
  {
    FromInt32(s[..4]) + 0x1_0000_0000 * FromInt32(s[4..])
  }

  /** A policy's update of a bin survives its way through the volume: load, update, write back,
      load again. */
  method UpdateAndReload(bins: ExtremeBinning, rep: Fingerprint, fingers: Fingers) returns (again: Fingers)
    requires bins.Valid() && BinLength(|fingers|) < 0x8000_0000
    requires forall l :: 0 <= l < MAX_LEVEL ==> bins.volumes[l].length < TWO56
    modifies bins
    ensures bins.Valid() && again == fingers && bins.Content(rep) == fingers
    ensures forall r :: r != rep ==> bins.Content(r) == old(bins.Content(r))
  {
    hide BinLength, ExtremeBinning.Valid;
    var was := bins.LoadBin(rep);
    bins.UpdateBin(rep, fingers);
    var ok := bins.FreeBin(rep);
    again := bins.LoadBin(rep);
  }

  function Head(level: nat, v: Volume): (s: Bytes)
    ensures |s| == HEAD_SIZE
  {
    Int32(VOLUME_MAGIC) + Int32(level) + Int32(v.binNum) + Int64(v.length)
  }

  function Flush(level: nat, v: Volume): Bytes {
    if |v.file| >= HEAD_SIZE then Head(level, v) + v.file[HEAD_SIZE..] else Head(level, v)
  }

  /** `BinVolumeInit` on an existing file: it wants the magic number and the level. */
  function Init(level: nat, file: Bytes): Option<Volume> {
    if |file| >= HEAD_SIZE && FromInt32(file[..4]) == VOLUME_MAGIC && FromInt32(file[4..8]) == level
    then Some(Volume(FromInt32(file[8..12]), FromInt64(file[12..20]), file))
    else None
  }

  /** Flushing a volume and opening it again changes nothing but the head of the file, so
      every slot of the volume survives. */
  lemma FlushInit(level: nat, v: Volume, place: Place, rep: Fingerprint, fingers: Fingers)
    requires VolumeOk(v, level) && level < MAX_LEVEL && v.binNum < 0x1_0000_0000 && v.length < 0x1_0000_0000_0000_0000
    ensures var file := Flush(level, v);
            && |file| == |v.file| && file[20..] == v.file[20..]
            && FromInt32(file[..4]) == 0xa1b2c3d4 && FromInt32(file[4..8]) == level
            && FromInt32(file[8..12]) == v.binNum && FromInt64(file[12..20]) == v.length
            && FromInt32(file[12..16]) == v.length % 0x1_0000_0000
            && FromInt32(file[16..20]) == v.length / 0x1_0000_0000
    ensures forall l: nat :: Init(l, Flush(level, v)).Some? <==> l == level
    ensures var after := Init(level, Flush(level, v));
            && after == Some(v.(file := Flush(level, v))) && VolumeOk(after.value, level)
            && (Stored(v, place, rep, fingers) && place.level == level ==> Stored(after.value, place, rep, fingers))
  {
    hide IsBin, LevelSize, Int32, FromInt32;
    var file := Flush(level, v);
    Int32RoundTrip(VOLUME_MAGIC);
    Int32RoundTrip(level);
    Int32RoundTrip(v.binNum);
    Int32RoundTrip(v.length % 0x1_0000_0000);
    Int32RoundTrip(v.length / 0x1_0000_0000);
    assert file[..4] == Int32(VOLUME_MAGIC) && file[4..8] == Int32(level) && file[8..12] == Int32(v.binNum);
    assert file[12..20] == Int64(v.length);
    assert Int64(v.length)[..4] == Int32(v.length % 0x1_0000_0000)
        && Int64(v.length)[4..] == Int32(v.length / 0x1_0000_0000);
    assert file[12..16] == Int32(v.length % 0x1_0000_0000) && file[16..20] == Int32(v.length / 0x1_0000_0000);
    if Stored(v, place, rep, fingers) && place.level == level {
      assert SlotOf(file, place) == SlotOf(v.file, place);
    }
  }
}
