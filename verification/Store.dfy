/** client/src/store.c: packing chunks into containers and rolling over to a new one when
    the current one is full; container names come from `GetContainerName`. */
module Store {
  import opened Types
  import opened Container

  // ----------------------------------------------------------- container names

  /** `%011o`: eleven octal digits, enough for every 32-bit clock value. */
  function Octal(n: nat, width: nat): (s: string)
    ensures |s| == width
  {
    if width == 0 then "" else Octal(n / 8, width - 1) + [(n % 8) as char + '0']
  }

  /** `%d` of a nonnegative number. */
  function Decimal(n: nat): (s: string)
    ensures s != ""
  {
    (if n < 10 then "" else Decimal(n / 10)) + [(n % 10) as char + '0']
  }

  function ContainerName(clock: nat, counter: nat): Address {
    Octal(clock, 11) + Decimal(counter)
  }

  /** The value of a numeral in the given base. */
  function Value(s: string, base: nat): int {
    if s == "" then 0 else base * Value(s[..|s| - 1], base) + (s[|s| - 1] as int - '0' as int)
  }

  /** A counter is printed in decimal without leading zeroes. */
  lemma {:induction false} DecimalValue(n: nat)
    ensures Value(Decimal(n), 10) == n && (n > 0 ==> Decimal(n)[0] != '0')
    ensures forall c :: c in Decimal(n) ==> '0' <= c <= '9'
  {
    if n >= 10 {
      DecimalValue(n / 10);
      assert Decimal(n)[..|Decimal(n)| - 1] == Decimal(n / 10);
      assert Decimal(n)[0] == Decimal(n / 10)[0];
    }
  }

  /** A clock value is printed in octal, in the given width. */
  lemma {:induction false} OctalValue(n: nat, width: nat)
    requires n < Pow8(width)
    ensures Value(Octal(n, width), 8) == n && forall c :: c in Octal(n, width) ==> '0' <= c <= '7'
  {
    if width > 0 {
      OctalValue(n / 8, width - 1);
      assert Octal(n, width)[..width - 1] == Octal(n / 8, width - 1);
    }
  }

  /** The name tells the second in its first eleven characters, in octal, and the counter behind. */
  lemma NameValues(clock: nat, counter: nat)
    requires clock < CLOCKS
    ensures var name := ContainerName(clock, counter);
            |name| > 11 && Value(name[..11], 8) == clock && Value(name[11..], 10) == counter
  {
    assert Pow8(4) == 4096;
    assert Pow8(8) == 4096 * 4096;
    assert Pow8(11) == 0x2_0000_0000;
    OctalValue(clock, 11);
    DecimalValue(counter);
    var name := ContainerName(clock, counter);
    assert name[..11] == Octal(clock, 11) && name[11..] == Decimal(counter);
  }

  lemma {:induction false} DecimalInjective(m: nat, n: nat)
    requires Decimal(m) == Decimal(n)
    ensures m == n
  {
    var s, t := Decimal(m), Decimal(n);
    assert s[..|s| - 1] == if m < 10 then "" else Decimal(m / 10);
    assert t[..|t| - 1] == if n < 10 then "" else Decimal(n / 10);
    assert s[|s| - 1] == (m % 10) as char + '0' && t[|t| - 1] == (n % 10) as char + '0';
    if m >= 10 && n >= 10 {
      DecimalInjective(m / 10, n / 10);
    }
  }

  /** Names made with different counters differ, whatever the clock does. */
  lemma NamesDiffer(clock1: nat, counter1: nat, clock2: nat, counter2: nat)
    requires ContainerName(clock1, counter1) == ContainerName(clock2, counter2)
    ensures counter1 == counter2
  {
    assert Decimal(counter1) == ContainerName(clock1, counter1)[11..];
    assert Decimal(counter2) == ContainerName(clock2, counter2)[11..];
    DecimalInjective(counter1, counter2);
  }

  lemma {:induction false} OctalInjective(m: nat, n: nat, width: nat)
    requires m < Pow8(width) && n < Pow8(width) && Octal(m, width) == Octal(n, width)
    ensures m == n
  {
    if width > 0 {
      var s, t := Octal(m, width), Octal(n, width);
      assert s[..width - 1] == Octal(m / 8, width - 1) && t[..width - 1] == Octal(n / 8, width - 1);
      assert s[width - 1] == (m % 8) as char + '0' && t[width - 1] == (n % 8) as char + '0';
      OctalInjective(m / 8, n / 8, width - 1);
    }
  }

  function Pow8(n: nat): nat {
    if n == 0 then 1 else 8 * Pow8(n - 1)
  }

  /** `time`, cast to 32 bits. */
  const CLOCKS := 0x1_0000_0000

  /** A name determines the second in which it was made, and the counter. */
  lemma NamesEqual(clock1: nat, counter1: nat, clock2: nat, counter2: nat)
    requires ContainerName(clock1, counter1) == ContainerName(clock2, counter2)
    requires clock1 < CLOCKS && clock2 < CLOCKS
    ensures clock1 == clock2 && counter1 == counter2
  {
    NamesDiffer(clock1, counter1, clock2, counter2);
    assert Octal(clock1, 11) == ContainerName(clock1, counter1)[..11];
    assert Octal(clock2, 11) == ContainerName(clock2, counter2)[..11];
    assert Pow8(4) == 4096;
    assert Pow8(8) == 4096 * 4096;
    assert Pow8(11) == 0x2_0000_0000;
    OctalInjective(clock1, clock2, 11);
  }

  /** The seconds in which a process runs: from `start` up to, not including, `stop`. Within
      them the clock may show anything at any time. */
  datatype Span = Span(start: nat, stop: nat) {
    predicate Ok() {
      start < stop <= CLOCKS
    }
  }

  /** No name that a process with this start and this counter can still make is taken. */
  ghost predicate NamesLeft(start: nat, counter: nat, taken: set<Address>) {
    forall t, k :: start <= t < CLOCKS && k > counter ==> ContainerName(t, k) !in taken
  }

  /** The program made the name, before the second `stop`. `randomabc` starts at 1 in every
      process and is incremented before use. */
  ghost predicate Made(name: Address, stop: nat) {
    exists t: nat, k: nat :: t < stop && k > 1 && name == ContainerName(t, k)
  }

  ghost predicate AllMade(names: set<Address>, stop: nat) {
    forall a :: a in names ==> Made(a, stop)
  }

  /** A process that starts over a directory of the program finds its names free if and only if
      all names there were made in earlier seconds. So two processes can collide only if they
      run in the same second, or if the clock was set back between them. */
  lemma FreshStart(taken: set<Address>, start: nat)
    requires AllMade(taken, CLOCKS) && start <= CLOCKS
    ensures NamesLeft(start, 1, taken) <==> AllMade(taken, start)
  {
    hide ContainerName;
    if AllMade(taken, start) {
      forall t, k | start <= t < CLOCKS && k > 1
        ensures ContainerName(t, k) !in taken
      {
        if ContainerName(t, k) in taken {
          assert Made(ContainerName(t, k), start);
          var t': nat, k': nat :| t' < start && k' > 1 && ContainerName(t, k) == ContainerName(t', k');
          NamesEqual(t, k, t', k');
        }
      }
    }
    if NamesLeft(start, 1, taken) {
      forall a | a in taken
        ensures Made(a, start)
      {
        assert Made(a, CLOCKS);
      }
    }
  }

  lemma AllMadeWith(names: set<Address>, name: Address, stop: nat)
    requires AllMade(names, stop) && Made(name, stop)
    ensures AllMade(names + {name}, stop)
  {
  }

  lemma AllMadeLater(names: set<Address>, stop: nat, later: nat)
    requires AllMade(names, stop) && stop <= later
    ensures AllMade(names, later)
  {
    forall a | a in names
      ensures Made(a, later)
    {
      assert Made(a, stop);
    }
  }

  /** `GetContainerName`. */
  method GetContainerName(span: Span, counter: nat, ghost taken: set<Address>) returns (name: Address)
    requires span.Ok() && counter > 0 && NamesLeft(span.start, counter, taken)
    ensures name !in taken && Made(name, span.stop)
    ensures NamesLeft(span.start, counter + 1, taken + {name})
  {
    var clock: nat :| span.start <= clock < span.stop;
    name := ContainerName(clock, counter + 1);
    forall t, k | span.start <= t < CLOCKS && k > counter + 1
      ensures ContainerName(t, k) !in taken + {name}
    {
      if ContainerName(t, k) == name {
        NamesDiffer(t, k, clock, counter + 1);
      }
    }
  }

  // ------------------------------------------------------------- fingerprints

  /** The fingerprint function, and the finite stock of chunk data that this client ever
      meets. That no two members of the stock collide is assumed where it is needed. */
  datatype Hashing = Hashing(digest: Bytes -> Fingerprint, stock: set<Bytes>) {
    ghost predicate Genuine(c: Chunk) {
      c.data in stock && digest(c.data) == c.hash
    }

    ghost predicate CollisionFree() {
      forall x, y :: x in stock && y in stock && digest(x) == digest(y) ==> x == y
    }
  }

  // ----------------------------------------------------------------- contents

  type Contents = map<Address, seq<Chunk>>

  ghost predicate HasHash(cs: seq<Chunk>, hash: Fingerprint) {
    exists i :: 0 <= i < |cs| && cs[i].hash == hash
  }

  /** The container named `address` holds a chunk with this fingerprint. */
  ghost predicate Holds(contents: Contents, address: Address, hash: Fingerprint) {
    address in contents && HasHash(contents[address], hash)
  }

  /** Containers are only ever appended to. */
  ghost predicate Extends(before: Contents, after: Contents) {
    forall a :: a in before ==> a in after && before[a] <= after[a]
  }

  lemma ExtendsTransitive(a: Contents, b: Contents, c: Contents)
    requires Extends(a, b) && Extends(b, c)
    ensures Extends(a, c)
  {
    forall x | x in a
      ensures x in c && a[x] <= c[x]
    {
      assert x in b && a[x] <= b[x] <= c[x];
    }
  }

  lemma HoldsExtends(before: Contents, after: Contents, address: Address, hash: Fingerprint)
    requires Extends(before, after) && Holds(before, address, hash)
    ensures Holds(after, address, hash)
  {
    var i :| 0 <= i < |before[address]| && before[address][i].hash == hash;
    assert after[address][i].hash == hash;
  }

  // -------------------------------------------------------------------- store

  class Store {
    ghost const hashing: Hashing
    const span: Span
    /** `randomabc`, the counter behind the container names. */
    var counter: nat
    /** The container directory: file contents by name. */
    var disk: map<Address, Bytes>
    var container: Container
    /** The chunks of each container on disk. */
    ghost var archive: Contents
    ghost var Repr: set<object>

    ghost predicate OnDisk()
      reads this`disk, this`archive
    {
      && disk.Keys == archive.Keys
      && (forall a :: a in archive ==> Fits(archive[a]) && Encodes(disk[a], archive[a]))
      && (forall a, c :: a in archive && c in archive[a] ==> hashing.Genuine(c))
    }

    ghost predicate Valid()
      reads this, Repr
      ensures Valid() ==> this in Repr
    {
      && Repr == {this, container, container.dataBuffer}
      && OnDisk()
      && span.Ok() && counter > 0 && NamesLeft(span.start, counter, disk.Keys + {container.name})
      && AllMade(disk.Keys + {container.name}, span.stop)
      && container.Valid()
      && container.name !in disk
      && (forall c :: c in container.chunks ==> hashing.Genuine(c))
    }

    /** Everything stored so far, on disk or in the open container. */
    ghost function Contents(): Contents
      requires Valid()
      reads this, Repr
    {
      archive[container.name := container.chunks]
    }

    /** `store_init` in a new process, over a container directory that earlier processes may have
        filled. */
    constructor (ghost hashing: Hashing, disk: map<Address, Bytes>, ghost archive: Contents, span: Span)
      requires disk.Keys == archive.Keys
      requires forall a :: a in archive ==> Fits(archive[a]) && Encodes(disk[a], archive[a])
      requires forall a, c :: a in archive && c in archive[a] ==> hashing.Genuine(c)
      requires span.Ok() && AllMade(disk.Keys, span.start)
      ensures Valid() && fresh(Repr)
      ensures this.hashing == hashing && this.archive == archive && container.chunks == []
      ensures this.disk == disk && this.span == span && container.name !in disk
    {
      hide Encodes, Fits, Layout, Payload, NamesLeft, AllMade, Made;
      AllMadeLater(disk.Keys, span.start, CLOCKS);
      FreshStart(disk.Keys, span.start);
      var name := GetContainerName(span, 1, disk.Keys);
      AllMadeLater(disk.Keys, span.start, span.stop);
      AllMadeWith(disk.Keys, name, span.stop);
      this.hashing, this.span, this.counter := hashing, span, 2;
      this.disk := disk;
      this.archive := archive;
      var c := new Container(name);
      container := c;
      Repr := {this, c, c.dataBuffer};
    }

    /** `store_chunk`: append to the open container, or close it and start the next one. */
    method StoreChunk(chunk: Chunk) returns (address: Address)
      requires Valid() && |chunk.data| <= MAX_CHUNK_SIZE && hashing.Genuine(chunk)
      modifies Repr
      ensures Valid() && fresh(Repr - old(Repr))
      ensures address == container.name
      ensures if 32 + 29 * (|old(container.chunks)| + 1) + DataOctets(old(container.chunks)) + |chunk.data| <= 4194304
              then address == old(container.name)
                  && Contents() == old(Contents())[address := old(container.chunks) + [chunk]]
              else address !in old(Contents()) && Contents() == old(Contents())[address := [chunk]]
      ensures Extends(old(Contents()), Contents()) && Holds(Contents(), address, chunk.hash)
    {
      hide Made, AllMade, Encodes, Fits, OnDisk, NamesLeft, Layout, Payload, DataOctets;
      FitsInNumbers(container.chunks + [chunk]);
      DataOctetsSnoc(container.chunks, chunk);
      ghost var before := Contents();
      var ok := Append(chunk);
      if !ok {
        RollOver();
        OneChunkFits(chunk);
        assert container.chunks + [chunk] == [chunk];
        ok := Append(chunk);
      }
      address := container.name;
      ghost var cs := Contents()[address];
      assert cs[|cs| - 1].hash == chunk.hash;
    }

    /** `AppendChunkToContainer` on the open container. */
    method Append(chunk: Chunk) returns (ok: bool)
      requires Valid() && |chunk.data| <= MAX_CHUNK_SIZE && hashing.Genuine(chunk)
      modifies container, container.dataBuffer
      ensures Valid() && container.name == old(container.name)
      ensures ok <==> Fits(old(container.chunks) + [chunk])
      ensures container.chunks == if ok then old(container.chunks) + [chunk] else old(container.chunks)
    {
      hide Made, AllMade, Encodes, Fits, Layout, Payload;
      ok := container.AppendChunk(chunk);
    }

    /** Write out the full container and open an empty one. */
    method RollOver()
      requires Valid()
      modifies this
      ensures Valid() && fresh(Repr - old(Repr))
      ensures container.chunks == [] && container.name !in old(Contents())
      ensures archive == old(Contents())
    {
      hide Made, AllMade, Encodes, Fits, Layout, Payload;
      WriteContainer();
      InitContainer();
    }

    /** Save the open container under its own, unused name. */
    method WriteContainer()
      requires Valid()
      modifies this`disk, this`archive
      ensures OnDisk()
      ensures archive == old(archive)[container.name := container.chunks]
      ensures disk.Keys == old(disk.Keys) + {container.name}
    {
      hide Made, AllMade, Encodes, Fits, Layout, Payload, NamesLeft;
      var file := container.Serialize();
      disk := disk[container.name := file];
      archive := archive[container.name := container.chunks];
    }

    method InitContainer()
      requires OnDisk() && disk.Keys == archive.Keys
      requires span.Ok() && counter > 0 && NamesLeft(span.start, counter, disk.Keys) && AllMade(disk.Keys, span.stop)
      modifies this`counter, this`container, this`Repr
      ensures Valid() && fresh(container) && fresh(container.dataBuffer)
      ensures container.chunks == [] && container.name !in disk
      ensures archive == old(archive)
    {
      hide Encodes, Fits, Layout, Payload, NamesLeft, AllMade, Made;
      var name := GetContainerName(span, counter, disk.Keys);
      AllMadeWith(disk.Keys, name, span.stop);
      container := new Container(name);
      Repr := {this, container, container.dataBuffer};
      counter := counter + 1;
    }

    /** `store_destory`: write the last container unless nothing was put into it. */
    method Close()
      requires Valid()
      modifies this`disk, this`archive
      ensures OnDisk()
      ensures archive == if container.chunks == [] then old(archive) else old(Contents())
      ensures disk.Keys <= old(disk.Keys) + {container.name}
    {
      hide Made, AllMade, Encodes, Fits, Layout, Payload, NamesLeft;
      if container.chunkNum > 0 {
        WriteContainer();
      }
    }
  }
}
