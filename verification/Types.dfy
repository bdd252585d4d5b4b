/** Data shared by every part of the model: octets, fingerprints, addresses and
    the little-endian integers the program writes to its files. */
module Types {
  newtype Byte = b: int | 0 <= b < 256

  type Bytes = seq<Byte>

  const FINGER_LENGTH := 20
  const CHUNK_ADDRESS_LENGTH := 64
  const MIN_CHUNK_SIZE := 2048
  const MAX_CHUNK_SIZE := 65536

  /** A fingerprint is an octet string of FINGER_LENGTH octets. */
  type Fingerprint = s: Bytes | |s| == FINGER_LENGTH witness seq(20, _ => 0)

  /** The name of a container, as `GetContainerName` prints it. */
  type Address = string

  datatype Option<+T> = None | Some(value: T)

  const TWO64 := 0x1_0000_0000_0000_0000

  function Pow2(n: nat): (p: nat)
    ensures p >= 1
  {
    if n == 0 then 1 else 2 * Pow2(n - 1)
  }

  ghost predicate Distinct<X>(s: seq<X>) {
    forall i, j :: 0 <= i < j < |s| ==> s[i] != s[j]
  }

  ghost function Elems<X>(s: seq<X>): set<X> {
    set x | x in s
  }

  lemma {:induction false} DistinctSize<X>(s: seq<X>)
    requires Distinct(s)
    ensures |Elems(s)| == |s|
  {
    if s != [] {
      var init, last := s[..|s| - 1], s[|s| - 1];
      DistinctSize(init);
      assert s == init + [last];
      ElemsSnoc(init, last);
      assert last !in Elems(init);
    }
  }

  lemma ElemsSnoc<X>(s: seq<X>, x: X)
    ensures Elems(s + [x]) == Elems(s) + {x}
  {
  }
}
