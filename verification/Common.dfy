/** What several of the models need: machine words, optional values and lists without
    duplicates. */
module Common {

  const WORD32 := 0x1_0000_0000
  const WORD64 := 0x1_0000_0000_0000_0000

  newtype byte = x: int | 0 <= x < 256

  datatype Option<T> = None | Some(value: T)

  /** The conversion of a wider integer to a signed int. */
  function Int(x: int): int { (x + WORD32 / 2) % WORD32 - WORD32 / 2 }

  /** Two's complement, 32 bits. */
  lemma IntRange(x: int)
    ensures -0x8000_0000 <= Int(x) <= 0x7fff_ffff && Int(x) % 0x1_0000_0000 == x % 0x1_0000_0000
    ensures FitsInt(x) <==> -0x8000_0000 <= x <= 0x7fff_ffff
  {}

  predicate FitsInt(x: int) { -WORD32 / 2 <= x < WORD32 / 2 }

  predicate NoDuplicates<T(==)>(xs: seq<T>) {
    forall i, j :: 0 <= i < j < |xs| ==> xs[i] != xs[j]
  }

  lemma NoDuplicatesConcat<T>(a: seq<T>, b: seq<T>)
    requires NoDuplicates(a) && NoDuplicates(b) && forall x :: x in a ==> x !in b
    ensures NoDuplicates(a + b)
  {
    forall i, j | 0 <= i < j < |a + b| ensures (a + b)[i] != (a + b)[j] {
      if i < |a| <= j {
        assert a[i] in a && b[j - |a|] in b;
      }
    }
  }

  lemma SamePrefix(p: seq<byte>, a: seq<byte>, b: seq<byte>)
    ensures p + a == p + b <==> a == b
  {
    assert (p + a)[|p|..] == a && (p + b)[|p|..] == b;
  }
}
