/** Byte strings and the unsigned lexicographic order of Go's bytes.Compare,
    which orders every key the store holds. */
module Bytes {

  newtype byte = x: int | 0 <= x < 256

  /** Keys and values are opaque byte strings. */
  type Key = seq<byte>
  type Value = seq<byte>

  /** bytes.Compare: -1, 0 or +1 as `a` sorts before, equal to, or after `b`;
      a proper prefix sorts before the longer string. */
  function Compare(a: seq<byte>, b: seq<byte>): (c: int)
    ensures -1 <= c <= 1
    ensures c == 0 <==> a == b
  {
    if |a| == 0 then (if |b| == 0 then 0 else -1)
    else if |b| == 0 then 1
    else if a[0] < b[0] then -1
    else if a[0] > b[0] then 1
    else
      assert a == [a[0]] + a[1..] && b == [b[0]] + b[1..];
      Compare(a[1..], b[1..])
  }

  /** `a` sorts strictly before `b`. */
  predicate Less(a: seq<byte>, b: seq<byte>) {
    Compare(a, b) < 0
  }

  /** Swapping the arguments negates the comparison. */
  lemma {:induction false} CompareFlip(a: seq<byte>, b: seq<byte>)
    ensures Compare(b, a) == -Compare(a, b)
  {
    if |a| > 0 && |b| > 0 && a[0] == b[0] {
      CompareFlip(a[1..], b[1..]);
    }
  }

  /** The order is transitive, and a chain that comes back to its start is flat. */
  lemma {:induction false} CompareTrans(a: seq<byte>, b: seq<byte>, c: seq<byte>)
    requires Compare(a, b) <= 0 && Compare(b, c) <= 0
    ensures Compare(a, c) <= 0
    ensures Compare(a, c) == 0 ==> a == b
  {
    if |a| > 0 && |b| > 0 && |c| > 0 && a[0] == b[0] && b[0] == c[0] {
      CompareTrans(a[1..], b[1..], c[1..]);
      assert a == [a[0]] + a[1..] && b == [b[0]] + b[1..];
    }
  }

  /** A chain with one strict step is strict. */
  lemma LessTrans(a: seq<byte>, b: seq<byte>, c: seq<byte>)
    requires Compare(a, b) <= 0 && Compare(b, c) <= 0
    requires Less(a, b) || Less(b, c)
    ensures Less(a, c)
  {
    CompareTrans(a, b, c);
    if Compare(a, c) == 0 {
      CompareFlip(b, c);
    }
  }

  /** Any two keys are comparable: exactly one of below, equal, above. */
  lemma Trichotomy(a: seq<byte>, b: seq<byte>)
    ensures Less(a, b) || a == b || Less(b, a)
    ensures !(Less(a, b) && Less(b, a))
  {
    CompareFlip(a, b);
  }
}
