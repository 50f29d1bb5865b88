/** Byte strings with the order Rust gives `&str`, the character classes the
    validators use, and the result types shared by every component. */
module Text {
  datatype Option<+T> = None | Some(value: T)

  datatype Result<+T, +E> = Success(value: T) | Failure(error: E)

  type byte = b: int | 0 <= b < 256

  type Text = seq<byte>

  const U64_MAX: int := 0xFFFF_FFFF_FFFF_FFFF
  const I64_MAX: int := 0x7FFF_FFFF_FFFF_FFFF
  const I64_MIN: int := -0x8000_0000_0000_0000

  type u64 = n: int | 0 <= n <= U64_MAX
  // `usize` on the 64-bit targets the service is built for.
  type usize = n: int | 0 <= n <= U64_MAX
  type i64 = n: int | I64_MIN <= n <= I64_MAX

  /** Microseconds since the epoch, the precision of the database. */
  type Time = int

  const SECOND: int := 1_000_000

  /** The bytes of an ASCII literal. */
  function Ascii(s: string): Text {
    seq(|s|, i requires 0 <= i < |s| => s[i] as int % 256)
  }

  function Min(a: int, b: int): int { if a <= b then a else b }

  function Max(a: int, b: int): int { if a <= b then b else a }

  /** The checked and saturating operations of `i64`. */
  function CheckedAdd(a: int, b: int): Option<i64> {
    if I64_MIN <= a + b <= I64_MAX then Some(a + b) else None
  }

  function CheckedSub(a: int, b: int): Option<i64> {
    if I64_MIN <= a - b <= I64_MAX then Some(a - b) else None
  }

  function SaturatingSub(a: int, b: int): i64 {
    Max(I64_MIN, Min(I64_MAX, a - b))
  }

  /** `a < b` as Rust compares `&str`: bytewise and lexicographic. */
  predicate Less(a: Text, b: Text) {
    b != [] && (a == [] || a[0] < b[0] || (a[0] == b[0] && Less(a[1..], b[1..])))
  }

  lemma {:induction false} LessIrreflexive(a: Text)
    ensures !Less(a, a)
  {
    if a == [] {
    } else {
      LessIrreflexive(a[1..]);
    }
  }

  lemma {:induction false} LessTransitive(a: Text, b: Text, c: Text)
    requires Less(a, b) && Less(b, c)
    ensures Less(a, c)
  {
    if a == [] || a[0] != b[0] || b[0] != c[0] {
    } else {
      LessTransitive(a[1..], b[1..], c[1..]);
    }
  }

  lemma {:induction false} LessTotal(a: Text, b: Text)
    ensures Less(a, b) || a == b || Less(b, a)
  {
    if a == [] || b == [] || a[0] != b[0] {
    } else {
      LessTotal(a[1..], b[1..]);
      assert a == [a[0]] + a[1..] && b == [b[0]] + b[1..];
    }
  }

  /** `a` and `b` agree up to position `k`, where `a` has ended or has the smaller byte. */
  predicate SmallerAt(a: Text, b: Text, k: nat) {
    k <= |a| && k < |b| && a[..k] == b[..k] && (k == |a| || a[k] < b[k])
  }

  /** The order looks at the first byte in which two strings differ: `a` is smaller when it is
      a proper prefix of `b` or has the smaller byte there. */
  lemma {:induction false} LessExactly(a: Text, b: Text)
    ensures Less(a, b) <==> exists k :: SmallerAt(a, b, k)
  {
    if a == [] || b == [] || a[0] != b[0] {
      assert b != [] && (a == [] || a[0] < b[0]) ==> SmallerAt(a, b, 0);
    } else {
      LessExactly(a[1..], b[1..]);
      assert a == [a[0]] + a[1..] && b == [b[0]] + b[1..];
      if k: nat :| SmallerAt(a[1..], b[1..], k) {
        assert a[..k + 1] == [a[0]] + a[1..][..k] && b[..k + 1] == [b[0]] + b[1..][..k];
        assert SmallerAt(a, b, k + 1);
      }
      if k: nat :| SmallerAt(a, b, k) {
        assert a[1..][..k - 1] == a[..k][1..] && b[1..][..k - 1] == b[..k][1..];
        assert SmallerAt(a[1..], b[1..], k - 1);
      }
    }
  }

  predicate IsDigit(b: byte) { 48 <= b <= 57 }

  predicate IsAlphanumeric(b: byte) { IsDigit(b) || 65 <= b <= 90 || 97 <= b <= 122 }

  predicate IsHexDigit(b: byte) { IsDigit(b) || 65 <= b <= 70 || 97 <= b <= 102 }

  /** `-`, `_`, `.` and `:` beside letters and digits. */
  predicate IsPortableByte(b: byte) { IsAlphanumeric(b) || b == 45 || b == 95 || b == 46 || b == 58 }

  predicate IsPortableIdentifier(t: Text) {
    0 < |t| <= 128 && forall i :: 0 <= i < |t| ==> IsPortableByte(t[i])
  }

  lemma {:induction false} SubsetSize<T>(a: set<T>, b: set<T>)
    requires a <= b
    ensures |a| <= |b|
  {
    if a == {} {
    } else {
      var x :| x in a;
      SubsetSize(a - {x}, b - {x});
    }
  }

  /** The character classes, spelled out. */
  lemma ClassesSpelledOut(b: byte)
    ensures IsDigit(b) <==> '0' <= b as char <= '9'
    ensures IsAlphanumeric(b) <==>
      '0' <= b as char <= '9' || 'A' <= b as char <= 'Z' || 'a' <= b as char <= 'z'
    ensures IsHexDigit(b) <==> '0' <= b as char <= '9' || 'A' <= b as char <= 'F' || 'a' <= b as char <= 'f'
    ensures IsPortableByte(b) <==> IsAlphanumeric(b) || b as char in "-_.:"
  {
  }

  predicate PortableChar(c: char) { '0' <= c <= '9' || 'A' <= c <= 'Z' || 'a' <= c <= 'z' || c in "-_.:" }

  /** An identifier is 1 to 128 letters, digits and `-_.:`. */
  lemma PortableExactly(t: Text)
    ensures IsPortableIdentifier(t) <==>
      1 <= |t| <= 128 && forall i :: 0 <= i < |t| ==> PortableChar(t[i] as char)
  {
    forall i | 0 <= i < |t|
      ensures IsPortableByte(t[i]) <==> PortableChar(t[i] as char)
    {
      ClassesSpelledOut(t[i]);
    }
  }

  /** The elements of a sequence without repetitions are as many as its positions. */
  lemma {:induction false} DistinctCount<T>(s: seq<T>)
    requires forall i, j :: 0 <= i < j < |s| ==> s[i] != s[j]
    ensures |set x | x in s| == |s|
  {
    if s == [] {
    } else {
      var rest := s[..|s| - 1];
      DistinctCount(rest);
      assert (set x | x in s) == (set x | x in rest) + {s[|s| - 1]};
    }
  }
}
