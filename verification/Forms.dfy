/** The textual forms that the Rust validators and the SQL CHECK constraints both
    describe, and where the two descriptions meet. */
module Forms {
  import opened Text

  const SLASH: byte := 47
  const DOT: byte := 46
  const EQUALS: byte := 61

  /** Letters, digits, `-` and `_`. */
  predicate IsUrlSafeByte(b: byte) { IsAlphanumeric(b) || b == 45 || b == 95 }

  /** The URL-safe alphabet together with `+` and `/`. */
  predicate IsBase64Byte(b: byte) { IsUrlSafeByte(b) || b == 43 || b == 47 }

  /** `is_sha256_base64url`: 43 or 44 bytes, with padding allowed only as the last one. */
  predicate IsSha256Base64Url(t: Text) {
    43 <= |t| <= 44 && forall i :: 0 <= i < |t| ==> IsUrlSafeByte(t[i]) || (t[i] == EQUALS && i + 1 == |t|)
  }

  /** `is_sha256_base64` of the step-up policy. */
  predicate IsSha256Base64(t: Text) {
    43 <= |t| <= 44 && forall i :: 0 <= i < |t| ==> IsBase64Byte(t[i]) || (t[i] == EQUALS && i + 1 == |t|)
  }

  /** The column pattern `^[A-Za-z0-9_-]{43}=?$`. */
  predicate SqlDigestUrl(t: Text) {
    && (|t| == 43 || (|t| == 44 && t[43] == EQUALS))
    && forall i :: 0 <= i < 43 ==> IsUrlSafeByte(t[i])
  }

  /** The column pattern `^[A-Za-z0-9+/_-]{43}=?$`. */
  predicate SqlDigest(t: Text) {
    && (|t| == 43 || (|t| == 44 && t[43] == EQUALS))
    && forall i :: 0 <= i < 43 ==> IsBase64Byte(t[i])
  }

  /** Every storable digest is validated, but a validated one is storable if and only if it
      is 43 bytes without padding or 44 bytes with it. */
  lemma DigestStorableExactly(t: Text)
    ensures SqlDigestUrl(t) <==> IsSha256Base64Url(t) && (|t| == 44 <==> t[|t| - 1] == EQUALS)
  {
  }

  /** Two digests the validator accepts and the column refuses. */
  lemma ValidatedDigestMayBeUnstorable()
    ensures var short, long := seq(42, _ => 65) + [EQUALS], seq(44, _ => 65);
      && IsSha256Base64Url(short) && !SqlDigestUrl(short)
      && IsSha256Base64Url(long) && !SqlDigestUrl(long)
  {
    var short, long := seq(42, _ => 65) + [EQUALS], seq(44, _ => 65);
    DigestStorableExactly(short);
    DigestStorableExactly(long);
  }

  /** The same for the digests of protected requests. */
  lemma BodyDigestFormsMeet(t: Text)
    ensures SqlDigest(t) <==> IsSha256Base64(t) && (|t| == 44 <==> t[|t| - 1] == EQUALS)
  {
  }

  /** The alphabets, spelled out. */
  lemma AlphabetsSpelledOut(b: byte)
    ensures IsUrlSafeByte(b) <==> IsAlphanumeric(b) || b as char in "-_"
    ensures IsBase64Byte(b) <==> IsAlphanumeric(b) || b as char in "-_+/"
    ensures SLASH as char == '/' && DOT as char == '.' && EQUALS as char == '='
  {
  }

  /** `str::split` on one byte: always at least one segment. */
  function Split(t: Text, separator: byte): (segments: seq<Text>)
    ensures |segments| > 0
  {
    if t == [] then [[]]
    else
      var rest := Split(t[1..], separator);
      if t[0] == separator then [[]] + rest else [[t[0]] + rest[0]] + rest[1..]
  }

  function Join(segments: seq<Text>, separator: byte): Text {
    if segments == [] then []
    else if |segments| == 1 then segments[0]
    else segments[0] + [separator] + Join(segments[1..], separator)
  }

  /** Splitting loses nothing and leaves no separator behind. */
  lemma {:induction false} SplitExactly(t: Text, separator: byte)
    ensures Join(Split(t, separator), separator) == t
    ensures forall i :: 0 <= i < |Split(t, separator)| ==> separator !in Split(t, separator)[i]
  {
    if t == [] {
    } else {
      var rest, segments := Split(t[1..], separator), Split(t, separator);
      SplitExactly(t[1..], separator);
      assert t == [t[0]] + t[1..];
      if t[0] == separator {
        assert segments[1..] == rest && [] + [separator] + Join(rest, separator) == t;
      } else {
        assert segments[1..] == rest[1..];
        if |rest| > 1 {
          assert [t[0]] + rest[0] + [separator] + Join(rest[1..], separator)
              == [t[0]] + (rest[0] + [separator] + Join(rest[1..], separator));
        }
      }
    }
  }

  /** Some segment between two separators is empty. */
  predicate InnerEmpty(segments: seq<Text>) { exists i :: 1 <= i < |segments| - 1 && segments[i] == [] }

  lemma FirstSegmentEmpty(t: Text)
    ensures |Split(t, SLASH)| >= 2 && Split(t, SLASH)[0] == [] <==> t != [] && t[0] == SLASH
  {
  }

  /** Two slashes in a row are an empty segment in the middle. */
  lemma {:induction false} DoubleSlashExactly(t: Text)
    ensures HasDoubleSlash(t) <==> InnerEmpty(Split(t, SLASH))
  {
    if t == [] {
    } else {
      var rest, segments, later := t[1..], Split(t, SLASH), Split(t[1..], SLASH);
      DoubleSlashExactly(rest);
      FirstSegmentEmpty(rest);
      assert forall i :: 1 <= i < |t| ==> t[i] == rest[i - 1];
      assert HasDoubleSlash(t) <==> HasDoubleSlash(rest) || (t[0] == SLASH && rest != [] && rest[0] == SLASH) by {
        if i :| 0 <= i < |rest| - 1 && rest[i] == SLASH && rest[i + 1] == SLASH {
          assert t[i + 1] == SLASH && t[i + 2] == SLASH;
        }
        if rest != [] && rest[0] == SLASH && t[0] == SLASH {
          assert t[0] == SLASH && t[0 + 1] == SLASH;
        }
      }
      if t[0] == SLASH {
        assert forall i :: 1 <= i < |segments| ==> segments[i] == later[i - 1];
        if i :| 1 <= i < |later| - 1 && later[i] == [] {
          assert segments[i + 1] == [];
        }
        if |later| >= 2 && later[0] == [] {
          assert segments[1] == [];
        }
      } else {
        assert |segments| == |later| && forall i :: 1 <= i < |segments| ==> segments[i] == later[i];
      }
    }
  }

  predicate Contains(t: Text, b: byte) { exists i :: 0 <= i < |t| && t[i] == b }

  predicate HasDoubleSlash(t: Text) {
    exists i :: 0 <= i < |t| - 1 && t[i] == SLASH && t[i + 1] == SLASH
  }

  predicate IsDots(segment: Text) { segment == [DOT] || segment == [DOT, DOT] }

  /** A control character at position `i` of UTF-8 text: U+0000..1F, U+007F or U+0080..9F. */
  predicate ControlAt(t: Text, i: nat)
    requires i < |t|
  {
    t[i] < 32 || t[i] == 127 || (t[i] == 0xC2 && i + 1 < |t| && 128 <= t[i + 1] < 160)
  }

  predicate HasControl(t: Text) { exists i :: 0 <= i < |t| && ControlAt(t, i) }

  /** `is_normalized_route` of both policy modules. */
  predicate IsNormalizedRoute(t: Text) {
    && 0 < |t| <= 256 && t[0] == SLASH
    && !Contains(t, 63) && !Contains(t, 35) && !HasDoubleSlash(t) && !HasControl(t)
    && forall i :: 1 <= i < |Split(t, SLASH)| ==> !IsDots(Split(t, SLASH)[i])
  }

  /** `char_length`: the bytes that start a UTF-8 character. */
  function CharLength(t: Text): nat {
    if t == [] then 0 else (if t[0] / 64 != 2 then 1 else 0) + CharLength(t[1..])
  }

  /** A match of `(^|/)\.{1,2}($|/)` whose dots start at `i`. */
  predicate DotsMatchAt(t: Text, i: nat) {
    && i < |t| && (i == 0 || t[i - 1] == SLASH) && t[i] == DOT
    && (i + 1 == |t| || t[i + 1] == SLASH || (t[i + 1] == DOT && (i + 2 == |t| || t[i + 2] == SLASH)))
  }

  predicate SqlDots(t: Text) { exists i :: 0 <= i < |t| && DotsMatchAt(t, i) }

  /** The CHECK on `external_step_up_challenges.normalized_route`. */
  predicate SqlRoute(t: Text) {
    && 1 <= CharLength(t) <= 256 && t != [] && t[0] == SLASH
    && !Contains(t, 63) && !Contains(t, 35) && !HasDoubleSlash(t) && !SqlDots(t)
  }

  predicate LaterDots(t: Text) { exists i :: 1 <= i < |Split(t, SLASH)| && IsDots(Split(t, SLASH)[i]) }

  lemma FirstSegmentDots(t: Text)
    ensures IsDots(Split(t, SLASH)[0]) <==> DotsMatchAt(t, 0)
  {
    if t != [] && t[0] != SLASH {
      var one := Split(t[1..], SLASH);
      assert Split(t, SLASH)[0] == [t[0]] + one[0];
      if |t| > 1 && t[1] != SLASH {
        var two := Split(t[2..], SLASH);
        assert t[1..][1..] == t[2..];
        assert one[0] == [t[1]] + two[0];
        assert two[0] == [] <==> |t| == 2 || t[2] == SLASH;
        assert Split(t, SLASH)[0] == [t[0], t[1]] + two[0];
        if two[0] == [] {
          assert Split(t, SLASH)[0] == [t[0], t[1]];
        }
      } else {
        assert Split(t, SLASH)[0] == [t[0]];
      }
    }
  }

  lemma {:induction false} LaterSegmentDots(t: Text)
    ensures LaterDots(t) <==> exists i :: 1 <= i < |t| && DotsMatchAt(t, i)
  {
    if t == [] {
    } else {
      var rest := t[1..];
      LaterSegmentDots(rest);
      FirstSegmentDots(rest);
      assert forall i :: 1 <= i < |t| ==> t[i] == rest[i - 1];
      assert forall i :: 2 <= i < |t| ==> (DotsMatchAt(t, i) <==> DotsMatchAt(rest, i - 1));
      var segments, later := Split(t, SLASH), Split(rest, SLASH);
      if t[0] == SLASH {
        assert |t| > 1 ==> (DotsMatchAt(t, 1) <==> DotsMatchAt(rest, 0));
        assert segments == [[]] + later;
        assert forall i :: 1 <= i < |segments| ==> segments[i] == later[i - 1];
        if exists i :: 1 <= i < |t| && DotsMatchAt(t, i) {
          var i :| 1 <= i < |t| && DotsMatchAt(t, i);
          if i == 1 {
            assert IsDots(segments[1]);
          } else {
            assert DotsMatchAt(rest, i - 1);
            var j :| 1 <= j < |later| && IsDots(later[j]);
            assert IsDots(segments[j + 1]);
          }
        }
        if LaterDots(t) {
          var i :| 1 <= i < |segments| && IsDots(segments[i]);
          assert IsDots(later[i - 1]);
          if i > 1 {
            assert LaterDots(rest);
            var j :| 1 <= j < |rest| && DotsMatchAt(rest, j);
            assert DotsMatchAt(t, j + 1);
          }
        }
      } else {
        assert forall i :: 1 <= i < |segments| ==> segments[i] == later[i];
        assert |segments| == |later|;
        assert |t| > 1 ==> !DotsMatchAt(t, 1);
        if exists i :: 1 <= i < |t| && DotsMatchAt(t, i) {
          var i :| 1 <= i < |t| && DotsMatchAt(t, i);
          assert DotsMatchAt(rest, i - 1);
        }
        if LaterDots(t) {
          var i :| 1 <= i < |segments| && IsDots(segments[i]);
          assert IsDots(later[i]);
          var j :| 1 <= j < |rest| && DotsMatchAt(rest, j);
          assert DotsMatchAt(t, j + 1);
        }
      }
    }
  }

  lemma {:induction false} CharLengthBounds(t: Text)
    ensures CharLength(t) <= |t|
  {
    if t == [] {
    } else {
      CharLengthBounds(t[1..]);
    }
  }

  /** A normalised route, read segment by segment. */
  lemma RouteExactly(t: Text)
    ensures IsNormalizedRoute(t) <==>
      && 1 <= |t| <= 256 && t[0] as char == '/' && !HasControl(t)
      && (forall i :: 0 <= i < |t| ==> t[i] as char != '?' && t[i] as char != '#')
      && (forall i :: 1 <= i < |Split(t, SLASH)| ==> Split(t, SLASH)[i] != [DOT] && Split(t, SLASH)[i] != [DOT, DOT])
      && (forall i :: 1 <= i < |Split(t, SLASH)| - 1 ==> Split(t, SLASH)[i] != [])
  {
    DoubleSlashExactly(t);
  }

  /** The Rust route test is the SQL one together with a bound in bytes, where SQL counts
      characters, and the absence of control characters. */
  lemma RouteFormsMeet(t: Text)
    ensures IsNormalizedRoute(t) <==> SqlRoute(t) && |t| <= 256 && !HasControl(t)
  {
    CharLengthBounds(t);
    if t != [] && t[0] == SLASH {
      LaterSegmentDots(t);
      assert CharLength(t) >= 1;
      assert !DotsMatchAt(t, 0);
    }
  }
}
