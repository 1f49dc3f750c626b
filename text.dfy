/**
 * String operations the application borrows from JavaScript: `split` with a string
 * separator, `includes`, `startsWith`, ASCII `toLowerCase`, `trim` emptiness and the
 * decimal rendering of a number inside a template literal.
 */
module Text {
  import opened Wrappers

  /** JavaScript truthiness of an optional string: present and not empty. */
  predicate Truthy(s: Option<string>) { s.Some? && s.value != "" }

  /* ---------- characters ---------- */

  predicate IsDigit(c: char) { '0' <= c <= '9' }

  predicate AllDigits(s: string) { forall i :: 0 <= i < |s| ==> IsDigit(s[i]) }

  function DigitChar(d: nat): (c: char)
    requires d < 10
    ensures IsDigit(c)
  {
    ('0' as int + d) as char
  }

  function DigitValue(c: char): nat
    requires IsDigit(c)
  {
    c as int - '0' as int
  }

  /** `toLowerCase` restricted to ASCII letters. */
  function LowerChar(c: char): char {
    if 'A' <= c <= 'Z' then (c as int + 32) as char else c
  }

  function ToLower(s: string): string {
    seq(|s|, i requires 0 <= i < |s| => LowerChar(s[i]))
  }

  /** The characters `String.prototype.trim` removes (WhiteSpace and LineTerminator). */
  predicate IsJsWhitespace(c: char) {
    c == ' ' || c == '\t' || c == '\n' || c == '\r' || c == '\U{000B}' || c == '\U{000C}'
    || c == '\U{00A0}' || c == '\U{FEFF}' || c == '\U{1680}' || ('\U{2000}' <= c <= '\U{200A}')
    || c == '\U{2028}' || c == '\U{2029}' || c == '\U{202F}' || c == '\U{205F}' || c == '\U{3000}'
  }

  /** `s.trim()` is the empty string (falsy) exactly when every character is whitespace. */
  predicate IsBlank(s: string) { forall i :: 0 <= i < |s| ==> IsJsWhitespace(s[i]) }

  /* ---------- prefixes and occurrences ---------- */

  predicate StartsWith(s: string, prefix: string) {
    |prefix| <= |s| && s[..|prefix|] == prefix
  }

  predicate OccursAt(s: string, sub: string, i: nat) {
    i + |sub| <= |s| && s[i..i + |sub|] == sub
  }

  /** `s.includes(sub)`. */
  predicate Contains(s: string, sub: string) {
    exists i: nat :: i <= |s| && OccursAt(s, sub, i)
  }

  /* ---------- split and join ---------- */

  /**
   * `s.split(sep)` for a non-empty separator: the string is scanned from the left, an
   * occurrence of `sep` closes the current piece, and occurrences never overlap.
   */
  function Split(s: string, sep: string): (parts: seq<string>)
    requires |sep| > 0
    ensures |parts| >= 1 && StartsWith(s, parts[0])
    decreases |s|
  {
    if |s| == 0 then [""]
    else if StartsWith(s, sep) then [""] + Split(s[|sep|..], sep)
    else
      var rest := Split(s[1..], sep);
      [[s[0]] + rest[0]] + rest[1..]
  }

  /** `parts.join(sep)`. */
  function Join(parts: seq<string>, sep: string): string
    requires |parts| >= 1
    decreases |parts|
  {
    if |parts| == 1 then parts[0] else parts[0] + sep + Join(parts[1..], sep)
  }

  lemma JoinConsChar(c: char, parts: seq<string>, sep: string)
    requires |parts| >= 1
    ensures Join([[c] + parts[0]] + parts[1..], sep) == [c] + Join(parts, sep)
  {
    var q := [[c] + parts[0]] + parts[1..];
    if |parts| > 1 {
      assert q[1..] == parts[1..];
    }
  }

  /** Joining the pieces of a split with the same separator gives back the string. */
  lemma {:induction false} JoinSplit(s: string, sep: string)
    requires |sep| > 0
    ensures Join(Split(s, sep), sep) == s
    decreases |s|
  {
    if |s| == 0 {
    } else if StartsWith(s, sep) {
      JoinSplit(s[|sep|..], sep);
      JoinSplitAtSeparator(s, sep);
    } else {
      JoinSplit(s[1..], sep);
      JoinSplitAtCharacter(s, sep);
    }
  }

  lemma JoinSplitAtSeparator(s: string, sep: string)
    requires |sep| > 0 && |s| > 0 && StartsWith(s, sep)
    requires Join(Split(s[|sep|..], sep), sep) == s[|sep|..]
    ensures Join(Split(s, sep), sep) == s
  {
    var tail := s[|sep|..];
    JoinConsEmpty(Split(tail, sep), sep);
    assert s == s[..|sep|] + tail;
  }

  lemma JoinConsEmpty(parts: seq<string>, sep: string)
    requires |parts| >= 1
    ensures Join([""] + parts, sep) == sep + Join(parts, sep)
  {
    assert ([""] + parts)[1..] == parts;
  }

  lemma JoinSplitAtCharacter(s: string, sep: string)
    requires |sep| > 0 && |s| > 0 && !StartsWith(s, sep)
    requires Join(Split(s[1..], sep), sep) == s[1..]
    ensures Join(Split(s, sep), sep) == s
  {
    JoinConsChar(s[0], Split(s[1..], sep), sep);
    assert s == [s[0]] + s[1..];
  }

  lemma NoOccurrenceAfterChar(s: string, p: string, sep: string)
    requires |sep| > 0 && |s| > 0 && !StartsWith(s, sep)
    requires StartsWith(s[1..], p) && !Contains(p, sep)
    ensures !Contains([s[0]] + p, sep)
  {
    var q := [s[0]] + p;
    assert StartsWith(s, q);
    forall j: nat
      ensures !OccursAt(q, sep, j)
    {
      if j == 0 {
        if |sep| <= |q| {
          assert q[..|sep|] == s[..|sep|];
        }
      } else if j + |sep| <= |q| {
        assert q[j..j + |sep|] == p[j - 1..j - 1 + |sep|];
        assert !OccursAt(p, sep, j - 1);
      }
    }
  }

  /** No piece of a split contains the separator. */
  lemma {:induction false} SplitPiecesAreFree(s: string, sep: string)
    requires |sep| > 0
    ensures forall k :: 0 <= k < |Split(s, sep)| ==> !Contains(Split(s, sep)[k], sep)
    decreases |s|
  {
    if |s| == 0 {
      assert !OccursAt("", sep, 0);
    } else if StartsWith(s, sep) {
      SplitPiecesAreFree(s[|sep|..], sep);
      assert !OccursAt("", sep, 0);
      assert Split(s, sep)[1..] == Split(s[|sep|..], sep);
    } else {
      var rest := Split(s[1..], sep);
      SplitPiecesAreFree(s[1..], sep);
      NoOccurrenceAfterChar(s, rest[0], sep);
      assert Split(s, sep)[1..] == rest[1..];
    }
  }

  /* ---------- segments around a single character ---------- */

  /** Characters of `s` before the first `c` (all of `s` when there is none). */
  function TakeUntil(s: string, c: char): (r: string)
    ensures |r| <= |s| && r == s[..|r|] && c !in r
    ensures |r| < |s| ==> s[|r|] == c
    decreases |s|
  {
    if |s| == 0 then ""
    else if s[0] == c then ""
    else [s[0]] + TakeUntil(s[1..], c)
  }

  /**
   * Characters of `s` after the last `c` (all of `s` when there is none): drop characters
   * from the front while a `c` remains.
   */
  function LastSegment(s: string, c: char): (r: string)
    ensures |r| <= |s| && c !in r
    decreases |s|
  {
    if c in s then LastSegment(s[1..], c) else s
  }

  /** The last segment is a suffix, preceded by the character unless it is the whole text. */
  lemma {:induction false} LastSegmentIsSuffix(s: string, c: char)
    ensures var r := LastSegment(s, c);
      && r == s[|s| - |r|..]
      && (|r| < |s| ==> s[|s| - |r| - 1] == c)
    decreases |s|
  {
    if c in s {
      LastSegmentIsSuffix(s[1..], c);
      var r := LastSegment(s[1..], c);
      assert s[1..][|s| - 1 - |r|..] == s[|s| - |r|..];
      if |r| == |s| - 1 {
        assert s[1..] == r;
        assert c !in s[1..];
        assert s == [s[0]] + s[1..];
      }
    }
  }

  lemma StartsWithChar(s: string, c: char)
    ensures StartsWith(s, [c]) <==> |s| > 0 && s[0] == c
  {
    if |s| > 0 {
      assert s[..1] == [s[0]];
    }
  }

  /** The first piece of a split on one character is the text before that character. */
  lemma {:induction false} FirstPieceIsTakeUntil(s: string, c: char)
    ensures Split(s, [c])[0] == TakeUntil(s, c)
    decreases |s|
  {
    StartsWithChar(s, c);
    if |s| > 0 && s[0] != c {
      FirstPieceIsTakeUntil(s[1..], c);
    }
  }

  /** A split on one character has a single piece exactly when the character is absent. */
  lemma {:induction false} SinglePieceWithoutChar(s: string, c: char)
    ensures |Split(s, [c])| == 1 <==> c !in s
    decreases |s|
  {
    StartsWithChar(s, c);
    if |s| > 0 && s[0] != c {
      SinglePieceWithoutChar(s[1..], c);
      assert c in s <==> c in s[1..] by {
        assert s == [s[0]] + s[1..];
      }
    } else if |s| > 0 {
      assert Split(s, [c]) == [""] + Split(s[1..], [c]);
    }
  }

  /** The last piece of a split on one character is the text after the last such character. */
  lemma {:induction false} LastPieceIsLastSegment(s: string, c: char)
    ensures var parts := Split(s, [c]); parts[|parts| - 1] == LastSegment(s, c)
    decreases |s|
  {
    if |s| > 0 {
      LastPieceIsLastSegment(s[1..], c);
      if s[0] == c {
        StartsWithChar(s, c);
        assert c in s;
      } else {
        LastPieceAtOtherChar(s, c);
      }
    }
  }

  lemma LastPieceAtOtherChar(s: string, c: char)
    requires |s| > 0 && s[0] != c
    requires var rest := Split(s[1..], [c]); rest[|rest| - 1] == LastSegment(s[1..], c)
    ensures var parts := Split(s, [c]); parts[|parts| - 1] == LastSegment(s, c)
  {
    SplitAfterOtherChar(s, c);
    SinglePieceWithoutChar(s[1..], c);
    if c in s[1..] {
      LastSegmentOfLaterChar(s, c);
    } else {
      LastSegmentWithoutChar(s, c);
    }
  }

  /** Where the text does not start with the character, its first character joins the first piece. */
  lemma SplitAfterOtherChar(s: string, c: char)
    requires |s| > 0 && s[0] != c
    ensures var parts := Split(s, [c]); var rest := Split(s[1..], [c]);
      && |parts| == |rest|
      && (|rest| == 1 ==> parts[0] == [s[0]] + rest[0])
      && (|rest| > 1 ==> parts[|parts| - 1] == rest[|rest| - 1])
  {
    StartsWithChar(s, c);
    var rest := Split(s[1..], [c]);
    if |rest| > 1 {
      LastAfterNewHead([s[0]] + rest[0], rest);
    }
  }

  /** Replacing the head of a sequence of two or more elements keeps its last element. */
  lemma LastAfterNewHead<T>(x: T, xs: seq<T>)
    requires |xs| >= 2
    ensures var ys := [x] + xs[1..]; |ys| == |xs| && ys[|ys| - 1] == xs[|xs| - 1]
  {
  }

  lemma LastSegmentWithoutChar(s: string, c: char)
    requires |s| > 0 && c !in s[1..] && s[0] != c
    ensures LastSegment(s, c) == s == [s[0]] + LastSegment(s[1..], c)
  {
    assert s == [s[0]] + s[1..];
  }

  lemma LastSegmentOfLaterChar(s: string, c: char)
    requires |s| > 0 && c in s[1..]
    ensures LastSegment(s, c) == LastSegment(s[1..], c)
  {
    var i :| 0 <= i < |s[1..]| && s[1..][i] == c;
    assert s[i + 1] == c;
  }

  /** Splitting after a piece free of the separator character yields that piece first. */
  lemma {:induction false} SplitAfterPiece(p: string, c: char, t: string)
    requires c !in p
    ensures Split(p + [c] + t, [c]) == [p] + Split(t, [c])
    decreases |p|
  {
    var s := p + [c] + t;
    StartsWithChar(s, c);
    if |p| == 0 {
      assert s[1..] == t;
    } else {
      assert c !in p[1..] && s[0] == p[0] != c;
      SplitAfterPiece(p[1..], c, t);
      assert s[1..] == p[1..] + [c] + t;
      var rest := Split(s[1..], [c]);
      assert rest[0] == p[1..] && rest[1..] == Split(t, [c]);
      assert [p[0]] + p[1..] == p;
    }
  }

  /* ---------- decimal numbers ---------- */

  /** The decimal value of a string of digits. */
  function ParseDigits(s: string): nat
    requires AllDigits(s)
    decreases |s|
  {
    if |s| == 0 then 0 else 10 * ParseDigits(s[..|s| - 1]) + DigitValue(s[|s| - 1])
  }

  /**
   * The decimal rendering of a natural number (JavaScript's `${n}`): digits only, no
   * leading zero, and reading it back gives the number.
   */
  function NatToString(n: nat): (r: string)
    ensures |r| >= 1 && AllDigits(r)
    ensures r[0] == '0' ==> n == 0
    ensures ParseDigits(r) == n
    decreases n
  {
    if n < 10 then [DigitChar(n)]
    else
      var prefix := NatToString(n / 10);
      var r := prefix + [DigitChar(n % 10)];
      assert r[..|r| - 1] == prefix;
      r
  }

  /** The longest prefix of digits. */
  function LeadingDigits(s: string): (r: string)
    ensures AllDigits(r) && |r| <= |s| && r == s[..|r|]
    decreases |s|
  {
    if |s| > 0 && IsDigit(s[0]) then [s[0]] + LeadingDigits(s[1..]) else ""
  }

  /** The leading digits of a text are `digits` when it starts with them and a non-digit follows. */
  lemma {:induction false} LeadingDigitsOfPrefix(digits: string, s: string)
    requires AllDigits(digits) && |s| > |digits| && s[..|digits|] == digits && !IsDigit(s[|digits|])
    ensures LeadingDigits(s) == digits
    decreases |digits|
  {
    if |digits| > 0 {
      assert s[1..][..|digits| - 1] == digits[1..];
      LeadingDigitsOfPrefix(digits[1..], s[1..]);
      assert digits == [digits[0]] + digits[1..];
    }
  }

  /** The number written at the head of a text. */
  function LeadingNumber(s: string): nat {
    ParseDigits(LeadingDigits(s))
  }

  /** A number rendered at the head of a text, before a non-digit, is read back from it. */
  lemma NumberAtHead(n: nat, s: string)
    requires StartsWith(s, NatToString(n)) && |s| > |NatToString(n)| && !IsDigit(s[|NatToString(n)|])
    ensures LeadingNumber(s) == n
  {
    LeadingDigitsOfPrefix(NatToString(n), s);
  }

  /** The parts of a three-part text: where each occurs. */
  lemma PartsOccur(head: string, mid: string, tail: string)
    ensures StartsWith(head + mid + tail, head)
    ensures OccursAt(head + mid + tail, mid, |head|) && Contains(head + mid + tail, mid)
    ensures OccursAt(head + mid + tail, tail, |head| + |mid|) && Contains(head + mid + tail, tail)
  {
    var text := head + mid + tail;
    assert text[..|head|] == head;
    assert text[|head|..|head| + |mid|] == mid;
    assert text[|head| + |mid|..|head| + |mid| + |tail|] == tail;
    assert OccursAt(text, mid, |head|) && OccursAt(text, tail, |head| + |mid|);
  }
}
