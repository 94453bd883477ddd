/** Text the entities produce or read: Java's decimal rendering of an `int`, the
    `HH:mm` form that `LocalTime.parse` reads, and the case-insensitive substring
    test of the prescription search. */
module Text {
  import opened Common

  predicate IsDigit(c: char) {
    '0' <= c <= '9'
  }

  predicate AllDigits(s: string) {
    forall i :: 0 <= i < |s| ==> IsDigit(s[i])
  }

  function DigitChar(d: nat): (c: char)
    requires d < 10
    ensures IsDigit(c)
  {
    ('0' as int + d) as char
  }

  function DigitValue(c: char): (d: nat)
    requires IsDigit(c)
    ensures d < 10 && DigitChar(d) == c
  {
    c as int - '0' as int
  }

  /** The decimal digits of `n`, most significant first, without leading zeros. */
  function NatToString(n: nat): (s: string)
    ensures |s| >= 1 && AllDigits(s)
    ensures s[0] == '0' ==> n == 0
    decreases n
  {
    if n < 10 then [DigitChar(n)] else NatToString(n / 10) + [DigitChar(n % 10)]
  }

  /** The number a string of decimal digits denotes. */
  function DigitsToNat(s: string): nat
    requires AllDigits(s)
  {
    if s == [] then 0 else DigitsToNat(s[..|s| - 1]) * 10 + DigitValue(s[|s| - 1])
  }

  lemma {:induction false} DigitsOfNatToString(n: nat)
    ensures DigitsToNat(NatToString(n)) == n
    decreases n
  {
    if n >= 10 {
      var s := NatToString(n);
      assert s[..|s| - 1] == NatToString(n / 10);
      DigitsOfNatToString(n / 10);
    }
  }

  /** `Integer.toString` (and string concatenation of an `Integer`): a minus sign for
      negative values, then the digits of the magnitude. */
  function IntToString(i: int): (s: string)
    ensures |s| >= 1
    ensures s[0] == '-' <==> i < 0
    ensures forall k :: 0 <= k < |s| ==> s[k] == '-' || IsDigit(s[k])
  {
    if i < 0 then "-" + NatToString(-i) else NatToString(i)
  }

  /** Reads back a decimal integer with an optional leading minus sign. */
  function ParseInt(s: string): Option<int> {
    if |s| >= 2 && s[0] == '-' && AllDigits(s[1..]) then Some(-(DigitsToNat(s[1..]) as int))
    else if |s| >= 1 && AllDigits(s) then Some(DigitsToNat(s))
    else None
  }

  /** Rendering an `int` as text loses nothing. */
  lemma IntToStringRoundTrip(i: int)
    ensures ParseInt(IntToString(i)) == Some(i)
  {
    if i < 0 {
      assert IntToString(i)[1..] == NatToString(-i);
      DigitsOfNatToString(-i);
    } else {
      DigitsOfNatToString(i);
    }
  }

  /** Two-digit zero-padded rendering, as in `10:05`. */
  function TwoDigits(n: nat): (s: string)
    requires n < 100
    ensures |s| == 2 && AllDigits(s)
  {
    [DigitChar(n / 10), DigitChar(n % 10)]
  }

  /** Two digits read as a number render back as the same two digits. */
  lemma TwoDigitsOfDigits(c0: char, c1: char)
    requires IsDigit(c0) && IsDigit(c1)
    ensures TwoDigits(DigitValue(c0) * 10 + DigitValue(c1)) == [c0, c1]
  {
    var n := DigitValue(c0) * 10 + DigitValue(c1);
    assert n / 10 == DigitValue(c0) && n % 10 == DigitValue(c1);
  }

  /** `LocalTime.parse` for the `HH:mm` form: hours 00 to 23, minutes 00 to 59;
      anything else is malformed. */
  function ParseTime(s: string): (r: Option<MinuteOfDay>)
    ensures r.Some? ==> |s| == 5 && s[2] == ':'
  {
    if |s| == 5 && IsDigit(s[0]) && IsDigit(s[1]) && s[2] == ':' && IsDigit(s[3]) && IsDigit(s[4]) then
      var h := DigitValue(s[0]) * 10 + DigitValue(s[1]);
      var m := DigitValue(s[3]) * 10 + DigitValue(s[4]);
      if h < 24 && m < 60 then Some(h * 60 + m) else None
    else None
  }

  /** `LocalTime.toString` for a time on a whole minute. */
  function FormatTime(t: MinuteOfDay): (s: string)
    ensures |s| == 5
  {
    TwoDigits(t / 60) + ":" + TwoDigits(t % 60)
  }

  /** Every time of day has a text form that parses back to it ... */
  lemma FormatThenParse(t: MinuteOfDay)
    ensures ParseTime(FormatTime(t)) == Some(t)
  {
    var s := FormatTime(t);
    assert DigitValue(s[0]) * 10 + DigitValue(s[1]) == t / 60;
    assert DigitValue(s[3]) * 10 + DigitValue(s[4]) == t % 60;
  }

  /** ... and every text the parser accepts is that form. */
  lemma ParseThenFormat(s: string)
    requires ParseTime(s).Some?
    ensures FormatTime(ParseTime(s).value) == s
  {
    var h := DigitValue(s[0]) * 10 + DigitValue(s[1]);
    var m := DigitValue(s[3]) * 10 + DigitValue(s[4]);
    var t := ParseTime(s).value;
    assert t / 60 == h && t % 60 == m by {
      assert t == h * 60 + m && 0 <= m < 60;
    }
    TwoDigitsOfDigits(s[0], s[1]);
    TwoDigitsOfDigits(s[3], s[4]);
    assert FormatTime(t) == [s[0], s[1], ':', s[3], s[4]];
  }

  /** A capital letter of Latin-1: A-Z, and À-Þ except the multiplication sign. */
  predicate IsUpper(c: char) {
    'A' <= c <= 'Z' || (0xC0 <= c as int <= 0xDE && c as int != 0xD7)
  }

  /** The small letter of a Latin-1 capital (32 code points on); any other character
      is its own lower case. */
  function LowerChar(c: char): (r: char)
    ensures !IsUpper(r)
    ensures IsUpper(c) ==> r as int == c as int + 32
    ensures !IsUpper(c) ==> r == c
  {
    if IsUpper(c) then (c as int + 32) as char else c
  }

  /** SQL `LOWER`, character by character. */
  function ToLower(s: string): (r: string)
    ensures |r| == |s|
    ensures forall i :: 0 <= i < |s| ==> r[i] == LowerChar(s[i])
    ensures forall i :: 0 <= i < |r| ==> !IsUpper(r[i])
    ensures forall i :: 0 <= i < |s| && !IsUpper(s[i]) ==> r[i] == s[i]
  {
    if s == [] then [] else [LowerChar(s[0])] + ToLower(s[1..])
  }

  /** Lower-casing twice is lower-casing once. */
  lemma ToLowerIdempotent(a: string)
    ensures ToLower(ToLower(a)) == ToLower(a)
  {
    var l := ToLower(a);
    assert forall i :: 0 <= i < |l| ==> ToLower(l)[i] == l[i];
  }

  /** Lower-casing works piece by piece. */
  lemma {:induction false} ToLowerAppend(a: string, b: string)
    ensures ToLower(a + b) == ToLower(a) + ToLower(b)
  {
    if a == [] {
      assert a + b == b;
    } else {
      assert (a + b)[1..] == a[1..] + b;
      ToLowerAppend(a[1..], b);
    }
  }

  /** `needle` occurs in `hay` starting at position `k`. */
  predicate OccursAt(hay: string, needle: string, k: int) {
    0 <= k <= |hay| - |needle| && hay[k..k + |needle|] == needle
  }

  /** `needle` occurs in `hay` as a contiguous block. */
  predicate ContainsText(hay: string, needle: string) {
    exists k :: 0 <= k <= |hay| - |needle| && OccursAt(hay, needle, k)
  }

  /** SQL `LIKE` without an escape character: in the pattern, `%` matches any run of
      characters, `_` exactly one character, and every other character itself. */
  predicate Like(text: string, pattern: string)
    decreases |pattern|, |text|
  {
    if |pattern| == 0 then |text| == 0
    else if pattern[0] == '%' then Like(text, pattern[1..]) || (|text| > 0 && Like(text[1..], pattern))
    else |text| > 0 && (pattern[0] == '_' || pattern[0] == text[0]) && Like(text[1..], pattern[1..])
  }

  /** A text without the two LIKE wildcards. */
  predicate NoWildcards(s: string) {
    forall i :: 0 <= i < |s| ==> s[i] != '%' && s[i] != '_'
  }

  /** A lone `%` matches every text. */
  lemma {:induction false} LikePercentMatchesAll(t: string)
    ensures Like(t, "%")
  {
    if |t| > 0 {
      LikePercentMatchesAll(t[1..]);
    }
  }

  /** A leading `%` matches exactly when the rest of the pattern matches some suffix. */
  lemma {:induction false} LikeLeadingPercent(t: string, q: string)
    ensures Like(t, "%" + q) <==> exists k :: 0 <= k <= |t| && Like(t[k..], q)
  {
    var pat := "%" + q;
    assert pat[1..] == q;
    assert t[0..] == t;
    if |t| > 0 {
      LikeLeadingPercent(t[1..], q);
      forall k | 1 <= k <= |t|
        ensures t[1..][k - 1..] == t[k..]
      {
      }
      if Like(t, pat) && !Like(t, q) {
        var k :| 0 <= k <= |t[1..]| && Like(t[1..][k..], q);
        assert t[1..][k..] == t[k + 1..];
      }
      if exists k :: 0 <= k <= |t| && Like(t[k..], q) {
        var k :| 0 <= k <= |t| && Like(t[k..], q);
        if k > 0 {
          assert t[1..][k - 1..] == t[k..];
        }
      }
    }
  }

  /** A pattern made of a wildcard-free text and a trailing `%` matches exactly the
      texts that start with that text. */
  lemma {:induction false} LikeLiteralPrefix(u: string, n: string)
    requires NoWildcards(n)
    ensures Like(u, n + "%") <==> |n| <= |u| && u[..|n|] == n
  {
    if |n| == 0 {
      assert n + "%" == "%";
      LikePercentMatchesAll(u);
    } else {
      var pat := n + "%";
      assert pat[0] == n[0] && pat[1..] == n[1..] + "%";
      assert NoWildcards(n[1..]) by {
        forall i | 0 <= i < |n[1..]|
          ensures n[1..][i] != '%' && n[1..][i] != '_'
        {
          assert n[1..][i] == n[i + 1];
        }
      }
      if |u| > 0 {
        LikeLiteralPrefix(u[1..], n[1..]);
        if |n| <= |u| {
          assert u[..|n|] == [u[0]] + u[1..][..|n| - 1];
          assert n == [n[0]] + n[1..];
        }
      }
    }
  }

  /** A wildcard-free text between two `%` matches exactly the texts that contain it. */
  lemma LikeContains(t: string, n: string)
    requires NoWildcards(n)
    ensures Like(t, "%" + n + "%") <==> ContainsText(t, n)
  {
    assert "%" + n + "%" == "%" + (n + "%");
    LikeLeadingPercent(t, n + "%");
    if Like(t, "%" + n + "%") {
      var k :| 0 <= k <= |t| && Like(t[k..], n + "%");
      LikeLiteralPrefix(t[k..], n);
      assert t[k..][..|n|] == t[k..k + |n|];
      assert OccursAt(t, n, k);
    }
    if ContainsText(t, n) {
      var k :| 0 <= k <= |t| - |n| && OccursAt(t, n, k);
      LikeLiteralPrefix(t[k..], n);
      assert t[k..][..|n|] == t[k..k + |n|];
    }
  }

  /** `_` between two `%` matches every text that is not empty. */
  lemma UnderscoreMatchesAnyNonEmpty(t: string)
    ensures Like(t, "%_%") <==> |t| > 0
  {
    assert "%_%" == "%" + "_%";
    LikeLeadingPercent(t, "_%");
    if |t| > 0 {
      assert "_%"[1..] == "%";
      LikePercentMatchesAll(t[1..]);
      assert t[0..] == t;
    }
  }

  /** The text before the first occurrence of `c`, and the text after it; the whole
      text and nothing when `c` does not occur. */
  function SplitAtFirst(s: string, c: char): (string, string) {
    if |s| == 0 then ("", "")
    else if s[0] == c then ("", s[1..])
    else
      var (a, b) := SplitAtFirst(s[1..], c);
      ([s[0]] + a, b)
  }

  /** Joining two texts with a separator that the first does not contain can be
      undone by splitting at the separator. */
  lemma {:induction false} SplitAtFirstUndoesJoin(a: string, c: char, b: string)
    requires c !in a
    ensures SplitAtFirst(a + [c] + b, c) == (a, b)
  {
    var s := a + [c] + b;
    if |a| == 0 {
      assert s == [c] + b;
      assert s[1..] == b;
    } else {
      assert s[0] == a[0];
      assert s[1..] == a[1..] + [c] + b;
      SplitAtFirstUndoesJoin(a[1..], c, b);
      assert [a[0]] + a[1..] == a;
    }
  }
}
