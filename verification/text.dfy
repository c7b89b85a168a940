/**
 * The string operations the scraper relies on: `str.rstrip` with one
 * character, ASCII lower-casing, substring search (`in`), `str.split(sep, 1)`
 * and decimal integers. Strings are `seq<char>`; only ASCII letters have a
 * case and only ASCII digits are digits.
 */
module Text {
  import opened Wrappers

  /** `s` with every trailing `c` removed, as `s.rstrip(c)` for a single character. */
  function StripTrailing(s: string, c: char): (r: string)
    ensures r <= s
    ensures |r| == 0 || r[|r| - 1] != c
    ensures forall i :: |r| <= i < |s| ==> s[i] == c
  {
    if |s| > 0 && s[|s| - 1] == c then StripTrailing(s[..|s| - 1], c) else s
  }

  function LowerChar(c: char): (l: char) {
    if 'A' <= c <= 'Z' then (c as int - 'A' as int + 'a' as int) as char else c
  }

  function UpperChar(c: char): (u: char) {
    if 'a' <= c <= 'z' then (c as int - 'a' as int + 'A' as int) as char else c
  }

  /** ASCII lower-casing, character by character. */
  function Lower(s: string): (r: string)
    ensures |r| == |s|
    ensures forall i :: 0 <= i < |s| ==> r[i] == LowerChar(s[i])
  {
    seq(|s|, i requires 0 <= i < |s| => LowerChar(s[i]))
  }

  /** ASCII upper-casing, character by character. */
  function Upper(s: string): (r: string)
    ensures |r| == |s|
    ensures forall i :: 0 <= i < |s| ==> r[i] == UpperChar(s[i])
  {
    seq(|s|, i requires 0 <= i < |s| => UpperChar(s[i]))
  }

  /** Lower-casing forgets whatever case a string was written in. */
  lemma LowerOfUpper(s: string)
    ensures Lower(Upper(s)) == Lower(s)
  {
    forall i | 0 <= i < |s|
      ensures Lower(Upper(s))[i] == Lower(s)[i]
    {
      assert LowerChar(UpperChar(s[i])) == LowerChar(s[i]);
    }
  }

  lemma LowerIdempotent(s: string)
    ensures Lower(Lower(s)) == Lower(s)
  {
    forall i | 0 <= i < |s|
      ensures Lower(Lower(s))[i] == Lower(s)[i]
    {
      assert LowerChar(LowerChar(s[i])) == LowerChar(s[i]);
    }
  }

  /** `pat` occurs in `s` starting at index `i`. */
  predicate OccursAt(s: string, pat: string, i: int) {
    0 <= i && i + |pat| <= |s| && s[i..i + |pat|] == pat
  }

  /** The first index at or after `from` where `pat` occurs in `s`. */
  function IndexFrom(s: string, pat: string, from: nat): (r: Option<nat>)
    decreases |s| - from
    ensures r.Some? ==> from <= r.value && OccursAt(s, pat, r.value)
    ensures r.Some? ==> forall j :: from <= j < r.value ==> !OccursAt(s, pat, j)
    ensures r.None? ==> forall j :: from <= j ==> !OccursAt(s, pat, j)
  {
    if from + |pat| > |s| then None
    else if s[from..from + |pat|] == pat then Some(from)
    else IndexFrom(s, pat, from + 1)
  }

  /** The first index where `pat` occurs in `s`, as `s.find(pat)` without the -1. */
  function IndexOf(s: string, pat: string): (r: Option<nat>)
    ensures r.Some? ==> OccursAt(s, pat, r.value)
    ensures r.Some? ==> forall j :: 0 <= j < r.value ==> !OccursAt(s, pat, j)
    ensures r.None? <==> forall j :: !OccursAt(s, pat, j)
  {
    IndexFrom(s, pat, 0)
  }

  /** Python's `pat in s`. */
  predicate Contains(s: string, pat: string)
    ensures Contains(s, pat) <==> exists i :: OccursAt(s, pat, i)
  {
    IndexOf(s, pat).Some?
  }

  /** A pattern holding a character that `s` lacks does not occur in `s`. */
  lemma MissingCharNotContained(s: string, pat: string, c: char)
    requires c in pat && c !in s
    ensures !Contains(s, pat)
  {
    var k :| 0 <= k < |pat| && pat[k] == c;
    forall i
      ensures !OccursAt(s, pat, i)
    {
      if 0 <= i && i + |pat| <= |s| {
        assert s[i..i + |pat|][k] == s[i + k] != c;
      }
    }
  }

  /**
   * `s.split(delim, 1)` unpacked into two parts: the text before the first
   * occurrence of `delim` and everything after it. Fails when `delim` does
   * not occur (Python's unpacking of a one-element list).
   */
  function SplitFirst(s: string, delim: string): (r: Option<(string, string)>)
    ensures r.None? <==> !Contains(s, delim)
    ensures r.Some? ==> r.value.0 + delim + r.value.1 == s
    ensures r.Some? ==> forall j :: 0 <= j < |r.value.0| ==> !OccursAt(s, delim, j)
  {
    match IndexOf(s, delim)
    case None => None
    case Some(i) =>
      assert s[..i] + delim + s[i + |delim|..] == s by {
        assert s[i..i + |delim|] == delim;
        assert s == s[..i] + s[i..i + |delim|] + s[i + |delim|..];
      }
      Some((s[..i], s[i + |delim|..]))
  }

  /**
   * A part that " | " can be appended to and found again: it holds no
   * " | " itself and does not end in " |" (whose bar, followed by the
   * joining " | ", would start an earlier delimiter).
   */
  predicate JoinsCleanly(head: string) {
    && !Contains(head, " | ")
    && !(|head| >= 2 && head[|head| - 2] == ' ' && head[|head| - 1] == '|')
  }

  /**
   * Joining two parts with " | " and splitting again gives the parts back
   * exactly when the first part joins cleanly; the second part may contain
   * the delimiter itself.
   */
  lemma SplitFirstJoin(head: string, tail: string)
    ensures SplitFirst(head + " | " + tail, " | ") == Some((head, tail)) <==> JoinsCleanly(head)
  {
    if JoinsCleanly(head) {
      SplitFirstJoinClean(head, tail);
    } else {
      SplitFirstJoinUnclean(head, tail);
    }
  }

  /** A cleanly joining head is the first part of the split. */
  lemma SplitFirstJoinClean(head: string, tail: string)
    requires JoinsCleanly(head)
    ensures SplitFirst(head + " | " + tail, " | ") == Some((head, tail))
  {
    var s := head + " | " + tail;
    assert OccursAt(s, " | ", |head|) by {
      assert s[|head|..|head| + 3] == " | ";
    }
    forall j | 0 <= j < |head|
      ensures !OccursAt(s, " | ", j)
    {
      NoDelimiterInHead(head, tail, j);
    }
    var i := IndexOf(s, " | ");
    assert i.Some? && OccursAt(s, " | ", i.value);
    assert i.value == |head|;
    assert s[..|head|] == head;
    assert s[|head| + 3..] == tail;
  }

  /** No delimiter of the joined text starts inside a cleanly joining head. */
  lemma NoDelimiterInHead(head: string, tail: string, j: nat)
    requires JoinsCleanly(head) && j < |head|
    ensures !OccursAt(head + " | " + tail, " | ", j)
  {
    var s := head + " | " + tail;
    if j + 3 <= |head| {
      assert s[j..j + 3] == head[j..j + 3];
      assert !OccursAt(head, " | ", j);
    } else if j + 2 == |head| {
      assert s[j..j + 3][0] == head[j];
      assert s[j..j + 3][1] == head[j + 1];
    } else {
      assert s[j..j + 3][1] == s[j + 1] == ' ';
    }
  }

  /** A head that does not join cleanly holds a delimiter that the split finds first. */
  lemma SplitFirstJoinUnclean(head: string, tail: string)
    requires !JoinsCleanly(head)
    ensures SplitFirst(head + " | " + tail, " | ") != Some((head, tail))
  {
    var s := head + " | " + tail;
    var i: nat :| (i + 3 <= |head| && OccursAt(head, " | ", i)) || (|head| >= 2 && i == |head| - 2 && head[i] == ' ' && head[i + 1] == '|');
    assert OccursAt(s, " | ", i) by {
      if i + 3 <= |head| && OccursAt(head, " | ", i) {
        assert s[i..i + 3] == head[i..i + 3];
      } else {
        assert s[i..i + 3] == [head[i], head[i + 1], ' '];
      }
    }
    var r := SplitFirst(s, " | ");
    assert r.None? || |r.value.0| <= i;
  }

  predicate IsDigit(c: char) {
    '0' <= c <= '9'
  }

  predicate AllDigits(s: string) {
    forall i :: 0 <= i < |s| ==> IsDigit(s[i])
  }

  function DigitChar(d: nat): (c: char)
    requires d < 10
    ensures IsDigit(c)
  {
    ('0' as int + d) as char
  }

  /** The value of a string of decimal digits, most significant first. */
  function DigitsValue(s: string): (n: nat)
    requires AllDigits(s)
  {
    if |s| == 0 then 0
    else 10 * DigitsValue(s[..|s| - 1]) + (s[|s| - 1] as int - '0' as int)
  }

  /**
   * `int(s)` for a non-empty string of ASCII decimal digits; leading zeros
   * are allowed, as Python allows them.
   */
  function ParseNat(s: string): (r: Option<nat>)
    ensures r.Some? <==> |s| > 0 && AllDigits(s)
  {
    if |s| > 0 && AllDigits(s) then Some(DigitsValue(s)) else None
  }

  /** `str(n)`: the decimal digits of `n` without leading zeros. */
  function ShowNat(n: nat): (r: string)
    ensures |r| > 0 && AllDigits(r)
    ensures r[0] != '0' || n == 0
  {
    if n < 10 then [DigitChar(n)] else ShowNat(n / 10) + [DigitChar(n % 10)]
  }

  lemma {:induction false} ParseShowNat(n: nat)
    ensures ParseNat(ShowNat(n)) == Some(n)
  {
    var s := ShowNat(n);
    if n < 10 {
      assert s[..|s| - 1] == [];
      assert DigitsValue(s) == 10 * DigitsValue([]) + (s[0] as int - '0' as int);
    } else {
      ParseShowNat(n / 10);
      assert s[..|s| - 1] == ShowNat(n / 10);
      assert DigitsValue(ShowNat(n / 10)) == n / 10;
      assert s[|s| - 1] == DigitChar(n % 10);
    }
  }

  /** A digit string that does not start with '0' has a positive value. */
  lemma {:induction false} LeadingDigitPositive(s: string)
    requires |s| > 0 && AllDigits(s) && s[0] != '0'
    ensures DigitsValue(s) > 0
  {
    if |s| > 1 {
      LeadingDigitPositive(s[..|s| - 1]);
    }
  }

  /** Reading a canonical digit string and writing the value back gives the same string. */
  lemma {:induction false} ShowParseNat(s: string)
    requires ParseNat(s).Some?
    requires s[0] != '0' || |s| == 1
    ensures ShowNat(ParseNat(s).value) == s
  {
    var v := DigitsValue(s);
    if |s| == 1 {
      assert s[..|s| - 1] == [];
      assert v == 10 * DigitsValue([]) + (s[0] as int - '0' as int);
      assert s == [DigitChar(v)];
    } else {
      var front := s[..|s| - 1];
      LeadingDigitPositive(front);
      ShowParseNat(front);
      assert v / 10 == DigitsValue(front);
      assert v % 10 == s[|s| - 1] as int - '0' as int;
      assert s == front + [s[|s| - 1]];
    }
  }

  /** `str(n)` for any integer: a minus sign before the digits of a negative one. */
  function ShowInt(n: int): (r: string)
    ensures |r| > 0
  {
    if n < 0 then "-" + ShowNat(-n) else ShowNat(n)
  }

  /** `int(s)` for an optional minus sign followed by decimal digits. */
  function ParseInt(s: string): (r: Option<int>)
    ensures r.Some? <==> ParseNat(s).Some? || (|s| > 0 && s[0] == '-' && ParseNat(s[1..]).Some?)
  {
    if |s| > 0 && s[0] == '-' then
      match ParseNat(s[1..])
      case None => None
      case Some(n) => Some(0 - n)
    else
      match ParseNat(s)
      case None => None
      case Some(n) => Some(n)
  }

  lemma ParseShowInt(n: int)
    ensures ParseInt(ShowInt(n)) == Some(n)
  {
    if n < 0 {
      ParseShowNat(-n);
      assert ShowInt(n)[1..] == ShowNat(-n);
    } else {
      ParseShowNat(n);
    }
  }
}
