/** The Python string operations the parser relies on: `str.strip()`,
    `str.split(sep)`, `str.replace(c, '')`, negative slicing `s[-n:]`,
    `str(n)` for a natural number and `str.zfill(width)`. */
module Text {
  import Seqs

  /** Python's `str.isspace()` for one character: the ASCII whitespace and
      separator controls plus the Unicode space separators. */
  predicate IsSpace(c: char) {
    c == ' ' || c == '\t' || c == '\n' || c == '\r' ||
    c == '\U{0B}' || c == '\U{0C}' ||
    ('\U{1C}' <= c <= '\U{1F}') ||
    c == '\U{85}' || c == '\U{A0}' || c == '\U{1680}' ||
    ('\U{2000}' <= c <= '\U{200A}') ||
    c == '\U{2028}' || c == '\U{2029}' || c == '\U{202F}' ||
    c == '\U{205F}' || c == '\U{3000}'
  }

  predicate AllSpace(s: string) {
    forall i :: 0 <= i < |s| ==> IsSpace(s[i])
  }

  /** Neither end of `s` is whitespace. */
  predicate IsTrimmed(s: string) {
    s == [] || (!IsSpace(s[0]) && !IsSpace(s[|s| - 1]))
  }

  /** Length of the longest all-whitespace prefix. */
  function LeadingSpaces(s: string): (k: nat)
    ensures k <= |s|
  {
    if s != [] && IsSpace(s[0]) then 1 + LeadingSpaces(s[1..]) else 0
  }

  lemma {:induction false} LeadingSpacesSpec(s: string)
    ensures var k := LeadingSpaces(s);
      AllSpace(s[..k]) && (k == |s| || !IsSpace(s[k]))
  {
    if s != [] && IsSpace(s[0]) {
      var t := s[1..];
      LeadingSpacesSpec(t);
      var k := LeadingSpaces(t);
      assert forall i :: 1 <= i <= k ==> s[i] == t[i - 1];
    }
  }

  /** Length of the longest all-whitespace suffix. */
  function TrailingSpaces(s: string): (k: nat)
    ensures k <= |s|
  {
    if s != [] && IsSpace(s[|s| - 1]) then 1 + TrailingSpaces(s[..|s| - 1]) else 0
  }

  lemma {:induction false} TrailingSpacesSpec(s: string)
    ensures var k := TrailingSpaces(s);
      AllSpace(s[|s| - k..]) && (k == |s| || !IsSpace(s[|s| - 1 - k]))
  {
    if s != [] && IsSpace(s[|s| - 1]) {
      var t := s[..|s| - 1];
      TrailingSpacesSpec(t);
      var k := TrailingSpaces(t);
      assert forall i :: |s| - 1 - k <= i < |s| - 1 ==> s[i] == t[i];
      assert k < |t| ==> s[|s| - 2 - k] == t[|t| - 1 - k];
    }
  }

  /** `s.strip()`: `s` without its leading and trailing whitespace. */
  function Strip(s: string): string {
    var t := s[LeadingSpaces(s)..];
    t[..|t| - TrailingSpaces(t)]
  }

  /** The stripped text is trimmed and is what lies between a whitespace
      prefix and a whitespace suffix of `s`. */
  lemma StripSpec(s: string)
    ensures var r := Strip(s);
      var k := LeadingSpaces(s);
      && IsTrimmed(r)
      && k + |r| <= |s|
      && s[k..k + |r|] == r
      && AllSpace(s[..k]) && AllSpace(s[k + |r|..])
  {
    StripTrimmed(s);
    StripBetween(s);
  }

  /** Neither end of the stripped text is whitespace. */
  lemma StripTrimmed(s: string)
    ensures IsTrimmed(Strip(s))
  {
    var k := LeadingSpaces(s);
    var t := s[k..];
    var n := TrailingSpaces(t);
    StripSlices(s, k, n);
    if Strip(s) != [] {
      LeadingSpacesSpec(s);
      TrailingSpacesSpec(t);
    }
  }

  /** The stripped text sits between an all-whitespace prefix and an
      all-whitespace suffix. */
  lemma StripBetween(s: string)
    ensures var r := Strip(s);
      var k := LeadingSpaces(s);
      && k + |r| <= |s|
      && s[k..k + |r|] == r
      && AllSpace(s[..k]) && AllSpace(s[k + |r|..])
  {
    var k := LeadingSpaces(s);
    var t := s[k..];
    var n := TrailingSpaces(t);
    StripSlices(s, k, n);
    LeadingSpacesSpec(s);
    TrailingSpacesSpec(t);
  }

  /** Where the pieces of a stripped string sit in the original. */
  lemma StripSlices(s: string, k: nat, n: nat)
    requires k == LeadingSpaces(s) && n == TrailingSpaces(s[k..])
    ensures var r := Strip(s);
      var t := s[k..];
      && |r| == |t| - n
      && s[k + |r|..] == t[|t| - n..]
      && s[k..k + |r|] == r
      && (r != [] ==> r[0] == s[k] && r[|r| - 1] == t[|t| - 1 - n])
  {
  }

  /** Stripping is determined by the text between the whitespace: padding a
      trimmed string with whitespace on either side and stripping gives it back. */
  lemma StripPadded(pre: string, t: string, post: string)
    requires AllSpace(pre) && AllSpace(post) && IsTrimmed(t)
    ensures Strip(pre + t + post) == t
  {
    var s := pre + t + post;
    var k := LeadingSpaces(s);
    var r := Strip(s);
    StripSpec(s);
    LeadingSpacesSpec(s);
    if t == [] {
      assert AllSpace(s) by {
        forall i | 0 <= i < |s| ensures IsSpace(s[i]) {
          if i < |pre| { assert s[i] == pre[i]; } else { assert s[i] == post[i - |pre|]; }
        }
      }
      assert k == |s|;
    } else {
      assert s[|pre|] == t[0];
      assert k == |pre|;
      assert s[|pre| + |t| - 1] == t[|t| - 1];
      assert |r| == |t|;
      assert s[k..k + |r|] == t;
    }
  }

  /** Stripping twice changes nothing more. */
  lemma StripIdempotent(s: string)
    ensures Strip(Strip(s)) == Strip(s)
  {
    var r := Strip(s);
    StripSpec(s);
    assert [] + r + [] == r;
    StripPadded([], r, []);
  }

  /** Index of the first occurrence of `c` in `s`. */
  function IndexOf(s: string, c: char): (k: nat)
    requires c in s
    ensures k < |s| && s[k] == c && c !in s[..k]
  {
    if s[0] == c then 0
    else
      assert c in s[1..] by { var i :| 0 <= i < |s| && s[i] == c; assert s[1..][i - 1] == c; }
      1 + IndexOf(s[1..], c)
  }

  /** `s.split(sep)`: the pieces between occurrences of `sep`; the empty string
      yields one empty piece. */
  function Split(s: string, sep: char): (parts: seq<string>)
    ensures |parts| >= 1
    ensures forall i :: 0 <= i < |parts| ==> sep !in parts[i]
    decreases |s|
  {
    if s == [] then [[]]
    else
      var rest := Split(s[1..], sep);
      if s[0] == sep then [[]] + rest else [[s[0]] + rest[0]] + rest[1..]
  }

  /** `sep.join(parts)`. */
  function Join(parts: seq<string>, sep: char): string
    decreases |parts|
  {
    if parts == [] then []
    else if |parts| == 1 then parts[0]
    else parts[0] + [sep] + Join(parts[1..], sep)
  }

  /** A string without the separator is a single piece. */
  lemma {:induction false} SplitNoSeparator(s: string, sep: char)
    requires sep !in s
    ensures Split(s, sep) == [s]
    decreases |s|
  {
    if s != [] {
      SplitNoSeparator(s[1..], sep);
      assert [s[0]] + s[1..] == s;
    }
  }

  /** The first separator ends the first piece; the rest is split on its own. */
  lemma {:induction false} SplitAtFirst(a: string, sep: char, b: string)
    requires sep !in a
    ensures Split(a + [sep] + b, sep) == [a] + Split(b, sep)
    decreases |a|
  {
    var s := a + [sep] + b;
    if a == [] {
      assert s[1..] == b;
    } else {
      assert s[1..] == a[1..] + [sep] + b;
      SplitAtFirst(a[1..], sep, b);
      assert [a[0]] + a[1..] == a;
    }
  }

  /** Splitting at the first separator, stated by its index. */
  lemma SplitFirstPiece(s: string, sep: char)
    ensures sep !in s ==> Split(s, sep) == [s]
    ensures sep in s ==> Split(s, sep) == [s[..IndexOf(s, sep)]] + Split(s[IndexOf(s, sep) + 1..], sep)
  {
    if sep in s {
      var k := IndexOf(s, sep);
      assert s == s[..k] + [sep] + s[k + 1..];
      SplitAtFirst(s[..k], sep, s[k + 1..]);
    } else {
      SplitNoSeparator(s, sep);
    }
  }

  /** Joining the pieces with the separator rebuilds the string. */
  lemma {:induction false} JoinSplit(s: string, sep: char)
    ensures Join(Split(s, sep), sep) == s
    decreases |s|
  {
    if sep in s {
      var k := IndexOf(s, sep);
      SplitFirstPiece(s, sep);
      JoinSplit(s[k + 1..], sep);
      assert s == s[..k] + [sep] + s[k + 1..];
    } else {
      SplitNoSeparator(s, sep);
    }
  }

  /** Splitting a join of separator-free pieces gives the pieces back. */
  lemma {:induction false} SplitJoin(parts: seq<string>, sep: char)
    requires |parts| >= 1
    requires forall i :: 0 <= i < |parts| ==> sep !in parts[i]
    ensures Split(Join(parts, sep), sep) == parts
    decreases |parts|
  {
    if |parts| == 1 {
      SplitNoSeparator(parts[0], sep);
    } else {
      SplitJoin(parts[1..], sep);
      SplitAtFirst(parts[0], sep, Join(parts[1..], sep));
      assert [parts[0]] + parts[1..] == parts;
    }
  }

  /** `s.replace(c, '')`: every occurrence of `c` removed. */
  function RemoveAll(s: string, c: char): (r: string)
    ensures |r| <= |s|
    decreases |s|
  {
    if s == [] then []
    else (if s[0] == c then [] else [s[0]]) + RemoveAll(s[1..], c)
  }

  /** Removal keeps every other character, as often as it occurs and in its
      original order. */
  lemma {:induction false} RemoveAllSpec(s: string, c: char)
    ensures c !in RemoveAll(s, c)
    ensures forall x :: x != c ==> multiset(RemoveAll(s, c))[x] == multiset(s)[x]
    ensures Seqs.IsSubsequence(RemoveAll(s, c), s)
    decreases |s|
  {
    RemoveAllKeepsOrder(s, c);
    if s != [] {
      RemoveAllSpec(s[1..], c);
      assert s == [s[0]] + s[1..];
    }
  }

  lemma {:induction false} RemoveAllKeepsOrder(s: string, c: char)
    ensures Seqs.IsSubsequence(RemoveAll(s, c), s)
    decreases |s|
  {
    if s != [] {
      RemoveAllKeepsOrder(s[1..], c);
      var rest := RemoveAll(s[1..], c);
      if s[0] == c {
        assert RemoveAll(s, c) == rest;
      } else {
        var r := RemoveAll(s, c);
        assert r == [s[0]] + rest;
        assert r[0] == s[0] && r[1..] == rest;
      }
    }
  }

  /** Removal distributes over concatenation, and leaves text without `c`
      unchanged: a line read with its terminator loses exactly the terminator. */
  lemma {:induction false} RemoveAllAppend(a: string, b: string, c: char)
    ensures RemoveAll(a + b, c) == RemoveAll(a, c) + RemoveAll(b, c)
    decreases |a|
  {
    if a == [] {
      assert a + b == b;
    } else {
      var h := if a[0] == c then [] else [a[0]];
      assert (a + b)[1..] == a[1..] + b;
      assert RemoveAll(a + b, c) == h + RemoveAll(a[1..] + b, c);
      RemoveAllAppend(a[1..], b, c);
      assert RemoveAll(a, c) == h + RemoveAll(a[1..], c);
      assert h + (RemoveAll(a[1..], c) + RemoveAll(b, c)) == (h + RemoveAll(a[1..], c)) + RemoveAll(b, c);
    }
  }

  lemma {:induction false} RemoveAllAbsent(s: string, c: char)
    requires c !in s
    ensures RemoveAll(s, c) == s
    decreases |s|
  {
    if s != [] {
      RemoveAllAbsent(s[1..], c);
      assert [s[0]] + s[1..] == s;
    }
  }

  lemma RemoveTerminator(line: string, c: char)
    requires c !in line
    ensures RemoveAll(line + [c], c) == line
  {
    RemoveAllAppend(line, [c], c);
    RemoveAllAbsent(line, c);
    assert RemoveAll([c], c) == [] + RemoveAll([], c);
  }

  /** Python's `s[-n:]` for a positive `n`: the last `n` characters, or all of
      `s` when it is shorter. */
  function Last(s: string, n: nat): (r: string)
    requires n >= 1
    ensures |r| == if |s| <= n then |s| else n
    ensures r == s[|s| - |r|..]
  {
    if |s| <= n then s else s[|s| - n..]
  }

  /** A character absent from `s` is absent from its tail. */
  lemma LastAbsent(s: string, n: nat, c: char)
    requires n >= 1 && c !in s
    ensures c !in Last(s, n)
  {
    var r := Last(s, n);
    assert forall i :: 0 <= i < |r| ==> r[i] == s[|s| - |r| + i];
  }

  /** Python's `s[k:]`: empty when `s` is shorter than `k`. */
  function Drop(s: string, k: nat): (r: string)
    ensures |r| == if |s| <= k then 0 else |s| - k
    ensures |s| > k ==> s == s[..k] + r
  {
    if |s| <= k then [] else s[k..]
  }

  predicate IsDigit(c: char) {
    '0' <= c <= '9'
  }

  predicate AllDigits(s: string) {
    forall i :: 0 <= i < |s| ==> IsDigit(s[i])
  }

  function DigitChar(d: nat): (c: char)
    requires d < 10
    ensures IsDigit(c)
  {
    (48 + d) as char
  }

  function DigitValue(c: char): nat
    requires IsDigit(c)
  {
    (c as int - 48) as nat
  }

  /** The number a string of decimal digits denotes (leading zeros allowed). */
  function DecimalValue(s: string): nat
    requires AllDigits(s)
    decreases |s|
  {
    if s == [] then 0
    else 10 * DecimalValue(s[..|s| - 1]) + DigitValue(s[|s| - 1])
  }

  /** `str(n)` for a natural number. */
  function Decimal(n: nat): (r: string)
    ensures |r| >= 1 && AllDigits(r)
    ensures |r| > 1 ==> r[0] != '0'
    decreases n
  {
    if n < 10 then [DigitChar(n)] else Decimal(n / 10) + [DigitChar(n % 10)]
  }

  /** Reading `str(n)` back yields `n`. */
  lemma {:induction false} DecimalRoundTrip(n: nat)
    ensures DecimalValue(Decimal(n)) == n
    decreases n
  {
    if n >= 10 {
      DecimalRoundTrip(n / 10);
      var r := Decimal(n);
      assert r[..|r| - 1] == Decimal(n / 10);
    }
  }

  function Pow10(k: nat): (p: nat)
    ensures p >= 1
  {
    if k == 0 then 1 else 10 * Pow10(k - 1)
  }

  /** `str(n)` has k + 1 characters exactly when 10^k <= n < 10^(k+1). */
  lemma {:induction false} DecimalWidth(n: nat, k: nat)
    requires (k == 0 || Pow10(k) <= n) && n < Pow10(k + 1)
    ensures |Decimal(n)| == k + 1
    decreases k
  {
    if k > 0 {
      DecimalWidth(n / 10, k - 1);
    }
  }

  function Zeros(k: nat): (r: string)
    ensures |r| == k && AllDigits(r)
    ensures forall i :: 0 <= i < k ==> r[i] == '0'
  {
    if k == 0 then [] else ['0'] + Zeros(k - 1)
  }

  /** `s.zfill(width)`: pad on the left with zeros up to `width`, keeping a
      leading sign in front. */
  function ZFill(s: string, width: nat): (r: string)
    ensures |r| == if |s| >= width then |s| else width
  {
    if |s| >= width then s
    else if s != [] && (s[0] == '+' || s[0] == '-') then [s[0]] + Zeros(width - |s|) + s[1..]
    else Zeros(width - |s|) + s
  }

  /** A run of zeros is worth nothing. */
  lemma {:induction false} ZerosValue(k: nat)
    ensures DecimalValue(Zeros(k)) == 0
  {
    if k > 0 {
      var z := Zeros(k);
      assert z[..k - 1] == Zeros(k - 1);
      ZerosValue(k - 1);
    }
  }

  /** Leading zeros do not change a decimal value. */
  lemma {:induction false} LeadingZerosValue(k: nat, s: string)
    requires AllDigits(s)
    ensures AllDigits(Zeros(k) + s)
    ensures DecimalValue(Zeros(k) + s) == DecimalValue(s)
    decreases |s|
  {
    var z := Zeros(k) + s;
    assert forall i :: 0 <= i < |z| ==> IsDigit(z[i]) by {
      forall i | 0 <= i < |z| ensures IsDigit(z[i]) {
        if i >= k { assert z[i] == s[i - k]; }
      }
    }
    if s == [] {
      assert z == Zeros(k);
      ZerosValue(k);
    } else {
      var s' := s[..|s| - 1];
      LeadingZerosValue(k, s');
      assert z[..|z| - 1] == Zeros(k) + s';
      assert z[|z| - 1] == s[|s| - 1];
    }
  }

  /** Zero-filling a digit string keeps its value. */
  lemma ZFillValue(s: string, width: nat)
    requires AllDigits(s)
    ensures AllDigits(ZFill(s, width))
    ensures DecimalValue(ZFill(s, width)) == DecimalValue(s)
  {
    if |s| < width {
      assert s != [] ==> IsDigit(s[0]);
      assert ZFill(s, width) == Zeros(width - |s|) + s;
      LeadingZerosValue(width - |s|, s);
    }
  }
}
