/**
 * Shared vocabulary: an optional value, and the handful of Python string
 * operations the translation pipeline relies on (strip, join, split, rfind,
 * negative slicing, integer formatting and parsing), written out so that
 * every other module states its contracts in the same terms.
 */
module Opt {

  /** Python's `Optional[T]`: `None` or a present value. */
  datatype Option<+T> = None | Some(value: T) {
    function GetOr(default: T): T {
      if Some? then value else default
    }
  }

  /** Python truthiness of an `Optional[str]`: present and non-empty. */
  predicate Truthy(o: Option<string>) {
    o.Some? && o.value != ""
  }

  /** A truthy optional value, or `None`: what a test `if o:` lets through. */
  function Given(o: Option<string>): (r: Option<string>)
    ensures r.Some? <==> Truthy(o)
    ensures r.Some? ==> r == o
  {
    if Truthy(o) then o else None
  }
}

module Text {
  import opened Opt

  /** The characters Python's `str.isspace()` accepts; this is the class
      behind both the regex `\s` and the argument-less `str.strip()`. */
  predicate IsSpace(c: char) {
    || c == ' ' || c == '\t' || c == '\n' || c == '\r'
    || c == '\U{000B}' || c == '\U{000C}'
    || ('\U{001C}' <= c <= '\U{001F}')
    || c == '\U{0085}' || c == '\U{00A0}' || c == '\U{1680}'
    || ('\U{2000}' <= c <= '\U{200A}')
    || c == '\U{2028}' || c == '\U{2029}' || c == '\U{202F}'
    || c == '\U{205F}' || c == '\U{3000}'
  }

  predicate AllSpace(s: string) {
    forall i :: 0 <= i < |s| ==> IsSpace(s[i])
  }

  /** Neither end of `s` is whitespace. */
  predicate IsStripped(s: string) {
    s == "" || (!IsSpace(s[0]) && !IsSpace(s[|s| - 1]))
  }

  /** The non-whitespace characters of `s`, in order: what a split that
      only drops whitespace must preserve. */
  function NonSpace(s: string): (r: string)
    ensures |r| <= |s|
  {
    if s == [] then []
    else if IsSpace(s[0]) then NonSpace(s[1..])
    else [s[0]] + NonSpace(s[1..])
  }

  /** Concatenation is associative; stated once so that proofs about
      concatenated pieces need not rediscover it element by element. */
  lemma Assoc<T>(a: seq<T>, b: seq<T>, c: seq<T>)
    ensures (a + b) + c == a + (b + c)
  {
  }

  /** A non-empty sequence is its head followed by its tail. */
  lemma HeadTail<T>(s: seq<T>)
    requires s != []
    ensures [s[0]] + s[1..] == s
  {
  }

  lemma {:induction false} NonSpaceAppend(a: string, b: string)
    ensures NonSpace(a + b) == NonSpace(a) + NonSpace(b)
  {
    if a == [] {
      assert a + b == b;
    } else {
      assert (a + b)[0] == a[0];
      assert (a + b)[1..] == a[1..] + b;
      NonSpaceAppend(a[1..], b);
    }
  }

  lemma {:induction false} NonSpaceOfSpaces(s: string)
    requires AllSpace(s)
    ensures NonSpace(s) == ""
  {
    if s != [] {
      NonSpaceOfSpaces(s[1..]);
    }
  }

  function TrimLeft(s: string): (r: string)
    ensures |r| <= |s| && r == s[|s| - |r|..]
    ensures r == "" || !IsSpace(r[0])
    ensures AllSpace(s[..|s| - |r|])
  {
    if s != [] && IsSpace(s[0]) then
      var r := TrimLeft(s[1..]);
      var lead := s[..|s| - |r|];
      assert AllSpace(lead) by {
        forall i | 0 <= i < |lead| ensures IsSpace(lead[i]) {
          if i > 0 { assert lead[i] == s[1..][..|s| - 1 - |r|][i - 1]; }
        }
      }
      r
    else s
  }

  function TrimRight(s: string): (r: string)
    ensures |r| <= |s| && r == s[..|r|]
    ensures r == "" || !IsSpace(r[|r| - 1])
    ensures AllSpace(s[|r|..])
  {
    if s != [] && IsSpace(s[|s| - 1]) then
      var init := s[..|s| - 1];
      var r := TrimRight(init);
      assert AllSpace(s[|r|..]) by {
        forall i | 0 <= i < |s[|r|..]| ensures IsSpace(s[|r|..][i]) {
          if |r| + i < |init| { assert s[|r|..][i] == init[|r|..][i]; }
        }
      }
      r
    else s
  }

  /** Python `s.strip()`. */
  function Strip(s: string): (r: string)
    ensures IsStripped(r)
    ensures |r| <= |s|
    ensures NonSpace(r) == NonSpace(s)
    ensures r == "" <==> AllSpace(s)
    ensures IsStripped(s) ==> r == s
  {
    var l := TrimLeft(s);
    var r := TrimRight(l);
    TrimBothFacts(s, l, r);
    r
  }

  /** Stripping adds no character. */
  lemma StripAvoids(s: string, c: char)
    requires c !in s
    ensures c !in Strip(s)
  {
    var l := TrimLeft(s);
    var r := TrimRight(l);
    assert c !in l by {
      assert l == s[|s| - |l|..];
    }
    assert r == l[..|r|];
  }

  /** `Strip(s)` is a slice of `s`. */
  lemma StripSlice(s: string) returns (a: nat)
    ensures a + |Strip(s)| <= |s| && Strip(s) == s[a..a + |Strip(s)|]
  {
    var l := TrimLeft(s);
    a := |s| - |l|;
    assert Strip(s) == l[..|Strip(s)|];
  }

  /** Stripping keeps a non-whitespace last character. */
  lemma StripKeepsLast(s: string)
    ensures s != "" && !IsSpace(s[|s| - 1]) ==>
              Strip(s) != "" && Strip(s)[|Strip(s)| - 1] == s[|s| - 1]
  {
    if s != "" && !IsSpace(s[|s| - 1]) {
      var l := TrimLeft(s);
      assert l != "";
      assert l[|l| - 1] == s[|s| - 1];
      assert TrimRight(l) == l;
    }
  }

  lemma TrimBothFacts(s: string, l: string, r: string)
    requires l == TrimLeft(s) && r == TrimRight(l)
    ensures NonSpace(r) == NonSpace(s)
    ensures r == "" <==> AllSpace(s)
  {
    TrimLeftFacts(s);
    TrimRightFacts(l);
    if l != "" {
      assert !IsSpace(l[0]);
    }
  }

  lemma {:induction false} TrimLeftFacts(s: string)
    ensures NonSpace(TrimLeft(s)) == NonSpace(s)
    ensures TrimLeft(s) == "" <==> AllSpace(s)
  {
    if s != [] && IsSpace(s[0]) {
      TrimLeftFacts(s[1..]);
      if AllSpace(s[1..]) {
        assert AllSpace(s) by {
          forall i | 0 <= i < |s| ensures IsSpace(s[i]) {
            if i > 0 { assert s[i] == s[1..][i - 1]; }
          }
        }
      }
    }
  }

  lemma {:induction false} TrimRightFacts(s: string)
    ensures NonSpace(TrimRight(s)) == NonSpace(s)
    ensures TrimRight(s) == "" <==> AllSpace(s)
  {
    if s != [] && IsSpace(s[|s| - 1]) {
      var init := s[..|s| - 1];
      TrimRightFacts(init);
      assert s == init + [s[|s| - 1]];
      NonSpaceAppend(init, [s[|s| - 1]]);
      assert NonSpace([s[|s| - 1]]) == NonSpace([]);
      if AllSpace(init) {
        assert AllSpace(s) by {
          forall i | 0 <= i < |s| ensures IsSpace(s[i]) {
            if i < |s| - 1 { assert s[i] == init[i]; }
          }
        }
      }
    }
  }

  lemma NonSpaceEmptyIffAllSpace(s: string)
    ensures NonSpace(s) == "" <==> AllSpace(s)
  {
    if AllSpace(s) {
      NonSpaceOfSpaces(s);
    } else {
      assert Strip(s) != "";
      assert !IsSpace(Strip(s)[0]);
      assert NonSpace(Strip(s)) != "";
    }
  }

  /** Python `sep.join(parts)`. */
  function Join(sep: string, parts: seq<string>): (r: string)
    ensures parts == [] ==> r == ""
    ensures |parts| == 1 ==> r == parts[0]
  {
    if parts == [] then ""
    else if |parts| == 1 then parts[0]
    else parts[0] + sep + Join(sep, parts[1..])
  }

  /** Joining one more part extends the joined text by the separator and that part. */
  lemma {:induction false} JoinSnoc(sep: string, parts: seq<string>, x: string)
    ensures Join(sep, parts + [x]) == if parts == [] then x else Join(sep, parts) + sep + x
  {
    if |parts| == 1 {
      assert (parts + [x])[1..] == [x];
    } else if |parts| > 1 {
      assert (parts + [x])[1..] == parts[1..] + [x];
      JoinSnoc(sep, parts[1..], x);
    }
  }

  /** Joining with a whitespace separator keeps exactly the parts' content. */
  lemma {:induction false} NonSpaceJoin(sep: string, parts: seq<string>)
    requires AllSpace(sep)
    ensures NonSpace(Join(sep, parts)) == NonSpace(Concat(parts))
  {
    if |parts| > 1 {
      NonSpaceJoin(sep, parts[1..]);
      NonSpaceAppend(parts[0] + sep, Join(sep, parts[1..]));
      NonSpaceAppend(parts[0], sep);
      NonSpaceOfSpaces(sep);
      NonSpaceAppend(parts[0], Concat(parts[1..]));
    } else if |parts| == 1 {
      assert parts[1..] == [];
      assert Concat(parts[1..]) == "";
      assert Concat(parts) == parts[0] + "";
      assert parts[0] + "" == parts[0];
    }
  }

  /** Plain concatenation of all parts. */
  function Concat(parts: seq<string>): string {
    if parts == [] then "" else parts[0] + Concat(parts[1..])
  }

  lemma ConcatCons(x: string, rest: seq<string>)
    ensures Concat([x] + rest) == x + Concat(rest)
  {
    assert ([x] + rest)[1..] == rest;
  }

  lemma ConcatSingle(x: string)
    ensures Concat([x]) == x
  {
    ConcatCons(x, []);
    assert [x] + [] == [x];
  }

  lemma {:induction false} ConcatAppend(a: seq<string>, b: seq<string>)
    ensures Concat(a + b) == Concat(a) + Concat(b)
  {
    if a == [] {
      assert a + b == b;
    } else {
      assert (a + b)[1..] == a[1..] + b;
      ConcatAppend(a[1..], b);
    }
  }

  /** Python `s[-n:]` for a positive `n`: the last `n` characters, or all of
      `s` when it is shorter. */
  function Tail(s: string, n: nat): (r: string)
    requires n > 0
    ensures |r| <= n && |r| <= |s|
    ensures r == s[|s| - |r|..]
    ensures |s| <= n ==> r == s
    ensures |s| >= n ==> |r| == n
  {
    if |s| <= n then s else s[|s| - n..]
  }

  predicate StartsWith(s: string, prefix: string) {
    |prefix| <= |s| && s[..|prefix|] == prefix
  }

  predicate EndsWith(s: string, suffix: string) {
    |suffix| <= |s| && s[|s| - |suffix|..] == suffix
  }

  predicate OccursAt(s: string, pat: string, k: int) {
    0 <= k && k + |pat| <= |s| && s[k..k + |pat|] == pat
  }

  /** Python `s.rfind(pat)` for a non-empty pattern: the last position where
      `pat` occurs, or -1. */
  function RFind(s: string, pat: string): (k: int)
    requires pat != ""
    ensures k == -1 || 0 <= k <= |s| - |pat|
    ensures k >= 0 ==> OccursAt(s, pat, k)
    ensures forall j :: k < j <= |s| - |pat| ==> !OccursAt(s, pat, j)
  {
    if |pat| > |s| then -1 else RFindFrom(s, pat, |s| - |pat|)
  }

  function RFindFrom(s: string, pat: string, j: int): (k: int)
    requires pat != "" && -1 <= j <= |s| - |pat|
    ensures -1 <= k <= j
    ensures k >= 0 ==> OccursAt(s, pat, k)
    ensures forall m :: k < m <= j ==> !OccursAt(s, pat, m)
    decreases j + 1
  {
    if j < 0 then -1
    else if s[j..j + |pat|] == pat then j
    else RFindFrom(s, pat, j - 1)
  }

  /** ASCII lower-casing (Python's `str.lower()` restricted to ASCII). */
  function Lower(s: string): (r: string)
    ensures |r| == |s|
    ensures forall i :: 0 <= i < |s| ==> r[i] == LowerChar(s[i])
  {
    if s == [] then []
    else
      var c := s[0];
      [LowerChar(c)] + Lower(s[1..])
  }

  /** ASCII lower-casing of one character. */
  function LowerChar(c: char): char {
    if 'A' <= c <= 'Z' then (c as int + 32) as char else c
  }

  /** Python `s.split(sep)` for a one-character separator: the pieces between
      occurrences, so `|SplitOn(s, sep)| == 1 + (occurrences of sep)`. */
  function SplitOn(s: string, sep: char): (r: seq<string>)
    ensures |r| >= 1
    ensures forall i :: 0 <= i < |r| ==> sep !in r[i]
    ensures Join([sep], r) == s
  {
    if sep !in s then [s]
    else
      var k := FirstIndex(s, sep);
      var rest := SplitOn(s[k + 1..], sep);
      assert s == s[..k] + [sep] + s[k + 1..];
      JoinCons([sep], s[..k], rest);
      [s[..k]] + rest
  }

  lemma JoinCons(sep: string, head: string, rest: seq<string>)
    requires |rest| >= 1
    ensures Join(sep, [head] + rest) == head + sep + Join(sep, rest)
  {
    assert ([head] + rest)[1..] == rest;
  }

  /** The value of the first line carrying `tag`, if any. */
  function LabelValue(lines: seq<string>, tag: string): Option<string> {
    if lines == [] then None
    else if StartsWith(lines[0], tag) then Some(lines[0][|tag|..])
    else LabelValue(lines[1..], tag)
  }

  lemma LabelValueCons(line: string, tag: string, value: string, rest: seq<string>)
    requires line == tag + value
    ensures LabelValue([line] + rest, tag) == Some(value)
  {
    assert line[..|tag|] == tag;
  }

  lemma LabelValueSkip(line: string, tag: string, rest: seq<string>)
    requires !StartsWith(line, tag)
    ensures LabelValue([line] + rest, tag) == LabelValue(rest, tag)
  {
    assert ([line] + rest)[1..] == rest;
  }

  /** Splitting joined parts at a separator none of them contains gives the
      parts back: the inverse of `Join` for `SplitOn`. */
  lemma {:induction false} SplitOfJoin(parts: seq<string>, c: char)
    requires |parts| >= 1
    requires forall i :: 0 <= i < |parts| ==> c !in parts[i]
    ensures SplitOn(Join([c], parts), c) == parts
  {
    if |parts| > 1 {
      var a := parts[0];
      var rest := parts[1..];
      var b := Join([c], rest);
      JoinCons([c], a, rest);
      assert parts == [a] + rest;
      var s := a + [c] + b;
      assert Join([c], parts) == s;
      assert s[|a|] == c;
      var k := FirstIndex(s, c);
      assert s[..|a|] == a;
      assert k == |a|;
      assert s[k + 1..] == b;
      SplitOfJoin(rest, c);
    }
  }

  function FirstIndex(s: string, c: char): (k: nat)
    requires c in s
    ensures k < |s| && s[k] == c && c !in s[..k]
  {
    if s[0] == c then 0 else
      var k := FirstIndex(s[1..], c);
      assert s[1..][..k] == s[1..k + 1];
      1 + k
  }

  function DigitChar(d: nat): char
    requires d < 10
  {
    ('0' as int + d) as char
  }

  predicate IsDigit(c: char) {
    '0' <= c <= '9'
  }

  /** Decimal digits of a natural number, most significant first. */
  function NatToString(n: nat): (r: string)
    ensures |r| >= 1
    ensures forall i :: 0 <= i < |r| ==> IsDigit(r[i])
    decreases n
  {
    if n < 10 then [DigitChar(n)] else NatToString(n / 10) + [DigitChar(n % 10)]
  }

  /** Python `str(i)` for an int. */
  function IntToString(i: int): (r: string)
    ensures r != ""
    ensures forall k :: 0 <= k < |r| ==> IsDigit(r[k]) || r[k] == '-'
  {
    if i < 0 then "-" + NatToString(-i) else NatToString(i)
  }

  function DigitsValue(s: string): nat
    requires AllDigits(s)
  {
    if s == [] then 0 else DigitsValue(s[..|s| - 1]) * 10 + DigitValue(s[|s| - 1])
  }

  function DigitValue(c: char): nat
    requires IsDigit(c)
  {
    c as int - '0' as int
  }

  predicate AllDigits(s: string) {
    forall i :: 0 <= i < |s| ==> IsDigit(s[i])
  }

  /** Python `int(s)` for decimal text: surrounding whitespace allowed, an
      optional sign, then at least one ASCII digit; anything else is a
      `ValueError`, modelled as `None`. */
  function ParseInt(s: string): (r: Option<int>)
  {
    ParseStripped(Strip(s))
  }

  /** `int()` once surrounding whitespace is gone: an optional sign, then
      one or more digits. */
  function ParseStripped(t: string): (r: Option<int>)
  {
    if t == "" then None
    else if t[0] == '-' || t[0] == '+' then
      var ds := t[1..];
      if ds != "" && AllDigits(ds) then
        Some(if t[0] == '-' then -(DigitsValue(ds) as int) else DigitsValue(ds))
      else None
    else if AllDigits(t) then Some(DigitsValue(t))
    else None
  }

  lemma {:induction false} DigitsValueOfNat(n: nat)
    ensures DigitsValue(NatToString(n)) == n
    decreases n
  {
    if n >= 10 {
      DigitsValueOfNat(n / 10);
      var s := NatToString(n);
      assert s[..|s| - 1] == NatToString(n / 10);
    }
  }

  lemma NatToStringStripped(n: nat)
    ensures IsStripped(NatToString(n))
    ensures AllDigits(NatToString(n))
  {
  }

  /** Formatting an integer and parsing it back is the identity. */
  lemma {:induction false} ParseIntOfIntToString(i: int)
    ensures ParseInt(IntToString(i)) == Some(i)
  {
    if i < 0 {
      var n: nat := -i;
      assert IntToString(i) == "-" + NatToString(n);
      ParseNegative(n);
    } else {
      var n: nat := i;
      assert IntToString(i) == NatToString(n);
      ParseNonNegative(n);
    }
  }

  lemma {:induction false} ParseNonNegative(n: nat)
    ensures ParseInt(NatToString(n)) == Some(n)
  {
    var s := NatToString(n);
    NatToStringStripped(n);
    assert Strip(s) == s;
    assert s[0] != '-' && s[0] != '+';
    DigitsValueOfNat(n);
  }

  lemma {:induction false} ParseNegative(n: nat)
    requires n > 0
    ensures ParseInt("-" + NatToString(n)) == Some(-(n as int))
  {
    NatToStringStripped(n);
    DigitsValueOfNat(n);
    SignedStripped(NatToString(n));
    ParseMinus(NatToString(n), n);
  }

  /** A minus sign before stripped, non-empty text survives the strip. */
  lemma SignedStripped(d: string)
    requires d != "" && IsStripped(d)
    ensures ParseInt("-" + d) == ParseStripped("-" + d)
  {
    var s := "-" + d;
    assert s[0] == '-' && s[|s| - 1] == d[|d| - 1];
    assert IsStripped(s);
  }

  /** A minus sign before decimal digits parses as their negation. */
  lemma ParseMinus(d: string, v: nat)
    requires d != "" && AllDigits(d) && DigitsValue(d) == v
    ensures ParseStripped("-" + d) == Some(-(v as int))
  {
    assert ("-" + d)[1..] == d;
  }
}
