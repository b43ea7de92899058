/**
 * The semantic splitter: paragraphs and heading sections, sentences,
 * character slicing with a whitespace preference, overlap seeding and the
 * budget-driven grouping loops.
 *
 * The tokenizer is the `count` field of `Config`; nothing about it is
 * assumed beyond returning a natural number. The regular expressions of the
 * source are written out as scanners over the whitespace class `IsSpace`.
 */
module Chunking {
  import opened Opt
  import opened Text
  import Seqs

  datatype Config = Config(maxTokens: int, overlap: int, count: string -> nat)

  /** `needs_chunking`. */
  predicate NeedsChunking(cfg: Config, text: string) {
    cfg.count(text) > cfg.maxTokens
  }

  // ---------------------------------------------------------------------
  // Line endings: `text.replace('\r\n', '\n').replace('\r', '\n')`.

  function NormalizeNewlines(s: string): (r: string)
    ensures '\r' !in r
    ensures NonSpace(r) == NonSpace(s)
    ensures |r| <= |s|
    ensures '\r' !in s ==> r == s
  {
    if s == [] then []
    else
      var rest := if |s| >= 2 && s[0] == '\r' && s[1] == '\n' then s[2..] else s[1..];
      var head := if s[0] == '\r' then '\n' else s[0];
      var r := [head] + NormalizeNewlines(rest);
      assert s == s[..|s| - |rest|] + rest;
      NonSpaceAppend(s[..|s| - |rest|], rest);
      NonSpaceAppend([head], NormalizeNewlines(rest));
      assert NonSpace(s[..|s| - |rest|]) == NonSpace([head]) by {
        if |s| - |rest| == 2 {
          assert s[..2] == [s[0]] + [s[1]];
          NonSpaceAppend([s[0]], [s[1]]);
        }
      }
      r
  }

  /** The first of the two passes: every "\r\n", left to right, becomes
      "\n". */
  function ReplaceCrLf(s: string): (r: string)
    ensures |r| <= |s|
  {
    if s == [] then []
    else if |s| >= 2 && s[0] == '\r' && s[1] == '\n' then "\n" + ReplaceCrLf(s[2..])
    else [s[0]] + ReplaceCrLf(s[1..])
  }

  /** The second pass: every remaining '\r' becomes '\n'. */
  function CrToLf(s: string): (r: string)
    ensures |r| == |s|
    ensures forall i :: 0 <= i < |s| ==> r[i] == (if s[i] == '\r' then '\n' else s[i])
  {
    if s == [] then [] else [if s[0] == '\r' then '\n' else s[0]] + CrToLf(s[1..])
  }

  /** The one-pass scanner agrees with the two `replace` calls made in
      sequence. */
  lemma {:induction false} NormalizeIsTwoPasses(s: string)
    ensures NormalizeNewlines(s) == CrToLf(ReplaceCrLf(s))
  {
    if s != [] {
      if |s| >= 2 && s[0] == '\r' && s[1] == '\n' {
        NormalizeIsTwoPasses(s[2..]);
        CrToLfCons('\n', ReplaceCrLf(s[2..]));
      } else {
        NormalizeIsTwoPasses(s[1..]);
        CrToLfCons(s[0], ReplaceCrLf(s[1..]));
      }
    }
  }

  lemma CrToLfCons(c: char, t: string)
    ensures CrToLf([c] + t) == [if c == '\r' then '\n' else c] + CrToLf(t)
  {
    assert ([c] + t)[1..] == t;
  }

  // ---------------------------------------------------------------------
  // Scanning helpers.

  /** The end of the whitespace run that starts at `i`. */
  function RunEnd(s: string, i: nat): (e: nat)
    requires i <= |s|
    ensures i <= e <= |s|
    ensures forall k :: i <= k < e ==> IsSpace(s[k])
    ensures e == |s| || !IsSpace(s[e])
    decreases |s| - i
  {
    if i == |s| || !IsSpace(s[i]) then i else RunEnd(s, i + 1)
  }

  /** The last newline in `s[i..j]`. */
  function LastNewline(s: string, i: nat, j: nat): (k: Option<nat>)
    requires i <= j <= |s|
    ensures k.Some? ==> i <= k.value < j && s[k.value] == '\n'
    ensures k.Some? ==> forall m :: k.value < m < j ==> s[m] != '\n'
    ensures k.None? ==> forall m :: i <= m < j ==> s[m] != '\n'
    decreases j - i
  {
    if j == i then None
    else if s[j - 1] == '\n' then Some(j - 1)
    else LastNewline(s, i, j - 1)
  }

  lemma SpacesOfRange(s: string, a: nat, b: nat)
    requires a <= b <= |s|
    requires forall k :: a <= k < b ==> IsSpace(s[k])
    ensures NonSpace(s[a..b]) == ""
  {
    NonSpaceOfSpaces(s[a..b]);
  }

  lemma SplitThree(s: string, a: nat, p: nat, e: nat)
    requires a <= p <= e <= |s|
    ensures NonSpace(s[a..]) == NonSpace(s[a..p]) + NonSpace(s[p..e]) + NonSpace(s[e..])
  {
    assert s[a..] == s[a..p] + s[p..e] + s[e..];
    NonSpaceAppend(s[a..p] + s[p..e], s[e..]);
    NonSpaceAppend(s[a..p], s[p..e]);
  }

  // ---------------------------------------------------------------------
  // Paragraph boundaries: `re.split(r'\n\s*\n', text)`.

  /** Where a match of `\n\s*\n` starting at `p` ends: the greedy `\s*`
      backs off to the last newline of the whitespace run after `p`. */
  function BlankMatchEnd(s: string, p: nat): (e: Option<nat>)
    requires p < |s|
    ensures e.Some? ==> p + 2 <= e.value <= |s| && s[p] == '\n' && s[e.value - 1] == '\n'
    ensures e.Some? ==> forall k :: p <= k < e.value ==> IsSpace(s[k])
  {
    if s[p] != '\n' then None
    else
      var run := RunEnd(s, p + 1);
      match LastNewline(s, p + 1, run)
      case None => None
      case Some(k) => Some(k + 1)
  }

  function SplitBlankFrom(s: string, start: nat, p: nat): (r: seq<string>)
    requires start <= p <= |s|
    ensures |r| >= 1
    ensures NonSpace(Concat(r)) == NonSpace(s[start..])
    decreases |s| - p
  {
    if p == |s| then
      assert Concat([s[start..]]) == s[start..] by { ConcatCons(s[start..], []); }
      [s[start..]]
    else
      match BlankMatchEnd(s, p)
      case Some(e) =>
        var rest := SplitBlankFrom(s, e, e);
        ConcatCons(s[start..p], rest);
        NonSpaceAppend(s[start..p], Concat(rest));
        SplitThree(s, start, p, e);
        SpacesOfRange(s, p, e);
        [s[start..p]] + rest
      case None => SplitBlankFrom(s, start, p + 1)
  }

  /** The pieces between blank-line separators (a separator is a newline,
      any whitespace, and another newline). */
  function SplitBlank(s: string): (r: seq<string>)
    ensures |r| >= 1
    ensures NonSpace(Concat(r)) == NonSpace(s)
  {
    assert s[0..] == s;
    SplitBlankFrom(s, 0, 0)
  }

  /** No blank line inside `x`: between two of its newlines there is
      always something other than whitespace. */
  predicate NoBlankLine(x: string) {
    forall i, j :: 0 <= i < j < |x| ==> !BlankBetween(x, i, j)
  }

  /** Newlines at `i` and `j` with only whitespace between them. */
  predicate BlankBetween(x: string, i: nat, j: nat)
    requires i < j < |x|
  {
    x[i] == '\n' && x[j] == '\n' && AllSpace(x[i + 1..j])
  }

  predicate AllNoBlankLine(xs: seq<string>) {
    forall i :: 0 <= i < |xs| ==> NoBlankLine(xs[i])
  }

  /** Inside a stripped piece without a blank line, `\n\s*\n` matches
      nowhere: the whitespace run after a newline stops before the piece
      ends and holds no second newline. */
  lemma NoMatchInside(s: string, o: nat, x: string, q: nat)
    requires o <= q < o + |x| <= |s| && s[o..o + |x|] == x
    requires x != "" && IsStripped(x) && NoBlankLine(x)
    ensures BlankMatchEnd(s, q).None?
  {
    if s[q] == '\n' {
      var last := o + |x| - 1;
      assert s[last] == x[|x| - 1];
      assert q < last;
      var run := RunEnd(s, q + 1);
      assert run <= last;
      forall m | q + 1 <= m < run
        ensures s[m] != '\n'
      {
        var i, j := q - o, m - o;
        assert x[i] == s[q] && x[j] == s[m];
        var gap := x[i + 1..j];
        assert !BlankBetween(x, i, j);
        assert AllSpace(gap) by {
          forall t | 0 <= t < |gap|
            ensures IsSpace(gap[t])
          {
            assert gap[t] == x[i + 1 + t] == s[o..o + |x|][i + 1 + t];
          }
        }
      }
      assert LastNewline(s, q + 1, run).None?;
    }
  }

  lemma {:induction false} ScanNoMatch(s: string, start: nat, p: nat, m: nat)
    requires start <= p <= m <= |s|
    requires forall q :: p <= q < m ==> BlankMatchEnd(s, q).None?
    ensures SplitBlankFrom(s, start, p) == SplitBlankFrom(s, start, m)
    decreases m - p
  {
    if p < m {
      ScanStep(s, start, p);
      ScanNoMatch(s, start, p + 1, m);
    }
  }

  lemma ScanStep(s: string, start: nat, p: nat)
    requires start <= p < |s| && BlankMatchEnd(s, p).None?
    ensures SplitBlankFrom(s, start, p) == SplitBlankFrom(s, start, p + 1)
  {
  }

  lemma ScanMatch(s: string, start: nat, p: nat, e: nat)
    requires start <= p < |s| && BlankMatchEnd(s, p) == Some(e)
    ensures SplitBlankFrom(s, start, p) == [s[start..p]] + SplitBlankFrom(s, e, e)
  {
  }

  /** A blank line "\n\n" followed by a non-space character is one whole
      separator. */
  lemma SeparatorMatch(s: string, p: nat)
    requires p + 2 < |s| && s[p] == '\n' && s[p + 1] == '\n' && !IsSpace(s[p + 2])
    ensures BlankMatchEnd(s, p) == Some(p + 2)
  {
    assert RunEnd(s, p + 1) == p + 2;
    assert LastNewline(s, p + 1, p + 2) == Some(p + 1);
  }

  /** Scanning through the first piece of `s[o..]` finds no separator. */
  lemma ScanPiece(s: string, o: nat, x: string)
    requires o + |x| <= |s| && s[o..o + |x|] == x
    requires x != "" && IsStripped(x) && NoBlankLine(x)
    ensures SplitBlankFrom(s, o, o) == SplitBlankFrom(s, o, o + |x|)
  {
    NoMatchInPiece(s, o, x);
    ScanNoMatch(s, o, o, o + |x|);
  }

  lemma NoMatchInPiece(s: string, o: nat, x: string)
    requires o + |x| <= |s| && s[o..o + |x|] == x
    requires x != "" && IsStripped(x) && NoBlankLine(x)
    ensures forall q :: o <= q < o + |x| ==> BlankMatchEnd(s, q).None?
  {
    forall q | o <= q < o + |x|
      ensures BlankMatchEnd(s, q).None?
    {
      NoMatchInside(s, o, x, q);
    }
  }

  lemma JoinParts(xs: seq<string>)
    requires |xs| >= 2 && Units(xs) && AllNoBlankLine(xs)
    ensures Join("\n\n", xs) == xs[0] + "\n\n" + Join("\n\n", xs[1..])
    ensures Units(xs[1..]) && AllNoBlankLine(xs[1..])
    ensures !IsSpace(Join("\n\n", xs[1..])[0])
  {
    assert xs == [xs[0]] + xs[1..];
    JoinCons("\n\n", xs[0], xs[1..]);
    UnitsSlice(xs, 1, |xs|);
    JoinStripped("\n\n", xs[1..]);
    forall i | 0 <= i < |xs[1..]| ensures xs[1..][i] == xs[i + 1] { }
  }

  /** One piece and its separator: the scan cuts exactly after the piece
      and resumes after the blank line. */
  lemma SplitBlankAfterPiece(s: string, o: nat, x: string, j: string)
    requires o <= |s| && s[o..] == x + "\n\n" + j
    requires x != "" && IsStripped(x) && NoBlankLine(x)
    requires j != "" && !IsSpace(j[0])
    ensures o + |x| + 2 <= |s| && s[o + |x| + 2..] == j
    ensures SplitBlankFrom(s, o, o) == [x] + SplitBlankFrom(s, o + |x| + 2, o + |x| + 2)
  {
    var end := o + |x|;
    SliceParts(s, o, x, j);
    SeparatorMatch(s, end);
    calc {
      SplitBlankFrom(s, o, o);
    == { ScanPiece(s, o, x); }
      SplitBlankFrom(s, o, end);
    == { ScanMatch(s, o, end, end + 2); }
      [s[o..end]] + SplitBlankFrom(s, end + 2, end + 2);
    }
  }

  lemma SplitBlankFromFirst(s: string, o: nat, xs: seq<string>)
    requires |xs| >= 2 && Units(xs) && AllNoBlankLine(xs)
    requires o <= |s| && s[o..] == Join("\n\n", xs)
    ensures o + |xs[0]| + 2 <= |s| && s[o + |xs[0]| + 2..] == Join("\n\n", xs[1..])
    ensures SplitBlankFrom(s, o, o) == [xs[0]] + SplitBlankFrom(s, o + |xs[0]| + 2, o + |xs[0]| + 2)
    ensures Units(xs[1..]) && AllNoBlankLine(xs[1..])
  {
    JoinParts(xs);
    assert xs[0] != "" && IsStripped(xs[0]) && NoBlankLine(xs[0]);
    SplitBlankAfterPiece(s, o, xs[0], Join("\n\n", xs[1..]));
  }

  lemma {:induction false} SplitBlankFromJoin(s: string, o: nat, xs: seq<string>)
    requires xs != [] && Units(xs) && AllNoBlankLine(xs)
    requires o <= |s| && s[o..] == Join("\n\n", xs)
    ensures SplitBlankFrom(s, o, o) == xs
    decreases |xs|
  {
    if |xs| == 1 {
      assert s[o..o + |xs[0]|] == xs[0];
      ScanPiece(s, o, xs[0]);
    } else {
      SplitBlankFromFirst(s, o, xs);
      var e := o + |xs[0]| + 2;
      SplitBlankFromJoin(s, e, xs[1..]);
      HeadTail(xs);
    }
  }

  lemma SliceParts(s: string, o: nat, x: string, j: string)
    requires o <= |s| && s[o..] == x + "\n\n" + j
    ensures o + |x| + 2 <= |s| && s[o..o + |x|] == x && s[o + |x| + 2..] == j
    ensures s[o + |x|] == '\n' && s[o + |x| + 1] == '\n'
    ensures j != "" ==> s[o + |x| + 2] == j[0]
  {
    assert s[o..][..|x|] == x;
    assert s[o..][|x| + 2..] == j;
  }

  /** Round trip: pieces without blank lines, joined by a blank line,
      split back into exactly those pieces. */
  lemma SplitBlankJoin(xs: seq<string>)
    requires xs != [] && Units(xs) && AllNoBlankLine(xs)
    ensures SplitBlank(Join("\n\n", xs)) == xs
  {
    var s := Join("\n\n", xs);
    assert s[0..] == s;
    SplitBlankFromJoin(s, 0, xs);
  }

  // ---------------------------------------------------------------------
  // Headings: `re.match(r'^#{1,6}\s+', part)`.

  function LeadingHashes(s: string): (k: nat)
    ensures k <= |s|
    ensures forall i :: 0 <= i < k ==> s[i] == '#'
    ensures k == |s| || s[k] != '#'
  {
    if s != [] && s[0] == '#' then 1 + LeadingHashes(s[1..]) else 0
  }

  /** One to six `#` followed by whitespace. `#{1,6}` cannot stop inside a
      longer run of `#` because the next character would then be `#`. */
  predicate IsHeading(part: string) {
    var k := LeadingHashes(part);
    1 <= k <= 6 && k < |part| && IsSpace(part[k])
  }

  // ---------------------------------------------------------------------
  // Grouping into paragraphs and heading sections.

  /** Units before the first heading stay separate; a heading opens a
      section that absorbs the following non-heading parts. */
  datatype Sections = Sections(done: seq<string>, section: seq<string>)

  function Close(acc: Sections): (r: seq<string>) {
    if acc.section != [] then acc.done + [Join("\n\n", acc.section)] else acc.done
  }

  function AddPart(acc: Sections, part: string): (r: Sections)
  {
    if part == "" then acc
    else if IsHeading(part) then Sections(Close(acc), [part])
    else if acc.section != [] then acc.(section := acc.section + [part])
    else acc.(done := acc.done + [part])
  }

  function Group(acc: Sections, parts: seq<string>): (r: Sections)
    decreases |parts|
  {
    if parts == [] then acc else Group(AddPart(acc, Strip(parts[0])), parts[1..])
  }

  /** Every element is non-empty and stripped. */
  predicate Units(xs: seq<string>) {
    forall i :: 0 <= i < |xs| ==> xs[i] != "" && IsStripped(xs[i])
  }

  lemma JoinStripped(sep: string, parts: seq<string>)
    requires parts != [] && Units(parts)
    ensures Join(sep, parts) != "" && IsStripped(Join(sep, parts))
    ensures Join(sep, parts)[0] == parts[0][0]
    ensures Join(sep, parts)[|Join(sep, parts)| - 1] == parts[|parts| - 1][|parts[|parts| - 1]| - 1]
  {
    if |parts| > 1 {
      JoinStripped(sep, parts[1..]);
      var rest := Join(sep, parts[1..]);
      assert Join(sep, parts) == parts[0] + sep + rest;
    }
  }

  /** The content a `Sections` accumulator holds, in order. */
  function Held(acc: Sections): string {
    Concat(acc.done) + Concat(acc.section)
  }

  lemma {:induction false} ConcatSnoc(xs: seq<string>, x: string)
    ensures Concat(xs + [x]) == Concat(xs) + x
  {
    ConcatAppend(xs, [x]);
    ConcatCons(x, []);
  }

  lemma CloseKeeps(acc: Sections)
    requires Units(acc.done) && Units(acc.section)
    ensures Units(Close(acc))
    ensures NonSpace(Concat(Close(acc))) == NonSpace(Held(acc))
  {
    if acc.section != [] {
      JoinStripped("\n\n", acc.section);
      ConcatSnoc(acc.done, Join("\n\n", acc.section));
      NonSpaceAppend(Concat(acc.done), Join("\n\n", acc.section));
      NonSpaceAppend(Concat(acc.done), Concat(acc.section));
      NonSpaceJoin("\n\n", acc.section);
    } else {
      assert Concat(acc.section) == "";
      assert Held(acc) == Concat(acc.done);
    }
  }

  lemma AddPartKeeps(acc: Sections, part: string)
    requires Units(acc.done) && Units(acc.section) && IsStripped(part)
    ensures Units(AddPart(acc, part).done) && Units(AddPart(acc, part).section)
    ensures NonSpace(Held(AddPart(acc, part))) == NonSpace(Held(acc) + part)
  {
    NonSpaceAppend(Held(acc), part);
    if part == "" {
      assert Held(acc) + part == Held(acc);
    } else if IsHeading(part) {
      HeadingKeeps(acc, part);
    } else {
      BodyKeeps(acc, part);
    }
  }

  /** A heading closes the section and opens the next one. */
  lemma HeadingKeeps(acc: Sections, part: string)
    requires Units(acc.done) && Units(acc.section) && IsStripped(part) && part != ""
    ensures var r := Sections(Close(acc), [part]);
      Units(r.done) && Units(r.section) && NonSpace(Held(r)) == NonSpace(Held(acc)) + NonSpace(part)
  {
    CloseKeeps(acc);
    ConcatSingle(part);
    NonSpaceAppend(Concat(Close(acc)), part);
  }

  /** Any other part joins the open section, or the closed parts when no
      section is open. */
  lemma BodyKeeps(acc: Sections, part: string)
    requires Units(acc.done) && Units(acc.section) && IsStripped(part) && part != ""
    ensures var r := if acc.section != [] then acc.(section := acc.section + [part])
                     else acc.(done := acc.done + [part]);
      Units(r.done) && Units(r.section) && Held(r) == Held(acc) + part
  {
    UnitsAppend(acc.section, [part]);
    UnitsAppend(acc.done, [part]);
    if acc.section != [] {
      ConcatSnoc(acc.section, part);
    } else {
      ConcatSnoc(acc.done, part);
    }
  }

  lemma {:induction false} GroupUnits(acc: Sections, parts: seq<string>)
    requires Units(acc.done) && Units(acc.section)
    ensures Units(Group(acc, parts).done) && Units(Group(acc, parts).section)
    decreases |parts|
  {
    if parts != [] {
      AddPartKeeps(acc, Strip(parts[0]));
      GroupUnits(AddPart(acc, Strip(parts[0])), parts[1..]);
    }
  }

  lemma {:induction false} GroupKeeps(acc: Sections, parts: seq<string>)
    requires Units(acc.done) && Units(acc.section)
    ensures NonSpace(Held(Group(acc, parts))) == NonSpace(Held(acc)) + NonSpace(Concat(parts))
    decreases |parts|
  {
    if parts == [] {
      assert NonSpace(Concat(parts)) == "";
    } else {
      var next := AddPart(acc, Strip(parts[0]));
      AddPartKeeps(acc, Strip(parts[0]));
      GroupKeeps(next, parts[1..]);
      assert Concat(parts) == parts[0] + Concat(parts[1..]);
      ContentStep(Held(acc), Strip(parts[0]), parts[0], Concat(parts[1..]),
                       Held(next), Held(Group(acc, parts)));
    }
  }

  lemma ContentStep(held: string, h: string, p0: string, t: string, heldNext: string, heldAll: string)
    requires NonSpace(heldAll) == NonSpace(heldNext) + NonSpace(t)
    requires NonSpace(heldNext) == NonSpace(held + h)
    requires NonSpace(h) == NonSpace(p0)
    ensures NonSpace(heldAll) == NonSpace(held) + NonSpace(p0 + t)
  {
    NonSpaceAppend(held, h);
    NonSpaceAppend(p0, t);
    Assoc(NonSpace(held), NonSpace(p0), NonSpace(t));
  }

  predicate NoHeadings(parts: seq<string>) {
    forall i :: 0 <= i < |parts| ==> !IsHeading(Strip(parts[i]))
  }

  /** Before any heading, each non-empty stripped part is a unit of its own. */
  lemma {:induction false} GroupWithoutHeadings(acc: Sections, parts: seq<string>)
    requires acc.section == [] && NoHeadings(parts)
    ensures Group(acc, parts) == Sections(acc.done + StripNonEmpty(parts), [])
    decreases |parts|
  {
    if parts == [] {
      assert acc.done + [] == acc.done;
    } else {
      assert NoHeadings(parts[1..]) by {
        forall i | 0 <= i < |parts[1..]| ensures parts[1..][i] == parts[i + 1] { }
      }
      assert !IsHeading(Strip(parts[0]));
      var next := AddPart(acc, Strip(parts[0]));
      GroupWithoutHeadings(next, parts[1..]);
      if Strip(parts[0]) == "" {
        assert next == acc;
      } else {
        assert next.done == acc.done + [Strip(parts[0])];
        StripNonEmptyCons(parts);
        Assoc(acc.done, [Strip(parts[0])], StripNonEmpty(parts[1..]));
      }
    }
  }

  lemma StripNonEmptyCons(xs: seq<string>)
    requires xs != []
    ensures Strip(xs[0]) == "" ==> StripNonEmpty(xs) == StripNonEmpty(xs[1..])
    ensures Strip(xs[0]) != "" ==> StripNonEmpty(xs) == [Strip(xs[0])] + StripNonEmpty(xs[1..])
  {
  }

  /** An open heading section absorbs every following non-heading part. */
  lemma {:induction false} SectionAbsorbs(acc: Sections, parts: seq<string>)
    requires acc.section != [] && NoHeadings(parts)
    ensures Group(acc, parts) == Sections(acc.done, acc.section + StripNonEmpty(parts))
    decreases |parts|
  {
    if parts == [] {
      assert acc.section + [] == acc.section;
    } else {
      assert NoHeadings(parts[1..]) by {
        forall i | 0 <= i < |parts[1..]| ensures parts[1..][i] == parts[i + 1] { }
      }
      assert !IsHeading(Strip(parts[0]));
      var next := AddPart(acc, Strip(parts[0]));
      SectionAbsorbs(next, parts[1..]);
      if Strip(parts[0]) == "" {
        assert next == acc;
      } else {
        assert next.section == acc.section + [Strip(parts[0])];
        StripNonEmptyCons(parts);
        Assoc(acc.section, [Strip(parts[0])], StripNonEmpty(parts[1..]));
      }
    }
  }

  /** A heading closes the open section and starts the next one. */
  lemma HeadingOpensSection(acc: Sections, part: string)
    requires IsHeading(part)
    ensures AddPart(acc, part) == Sections(Close(acc), [part])
    ensures acc.section != [] ==> Close(acc) == acc.done + [Join("\n\n", acc.section)]
  {
  }

  /** `[p for p in paragraphs if p.strip()]`. */
  function NonBlank(xs: seq<string>): (r: seq<string>)
    ensures |r| <= |xs|
    ensures Units(xs) ==> r == xs
  {
    if xs == [] then []
    else
      var rest := NonBlank(xs[1..]);
      assert Units(xs) ==> Units(xs[1..]) && Strip(xs[0]) == xs[0] != "" by {
        if Units(xs) {
          UnitsSlice(xs, 1, |xs|);
        }
      }
      HeadTail(xs);
      if Strip(xs[0]) != "" then [xs[0]] + rest else rest
  }

  /** `_split_paragraphs`: non-empty stripped units that together hold
      exactly the text's non-whitespace characters, in order. */
  function SplitParagraphs(text: string): (r: seq<string>)
    ensures Units(r)
    ensures NonSpace(Concat(r)) == NonSpace(text)
  {
    var parts := SplitBlank(NormalizeNewlines(text));
    var acc := Group(Sections([], []), parts);
    GroupUnits(Sections([], []), parts);
    GroupKeeps(Sections([], []), parts);
    CloseKeeps(acc);
    assert Held(Sections([], [])) == "";
    NonBlank(Close(acc))
  }

  lemma {:induction false} JoinAvoids(sep: string, xs: seq<string>, c: char)
    requires c !in sep && forall i :: 0 <= i < |xs| ==> c !in xs[i]
    ensures c !in Join(sep, xs)
  {
    if |xs| > 1 {
      assert forall i :: 0 <= i < |xs[1..]| ==> xs[1..][i] == xs[i + 1];
      JoinAvoids(sep, xs[1..], c);
    }
  }

  /** Paragraphs without headings, line-feed ended and free of blank
      lines, joined by a blank line, split back into exactly those
      paragraphs. */
  lemma SplitParagraphsJoin(xs: seq<string>)
    requires xs != [] && Units(xs) && AllNoBlankLine(xs) && NoHeadings(xs)
    requires forall i :: 0 <= i < |xs| ==> '\r' !in xs[i]
    ensures SplitParagraphs(Join("\n\n", xs)) == xs
  {
    var text := Join("\n\n", xs);
    JoinAvoids("\n\n", xs, '\r');
    assert NormalizeNewlines(text) == text;
    calc {
      SplitParagraphs(text);
    ==
      NonBlank(Close(Group(Sections([], []), SplitBlank(NormalizeNewlines(text)))));
    == { SplitBlankJoin(xs); }
      NonBlank(Close(Group(Sections([], []), xs)));
    == { GroupWithoutHeadings(Sections([], []), xs); StripNonEmptyUnits(xs); assert [] + xs == xs; }
      NonBlank(Close(Sections(xs, [])));
    ==
      xs;
    }
  }

  /** A heading followed by plain paragraphs stays one paragraph: the
      heading keeps its content. */
  lemma SplitParagraphsSection(h: string, body: seq<string>)
    requires IsHeading(h) && Units([h] + body) && AllNoBlankLine([h] + body) && NoHeadings(body)
    requires forall i :: 0 <= i < |[h] + body| ==> '\r' !in ([h] + body)[i]
    ensures SplitParagraphs(Join("\n\n", [h] + body)) == [Join("\n\n", [h] + body)]
  {
    var xs := [h] + body;
    var text := Join("\n\n", xs);
    JoinAvoids("\n\n", xs, '\r');
    assert NormalizeNewlines(text) == text;
    SplitBlankJoin(xs);
    assert xs[0] == h && xs[1..] == body;
    assert Strip(h) == h;
    var acc := AddPart(Sections([], []), h);
    HeadingOpensSection(Sections([], []), h);
    assert acc == Sections([], [h]);
    assert Group(Sections([], []), xs) == Group(acc, body);
    SectionAbsorbs(acc, body);
    UnitsSlice(xs, 1, |xs|);
    StripNonEmptyUnits(body);
    JoinStripped("\n\n", xs);
  }

  // ---------------------------------------------------------------------
  // Sentences: `re.split(r'(?<=[.!?。！？])\s+', text)`, stripped, empties dropped.

  predicate IsTerminator(c: char) {
    c == '.' || c == '!' || c == '?' || c == '\U{3002}' || c == '\U{FF01}' || c == '\U{FF1F}'
  }

  /** No terminator in `x` is directly followed by whitespace, so the
      sentence pattern has no match inside `x`. */
  predicate NoCutInside(x: string) {
    forall k :: 0 < k < |x| ==> !(IsTerminator(x[k - 1]) && IsSpace(x[k]))
  }

  predicate EndsWithTerminator(x: string) {
    x != "" && IsTerminator(x[|x| - 1])
  }

  /** No cut position strictly inside `s[a..b]`. */
  predicate NoCutBetween(s: string, a: nat, b: nat)
    requires a <= b <= |s|
  {
    forall k :: a < k < b ==> !(IsTerminator(s[k - 1]) && IsSpace(s[k]))
  }

  lemma NoCutSlice(s: string, a: nat, b: nat)
    requires a <= b <= |s| && NoCutBetween(s, a, b)
    ensures NoCutInside(s[a..b])
  {
    forall k | 0 < k < b - a
      ensures !(IsTerminator(s[a..b][k - 1]) && IsSpace(s[a..b][k]))
    {
      assert s[a..b][k] == s[a + k];
      assert s[a..b][k - 1] == s[a + k - 1];
    }
  }

  predicate AllNoCut(xs: seq<string>) {
    forall j :: 0 <= j < |xs| ==> NoCutInside(xs[j])
  }

  /** Every element but the last ends with a terminator. */
  predicate EndsExceptLast(xs: seq<string>) {
    forall j :: 0 <= j < |xs| - 1 ==> EndsWithTerminator(xs[j])
  }

  /** The content facts of a cut at `i` whose whitespace run ends at `e`. */
  lemma CutContent(s: string, start: nat, i: nat, e: nat, rest: seq<string>)
    requires start <= i <= e <= |s|
    requires forall k :: i <= k < e ==> IsSpace(s[k])
    requires NonSpace(Concat(rest)) == NonSpace(s[e..])
    ensures NonSpace(Concat([s[start..i]] + rest)) == NonSpace(s[start..])
  {
    ConcatCons(s[start..i], rest);
    NonSpaceAppend(s[start..i], Concat(rest));
    SplitThree(s, start, i, e);
    SpacesOfRange(s, i, e);
  }

  /** The raw pieces of the split, scanning from `i` inside the piece that
      began at `start`. A match begins at whitespace preceded by a
      terminator and, `\s+` being greedy, takes the whole run. */
  function SentencePiecesFrom(s: string, start: nat, i: nat): (r: seq<string>)
    requires start <= i <= |s|
    requires start == 0 || IsSpace(s[start - 1])
    requires NoCutBetween(s, start, i)
    ensures |r| >= 1
    ensures NonSpace(Concat(r)) == NonSpace(s[start..])
    ensures AllNoCut(r) && EndsExceptLast(r)
    decreases |s| - i
  {
    if i == |s| then
      ConcatSingle(s[start..]);
      NoCutSlice(s, start, i);
      [s[start..]]
    else if i > 0 && IsSpace(s[i]) && IsTerminator(s[i - 1]) then
      var e := RunEnd(s, i);
      var rest := SentencePiecesFrom(s, e, e);
      CutContent(s, start, i, e, rest);
      CutPieces(s, start, i, rest);
      [s[start..i]] + rest
    else
      NoCutExtend(s, start, i);
      SentencePiecesFrom(s, start, i + 1)
  }

  /** The piece before a cut ends with its terminator and has no cut inside. */
  lemma CutPieces(s: string, start: nat, i: nat, rest: seq<string>)
    requires start < i < |s| && (start == 0 || IsSpace(s[start - 1]))
    requires NoCutBetween(s, start, i) && IsTerminator(s[i - 1])
    requires AllNoCut(rest) && EndsExceptLast(rest)
    ensures AllNoCut([s[start..i]] + rest) && EndsExceptLast([s[start..i]] + rest)
  {
    NoCutSlice(s, start, i);
    assert s[start..i][i - start - 1] == s[i - 1];
    PiecesConsAll(s[start..i], rest);
  }

  lemma NoCutExtend(s: string, start: nat, i: nat)
    requires start <= i < |s| && NoCutBetween(s, start, i)
    requires !(i > 0 && IsSpace(s[i]) && IsTerminator(s[i - 1]))
    ensures NoCutBetween(s, start, i + 1)
  {
  }

  lemma StripKeepsTerminator(x: string)
    ensures EndsWithTerminator(x) ==> EndsWithTerminator(Strip(x))
  {
    if EndsWithTerminator(x) {
      assert !IsSpace(x[|x| - 1]);
      StripKeepsLast(x);
    }
  }

  /** A slice of a piece without a cut has none either. */
  lemma NoCutInSlice(x: string, t: string, a: nat)
    requires a + |t| <= |x| && t == x[a..a + |t|] && NoCutInside(x)
    ensures NoCutInside(t)
  {
    forall k | 0 < k < |t| ensures !(IsTerminator(t[k - 1]) && IsSpace(t[k])) {
      assert t[k - 1] == x[a + k - 1] && t[k] == x[a + k];
    }
  }

  lemma StripNoCut(x: string)
    requires NoCutInside(x)
    ensures NoCutInside(Strip(x))
  {
    var a := StripSlice(x);
    NoCutInSlice(x, Strip(x), a);
  }

  lemma UnitsCons(h: string, rest: seq<string>)
    requires h != "" && IsStripped(h) && Units(rest)
    ensures Units([h] + rest)
  {
    forall j | 1 <= j < |[h] + rest| ensures ([h] + rest)[j] == rest[j - 1] {
    }
  }

  /** `[s.strip() for s in pieces if s.strip()]`. */
  function StripNonEmpty(xs: seq<string>): (r: seq<string>)
    ensures Units(r)
    ensures |r| <= |xs|
    ensures NonSpace(Concat(r)) == NonSpace(Concat(xs))
  {
    if xs == [] then []
    else
      var rest := StripNonEmpty(xs[1..]);
      var h := Strip(xs[0]);
      assert Concat(xs) == xs[0] + Concat(xs[1..]);
      NonSpaceAppend(xs[0], Concat(xs[1..]));
      if h == "" then
        NonSpaceEmptyIffAllSpace(xs[0]);
        rest
      else
        ConcatCons(h, rest);
        NonSpaceAppend(h, Concat(rest));
        UnitsCons(h, rest);
        [h] + rest
  }

  /** Parts that are already units pass through unchanged. */
  lemma {:induction false} StripNonEmptyUnits(xs: seq<string>)
    requires Units(xs)
    ensures StripNonEmpty(xs) == xs
  {
    if xs != [] {
      UnitsSlice(xs, 1, |xs|);
      StripNonEmptyUnits(xs[1..]);
      StripNonEmptyCons(xs);
      HeadTail(xs);
    }
  }

  lemma PiecesTail(xs: seq<string>)
    requires xs != []
    ensures AllNoCut(xs) ==> NoCutInside(xs[0]) && AllNoCut(xs[1..])
    ensures EndsExceptLast(xs) ==> EndsExceptLast(xs[1..]) && (|xs| > 1 ==> EndsWithTerminator(xs[0]))
  {
    forall j | 0 <= j < |xs[1..]| ensures xs[1..][j] == xs[j + 1] { }
  }

  lemma PiecesConsAll(h: string, rest: seq<string>)
    ensures NoCutInside(h) && AllNoCut(rest) ==> AllNoCut([h] + rest)
    ensures (rest != [] ==> EndsWithTerminator(h)) && EndsExceptLast(rest) ==> EndsExceptLast([h] + rest)
  {
    forall j | 1 <= j < |[h] + rest| ensures ([h] + rest)[j] == rest[j - 1] { }
  }

  lemma {:induction false} StripNonEmptyPieces(xs: seq<string>)
    ensures AllNoCut(xs) ==> AllNoCut(StripNonEmpty(xs))
    ensures EndsExceptLast(xs) ==> EndsExceptLast(StripNonEmpty(xs))
  {
    if xs != [] {
      var h := Strip(xs[0]);
      var rest := StripNonEmpty(xs[1..]);
      PiecesTail(xs);
      StripNonEmptyPieces(xs[1..]);
      if h == "" {
        assert StripNonEmpty(xs) == rest;
      } else {
        assert StripNonEmpty(xs) == [h] + rest;
        if NoCutInside(xs[0]) { StripNoCut(xs[0]); }
        StripKeepsTerminator(xs[0]);
        assert rest != [] ==> |xs| > 1;
        PiecesConsAll(h, rest);
      }
    }
  }

  /** `_split_sentences`: non-empty stripped sentences holding the text's
      non-whitespace characters in order; every sentence but the last ends
      with a terminator, and none contains a terminator followed by
      whitespace. */
  function SplitSentences(text: string): (r: seq<string>)
    ensures Units(r)
    ensures NonSpace(Concat(r)) == NonSpace(text)
    ensures forall j :: 0 <= j < |r| ==> NoCutInside(r[j])
    ensures forall j :: 0 <= j < |r| - 1 ==> EndsWithTerminator(r[j])
  {
    assert text[0..] == text;
    var pieces := SentencePiecesFrom(text, 0, 0);
    StripNonEmptyPieces(pieces);
    StripNonEmpty(pieces)
  }

  /** A cut of the sentence pattern lies at `i`. */
  predicate CutAt(s: string, i: nat)
    requires i < |s|
  {
    i > 0 && IsSpace(s[i]) && IsTerminator(s[i - 1])
  }

  lemma SentenceStep(s: string, start: nat, i: nat)
    requires start <= i < |s| && (start == 0 || IsSpace(s[start - 1]))
    requires NoCutBetween(s, start, i) && !CutAt(s, i)
    ensures NoCutBetween(s, start, i + 1)
    ensures SentencePiecesFrom(s, start, i) == SentencePiecesFrom(s, start, i + 1)
  {
    NoCutExtend(s, start, i);
  }

  lemma {:induction false} SentenceScan(s: string, start: nat, p: nat, m: nat)
    requires start <= p <= m <= |s| && (start == 0 || IsSpace(s[start - 1]))
    requires NoCutBetween(s, start, p)
    requires forall q :: p <= q < m ==> !CutAt(s, q)
    ensures NoCutBetween(s, start, m)
    ensures SentencePiecesFrom(s, start, p) == SentencePiecesFrom(s, start, m)
    decreases m - p
  {
    if p < m {
      SentenceStep(s, start, p);
      SentenceScan(s, start, p + 1, m);
    }
  }

  /** Scanning through a stripped piece without a cut inside finds no cut:
      its first character is not whitespace, and inside it no terminator
      is followed by whitespace. */
  lemma SentenceScanPiece(s: string, o: nat, x: string)
    requires o + |x| <= |s| && s[o..o + |x|] == x && (o == 0 || IsSpace(s[o - 1]))
    requires x != "" && IsStripped(x) && NoCutInside(x)
    ensures NoCutBetween(s, o, o + |x|)
    ensures SentencePiecesFrom(s, o, o) == SentencePiecesFrom(s, o, o + |x|)
  {
    NoCutInPiece(s, o, x);
    SentenceScan(s, o, o, o + |x|);
  }

  lemma NoCutInPiece(s: string, o: nat, x: string)
    requires o + |x| <= |s| && s[o..o + |x|] == x
    requires x != "" && IsStripped(x) && NoCutInside(x)
    ensures forall q :: o <= q < o + |x| ==> !CutAt(s, q)
  {
    forall q | o <= q < o + |x|
      ensures !CutAt(s, q)
    {
      assert s[q] == x[q - o];
      if q > o {
        assert s[q - 1] == x[q - o - 1];
      }
    }
  }

  lemma SentenceSliceParts(s: string, o: nat, x: string, j: string)
    requires o <= |s| && s[o..] == x + " " + j
    ensures o + |x| + 1 <= |s| && s[o..o + |x|] == x && s[o + |x| + 1..] == j
    ensures s[o + |x|] == ' '
    ensures x != "" ==> s[o + |x| - 1] == x[|x| - 1]
    ensures j != "" ==> s[o + |x| + 1] == j[0]
  {
    assert s[o..][..|x|] == x;
    assert s[o..][|x| + 1..] == j;
  }

  /** One sentence and its space: the scan cuts exactly after the
      sentence's terminator and resumes after the single space. */
  lemma SentenceAfterPiece(s: string, o: nat, x: string, j: string)
    requires o <= |s| && s[o..] == x + " " + j && (o == 0 || IsSpace(s[o - 1]))
    requires x != "" && IsStripped(x) && NoCutInside(x) && EndsWithTerminator(x)
    requires j != "" && !IsSpace(j[0])
    ensures o + |x| + 1 <= |s| && s[o + |x| + 1..] == j && IsSpace(s[o + |x|])
    ensures SentencePiecesFrom(s, o, o) == [x] + SentencePiecesFrom(s, o + |x| + 1, o + |x| + 1)
  {
    var end := o + |x|;
    SentenceSliceParts(s, o, x, j);
    SentenceCut(s, end);
    calc {
      SentencePiecesFrom(s, o, o);
    == { SentenceScanPiece(s, o, x); }
      SentencePiecesFrom(s, o, end);
    == { SentenceCutStep(s, o, end); }
      [s[o..end]] + SentencePiecesFrom(s, end + 1, end + 1);
    }
  }

  /** A single space after a terminator, followed by a non-space
      character, is one whole match. */
  lemma SentenceCut(s: string, i: nat)
    requires 0 < i && i + 1 < |s| && IsTerminator(s[i - 1]) && s[i] == ' ' && !IsSpace(s[i + 1])
    ensures CutAt(s, i) && RunEnd(s, i) == i + 1
  {
    assert RunEnd(s, i + 1) == i + 1;
  }

  lemma SentenceCutStep(s: string, start: nat, i: nat)
    requires start < i < |s| && (start == 0 || IsSpace(s[start - 1]))
    requires NoCutBetween(s, start, i) && CutAt(s, i) && RunEnd(s, i) == i + 1
    ensures SentencePiecesFrom(s, start, i) == [s[start..i]] + SentencePiecesFrom(s, i + 1, i + 1)
  {
  }

  lemma SentencesFirst(s: string, o: nat, xs: seq<string>)
    requires |xs| >= 2 && Units(xs) && AllNoCut(xs) && EndsExceptLast(xs)
    requires o <= |s| && s[o..] == Join(" ", xs) && (o == 0 || IsSpace(s[o - 1]))
    ensures o + |xs[0]| + 1 <= |s| && s[o + |xs[0]| + 1..] == Join(" ", xs[1..])
    ensures IsSpace(s[o + |xs[0]|])
    ensures SentencePiecesFrom(s, o, o) == [xs[0]] + SentencePiecesFrom(s, o + |xs[0]| + 1, o + |xs[0]| + 1)
    ensures Units(xs[1..]) && AllNoCut(xs[1..]) && EndsExceptLast(xs[1..])
  {
    assert xs == [xs[0]] + xs[1..];
    JoinCons(" ", xs[0], xs[1..]);
    UnitsSlice(xs, 1, |xs|);
    JoinStripped(" ", xs[1..]);
    PiecesTail(xs);
    assert xs[0] != "" && IsStripped(xs[0]);
    SentenceAfterPiece(s, o, xs[0], Join(" ", xs[1..]));
  }

  lemma {:induction false} SentencesFromJoin(s: string, o: nat, xs: seq<string>)
    requires xs != [] && Units(xs) && AllNoCut(xs) && EndsExceptLast(xs)
    requires o <= |s| && s[o..] == Join(" ", xs) && (o == 0 || IsSpace(s[o - 1]))
    ensures SentencePiecesFrom(s, o, o) == xs
    decreases |xs|
  {
    if |xs| == 1 {
      assert s[o..o + |xs[0]|] == xs[0];
      SentenceScanPiece(s, o, xs[0]);
    } else {
      SentencesFirst(s, o, xs);
      var e := o + |xs[0]| + 1;
      SentencesFromJoin(s, e, xs[1..]);
      HeadTail(xs);
    }
  }

  /** Round trip: sentences that end with a terminator (all but possibly
      the last), hold no terminator followed by whitespace, and are joined
      by single spaces split back into exactly those sentences. */
  lemma SplitSentencesJoin(xs: seq<string>)
    requires xs != [] && Units(xs) && AllNoCut(xs) && EndsExceptLast(xs)
    ensures SplitSentences(Join(" ", xs)) == xs
  {
    var s := Join(" ", xs);
    assert s[0..] == s;
    SentencesFromJoin(s, 0, xs);
    StripNonEmptyUnits(xs);
  }

  // ---------------------------------------------------------------------
  // Character slicing: `_split_by_chars`, with `max_chars = max_tokens * 3`.

  predicate AllAtMost(xs: seq<string>, n: nat) {
    forall j :: 0 <= j < |xs| ==> |xs[j]| <= n
  }

  /** Where the first piece of an over-long text is cut: at the last space
      of its first `maxChars` characters when that space lies past the
      middle, otherwise at `maxChars` itself. */
  function CharCut(text: string, maxChars: nat): (c: nat)
    requires 1 <= maxChars < |text|
    ensures 1 <= c <= maxChars
    ensures c < maxChars ==> maxChars / 2 < c && text[c] == ' '
  {
    var lastSpace := RFind(text[..maxChars], " ");
    assert lastSpace >= 0 ==> text[..maxChars][lastSpace] == ' ';
    if lastSpace > maxChars / 2 then lastSpace else maxChars
  }

  lemma CharPiecesCons(head: string, rest: seq<string>, n: nat)
    requires |head| <= n && AllAtMost(rest, n)
    ensures AllAtMost([head] + rest, n)
  {
    forall j | 1 <= j < |[head] + rest| ensures ([head] + rest)[j] == rest[j - 1] { }
  }

  lemma CharCutContent(text: string, c: nat, rest: seq<string>)
    requires c <= |text|
    requires NonSpace(Concat(rest)) == NonSpace(text[c..])
    ensures NonSpace(Concat([Strip(text[..c])] + rest)) == NonSpace(text)
  {
    assert text == text[..c] + text[c..];
    NonSpaceAppend(text[..c], text[c..]);
    ConcatCons(Strip(text[..c]), rest);
    NonSpaceAppend(Strip(text[..c]), Concat(rest));
  }

  lemma StrippedPrefix(text: string, c: nat)
    requires IsStripped(text) && text != "" && 1 <= c <= |text|
    ensures Strip(text[..c]) != ""
  {
    assert !IsSpace(text[..c][0]);
  }

  /** `_split_by_chars`: pieces of at most `maxChars` characters holding the
      text's non-whitespace characters in order. */
  function SplitByChars(text: string, maxChars: nat): (r: seq<string>)
    requires maxChars >= 1
    ensures text == "" <==> r == []
    ensures text != "" && |text| <= maxChars ==> r == [text]
    ensures AllAtMost(r, maxChars)
    ensures NonSpace(Concat(r)) == NonSpace(text)
    ensures IsStripped(text) ==> Units(r)
    decreases |text|
  {
    if text == "" then []
    else if |text| <= maxChars then
      ConcatSingle(text);
      [text]
    else
      var c := CharCut(text, maxChars);
      var head := Strip(text[..c]);
      var rest := SplitByChars(Strip(text[c..]), maxChars);
      CharPiecesCons(head, rest, maxChars);
      CharCutContent(text, c, rest);
      assert IsStripped(text) ==> head != "" by {
        if IsStripped(text) { StrippedPrefix(text, c); }
      }
      assert IsStripped(text) ==> Units([head] + rest) by {
        if IsStripped(text) { UnitsCons(head, rest); }
      }
      [head] + rest
  }

  /** The whitespace preference: an over-long text's first piece ends where
      the cut falls, and the cut is either the last space past the middle of
      the window or, when the window has none, the window's end. */
  lemma SplitByCharsFirstCut(text: string, maxChars: nat)
    requires 1 <= maxChars < |text|
    ensures var c := CharCut(text, maxChars);
      && SplitByChars(text, maxChars)[0] == Strip(text[..c])
      && (forall m :: c < m < maxChars ==> text[m] != ' ')
      && (c == maxChars <==> forall m :: maxChars / 2 < m < maxChars ==> text[m] != ' ')
  {
    var c := CharCut(text, maxChars);
    var w := text[..maxChars];
    var k := RFind(w, " ");
    forall m | c < m < maxChars ensures text[m] != ' ' {
      assert !OccursAt(w, " ", m);
      assert w[m..m + 1] == [text[m]];
    }
    if c == maxChars {
      forall m | maxChars / 2 < m < maxChars ensures text[m] != ' ' {
        if k < m {
          assert !OccursAt(w, " ", m);
          assert w[m..m + 1] == [text[m]];
        }
      }
    }
  }

  // ---------------------------------------------------------------------
  // `_split_by_chars` as written, for every `max_tokens`.

  /** The outcome of one pass of `_split_by_chars`'s loop: the last piece, or
      a piece and the text the loop continues with. */
  datatype CharPass = LastPiece(piece: string) | CutPiece(piece: string, next: string)

  /** One pass of `_split_by_chars`'s loop for any integer `max_chars`, with
      Python's slicing (a negative bound counts from the end) and floor
      division. Nothing in the settings keeps `max_tokens` positive. */
  function CharPassAsWritten(text: string, maxChars: int): (r: CharPass)
    requires text != ""
    ensures r.LastPiece? <==> |text| <= maxChars
    ensures r.LastPiece? ==> r.piece == text
  {
    if |text| <= maxChars then LastPiece(text)
    else
      var lastSpace := RFind(Seqs.PySlice(text, 0, maxChars), " ");
      var splitPoint := if lastSpace > maxChars / 2 then lastSpace else maxChars;
      CutPiece(Strip(Seqs.PySlice(text, 0, splitPoint)), Strip(Seqs.PySlice(text, splitPoint, |text|)))
  }

  /** With `max_tokens = 0` the loop makes no progress: every pass appends an
      empty piece and continues with the very same text, so it never ends. */
  lemma CharPassStuckAtZero(text: string)
    requires text != "" && IsStripped(text)
    ensures CharPassAsWritten(text, 0) == CutPiece("", text)
  {
    assert Seqs.PySlice(text, 0, 0) == [];
    assert Seqs.PySlice(text, 0, |text|) == text;
  }

  /** A negative `max_tokens` is no better: with `max_chars = -3` the text "a"
      is cut at -1, i.e. before its only character, and comes back whole. */
  lemma CharPassStuckNegative()
    ensures CharPassAsWritten("a", -3) == CutPiece("", "a")
  {
    NegativeSlices();
    assert RFind("", " ") == -1;
    assert -3 / 2 == -2;
    assert IsStripped("a");
  }

  lemma NegativeSlices()
    ensures Seqs.PySlice("a", 0, -3) == ""
    ensures Seqs.PySlice("a", 0, -1) == ""
    ensures Seqs.PySlice("a", -1, 1) == "a"
  {
    assert Seqs.SliceBound(-3, 1) == 0;
    assert Seqs.SliceBound(-1, 1) == 0;
    assert Seqs.SliceBound(1, 1) == 1;
    assert "a"[0..1] == "a";
  }

  /** With `max_chars >= 1` every pass shortens the text, so the loop ends,
      and the pass is exactly the step `SplitByChars` recurses on. */
  lemma CharPassProgress(text: string, maxChars: int)
    requires maxChars >= 1 && text != ""
    ensures var r := CharPassAsWritten(text, maxChars);
      r.CutPiece? ==>
        && |r.next| < |text|
        && r.piece == Strip(text[..CharCut(text, maxChars)])
        && r.next == Strip(text[CharCut(text, maxChars)..])
        && SplitByChars(text, maxChars) == [r.piece] + SplitByChars(r.next, maxChars)
  {
    if |text| > maxChars {
      assert Seqs.PySlice(text, 0, maxChars) == text[..maxChars];
      var c := CharCut(text, maxChars);
      assert Seqs.PySlice(text, 0, c) == text[..c];
      assert Seqs.PySlice(text, c, |text|) == text[c..];
    }
  }

  // ---------------------------------------------------------------------
  // Overlap: `_get_overlap_sentences`.

  lemma UnitsSlice(xs: seq<string>, a: nat, b: nat)
    requires a <= b <= |xs| && Units(xs)
    ensures Units(xs[a..b])
  {
    forall j | 0 <= j < b - a ensures xs[a..b][j] == xs[a + j] { }
  }

  /** The non-whitespace content of the last sentences is a suffix of the
      content of all of them. */
  lemma TailContent(ss: seq<string>, k: nat)
    requires k <= |ss|
    ensures EndsWith(NonSpace(Concat(ss)), NonSpace(Concat(ss[k..])))
  {
    assert ss == ss[..k] + ss[k..];
    ConcatAppend(ss[..k], ss[k..]);
    NonSpaceAppend(Concat(ss[..k]), Concat(ss[k..]));
  }

  lemma OverlapTail(last: string, ss: seq<string>, k: nat)
    requires k < |ss| && Units(ss) && NonSpace(Concat(ss)) == NonSpace(last)
    ensures EndsWith(NonSpace(last), NonSpace(Join(" ", ss[k..])))
    ensures Units([Join(" ", ss[k..])])
    ensures Join(" ", ss[k..]) != "" && IsStripped(Join(" ", ss[k..]))
  {
    NonSpaceJoin(" ", ss[k..]);
    TailContent(ss, k);
    UnitsSlice(ss, k, |ss|);
    JoinStripped(" ", ss[k..]);
  }

  /** At most one overlap unit. When there is one, it is either the whole
      last paragraph or a tail of its sentences joined by spaces. Either way
      its content is a suffix of the last paragraph's content. */
  function OverlapSentences(cfg: Config, paras: seq<string>): (r: seq<string>)
    ensures |r| <= 1
    ensures r == [] <==> paras == [] || cfg.overlap <= 0
    ensures r != [] ==> EndsWith(NonSpace(paras[|paras| - 1]), NonSpace(r[0]))
    ensures r != [] && |SplitSentences(paras[|paras| - 1])| <= cfg.overlap ==> r == [paras[|paras| - 1]]
    ensures Units(paras) ==> Units(r)
  {
    if paras == [] || cfg.overlap <= 0 then []
    else [OverlapUnitOf(paras[|paras| - 1], cfg.overlap)]
  }

  /** The overlap taken from one paragraph: the whole paragraph when it has
      at most `n` sentences, else its last `n` sentences joined by spaces. */
  function OverlapUnitOf(last: string, n: int): (u: string)
    requires n > 0
    ensures EndsWith(NonSpace(last), NonSpace(u))
    ensures |SplitSentences(last)| <= n ==> u == last
    ensures last != "" && IsStripped(last) ==> u != "" && IsStripped(u)
  {
    var ss := SplitSentences(last);
    if |ss| <= n then
      EndsWithSelf(NonSpace(last));
      last
    else
      var u := Join(" ", ss[|ss| - n..]);
      OverlapTail(last, ss, |ss| - n);
      u
  }

  lemma EndsWithSelf(t: string)
    ensures EndsWith(t, t)
  {
    assert t[|t| - |t|..] == t;
  }

  // ---------------------------------------------------------------------
  // The budget-driven grouping loops. A closed group is kept as the list of
  // units it joins; a piece emitted on its own is a one-unit group.

  function SumTokens(cfg: Config, xs: seq<string>): nat {
    if xs == [] then 0 else cfg.count(xs[0]) + SumTokens(cfg, xs[1..])
  }

  lemma {:induction false} SumTokensSnoc(cfg: Config, xs: seq<string>, x: string)
    ensures SumTokens(cfg, xs + [x]) == SumTokens(cfg, xs) + cfg.count(x)
  {
    if xs != [] {
      assert (xs + [x])[1..] == xs[1..] + [x];
      SumTokensSnoc(cfg, xs[1..], x);
    } else {
      assert [x][1..] == [];
    }
  }

  /** `chunks`, `current_chunk` and `current_tokens` of the loops. */
  datatype Acc = Acc(groups: seq<seq<string>>, current: seq<string>, tokens: nat)

  /** The groups once a non-empty current group is closed. */
  function Flushed(acc: Acc): (gs: seq<seq<string>>)
    ensures |gs| >= |acc.groups| && gs[..|acc.groups|] == acc.groups
  {
    if acc.current != [] then acc.groups + [acc.current] else acc.groups
  }

  /** Each piece as a group of its own. */
  function Singles(xs: seq<string>): (gs: seq<seq<string>>)
    ensures |gs| == |xs|
    ensures forall i :: 0 <= i < |xs| ==> gs[i] == [xs[i]]
  {
    seq(|xs|, i requires 0 <= i < |xs| => [xs[i]])
  }

  /** Every unit the groups hold, in order. */
  function Flatten(gs: seq<seq<string>>): seq<string> {
    if gs == [] then [] else gs[0] + Flatten(gs[1..])
  }

  /** The emitted texts: each group joined by `sep`. */
  function Texts(sep: string, gs: seq<seq<string>>): (r: seq<string>)
    ensures |r| == |gs|
    ensures forall i :: 0 <= i < |gs| ==> r[i] == Join(sep, gs[i])
  {
    seq(|gs|, i requires 0 <= i < |gs| => Join(sep, gs[i]))
  }

  /** A group within budget: a lone unit, or units whose token counts add up
      to at most `maxTokens`. */
  predicate Fits(cfg: Config, g: seq<string>) {
    |g| <= 1 || SumTokens(cfg, g) <= cfg.maxTokens
  }

  predicate AllFit(cfg: Config, gs: seq<seq<string>>) {
    forall i :: 0 <= i < |gs| ==> Fits(cfg, gs[i])
  }

  /** Every unit the accumulator holds, closed or not. */
  function Items(acc: Acc): seq<string> {
    Flatten(acc.groups) + acc.current
  }

  lemma {:induction false} FlattenAppend(a: seq<seq<string>>, b: seq<seq<string>>)
    ensures Flatten(a + b) == Flatten(a) + Flatten(b)
  {
    if a == [] {
      assert a + b == b;
    } else {
      assert (a + b)[1..] == a[1..] + b;
      FlattenAppend(a[1..], b);
    }
  }

  lemma FlattenSingle(g: seq<string>)
    ensures Flatten([g]) == g
  {
    assert [g][1..] == [];
  }

  lemma {:induction false} FlattenSingles(xs: seq<string>)
    ensures Flatten(Singles(xs)) == xs
  {
    if xs != [] {
      assert Singles(xs)[1..] == Singles(xs[1..]);
      FlattenSingles(xs[1..]);
      assert xs == [xs[0]] + xs[1..];
    }
  }

  lemma FlushedItems(acc: Acc)
    ensures Flatten(Flushed(acc)) == Items(acc)
  {
    if acc.current != [] {
      FlattenAppend(acc.groups, [acc.current]);
      FlattenSingle(acc.current);
    } else {
      assert Items(acc) == Flatten(acc.groups) + [];
    }
  }

  lemma AllFitAppend(cfg: Config, a: seq<seq<string>>, b: seq<seq<string>>)
    requires AllFit(cfg, a) && AllFit(cfg, b)
    ensures AllFit(cfg, a + b)
  {
    forall i | |a| <= i < |a + b| ensures (a + b)[i] == b[i - |a|] { }
  }

  lemma SinglesFit(cfg: Config, xs: seq<string>)
    ensures AllFit(cfg, Singles(xs))
  {
  }

  /** Every group is a non-empty list of units. */
  predicate UnitGroups(gs: seq<seq<string>>) {
    forall i :: 0 <= i < |gs| ==> gs[i] != [] && Units(gs[i])
  }

  predicate Sound(acc: Acc) {
    UnitGroups(acc.groups) && Units(acc.current)
  }

  lemma UnitGroupsAppend(a: seq<seq<string>>, b: seq<seq<string>>)
    requires UnitGroups(a) && UnitGroups(b)
    ensures UnitGroups(a + b)
  {
    forall i | |a| <= i < |a + b| ensures (a + b)[i] == b[i - |a|] { }
  }

  lemma UnitsAppend(a: seq<string>, b: seq<string>)
    ensures Units(a) && Units(b) ==> Units(a + b)
  {
    forall i | |a| <= i < |a + b| ensures (a + b)[i] == b[i - |a|] { }
  }

  /** What the loops keep true: the running count is the sum over the
      current group, and every closed group is within budget. */
  predicate Budgeted(cfg: Config, acc: Acc) {
    acc.tokens == SumTokens(cfg, acc.current) && AllFit(cfg, acc.groups) && Fits(cfg, acc.current)
  }

  /** The step shared by both loops for a unit that exceeds the budget on
      its own: close the current group, emit all but the last of the unit's
      pieces, and continue from the last piece. */
  function Oversized(cfg: Config, acc: Acc, pieces: seq<string>): (r: Acc)
    requires pieces != []
    ensures r.current == [pieces[|pieces| - 1]]
    ensures Items(r) == Items(acc) + pieces
    ensures r.tokens == SumTokens(cfg, r.current)
    ensures Budgeted(cfg, acc) ==> Budgeted(cfg, r)
    ensures Sound(acc) && Units(pieces) ==> Sound(r)
  {
    var last := pieces[|pieces| - 1];
    OversizedItems(acc, pieces);
    OversizedBudget(cfg, acc, pieces);
    OversizedSound(acc, pieces);
    Acc(Flushed(acc) + Singles(pieces[..|pieces| - 1]), [last], cfg.count(last))
  }

  lemma OversizedItems(acc: Acc, pieces: seq<string>)
    requires pieces != []
    ensures Flatten(Flushed(acc) + Singles(pieces[..|pieces| - 1])) + [pieces[|pieces| - 1]] == Items(acc) + pieces
  {
    var last := pieces[|pieces| - 1];
    FlattenAppend(Flushed(acc), Singles(pieces[..|pieces| - 1]));
    FlushedItems(acc);
    FlattenSingles(pieces[..|pieces| - 1]);
    assert pieces == pieces[..|pieces| - 1] + [last];
  }

  lemma OversizedBudget(cfg: Config, acc: Acc, pieces: seq<string>)
    requires pieces != []
    ensures Budgeted(cfg, acc) ==> AllFit(cfg, Flushed(acc) + Singles(pieces[..|pieces| - 1]))
  {
    SinglesFit(cfg, pieces[..|pieces| - 1]);
    if Budgeted(cfg, acc) {
      assert AllFit(cfg, Flushed(acc));
      AllFitAppend(cfg, Flushed(acc), Singles(pieces[..|pieces| - 1]));
    }
  }

  lemma OversizedSound(acc: Acc, pieces: seq<string>)
    requires pieces != []
    ensures Sound(acc) && Units(pieces) ==>
      UnitGroups(Flushed(acc) + Singles(pieces[..|pieces| - 1])) && Units([pieces[|pieces| - 1]])
  {
    if Sound(acc) && Units(pieces) {
      assert UnitGroups(Flushed(acc));
      UnitsSlice(pieces, 0, |pieces| - 1);
      SinglesUnits(pieces[..|pieces| - 1]);
      UnitGroupsAppend(Flushed(acc), Singles(pieces[..|pieces| - 1]));
    }
  }

  /** The step shared by both loops for a unit within the budget: the
      current group is closed only when it is non-empty and the unit would
      take the running count past `maxTokens`; the next group is seeded with
      `seed` before the unit is appended. */
  function Admit(cfg: Config, acc: Acc, x: string, seed: seq<string>): (r: Acc)
    ensures r.current != [] && r.current[|r.current| - 1] == x
    ensures |r.groups| > |acc.groups| <==>
              acc.current != [] && acc.tokens + cfg.count(x) > cfg.maxTokens
    ensures |r.groups| > |acc.groups| ==>
              r.groups == acc.groups + [acc.current] && r.current == seed + [x]
    ensures |r.groups| == |acc.groups| ==>
              r.groups == acc.groups && r.current == acc.current + [x]
    ensures acc.tokens == SumTokens(cfg, acc.current) ==> r.tokens == SumTokens(cfg, r.current)
    ensures seed == [] ==> Items(r) == Items(acc) + [x]
    ensures seed == [] && Budgeted(cfg, acc) ==> Budgeted(cfg, r)
    ensures Sound(acc) && Units(seed) && x != "" && IsStripped(x) ==> Sound(r)
  {
    if acc.tokens + cfg.count(x) > cfg.maxTokens && acc.current != [] then
      AdmitClosing(cfg, acc, x, seed);
      Acc(acc.groups + [acc.current], seed + [x], SumTokens(cfg, seed) + cfg.count(x))
    else
      AdmitJoining(cfg, acc, x);
      Acc(acc.groups, acc.current + [x], acc.tokens + cfg.count(x))
  }

  /** The unit opens a new group after the seed; the current one is closed. */
  lemma AdmitClosing(cfg: Config, acc: Acc, x: string, seed: seq<string>)
    requires acc.tokens + cfg.count(x) > cfg.maxTokens && acc.current != []
    ensures var r := Acc(acc.groups + [acc.current], seed + [x], SumTokens(cfg, seed) + cfg.count(x));
      && r.tokens == SumTokens(cfg, r.current)
      && (seed == [] ==> Items(r) == Items(acc) + [x])
      && (seed == [] && Budgeted(cfg, acc) ==> Budgeted(cfg, r))
      && (Sound(acc) && Units(seed) && x != "" && IsStripped(x) ==> Sound(r))
  {
    var r := Acc(acc.groups + [acc.current], seed + [x], SumTokens(cfg, seed) + cfg.count(x));
    UnitsAppend(seed, [x]);
    SumTokensSnoc(cfg, seed, x);
    FlattenAppend(acc.groups, [acc.current]);
    FlattenSingle(acc.current);
    assert seed == [] ==> seed + [x] == [x];
    assert Budgeted(cfg, acc) ==> AllFit(cfg, r.groups) by {
      if Budgeted(cfg, acc) {
        AllFitAppend(cfg, acc.groups, [acc.current]);
      }
    }
    assert Sound(acc) ==> UnitGroups(r.groups) by {
      if Sound(acc) {
        UnitGroupsAppend(acc.groups, [acc.current]);
      }
    }
  }

  /** The unit joins the current group. */
  lemma AdmitJoining(cfg: Config, acc: Acc, x: string)
    requires !(acc.tokens + cfg.count(x) > cfg.maxTokens && acc.current != [])
    ensures var r := Acc(acc.groups, acc.current + [x], acc.tokens + cfg.count(x));
      && (acc.tokens == SumTokens(cfg, acc.current) ==> r.tokens == SumTokens(cfg, r.current))
      && Items(r) == Items(acc) + [x]
      && (Budgeted(cfg, acc) ==> Budgeted(cfg, r))
      && (Sound(acc) && x != "" && IsStripped(x) ==> Sound(r))
  {
    var r := Acc(acc.groups, acc.current + [x], acc.tokens + cfg.count(x));
    UnitsAppend(acc.current, [x]);
    SumTokensSnoc(cfg, acc.current, x);
    assert Items(r) == Flatten(acc.groups) + (acc.current + [x]);
  }

  /** One iteration of `_split_large_paragraph`'s loop over sentences. */
  function LargeStep(cfg: Config, acc: Acc, sentence: string): (r: Acc)
    requires cfg.maxTokens >= 1 && sentence != ""
    ensures r.current != []
    ensures NonSpace(Concat(Items(r))) == NonSpace(Concat(Items(acc)) + sentence)
    ensures acc.tokens == SumTokens(cfg, acc.current) ==> r.tokens == SumTokens(cfg, r.current)
    ensures Budgeted(cfg, acc) ==> Budgeted(cfg, r)
    ensures Sound(acc) && IsStripped(sentence) ==> Sound(r)
  {
    if cfg.count(sentence) > cfg.maxTokens then
      LargeOversized(cfg, acc, sentence);
      Oversized(cfg, acc, SplitByChars(sentence, 3 * cfg.maxTokens))
    else
      LargeAdmitted(cfg, acc, sentence);
      Admit(cfg, acc, sentence, [])
  }

  /** What one step of the sentence loop keeps. */
  predicate LargeStepKeeps(cfg: Config, acc: Acc, sentence: string, r: Acc) {
    && r.current != []
    && NonSpace(Concat(Items(r))) == NonSpace(Concat(Items(acc)) + sentence)
    && (acc.tokens == SumTokens(cfg, acc.current) ==> r.tokens == SumTokens(cfg, r.current))
    && (Budgeted(cfg, acc) ==> Budgeted(cfg, r))
    && (Sound(acc) && IsStripped(sentence) ==> Sound(r))
  }

  lemma LargeOversized(cfg: Config, acc: Acc, sentence: string)
    requires cfg.maxTokens >= 1 && sentence != ""
    ensures LargeStepKeeps(cfg, acc, sentence, Oversized(cfg, acc, SplitByChars(sentence, 3 * cfg.maxTokens)))
  {
    var pieces := SplitByChars(sentence, 3 * cfg.maxTokens);
    OversizedContent(acc, sentence, pieces, Oversized(cfg, acc, pieces));
  }

  lemma LargeAdmitted(cfg: Config, acc: Acc, sentence: string)
    requires sentence != ""
    ensures LargeStepKeeps(cfg, acc, sentence, Admit(cfg, acc, sentence, []))
  {
    ConcatSnoc(Items(acc), sentence);
  }

  /** Pieces that keep a unit's content keep it in the accumulator too. */
  lemma OversizedContent(acc: Acc, x: string, pieces: seq<string>, r: Acc)
    requires NonSpace(Concat(pieces)) == NonSpace(x) && Items(r) == Items(acc) + pieces
    ensures NonSpace(Concat(Items(r))) == NonSpace(Concat(Items(acc)) + x)
  {
    ConcatAppend(Items(acc), pieces);
    NonSpaceAppend(Concat(Items(acc)), Concat(pieces));
    NonSpaceAppend(Concat(Items(acc)), x);
  }

  function LargeFold(cfg: Config, acc: Acc, sentences: seq<string>): (r: Acc)
    requires cfg.maxTokens >= 1 && Units(sentences)
    decreases |sentences|
  {
    if sentences == [] then acc
    else LargeFold(cfg, LargeStep(cfg, acc, sentences[0]), sentences[1..])
  }

  /** `_split_large_paragraph`: a paragraph of at most one sentence is sliced
      by characters; otherwise sentences are grouped under the budget and
      each group joined by a space. */
  function LargeGroups(cfg: Config, paragraph: string): (gs: seq<seq<string>>)
    requires cfg.maxTokens >= 1
  {
    var sentences := SplitSentences(paragraph);
    if |sentences| <= 1 then Singles(SplitByChars(paragraph, 3 * cfg.maxTokens))
    else Flushed(LargeFold(cfg, Acc([], [], 0), sentences))
  }

  function SplitLargeParagraph(cfg: Config, paragraph: string): (r: seq<string>)
    requires cfg.maxTokens >= 1
  {
    Texts(" ", LargeGroups(cfg, paragraph))
  }

  /** A paragraph of at most one sentence is sliced by characters. */
  lemma OneSentenceIsCharSplit(cfg: Config, paragraph: string)
    requires cfg.maxTokens >= 1 && |SplitSentences(paragraph)| <= 1
    ensures SplitLargeParagraph(cfg, paragraph) == SplitByChars(paragraph, 3 * cfg.maxTokens)
  {
    var pieces := SplitByChars(paragraph, 3 * cfg.maxTokens);
    forall i | 0 <= i < |pieces| ensures Texts(" ", Singles(pieces))[i] == pieces[i] {
      assert Singles(pieces)[i] == [pieces[i]];
    }
  }

  /** One step of `LargeFold` on a non-empty list. */
  lemma LargeFoldCons(cfg: Config, acc: Acc, sentences: seq<string>)
    requires cfg.maxTokens >= 1 && Units(sentences) && sentences != []
    ensures Units(sentences[1..])
    ensures LargeFold(cfg, acc, sentences) == LargeFold(cfg, LargeStep(cfg, acc, sentences[0]), sentences[1..])
  {
    UnitsSlice(sentences, 1, |sentences|);
  }

  lemma {:induction false} LargeFoldContent(cfg: Config, acc: Acc, sentences: seq<string>)
    requires cfg.maxTokens >= 1 && Units(sentences)
    ensures NonSpace(Concat(Items(LargeFold(cfg, acc, sentences))))
              == NonSpace(Concat(Items(acc))) + NonSpace(Concat(sentences))
    decreases |sentences|
  {
    if sentences == [] {
      assert NonSpace(Concat(sentences)) == "";
    } else {
      var s0, rest := sentences[0], sentences[1..];
      var next := LargeStep(cfg, acc, s0);
      LargeFoldCons(cfg, acc, sentences);
      var held, heldNext, tail := Concat(Items(acc)), Concat(Items(next)), Concat(rest);
      var heldAll := Concat(Items(LargeFold(cfg, next, rest)));
      assert NonSpace(heldAll) == NonSpace(heldNext) + NonSpace(tail) by {
        LargeFoldContent(cfg, next, rest);
      }
      assert Concat(sentences) == s0 + tail;
      ContentStep(held, s0, s0, tail, heldNext, heldAll);
    }
  }

  lemma {:induction false} LargeFoldKeeps(cfg: Config, acc: Acc, sentences: seq<string>)
    requires cfg.maxTokens >= 1 && Units(sentences)
    ensures sentences != [] ==> LargeFold(cfg, acc, sentences).current != []
    ensures Budgeted(cfg, acc) ==> Budgeted(cfg, LargeFold(cfg, acc, sentences))
    ensures Sound(acc) ==> Sound(LargeFold(cfg, acc, sentences))
    decreases |sentences|
  {
    if sentences != [] {
      var next := LargeStep(cfg, acc, sentences[0]);
      UnitsSlice(sentences, 1, |sentences|);
      LargeFoldKeeps(cfg, next, sentences[1..]);
      assert LargeFold(cfg, acc, sentences) == LargeFold(cfg, next, sentences[1..]);
    }
  }

  lemma {:induction false} TextsContent(sep: string, gs: seq<seq<string>>)
    requires AllSpace(sep)
    ensures NonSpace(Concat(Texts(sep, gs))) == NonSpace(Concat(Flatten(gs)))
  {
    if gs != [] {
      TextsContent(sep, gs[1..]);
      assert Texts(sep, gs) == [Join(sep, gs[0])] + Texts(sep, gs[1..]);
      ConcatCons(Join(sep, gs[0]), Texts(sep, gs[1..]));
      NonSpaceAppend(Join(sep, gs[0]), Concat(Texts(sep, gs[1..])));
      NonSpaceJoin(sep, gs[0]);
      ConcatAppend(gs[0], Flatten(gs[1..]));
      NonSpaceAppend(Concat(gs[0]), Concat(Flatten(gs[1..])));
    }
  }

  lemma TextsUnits(sep: string, gs: seq<seq<string>>)
    requires UnitGroups(gs)
    ensures Units(Texts(sep, gs))
  {
    forall i | 0 <= i < |gs| ensures Join(sep, gs[i]) != "" && IsStripped(Join(sep, gs[i])) {
      JoinStripped(sep, gs[i]);
    }
  }

  lemma SinglesUnits(xs: seq<string>)
    requires Units(xs)
    ensures UnitGroups(Singles(xs))
  {
    forall i | 0 <= i < |xs| ensures Units(Singles(xs)[i]) {
      assert Singles(xs)[i] == [xs[i]];
    }
  }

  lemma FlushedFits(cfg: Config, acc: Acc)
    requires Budgeted(cfg, acc)
    ensures AllFit(cfg, Flushed(acc))
  {
    if acc.current != [] {
      AllFitAppend(cfg, acc.groups, [acc.current]);
    }
  }

  lemma FlushedUnits(acc: Acc)
    requires Sound(acc)
    ensures UnitGroups(Flushed(acc))
  {
    if acc.current != [] {
      UnitGroupsAppend(acc.groups, [acc.current]);
    }
  }

  /** The groups of a large paragraph hold its content; sentence groups are
      within budget; a non-empty paragraph yields at least one piece, and a
      stripped one yields only non-empty stripped pieces. */
  lemma LargeGroupsFacts(cfg: Config, paragraph: string)
    requires cfg.maxTokens >= 1
    ensures NonSpace(Concat(Flatten(LargeGroups(cfg, paragraph)))) == NonSpace(paragraph)
    ensures paragraph != "" ==> LargeGroups(cfg, paragraph) != []
    ensures AllFit(cfg, LargeGroups(cfg, paragraph))
    ensures IsStripped(paragraph) ==> UnitGroups(LargeGroups(cfg, paragraph))
  {
    var sentences := SplitSentences(paragraph);
    if |sentences| <= 1 {
      CharGroupsFacts(cfg, paragraph);
    } else {
      SentenceGroupsFacts(cfg, sentences);
      assert LargeGroups(cfg, paragraph) == Flushed(LargeFold(cfg, Acc([], [], 0), sentences));
    }
  }

  lemma CharGroupsFacts(cfg: Config, paragraph: string)
    requires cfg.maxTokens >= 1
    ensures var gs := Singles(SplitByChars(paragraph, 3 * cfg.maxTokens));
      && NonSpace(Concat(Flatten(gs))) == NonSpace(paragraph)
      && (paragraph != "" ==> gs != [])
      && AllFit(cfg, gs)
      && (IsStripped(paragraph) ==> UnitGroups(gs))
  {
    var pieces := SplitByChars(paragraph, 3 * cfg.maxTokens);
    FlattenSingles(pieces);
    if IsStripped(paragraph) {
      SinglesUnits(pieces);
    }
  }

  lemma SentenceGroupsFacts(cfg: Config, sentences: seq<string>)
    requires cfg.maxTokens >= 1 && Units(sentences) && sentences != []
    ensures var gs := Flushed(LargeFold(cfg, Acc([], [], 0), sentences));
      && NonSpace(Concat(Flatten(gs))) == NonSpace(Concat(sentences))
      && gs != []
      && AllFit(cfg, gs)
      && UnitGroups(gs)
  {
    var start := Acc([], [], 0);
    var final := LargeFold(cfg, start, sentences);
    assert Items(start) == [];
    assert Budgeted(cfg, start) && Sound(start);
    LargeFoldContent(cfg, start, sentences);
    LargeFoldKeeps(cfg, start, sentences);
    FlushedItems(final);
    FlushedFits(cfg, final);
    FlushedUnits(final);
  }

  /** `_split_large_paragraph`'s pieces hold the paragraph's content; at
      least one for a non-empty paragraph; each non-empty and stripped when
      the paragraph is. */
  lemma SplitLargeParagraphFacts(cfg: Config, paragraph: string)
    requires cfg.maxTokens >= 1
    ensures NonSpace(Concat(SplitLargeParagraph(cfg, paragraph))) == NonSpace(paragraph)
    ensures paragraph != "" ==> SplitLargeParagraph(cfg, paragraph) != []
    ensures IsStripped(paragraph) ==> Units(SplitLargeParagraph(cfg, paragraph))
  {
    var gs := LargeGroups(cfg, paragraph);
    LargeGroupsFacts(cfg, paragraph);
    TextsContent(" ", gs);
    if IsStripped(paragraph) {
      TextsUnits(" ", gs);
    }
  }

  // ---------------------------------------------------------------------
  // `split_by_semantic`: paragraphs grouped under the budget, joined by a
  // blank line; an oversized paragraph is split further.

  /** One iteration of `split_by_semantic`'s loop over paragraphs. */
  function SemanticStep(cfg: Config, acc: Acc, paragraph: string): (r: Acc)
    requires cfg.maxTokens >= 1 && paragraph != ""
    ensures r.current != []
    ensures acc.tokens == SumTokens(cfg, acc.current) ==> r.tokens == SumTokens(cfg, r.current)
    ensures Sound(acc) && IsStripped(paragraph) ==> Sound(r)
  {
    SplitLargeParagraphFacts(cfg, paragraph);
    if cfg.count(paragraph) > cfg.maxTokens then
      Oversized(cfg, acc, SplitLargeParagraph(cfg, paragraph))
    else
      Admit(cfg, acc, paragraph, OverlapSentences(cfg, acc.current))
  }

  /** Without overlap, a step adds exactly the paragraph's content. */
  lemma SemanticStepContent(cfg: Config, acc: Acc, paragraph: string)
    requires cfg.maxTokens >= 1 && paragraph != "" && cfg.overlap <= 0
    ensures NonSpace(Concat(Items(SemanticStep(cfg, acc, paragraph))))
              == NonSpace(Concat(Items(acc)) + paragraph)
  {
    if cfg.count(paragraph) > cfg.maxTokens {
      var pieces := SplitLargeParagraph(cfg, paragraph);
      SplitLargeParagraphFacts(cfg, paragraph);
      ConcatAppend(Items(acc), pieces);
      NonSpaceAppend(Concat(Items(acc)), Concat(pieces));
      NonSpaceAppend(Concat(Items(acc)), paragraph);
    } else {
      assert OverlapSentences(cfg, acc.current) == [];
      ConcatSnoc(Items(acc), paragraph);
    }
  }

  /** Without overlap, a step keeps every group within budget. */
  lemma SemanticStepBudget(cfg: Config, acc: Acc, paragraph: string)
    requires cfg.maxTokens >= 1 && paragraph != "" && cfg.overlap <= 0
    requires Budgeted(cfg, acc)
    ensures Budgeted(cfg, SemanticStep(cfg, acc, paragraph))
  {
    if cfg.count(paragraph) <= cfg.maxTokens {
      assert OverlapSentences(cfg, acc.current) == [];
    }
  }

  /** Closing a group: only when the current group is non-empty and the
      paragraph would take the running count past the budget; the closed
      group is the current one and the next is seeded with the overlap. */
  lemma SemanticStepCloses(cfg: Config, acc: Acc, paragraph: string)
    requires cfg.maxTokens >= 1 && paragraph != "" && cfg.count(paragraph) <= cfg.maxTokens
    ensures var r := SemanticStep(cfg, acc, paragraph);
      && (|r.groups| > |acc.groups| <==> acc.current != [] && acc.tokens + cfg.count(paragraph) > cfg.maxTokens)
      && (|r.groups| > |acc.groups| ==>
            r.groups == acc.groups + [acc.current]
            && r.current == OverlapSentences(cfg, acc.current) + [paragraph])
      && (|r.groups| == |acc.groups| ==> r.current == acc.current + [paragraph])
  {
  }

  function SemanticFold(cfg: Config, acc: Acc, paragraphs: seq<string>): (r: Acc)
    requires cfg.maxTokens >= 1 && Units(paragraphs)
    decreases |paragraphs|
  {
    if paragraphs == [] then acc
    else SemanticFold(cfg, SemanticStep(cfg, acc, paragraphs[0]), paragraphs[1..])
  }

  lemma {:induction false} SemanticFoldKeeps(cfg: Config, acc: Acc, paragraphs: seq<string>)
    requires cfg.maxTokens >= 1 && Units(paragraphs)
    ensures paragraphs != [] ==> SemanticFold(cfg, acc, paragraphs).current != []
    ensures acc.tokens == SumTokens(cfg, acc.current) ==>
              SemanticFold(cfg, acc, paragraphs).tokens == SumTokens(cfg, SemanticFold(cfg, acc, paragraphs).current)
    ensures Sound(acc) ==> Sound(SemanticFold(cfg, acc, paragraphs))
    decreases |paragraphs|
  {
    if paragraphs != [] {
      var next := SemanticStep(cfg, acc, paragraphs[0]);
      UnitsSlice(paragraphs, 1, |paragraphs|);
      SemanticFoldKeeps(cfg, next, paragraphs[1..]);
      assert SemanticFold(cfg, acc, paragraphs) == SemanticFold(cfg, next, paragraphs[1..]);
    }
  }

  /** One step of `SemanticFold` on a non-empty list. */
  lemma SemanticFoldCons(cfg: Config, acc: Acc, paragraphs: seq<string>)
    requires cfg.maxTokens >= 1 && Units(paragraphs) && paragraphs != []
    ensures Units(paragraphs[1..])
    ensures SemanticFold(cfg, acc, paragraphs)
              == SemanticFold(cfg, SemanticStep(cfg, acc, paragraphs[0]), paragraphs[1..])
  {
    UnitsSlice(paragraphs, 1, |paragraphs|);
  }

  lemma {:induction false} SemanticFoldContent(cfg: Config, acc: Acc, paragraphs: seq<string>)
    requires cfg.maxTokens >= 1 && Units(paragraphs) && cfg.overlap <= 0
    ensures NonSpace(Concat(Items(SemanticFold(cfg, acc, paragraphs))))
              == NonSpace(Concat(Items(acc))) + NonSpace(Concat(paragraphs))
    decreases |paragraphs|
  {
    if paragraphs == [] {
      assert NonSpace(Concat(paragraphs)) == "";
    } else {
      var p0, rest := paragraphs[0], paragraphs[1..];
      var next := SemanticStep(cfg, acc, p0);
      SemanticFoldCons(cfg, acc, paragraphs);
      var held, heldNext, tail := Concat(Items(acc)), Concat(Items(next)), Concat(rest);
      var heldAll := Concat(Items(SemanticFold(cfg, next, rest)));
      assert NonSpace(heldAll) == NonSpace(heldNext) + NonSpace(tail) by {
        SemanticFoldContent(cfg, next, rest);
      }
      assert NonSpace(heldNext) == NonSpace(held + p0) by {
        SemanticStepContent(cfg, acc, p0);
      }
      assert Concat(paragraphs) == p0 + tail;
      ContentStep(held, p0, p0, tail, heldNext, heldAll);
    }
  }

  lemma {:induction false} SemanticFoldBudget(cfg: Config, acc: Acc, paragraphs: seq<string>)
    requires cfg.maxTokens >= 1 && Units(paragraphs) && cfg.overlap <= 0
    requires Budgeted(cfg, acc)
    ensures Budgeted(cfg, SemanticFold(cfg, acc, paragraphs))
    decreases |paragraphs|
  {
    if paragraphs != [] {
      var next := SemanticStep(cfg, acc, paragraphs[0]);
      SemanticStepBudget(cfg, acc, paragraphs[0]);
      SemanticFoldCons(cfg, acc, paragraphs);
      SemanticFoldBudget(cfg, next, paragraphs[1..]);
    }
  }

  /** The groups `split_by_semantic` joins, for a text that needs chunking. */
  function SemanticGroups(cfg: Config, text: string): seq<seq<string>>
    requires cfg.maxTokens >= 1
  {
    Flushed(SemanticFold(cfg, Acc([], [], 0), SplitParagraphs(text)))
  }

  /** `split_by_semantic`. A text within the budget is returned whole. */
  function SplitBySemantic(cfg: Config, text: string): (r: seq<string>)
    requires cfg.maxTokens >= 1
    ensures !NeedsChunking(cfg, text) ==> r == [text]
  {
    if !NeedsChunking(cfg, text) then [text]
    else Texts("\n\n", SemanticGroups(cfg, text))
  }

  lemma UnitsContent(xs: seq<string>)
    requires Units(xs)
    ensures xs == [] <==> NonSpace(Concat(xs)) == ""
  {
    if xs != [] {
      assert Concat(xs) == xs[0] + Concat(xs[1..]);
      NonSpaceAppend(xs[0], Concat(xs[1..]));
      NonSpaceEmptyIffAllSpace(xs[0]);
      assert !IsSpace(xs[0][0]);
    }
  }

  /** A text that needs chunking becomes non-empty stripped chunks, and
      none at all exactly when it is only whitespace. */
  lemma SplitBySemanticUnits(cfg: Config, text: string)
    requires cfg.maxTokens >= 1 && NeedsChunking(cfg, text)
    ensures Units(SplitBySemantic(cfg, text))
    ensures SplitBySemantic(cfg, text) == [] <==> AllSpace(text)
  {
    var paragraphs := SplitParagraphs(text);
    var start := Acc([], [], 0);
    var final := SemanticFold(cfg, start, paragraphs);
    SemanticFoldKeeps(cfg, start, paragraphs);
    assert Sound(start);
    FlushedUnits(final);
    TextsUnits("\n\n", Flushed(final));
    UnitsContent(paragraphs);
    NonSpaceEmptyIffAllSpace(text);
    if paragraphs == [] {
      assert final == start;
    }
  }

  /** With overlap disabled, the chunks hold exactly the text's
      non-whitespace characters in order, and every chunk joining several
      paragraphs has paragraph token counts summing to at most
      `maxTokens`. */
  lemma SplitBySemanticNoOverlap(cfg: Config, text: string)
    requires cfg.maxTokens >= 1 && cfg.overlap <= 0
    ensures NonSpace(Concat(SplitBySemantic(cfg, text))) == NonSpace(text)
    ensures NeedsChunking(cfg, text) ==> AllFit(cfg, SemanticGroups(cfg, text))
  {
    if NeedsChunking(cfg, text) {
      SemanticGroupsFacts(cfg, text);
      SemanticChunksContent(cfg, text);
    } else {
      ConcatSingle(text);
    }
  }

  lemma SemanticChunksContent(cfg: Config, text: string)
    requires cfg.maxTokens >= 1 && cfg.overlap <= 0
    ensures NonSpace(Concat(Texts("\n\n", SemanticGroups(cfg, text)))) == NonSpace(text)
  {
    var gs := SemanticGroups(cfg, text);
    SemanticGroupsFacts(cfg, text);
    BlankLineSpace();
    TextsContent("\n\n", gs);
  }

  lemma BlankLineSpace()
    ensures AllSpace("\n\n")
  {
    assert "\n\n"[0] == '\n' && "\n\n"[1] == '\n';
  }

  /** Without overlap the groups hold the text's content and fit the budget. */
  lemma SemanticGroupsFacts(cfg: Config, text: string)
    requires cfg.maxTokens >= 1 && cfg.overlap <= 0
    ensures NonSpace(Concat(Flatten(SemanticGroups(cfg, text)))) == NonSpace(text)
    ensures AllFit(cfg, SemanticGroups(cfg, text))
  {
    var paragraphs := SplitParagraphs(text);
    var start := Acc([], [], 0);
    var final := SemanticFold(cfg, start, paragraphs);
    assert Items(start) == [] && Budgeted(cfg, start);
    assert NonSpace(Concat(Items(final))) == NonSpace(Concat(paragraphs)) by {
      SemanticFoldContent(cfg, start, paragraphs);
    }
    assert AllFit(cfg, Flushed(final)) by {
      SemanticFoldBudget(cfg, start, paragraphs);
      FlushedFits(cfg, final);
    }
    FlushedItems(final);
  }

  /** `split_to_chunk_objects`. */
  datatype Chunk = Chunk(text: string, index: nat, tokenCount: nat)

  function SplitToChunkObjects(cfg: Config, text: string): (r: seq<Chunk>)
    requires cfg.maxTokens >= 1
    ensures |r| == |SplitBySemantic(cfg, text)|
    ensures forall i :: 0 <= i < |r| ==>
              r[i].text == SplitBySemantic(cfg, text)[i] && r[i].index == i
              && r[i].tokenCount == cfg.count(r[i].text)
  {
    var texts := SplitBySemantic(cfg, text);
    seq(|texts|, i requires 0 <= i < |texts| => Chunk(texts[i], i, cfg.count(texts[i])))
  }
}
