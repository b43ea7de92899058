/**
 * The text shaping done before a page is created in Notion: splitting long
 * text into pieces that fit one block, reading the interleaved
 * quote/translation markdown back into paragraph pairs, and laying the
 * pairs out as blocks. The Notion API call itself is not modelled; a block
 * is reduced to its kind and its text.
 */
module NotionText {
  import opened Opt
  import opened Text
  import Chunking

  /** Notion's limit on the text of one block. */
  const MaxBlockTextLength: nat := 2000

  /** A cut must fall strictly after this position (`split_point // 2`). */
  const Half: nat := MaxBlockTextLength / 2

  /** Sentence separators, in the order they are tried. */
  const Separators: seq<string> := [". ", "。", "! ", "！", "? ", "？", "\n"]

  lemma SeparatorsNonEmpty()
    ensures forall k :: 0 <= k < |Separators| ==> Separators[k] != ""
  {
  }

  // ---------------------------------------------------------------------
  // `_split_text`.

  /** Some separator from the `k`-th on occurs in `w` past the middle. */
  predicate SeparatorPast(w: string, k: nat) {
    exists i, j :: k <= i < |Separators| && Half < j < |w| && OccursAt(w, Separators[i], j)
  }

  /** Some space occurs in `w` past the middle. */
  predicate SpacePast(w: string) {
    exists j :: Half < j < |w| && OccursAt(w, " ", j)
  }

  predicate EndsWithSeparator(x: string) {
    exists i :: 0 <= i < |Separators| && EndsWith(x, Separators[i])
  }

  /** `j` is the last occurrence of `sep` in `w`, and it lies past the middle. */
  predicate LastPast(w: string, sep: string, j: int) {
    && Half < j && OccursAt(w, sep, j)
    && forall m :: j < m < |w| ==> !OccursAt(w, sep, m)
  }

  /** `sep` does not occur in `w` past the middle. */
  predicate NonePast(w: string, sep: string) {
    forall m :: Half < m < |w| ==> !OccursAt(w, sep, m)
  }

  /** `c` is just after the last occurrence of the first separator, in list
      order from `k`, that occurs past the middle at all. */
  predicate PreferredCut(w: string, k: nat, c: int) {
    exists i, j :: k <= i < |Separators| && LastPast(w, Separators[i], j) && c == j + |Separators[i]|
      && forall i' :: k <= i' < i ==> NonePast(w, Separators[i'])
  }

  /** The first separator, in list order from `k`, whose last occurrence in
      `w` lies past `Half`; the cut goes just after that occurrence. */
  function SeparatorCut(w: string, k: nat): (c: Option<nat>)
    requires k <= |Separators|
    ensures c.Some? ==> Half < c.value <= |w| && EndsWithSeparator(w[..c.value])
    ensures c.Some? ==> PreferredCut(w, k, c.value)
    ensures c.None? <==> !SeparatorPast(w, k)
    decreases |Separators| - k
  {
    if k == |Separators| then None
    else
      SeparatorsNonEmpty();
      var sep := Separators[k];
      var p := RFind(w, sep);
      if p > Half as int then
        assert w[..p + |sep|][p..] == sep;
        assert SeparatorPast(w, k) by {
          assert OccursAt(w, Separators[k], p);
        }
        assert LastPast(w, Separators[k], p) by {
          forall m | p < m < |w| ensures !OccursAt(w, sep, m) {
            if m > |w| - |sep| {
              assert !OccursAt(w, sep, m);
            }
          }
        }
        Some(p + |sep|)
      else
        var c := SeparatorCut(w, k + 1);
        assert NonePast(w, sep) by {
          forall m | Half < m < |w| ensures !OccursAt(w, sep, m) {
            if m > |w| - |sep| {
              assert !OccursAt(w, sep, m);
            }
          }
        }
        assert SeparatorPast(w, k) ==> SeparatorPast(w, k + 1) by {
          if SeparatorPast(w, k) {
            var i, j :| k <= i < |Separators| && Half < j < |w| && OccursAt(w, Separators[i], j);
            if i == k {
              assert false;
            }
          }
        }
        assert c.Some? ==> PreferredCut(w, k, c.value) by {
          if c.Some? {
            PreferredCutExtends(w, k, c.value);
          }
        }
        c
  }

  /** A separator that does not occur past the middle may be skipped. */
  lemma PreferredCutExtends(w: string, k: nat, c: int)
    requires k < |Separators| && NonePast(w, Separators[k]) && PreferredCut(w, k + 1, c)
    ensures PreferredCut(w, k, c)
  {
    var i, j :| k + 1 <= i < |Separators| && LastPast(w, Separators[i], j) && c == j + |Separators[i]|
      && forall i' :: k + 1 <= i' < i ==> NonePast(w, Separators[i']);
    assert forall i' :: k <= i' < i ==> NonePast(w, Separators[i']);
  }

  /** Where the next piece ends in a window of `MaxBlockTextLength`
      characters: after the preferred sentence separator if one lies past
      the middle, else just after the last space if it lies past the middle,
      else at the window's end. */
  function SplitPoint(remaining: string): (sp: nat)
    requires |remaining| > MaxBlockTextLength
    ensures Half < sp <= MaxBlockTextLength
    ensures var w := remaining[..MaxBlockTextLength];
      && (SeparatorPast(w, 0) ==> EndsWithSeparator(w[..sp]) && PreferredCut(w, 0, sp))
      && (!SeparatorPast(w, 0) && SpacePast(w) ==> EndsWith(w[..sp], " ") && LastPast(w, " ", sp - 1))
      && (!SeparatorPast(w, 0) && !SpacePast(w) ==> sp == MaxBlockTextLength)
  {
    var w := remaining[..MaxBlockTextLength];
    match SeparatorCut(w, 0)
    case Some(c) => c
    case None =>
      var p := RFind(w, " ");
      if p > Half as int then
        assert w[..p + 1][p..] == " ";
        assert LastPast(w, " ", p);
        p + 1
      else
        assert !SpacePast(w);
        MaxBlockTextLength
  }

  /** Every piece fits in one block. */
  predicate AllFit(pieces: seq<string>) {
    forall i :: 0 <= i < |pieces| ==> |pieces[i]| <= MaxBlockTextLength
  }

  datatype Cut = Cut(head: string, next: string)

  /** One cut of the loop: the piece up to the split point and the rest,
      each stripped. */
  function CutAt(remaining: string): (c: Cut)
    requires |remaining| > MaxBlockTextLength
    ensures |c.head| <= MaxBlockTextLength && |c.next| < |remaining|
    ensures NonSpace(c.head) + NonSpace(c.next) == NonSpace(remaining)
    ensures IsStripped(c.head) && IsStripped(c.next)
    ensures IsStripped(remaining) ==> c.head != ""
  {
    var sp := SplitPoint(remaining);
    assert remaining == remaining[..sp] + remaining[sp..];
    NonSpaceAppend(remaining[..sp], remaining[sp..]);
    StrippedHead(remaining, sp);
    Cut(Strip(remaining[..sp]), Strip(remaining[sp..]))
  }

  /** The `while remaining` loop: cut, strip both sides, go on with the rest. */
  function SplitRemaining(remaining: string): (r: seq<string>)
    ensures AllFit(r)
    ensures NonSpace(Concat(r)) == NonSpace(remaining)
    decreases |remaining|
  {
    if remaining == "" then []
    else if |remaining| <= MaxBlockTextLength then
      ConcatSingle(remaining);
      [remaining]
    else
      var c := CutAt(remaining);
      var rest := SplitRemaining(c.next);
      ConcatCons(c.head, rest);
      NonSpaceAppend(c.head, Concat(rest));
      [c.head] + rest
  }

  /** A stripped non-empty text keeps a non-empty first piece. */
  lemma StrippedHead(s: string, k: nat)
    requires 0 < k <= |s|
    ensures IsStripped(s) ==> Strip(s[..k]) != ""
  {
    assert s[..k][0] == s[0];
  }

  /** `_split_text`: a text that fits is returned whole (even when empty);
      a longer one is cut into pieces that each fit, losing only
      whitespace at the cuts. */
  function SplitText(text: string): (r: seq<string>)
    ensures |text| <= MaxBlockTextLength ==> r == [text]
    ensures AllFit(r)
    ensures NonSpace(Concat(r)) == NonSpace(text)
    ensures r != []
  {
    if |text| <= MaxBlockTextLength then
      ConcatSingle(text);
      [text]
    else
      SplitRemaining(text)
  }

  predicate AllStripped(pieces: seq<string>) {
    forall i :: 0 <= i < |pieces| ==> IsStripped(pieces[i])
  }

  predicate NonEmptyFrom(pieces: seq<string>, k: nat) {
    forall i :: k <= i < |pieces| ==> pieces[i] != ""
  }

  lemma PiecesCons(head: string, rest: seq<string>)
    requires IsStripped(head) && AllStripped(rest) && NonEmptyFrom(rest, 0)
    ensures AllStripped([head] + rest) && NonEmptyFrom([head] + rest, 1)
    ensures head != "" ==> NonEmptyFrom([head] + rest, 0)
  {
    var all := [head] + rest;
    forall i | 1 <= i < |all| ensures IsStripped(all[i]) && all[i] != "" {
      assert all[i] == rest[i - 1];
    }
  }

  /** Once the rest is stripped every later piece is stripped and non-empty;
      a long text's first piece is stripped too. */
  lemma {:induction false} RemainingPieces(remaining: string)
    ensures var r := SplitRemaining(remaining);
      && (IsStripped(remaining) ==> AllStripped(r) && NonEmptyFrom(r, 0))
      && (|remaining| > MaxBlockTextLength ==> AllStripped(r) && NonEmptyFrom(r, 1))
    decreases |remaining|
  {
    if |remaining| > MaxBlockTextLength {
      var c := CutAt(remaining);
      RemainingPieces(c.next);
      if c.next != "" && |c.next| <= MaxBlockTextLength {
        assert SplitRemaining(c.next) == [c.next];
      }
      PiecesCons(c.head, SplitRemaining(c.next));
    }
  }

  /** The pieces of a long text are all stripped, and all but possibly the
      first (when the text starts with a run of whitespace) are non-empty. */
  lemma LongTextPieces(text: string)
    requires |text| > MaxBlockTextLength
    ensures var r := SplitText(text);
      AllStripped(r) && NonEmptyFrom(r, 1) && (IsStripped(text) ==> NonEmptyFrom(r, 0))
  {
    RemainingPieces(text);
  }

  // ---------------------------------------------------------------------
  // `_parse_interleaved_markdown`.

  predicate IsQuote(block: string) {
    StartsWith(block, ">")
  }

  /** One line of a quote block with its `>` marker removed. */
  function QuoteLine(line: string): string {
    if StartsWith(line, ">") then Strip(line[1..]) else Strip(line)
  }

  function QuoteLines(lines: seq<string>): (r: seq<string>)
    ensures |r| == |lines|
    ensures forall i :: 0 <= i < |r| ==> r[i] == QuoteLine(lines[i])
  {
    if lines == [] then [] else [QuoteLine(lines[0])] + QuoteLines(lines[1..])
  }

  /** The original text of a quote block. */
  function QuoteText(block: string): string {
    Strip(Join("\n", QuoteLines(SplitOn(block, '\n'))))
  }

  datatype Pairs = Pairs(originals: seq<string>, translations: seq<string>)

  /** How many of the (stripped) blocks are quote blocks. */
  function QuoteCount(blocks: seq<string>): nat {
    if blocks == [] then 0
    else (if IsQuote(blocks[0]) then 1 else 0) + QuoteCount(blocks[1..])
  }

  /** A translation as the parser yields it: empty, or a stripped block
      that is not a quote. */
  predicate ReadableTranslation(t: string) {
    t == "" || (!IsQuote(t) && IsStripped(t))
  }

  predicate Readable(ts: seq<string>) {
    forall i :: 0 <= i < |ts| ==> ReadableTranslation(ts[i])
  }

  lemma ReadableCons(t: string, ts: seq<string>)
    requires ReadableTranslation(t) && Readable(ts)
    ensures Readable([t] + ts)
  {
    forall i | 0 <= i < |[t] + ts| ensures ReadableTranslation(([t] + ts)[i]) {
      if i > 0 { assert ([t] + ts)[i] == ts[i - 1]; }
    }
  }

  /** Every block stripped, as the loop does before looking at one. */
  function StripAll(blocks: seq<string>): (r: seq<string>)
    ensures |r| == |blocks|
    ensures AllStripped(r)
  {
    if blocks == [] then []
    else
      var rest := StripAll(blocks[1..]);
      AllStrippedCons(Strip(blocks[0]), rest);
      [Strip(blocks[0])] + rest
  }

  lemma AllStrippedCons(b: string, rest: seq<string>)
    requires IsStripped(b) && AllStripped(rest)
    ensures AllStripped([b] + rest)
  {
    forall i | 0 <= i < |[b] + rest| ensures IsStripped(([b] + rest)[i]) {
      if i > 0 { assert ([b] + rest)[i] == rest[i - 1]; }
    }
  }

  /** The scan over the stripped blocks: a quote block takes the next block
      as its translation unless that one is a quote too or missing (then
      ""); a non-quote block with no quote before it is dropped. The quote
      blocks are kept whole here; their text is extracted afterwards. */
  function Scan(blocks: seq<string>): (r: Pairs)
    ensures |r.originals| == |r.translations|
    decreases |blocks|
  {
    if blocks == [] then Pairs([], [])
    else if !IsQuote(blocks[0]) then Scan(blocks[1..])
    else if |blocks| > 1 && !IsQuote(blocks[1]) then
      var rest := Scan(blocks[2..]);
      Pairs([blocks[0]] + rest.originals, [blocks[1]] + rest.translations)
    else
      var rest := Scan(blocks[1..]);
      Pairs([blocks[0]] + rest.originals, [""] + rest.translations)
  }

  predicate AllQuotes(qs: seq<string>) {
    forall i :: 0 <= i < |qs| ==> IsQuote(qs[i])
  }

  lemma AllQuotesCons(q: string, qs: seq<string>)
    requires IsQuote(q) && AllQuotes(qs)
    ensures AllQuotes([q] + qs)
  {
    forall i | 0 <= i < |[q] + qs| ensures IsQuote(([q] + qs)[i]) {
      if i > 0 { assert ([q] + qs)[i] == qs[i - 1]; }
    }
  }

  lemma AllStrippedTail(blocks: seq<string>, k: nat)
    requires AllStripped(blocks) && k <= |blocks|
    ensures AllStripped(blocks[k..])
  {
    forall i | 0 <= i < |blocks[k..]| ensures IsStripped(blocks[k..][i]) {
      assert blocks[k..][i] == blocks[i + k];
    }
  }

  /** One pair per quote block, every original a quote block, and each
      translation empty or a stripped non-quote block. */
  lemma {:induction false} ScanShape(blocks: seq<string>)
    requires AllStripped(blocks)
    ensures var r := Scan(blocks);
      && |r.originals| == QuoteCount(blocks)
      && AllQuotes(r.originals)
      && Readable(r.translations)
    decreases |blocks|
  {
    if blocks != [] {
      AllStrippedTail(blocks, 1);
      if !IsQuote(blocks[0]) {
        ScanShape(blocks[1..]);
      } else if |blocks| > 1 && !IsQuote(blocks[1]) {
        assert blocks[1..][1..] == blocks[2..];
        AllStrippedTail(blocks, 2);
        ScanShape(blocks[2..]);
        var rest := Scan(blocks[2..]);
        ReadableCons(blocks[1], rest.translations);
        AllQuotesCons(blocks[0], rest.originals);
      } else {
        ScanShape(blocks[1..]);
        var rest := Scan(blocks[1..]);
        ReadableCons("", rest.translations);
        AllQuotesCons(blocks[0], rest.originals);
      }
    }
  }

  /** The original text of each quote block. */
  function QuoteTextAll(qs: seq<string>): (r: seq<string>)
    ensures |r| == |qs|
    ensures forall i :: 0 <= i < |r| ==> r[i] == QuoteText(qs[i])
  {
    seq(|qs|, i requires 0 <= i < |qs| => QuoteText(qs[i]))
  }

  /** The scan as a whole: every block is stripped when looked at, and a
      quote block's text is what its pair keeps as the original. */
  function ParseBlocks(blocks: seq<string>): (r: Pairs)
    ensures |r.originals| == |r.translations| == QuoteCount(StripAll(blocks))
    ensures Readable(r.translations)
  {
    var scanned := Scan(StripAll(blocks));
    ScanShape(StripAll(blocks));
    Pairs(QuoteTextAll(scanned.originals), scanned.translations)
  }

  /** `_parse_interleaved_markdown`: the stripped content is split at blank
      lines (`\n\s*\n`) and scanned for quote/translation pairs. */
  function ParseInterleavedMarkdown(content: string): (r: Pairs)
    ensures |r.originals| == |r.translations|
  {
    ParseBlocks(Chunking.SplitBlank(Strip(content)))
  }

  /** A one-line original written as a quote block (`> ` and the text). */
  predicate PlainOriginal(o: string) {
    o != "" && IsStripped(o) && '\n' !in o
  }

  /** A translation block the parser takes as one: not a quote, stripped, non-empty. */
  predicate PlainTranslation(t: string) {
    t != "" && IsStripped(t) && !IsQuote(t)
  }

  /** The quote blocks the originals are written as. */
  function Quoted(originals: seq<string>): (r: seq<string>)
    ensures |r| == |originals|
    ensures forall i :: 0 <= i < |r| ==> r[i] == "> " + originals[i]
  {
    seq(|originals|, i requires 0 <= i < |originals| => "> " + originals[i])
  }

  /** The blocks of well-formed interleaved output: each pair as a quote
      block followed by its translation block. */
  function Interleave(originals: seq<string>, translations: seq<string>): (r: seq<string>)
    requires |originals| == |translations|
    ensures |r| == 2 * |originals|
  {
    if originals == [] then []
    else ["> " + originals[0], translations[0]] + Interleave(originals[1..], translations[1..])
  }

  lemma QuoteTextOfPlain(o: string)
    requires PlainOriginal(o)
    ensures QuoteText("> " + o) == o
  {
    var b := "> " + o;
    NoNewlineSplit(b, o);
    QuoteLineOfPlain(o);
    assert QuoteLines([b]) == [o];
  }

  lemma NoNewlineSplit(b: string, o: string)
    requires b == "> " + o && '\n' !in o
    ensures SplitOn(b, '\n') == [b]
  {
    assert '\n' !in b by {
      forall i | 0 <= i < |b| ensures b[i] != '\n' {
        if i >= 2 { assert b[i] == o[i - 2]; }
      }
    }
  }

  lemma QuoteLineOfPlain(o: string)
    requires PlainOriginal(o)
    ensures QuoteLine("> " + o) == o
  {
    var b := "> " + o;
    assert StartsWith(b, ">");
    assert b[1..] == " " + o;
    assert TrimLeft(o) == o;
    assert TrimLeft(" " + o) == o by {
      assert (" " + o)[1..] == o;
    }
    assert TrimRight(o) == o;
  }

  predicate AllPlain(originals: seq<string>, translations: seq<string>) {
    && (forall i :: 0 <= i < |originals| ==> PlainOriginal(originals[i]))
    && (forall i :: 0 <= i < |translations| ==> PlainTranslation(translations[i]))
  }

  lemma AllPlainTail(originals: seq<string>, translations: seq<string>)
    requires AllPlain(originals, translations) && originals != [] && translations != []
    ensures AllPlain(originals[1..], translations[1..])
  {
    forall i | 0 <= i < |originals[1..]| ensures PlainOriginal(originals[1..][i]) {
      assert originals[1..][i] == originals[i + 1];
    }
    forall i | 0 <= i < |translations[1..]| ensures PlainTranslation(translations[1..][i]) {
      assert translations[1..][i] == translations[i + 1];
    }
  }

  lemma QuotedPlain(o: string)
    requires PlainOriginal(o)
    ensures IsStripped("> " + o) && IsQuote("> " + o)
  {
    assert ("> " + o)[|"> " + o| - 1] == o[|o| - 1];
  }

  /** Well-formed interleaved blocks are already stripped. */
  lemma {:induction false} InterleaveStripped(originals: seq<string>, translations: seq<string>)
    requires |originals| == |translations| && AllPlain(originals, translations)
    ensures AllStripped(Interleave(originals, translations))
  {
    var blocks := Interleave(originals, translations);
    if originals != [] {
      AllPlainTail(originals, translations);
      InterleaveStripped(originals[1..], translations[1..]);
      var rest := Interleave(originals[1..], translations[1..]);
      assert blocks == ["> " + originals[0], translations[0]] + rest;
      QuotedPlain(originals[0]);
      assert PlainTranslation(translations[0]);
      forall i | 0 <= i < |blocks| ensures IsStripped(blocks[i]) {
        if i >= 2 { assert blocks[i] == rest[i - 2]; }
      }
    }
  }

  /** The scan pairs each quote block of well-formed interleaved blocks
      with the translation after it. */
  lemma {:induction false} ScanInterleave(originals: seq<string>, translations: seq<string>)
    requires |originals| == |translations| && AllPlain(originals, translations)
    ensures Scan(Interleave(originals, translations)) == Pairs(Quoted(originals), translations)
  {
    var blocks := Interleave(originals, translations);
    if originals != [] {
      AllPlainTail(originals, translations);
      ScanInterleave(originals[1..], translations[1..]);
      var rest := Interleave(originals[1..], translations[1..]);
      assert blocks == ["> " + originals[0], translations[0]] + rest;
      assert blocks[2..] == rest;
      QuotedPlain(originals[0]);
      assert PlainTranslation(translations[0]);
      assert Quoted(originals) == ["> " + originals[0]] + Quoted(originals[1..]);
      assert translations == [translations[0]] + translations[1..];
    }
  }

  lemma {:induction false} StripAllStripped(blocks: seq<string>)
    requires AllStripped(blocks)
    ensures StripAll(blocks) == blocks
  {
    if blocks != [] {
      AllStrippedTail(blocks, 1);
      StripAllStripped(blocks[1..]);
      assert Strip(blocks[0]) == blocks[0] by {
        assert IsStripped(blocks[0]);
      }
      HeadTail(blocks);
    }
  }

  /** Reading back well-formed interleaved blocks gives exactly the pairs
      they were written from. */
  lemma ParseInterleave(originals: seq<string>, translations: seq<string>)
    requires |originals| == |translations| && AllPlain(originals, translations)
    ensures ParseBlocks(Interleave(originals, translations)) == Pairs(originals, translations)
  {
    var blocks := Interleave(originals, translations);
    InterleaveStripped(originals, translations);
    ScanInterleave(originals, translations);
    StripAllStripped(blocks);
    forall i | 0 <= i < |originals| ensures QuoteText(Quoted(originals)[i]) == originals[i] {
      QuoteTextOfPlain(originals[i]);
    }
  }

  /** A quote block with nothing or another quote after it gets an empty
      translation. */
  lemma QuoteWithoutTranslation(q: string, rest: seq<string>)
    requires IsQuote(q) && IsStripped(q)
    requires rest == [] || (IsQuote(rest[0]) && IsStripped(rest[0]))
    ensures var r := Scan([q] + rest);
      r.originals[0] == q && r.translations[0] == ""
  {
    assert ([q] + rest)[1..] == rest;
  }

  /** A non-quote block with no quote before it leaves no trace. */
  lemma LeadingTextDropped(t: string, rest: seq<string>)
    requires !IsQuote(Strip(t))
    ensures ParseBlocks([t] + rest) == ParseBlocks(rest)
  {
    StripAllCons(t, rest);
    assert ([Strip(t)] + StripAll(rest))[1..] == StripAll(rest);
  }

  lemma StripAllCons(b: string, rest: seq<string>)
    ensures StripAll([b] + rest) == [Strip(b)] + StripAll(rest)
  {
    assert ([b] + rest)[1..] == rest;
  }

  // ---------------------------------------------------------------------
  // Blocks.

  datatype Block =
    | Quote(text: string)      // gray quote block
    | Paragraph(text: string)  // normal paragraph
    | Spacer                   // empty paragraph between pairs
    | Callout(text: string)    // metadata callout
    | Divider

  function QuoteBlocks(pieces: seq<string>): (r: seq<Block>)
    ensures |r| == |pieces|
    ensures forall i :: 0 <= i < |r| ==> r[i] == Quote(pieces[i])
  {
    if pieces == [] then [] else [Quote(pieces[0])] + QuoteBlocks(pieces[1..])
  }

  function ParagraphBlocks(pieces: seq<string>): (r: seq<Block>)
    ensures |r| == |pieces|
    ensures forall i :: 0 <= i < |r| ==> r[i] == Paragraph(pieces[i])
  {
    if pieces == [] then [] else [Paragraph(pieces[0])] + ParagraphBlocks(pieces[1..])
  }

  /** The pieces a text is published as: none when it is blank (the
      `strip()` test before `_create_quote_blocks` and
      `_create_paragraph_blocks`), else `_split_text`'s. */
  function Pieces(text: string): (r: seq<string>)
    ensures r == [] <==> AllSpace(text)
    ensures AllFit(r)
    ensures NonSpace(Concat(r)) == NonSpace(text)
  {
    NonSpaceEmptyIffAllSpace(text);
    if AllSpace(text) then [] else SplitText(text)
  }

  /** The blocks of pair `i`, given how a text is cut into pieces: the
      original's pieces as quotes, the translation's as paragraphs, then a
      spacer unless `i` is the last index of the originals. */
  function PairBlocks(pieces: string -> seq<string>, original: string, translation: string, i: nat, n: nat): seq<Block> {
    QuoteBlocks(pieces(original)) + ParagraphBlocks(pieces(translation))
    + (if i + 1 < n then [Spacer] else [])
  }

  /** `_build_interleaved_blocks` from pair `i` on; `zip` stops at the
      shorter list, while the spacer test looks at the originals' length. */
  function BuildFrom(pieces: string -> seq<string>, originals: seq<string>, translations: seq<string>, i: nat): seq<Block>
    decreases |originals| - i
  {
    if i >= |originals| || i >= |translations| then []
    else PairBlocks(pieces, originals[i], translations[i], i, |originals|)
         + BuildFrom(pieces, originals, translations, i + 1)
  }

  /** `_build_interleaved_blocks`. */
  function BuildInterleavedBlocks(originals: seq<string>, translations: seq<string>): seq<Block> {
    BuildFrom(Pieces, originals, translations, 0)
  }

  function SpacerCount(bs: seq<Block>): nat {
    if bs == [] then 0 else (if bs[0] == Spacer then 1 else 0) + SpacerCount(bs[1..])
  }

  lemma {:induction false} SpacerCountAppend(a: seq<Block>, b: seq<Block>)
    ensures SpacerCount(a + b) == SpacerCount(a) + SpacerCount(b)
  {
    if a == [] {
      assert a + b == b;
    } else {
      assert (a + b)[1..] == a[1..] + b;
      SpacerCountAppend(a[1..], b);
    }
  }

  lemma {:induction false} NoSpacerIn(pieces: seq<string>)
    ensures SpacerCount(QuoteBlocks(pieces)) == 0 && SpacerCount(ParagraphBlocks(pieces)) == 0
  {
    if pieces != [] {
      NoSpacerIn(pieces[1..]);
    }
  }

  lemma PairSpacers(pieces: string -> seq<string>, original: string, translation: string, i: nat, n: nat)
    ensures SpacerCount(PairBlocks(pieces, original, translation, i, n)) == if i + 1 < n then 1 else 0
  {
    var q := QuoteBlocks(pieces(original));
    var p := ParagraphBlocks(pieces(translation));
    var s: seq<Block> := if i + 1 < n then [Spacer] else [];
    NoSpacerIn(pieces(original));
    NoSpacerIn(pieces(translation));
    SpacerCountAppend(q + p, s);
    SpacerCountAppend(q, p);
    assert SpacerCount(s) == if i + 1 < n then 1 else 0 by {
      if i + 1 < n { assert s[1..] == []; }
    }
  }

  lemma {:induction false} BuildFromSpacers(pieces: string -> seq<string>, originals: seq<string>, translations: seq<string>, i: nat)
    requires |originals| == |translations| && i <= |originals|
    ensures SpacerCount(BuildFrom(pieces, originals, translations, i)) ==
            (if i < |originals| then |originals| - i - 1 else 0)
    decreases |originals| - i
  {
    if i < |originals| {
      BuildFromSpacers(pieces, originals, translations, i + 1);
      PairSpacers(pieces, originals[i], translations[i], i, |originals|);
      SpacerCountAppend(PairBlocks(pieces, originals[i], translations[i], i, |originals|),
                        BuildFrom(pieces, originals, translations, i + 1));
    }
  }

  /** When the last pair yields some block, the blocks do not end with a spacer. */
  lemma {:induction false} LastNotSpacer(pieces: string -> seq<string>, originals: seq<string>, translations: seq<string>, i: nat)
    requires |originals| == |translations| && i < |originals|
    requires pieces(originals[|originals| - 1]) != [] || pieces(translations[|translations| - 1]) != []
    ensures var bs := BuildFrom(pieces, originals, translations, i);
      bs != [] && bs[|bs| - 1] != Spacer
    decreases |originals| - i
  {
    var head := PairBlocks(pieces, originals[i], translations[i], i, |originals|);
    var tail := BuildFrom(pieces, originals, translations, i + 1);
    assert BuildFrom(pieces, originals, translations, i) == head + tail;
    if i + 1 == |originals| {
      var q := QuoteBlocks(pieces(originals[i]));
      var p := ParagraphBlocks(pieces(translations[i]));
      assert head == q + p + [];
      if p != [] {
        assert head[|head| - 1] == p[|p| - 1];
      } else {
        assert head[|head| - 1] == q[|q| - 1];
      }
    } else {
      LastNotSpacer(pieces, originals, translations, i + 1);
      assert (head + tail)[|head + tail| - 1] == tail[|tail| - 1];
    }
  }

  /** A pair whose original and translation are both blank publishes nothing
      but its spacer. */
  predicate BlankPair(original: string, translation: string) {
    AllSpace(original) && AllSpace(translation)
  }

  /** With as many translations as originals, `n` pairs are separated by
      exactly `n - 1` spacers; the spacer is left out after the last pair, so
      the page does not end with one unless that pair publishes nothing. */
  lemma BuildSpacers(originals: seq<string>, translations: seq<string>)
    requires |originals| == |translations|
    ensures var bs := BuildInterleavedBlocks(originals, translations);
      && SpacerCount(bs) == (if originals == [] then 0 else |originals| - 1)
      && (originals != [] && !BlankPair(originals[|originals| - 1], translations[|translations| - 1])
          ==> bs != [] && bs[|bs| - 1] != Spacer)
  {
    BuildFromSpacers(Pieces, originals, translations, 0);
    if originals != [] && !BlankPair(originals[|originals| - 1], translations[|translations| - 1]) {
      BuildEndsWithPair(originals, translations);
    }
  }

  lemma BuildEndsWithPair(originals: seq<string>, translations: seq<string>)
    requires |originals| == |translations| && originals != []
    requires !BlankPair(originals[|originals| - 1], translations[|translations| - 1])
    ensures var bs := BuildInterleavedBlocks(originals, translations);
      bs != [] && bs[|bs| - 1] != Spacer
  {
    var o := originals[|originals| - 1];
    var t := translations[|translations| - 1];
    var po, pt := Pieces(o), Pieces(t);
    assert po != [] || pt != [];
    LastNotSpacer(Pieces, originals, translations, 0);
  }

  /** Every quote and paragraph block is within Notion's limit. */
  predicate BlocksFit(bs: seq<Block>) {
    forall j :: 0 <= j < |bs| ==> (bs[j].Quote? || bs[j].Paragraph?) ==> |bs[j].text| <= MaxBlockTextLength
  }

  lemma BlocksFitAppend(a: seq<Block>, b: seq<Block>)
    requires BlocksFit(a) && BlocksFit(b)
    ensures BlocksFit(a + b)
  {
    forall j | 0 <= j < |a + b| && ((a + b)[j].Quote? || (a + b)[j].Paragraph?)
      ensures |(a + b)[j].text| <= MaxBlockTextLength
    {
      if j >= |a| { assert (a + b)[j] == b[j - |a|]; }
    }
  }

  lemma PairFits(pieces: string -> seq<string>, original: string, translation: string, i: nat, n: nat)
    requires AllFit(pieces(original)) && AllFit(pieces(translation))
    ensures BlocksFit(PairBlocks(pieces, original, translation, i, n))
  {
    var q := QuoteBlocks(pieces(original));
    var p := ParagraphBlocks(pieces(translation));
    var s: seq<Block> := if i + 1 < n then [Spacer] else [];
    BlocksFitAppend(q, p);
    BlocksFitAppend(q + p, s);
  }

  lemma {:induction false} BuildFromFits(pieces: string -> seq<string>, originals: seq<string>, translations: seq<string>, i: nat)
    requires forall k :: 0 <= k < |originals| ==> AllFit(pieces(originals[k]))
    requires forall k :: 0 <= k < |translations| ==> AllFit(pieces(translations[k]))
    ensures BlocksFit(BuildFrom(pieces, originals, translations, i))
    decreases |originals| - i
  {
    if i < |originals| && i < |translations| {
      BuildFromFits(pieces, originals, translations, i + 1);
      PairFits(pieces, originals[i], translations[i], i, |originals|);
      BlocksFitAppend(PairBlocks(pieces, originals[i], translations[i], i, |originals|),
                      BuildFrom(pieces, originals, translations, i + 1));
    }
  }

  /** Whatever the lengths of the texts, no published block exceeds the limit. */
  lemma BuildFits(originals: seq<string>, translations: seq<string>)
    ensures BlocksFit(BuildInterleavedBlocks(originals, translations))
  {
    forall k | 0 <= k < |originals| ensures AllFit(Pieces(originals[k])) { }
    forall k | 0 <= k < |translations| ensures AllFit(Pieces(translations[k])) { }
    BuildFromFits(Pieces, originals, translations, 0);
  }

  /** The texts of the quote blocks, in order. */
  function QuoteTexts(bs: seq<Block>): seq<string> {
    if bs == [] then [] else (if bs[0].Quote? then [bs[0].text] else []) + QuoteTexts(bs[1..])
  }

  /** The texts of the paragraph blocks, in order. */
  function ParagraphTexts(bs: seq<Block>): seq<string> {
    if bs == [] then [] else (if bs[0].Paragraph? then [bs[0].text] else []) + ParagraphTexts(bs[1..])
  }

  /** `pieces` drops nothing but whitespace from any of `texts`. */
  predicate Faithful(pieces: string -> seq<string>, texts: seq<string>) {
    forall k :: 0 <= k < |texts| ==> NonSpace(Concat(pieces(texts[k]))) == NonSpace(texts[k])
  }

  /** Both texts of the blocks from pair `i` on keep what the texts from `i`
      on say. */
  predicate KeepsFrom(bs: seq<Block>, originals: seq<string>, translations: seq<string>, i: nat)
    requires i <= |originals| && i <= |translations|
  {
    && NonSpace(Concat(QuoteTexts(bs))) == NonSpace(Concat(originals[i..]))
    && NonSpace(Concat(ParagraphTexts(bs))) == NonSpace(Concat(translations[i..]))
  }

  lemma {:induction false} BuildFromKeepsText(pieces: string -> seq<string>, originals: seq<string>, translations: seq<string>, i: nat)
    requires |originals| == |translations| && i <= |originals|
    requires Faithful(pieces, originals) && Faithful(pieces, translations)
    ensures KeepsFrom(BuildFrom(pieces, originals, translations, i), originals, translations, i)
    decreases |originals| - i
  {
    if i < |originals| {
      BuildFromKeepsText(pieces, originals, translations, i + 1);
      KeepsTextAt(pieces, originals, translations, i);
    } else {
      assert originals[i..] == [] && translations[i..] == [];
    }
  }

  lemma KeepsTextAt(pieces: string -> seq<string>, originals: seq<string>, translations: seq<string>, i: nat)
    requires |originals| == |translations| && i < |originals|
    requires Faithful(pieces, originals) && Faithful(pieces, translations)
    requires KeepsFrom(BuildFrom(pieces, originals, translations, i + 1), originals, translations, i + 1)
    ensures KeepsFrom(BuildFrom(pieces, originals, translations, i), originals, translations, i)
  {
    var head := PairBlocks(pieces, originals[i], translations[i], i, |originals|);
    var tail := BuildFrom(pieces, originals, translations, i + 1);
    assert BuildFrom(pieces, originals, translations, i) == head + tail;
    PairKeepsText(pieces, originals[i], translations[i], i, |originals|);
    TextsAppend(head, tail);
    KeepsStep(QuoteTexts(head), QuoteTexts(tail), originals, i);
    KeepsStep(ParagraphTexts(head), ParagraphTexts(tail), translations, i);
  }

  /** Text `i` followed by the texts after it, when each part keeps its
      non-whitespace characters. */
  lemma KeepsStep(head: seq<string>, tail: seq<string>, texts: seq<string>, i: nat)
    requires i < |texts|
    requires NonSpace(Concat(head)) == NonSpace(texts[i])
    requires NonSpace(Concat(tail)) == NonSpace(Concat(texts[i + 1..]))
    ensures NonSpace(Concat(head + tail)) == NonSpace(Concat(texts[i..]))
  {
    ConcatAppend(head, tail);
    NonSpaceAppend(Concat(head), Concat(tail));
    assert Concat(texts[i..]) == texts[i] + Concat(texts[i + 1..]) by {
      assert texts[i..][0] == texts[i];
      assert texts[i..][1..] == texts[i + 1..];
    }
    NonSpaceAppend(texts[i], Concat(texts[i + 1..]));
  }

  /** The quote blocks carry the originals' text and the paragraph blocks the
      translations': nothing but whitespace is lost or added. */
  lemma BuildKeepsText(originals: seq<string>, translations: seq<string>)
    requires |originals| == |translations|
    ensures var bs := BuildInterleavedBlocks(originals, translations);
      && NonSpace(Concat(QuoteTexts(bs))) == NonSpace(Concat(originals))
      && NonSpace(Concat(ParagraphTexts(bs))) == NonSpace(Concat(translations))
  {
    assert Faithful(Pieces, originals) by {
      forall k | 0 <= k < |originals|
        ensures NonSpace(Concat(Pieces(originals[k]))) == NonSpace(originals[k]) {
      }
    }
    assert Faithful(Pieces, translations) by {
      forall k | 0 <= k < |translations|
        ensures NonSpace(Concat(Pieces(translations[k]))) == NonSpace(translations[k]) {
      }
    }
    BuildFromKeepsText(Pieces, originals, translations, 0);
    assert originals[0..] == originals && translations[0..] == translations;
  }

  lemma PairKeepsText(pieces: string -> seq<string>, original: string, translation: string, i: nat, n: nat)
    ensures var bs := PairBlocks(pieces, original, translation, i, n);
      QuoteTexts(bs) == pieces(original) && ParagraphTexts(bs) == pieces(translation)
  {
    var q := QuoteBlocks(pieces(original));
    var p := ParagraphBlocks(pieces(translation));
    var s: seq<Block> := if i + 1 < n then [Spacer] else [];
    TextsAppend(q + p, s);
    TextsAppend(q, p);
    QuoteBlocksTexts(pieces(original));
    ParagraphBlocksTexts(pieces(translation));
    assert QuoteTexts(s) == [] && ParagraphTexts(s) == [] by {
      if i + 1 < n { assert s[1..] == []; }
    }
    assert QuoteTexts(q + p + s) == pieces(original) + [] + [];
    assert ParagraphTexts(q + p + s) == [] + pieces(translation) + [];
  }

  lemma TextsAppend(a: seq<Block>, b: seq<Block>)
    ensures QuoteTexts(a + b) == QuoteTexts(a) + QuoteTexts(b)
    ensures ParagraphTexts(a + b) == ParagraphTexts(a) + ParagraphTexts(b)
  {
    QuoteTextsAppend(a, b);
    ParagraphTextsAppend(a, b);
  }

  lemma {:induction false} QuoteTextsAppend(a: seq<Block>, b: seq<Block>)
    ensures QuoteTexts(a + b) == QuoteTexts(a) + QuoteTexts(b)
  {
    if a == [] {
      assert a + b == b;
    } else {
      assert (a + b)[1..] == a[1..] + b;
      QuoteTextsAppend(a[1..], b);
    }
  }

  lemma {:induction false} ParagraphTextsAppend(a: seq<Block>, b: seq<Block>)
    ensures ParagraphTexts(a + b) == ParagraphTexts(a) + ParagraphTexts(b)
  {
    if a == [] {
      assert a + b == b;
    } else {
      assert (a + b)[1..] == a[1..] + b;
      ParagraphTextsAppend(a[1..], b);
    }
  }

  lemma {:induction false} QuoteBlocksTexts(pieces: seq<string>)
    ensures QuoteTexts(QuoteBlocks(pieces)) == pieces && ParagraphTexts(QuoteBlocks(pieces)) == []
  {
    if pieces != [] {
      QuoteBlocksTexts(pieces[1..]);
    }
  }

  lemma {:induction false} ParagraphBlocksTexts(pieces: seq<string>)
    ensures ParagraphTexts(ParagraphBlocks(pieces)) == pieces && QuoteTexts(ParagraphBlocks(pieces)) == []
  {
    if pieces != [] {
      ParagraphBlocksTexts(pieces[1..]);
    }
  }

  // ---------------------------------------------------------------------
  // `_build_metadata_blocks`.

  /** The Chinese display name of a domain, or the key itself. */
  function DomainDisplayName(domain: string): string {
    if domain == "tech" then "技术/编程"
    else if domain == "business" then "商务/金融"
    else if domain == "academic" then "学术研究"
    else domain
  }

  const SourceLabel := "📄 原文链接: "
  const DomainLabel := "📚 翻译领域: "
  const TimeLabel := "🕐 翻译时间: "

  /** The callout's lines: source link and domain when given (non-empty),
      and always the translation time, formatted by the caller. */
  function MetadataLines(sourceUrl: Option<string>, domain: Option<string>, timestamp: string): (r: seq<string>)
    ensures |r| == (if Truthy(sourceUrl) then 1 else 0) + (if Truthy(domain) then 1 else 0) + 1
    ensures r[|r| - 1] == TimeLabel + timestamp
    ensures Truthy(sourceUrl) ==> r[0] == SourceLabel + sourceUrl.value
    ensures StartsWith(r[0], SourceLabel) <==> Truthy(sourceUrl)
    ensures Truthy(domain) ==> r[|r| - 2] == DomainLabel + DomainDisplayName(domain.value)
  {
    (if Truthy(sourceUrl) then [SourceLabel + sourceUrl.value] else [])
    + (if Truthy(domain) then [DomainLabel + DomainDisplayName(domain.value)] else [])
    + [TimeLabel + timestamp]
  }

  /** `_build_metadata_blocks`: the time line is always there, so the
      result is always a callout followed by a divider. */
  function BuildMetadataBlocks(sourceUrl: Option<string>, domain: Option<string>, timestamp: string): (r: seq<Block>)
    ensures |r| == 2 && r[0].Callout? && r[1] == Divider
    ensures EndsWith(r[0].text, TimeLabel + timestamp)
    ensures r[0].text == Join("\n", MetadataLines(sourceUrl, domain, timestamp))
  {
    var lines := MetadataLines(sourceUrl, domain, timestamp);
    JoinEndsWithLast("\n", lines);
    [Callout(Join("\n", lines)), Divider]
  }

  /** The callout reads back line by line: when none of the caller's
      values holds a line break, splitting the callout's text at '\n'
      gives exactly the metadata lines, in order. */
  lemma MetadataReadBack(sourceUrl: Option<string>, domain: Option<string>, timestamp: string)
    requires sourceUrl.Some? ==> '\n' !in sourceUrl.value
    requires domain.Some? ==> '\n' !in domain.value
    requires '\n' !in timestamp
    ensures SplitOn(BuildMetadataBlocks(sourceUrl, domain, timestamp)[0].text, '\n')
            == MetadataLines(sourceUrl, domain, timestamp)
  {
    var lines := MetadataLines(sourceUrl, domain, timestamp);
    assert '\n' !in SourceLabel && '\n' !in DomainLabel && '\n' !in TimeLabel;
    assert domain.Some? ==> '\n' !in DomainDisplayName(domain.value);
    assert "\n" == ['\n'];
    SplitOfJoin(lines, '\n');
  }

  lemma {:induction false} JoinEndsWithLast(sep: string, parts: seq<string>)
    requires parts != []
    ensures EndsWith(Join(sep, parts), parts[|parts| - 1])
  {
    if |parts| > 1 {
      JoinEndsWithLast(sep, parts[1..]);
      var j := Join(sep, parts[1..]);
      assert Join(sep, parts) == (parts[0] + sep) + j;
      var last := parts[|parts| - 1];
      assert last == parts[1..][|parts[1..]| - 1];
      assert ((parts[0] + sep) + j)[|(parts[0] + sep) + j| - |last|..] == j[|j| - |last|..];
    }
  }
}
