/**
 * Prompt assembly for the translator: the system prompt with its optional
 * domain section, the whole-article prompt with its article-information
 * lines, the per-chunk prompt, and the prompt that merges translated
 * chunks. Each template is its fixed text around the slots.
 */
module Prompts {
  import opened Opt
  import opened Text
  import Domains

  // ---------------------------------------------------------------------
  // `get_system_prompt`.

  /** The system prompt up to its domain slot. Only the opening sentence of
      the fixed instructions is kept; the sections on abilities, principles,
      output format, the example and the special rules are left out. */
  const SystemPromptBase := "你是一位专业的英译中翻译专家，专注于将英文文章翻译成高质量的简体中文。\n\n"

  const DomainHeading := "\n## 领域特定要求\n"

  /** The text filled into the system prompt's domain slot. */
  function DomainSection(modifier: string): string {
    if modifier != "" then DomainHeading + modifier else ""
  }

  function SystemPrompt(modifier: string): (r: string)
    ensures StartsWith(r, SystemPromptBase)
    ensures modifier == "" <==> r == SystemPromptBase
  {
    SystemPromptBase + DomainSection(modifier)
  }

  /** Reads the domain instructions back out of a system prompt. */
  function ModifierOf(prompt: string): string {
    var k := |SystemPromptBase| + |DomainHeading|;
    if |prompt| >= k then prompt[k..] else ""
  }

  /** The slot holds exactly the modifier: it can be read back, so
      different modifiers give different prompts. */
  lemma SystemPromptReadBack(modifier: string)
    ensures ModifierOf(SystemPrompt(modifier)) == modifier
  {
    var base, heading := SystemPromptBase, DomainHeading;
    if modifier != "" {
      Assoc(base, heading, modifier);
      SlotReadBack(base + heading, modifier);
    } else {
      assert |SystemPrompt(modifier)| < |base| + |heading|;
    }
  }

  /** Whatever follows a prefix is read back by dropping the prefix. */
  lemma SlotReadBack(head: string, slot: string)
    ensures (head + slot)[|head|..] == slot
  {
  }

  /** An unknown domain leaves the base prompt unchanged; a known one adds
      its instructions under the domain heading. */
  lemma SystemPromptForDomain(key: string)
    ensures key !in Domains.Keys ==> SystemPrompt(Domains.DomainPrompt(key)) == SystemPromptBase
    ensures key in Domains.Keys ==>
      ModifierOf(SystemPrompt(Domains.DomainPrompt(key))) == Domains.Lookup(key).value.systemModifier
  {
    SystemPromptReadBack(Domains.DomainPrompt(key));
  }

  // ---------------------------------------------------------------------
  // `get_translation_prompt`.

  const TitleLabel := "- 标题："
  const SourceLabel := "- 来源："
  const DomainLabel := "- 领域："
  const NoInfo := "- 无附加信息"

  /** The domain as the prompt names it: `domain_names.get(domain, domain)`. */
  function PromptDomainName(domain: string): string {
    if domain == "tech" then "技术/编程"
    else if domain == "business" then "商务/金融"
    else if domain == "academic" then "学术研究"
    else domain
  }

  /** The article-information lines: title, source and domain, in that
      order, each only when given and non-empty. */
  function InfoLines(title: Option<string>, sourceUrl: Option<string>, domain: Option<string>): (r: seq<string>)
    ensures |r| == (if Truthy(title) then 1 else 0) + (if Truthy(sourceUrl) then 1 else 0)
                   + (if Truthy(domain) then 1 else 0)
    ensures Truthy(title) ==> r[0] == TitleLabel + title.value
    ensures Truthy(sourceUrl) ==> r[if Truthy(title) then 1 else 0] == SourceLabel + sourceUrl.value
    ensures Truthy(domain) ==> r[|r| - 1] == DomainLabel + PromptDomainName(domain.value)
  {
    (if Truthy(title) then [TitleLabel + title.value] else [])
    + (if Truthy(sourceUrl) then [SourceLabel + sourceUrl.value] else [])
    + (if Truthy(domain) then [DomainLabel + PromptDomainName(domain.value)] else [])
  }

  lemma LabelsDiffer(value: string)
    ensures !StartsWith(TitleLabel + value, SourceLabel) && !StartsWith(TitleLabel + value, DomainLabel)
    ensures !StartsWith(SourceLabel + value, TitleLabel) && !StartsWith(SourceLabel + value, DomainLabel)
    ensures !StartsWith(DomainLabel + value, TitleLabel) && !StartsWith(DomainLabel + value, SourceLabel)
  {
    assert (TitleLabel + value)[2] == '标';
    assert (SourceLabel + value)[2] == '来';
    assert (DomainLabel + value)[2] == '领';
    assert (TitleLabel + value)[..|SourceLabel|][2] == '标';
    assert (TitleLabel + value)[..|DomainLabel|][2] == '标';
    assert (SourceLabel + value)[..|TitleLabel|][2] == '来';
    assert (SourceLabel + value)[..|DomainLabel|][2] == '来';
    assert (DomainLabel + value)[..|TitleLabel|][2] == '领';
    assert (DomainLabel + value)[..|SourceLabel|][2] == '领';
  }

  /** Each given value sits on the line with its own label, so the lines can
      be read back: the title, the source and the domain's display name. */
  lemma InfoLinesReadBack(title: Option<string>, sourceUrl: Option<string>, domain: Option<string>)
    ensures var lines := InfoLines(title, sourceUrl, domain);
      && LabelValue(lines, TitleLabel) == Given(title)
      && LabelValue(lines, SourceLabel) == Given(sourceUrl)
      && LabelValue(lines, DomainLabel) ==
           (if Truthy(domain) then Some(PromptDomainName(domain.value)) else None)
  {
    var t: seq<string> := if Truthy(title) then [TitleLabel + title.value] else [];
    var s: seq<string> := if Truthy(sourceUrl) then [SourceLabel + sourceUrl.value] else [];
    var d: seq<string> := if Truthy(domain) then [DomainLabel + PromptDomainName(domain.value)] else [];
    assert InfoLines(title, sourceUrl, domain) == t + (s + d);
    if Truthy(domain) {
      var dv := PromptDomainName(domain.value);
      LabelsDiffer(dv);
      LabelValueCons(DomainLabel + dv, DomainLabel, dv, []);
      LabelValueSkip(DomainLabel + dv, TitleLabel, []);
      LabelValueSkip(DomainLabel + dv, SourceLabel, []);
      assert d == [DomainLabel + dv] + [];
    }
    if Truthy(sourceUrl) {
      var sv := sourceUrl.value;
      LabelsDiffer(sv);
      LabelValueCons(SourceLabel + sv, SourceLabel, sv, d);
      LabelValueSkip(SourceLabel + sv, TitleLabel, d);
      LabelValueSkip(SourceLabel + sv, DomainLabel, d);
    } else {
      assert s + d == d;
    }
    if Truthy(title) {
      var tv := title.value;
      LabelsDiffer(tv);
      LabelValueCons(TitleLabel + tv, TitleLabel, tv, s + d);
      LabelValueSkip(TitleLabel + tv, SourceLabel, s + d);
      LabelValueSkip(TitleLabel + tv, DomainLabel, s + d);
    } else {
      assert t + (s + d) == s + d;
    }
  }

  /** The article-information slot: the lines joined by newlines, or the
      "no information" line when there are none. */
  function ArticleInfo(title: Option<string>, sourceUrl: Option<string>, domain: Option<string>): string {
    var lines := InfoLines(title, sourceUrl, domain);
    if lines != [] then Join("\n", lines) else NoInfo
  }

  /** The "no information" line appears exactly when nothing is given. */
  lemma NoInfoExactly(title: Option<string>, sourceUrl: Option<string>, domain: Option<string>)
    ensures ArticleInfo(title, sourceUrl, domain) == NoInfo <==>
            !Truthy(title) && !Truthy(sourceUrl) && !Truthy(domain)
  {
    var lines := InfoLines(title, sourceUrl, domain);
    if lines != [] {
      var first := lines[0];
      assert first[2] != '无' by {
        if Truthy(title) {
          assert first == TitleLabel + title.value;
        } else if Truthy(sourceUrl) {
          assert first == SourceLabel + sourceUrl.value;
        } else {
          assert first == DomainLabel + PromptDomainName(domain.value);
        }
      }
      JoinStartsWithFirst("\n", lines);
      assert Join("\n", lines)[2] == first[2];
    }
  }

  lemma {:induction false} JoinStartsWithFirst(sep: string, parts: seq<string>)
    requires parts != []
    ensures StartsWith(Join(sep, parts), parts[0])
  {
    if |parts| > 1 {
      assert Join(sep, parts) == parts[0] + (sep + Join(sep, parts[1..]));
    }
  }

  const TranslationHead := "请将以下英文内容翻译成简体中文。\n\n## 文章信息\n"
  const TranslationMid := "\n\n## 原文内容\n"
  const TranslationTail :=
      "\n\n"
      + "## 翻译要求\n"
      + "1. 按照段落交替的双语格式输出\n"
      + "2. 原文段落使用 `> ` 引用格式\n"
      + "3. 保持原文的段落结构\n"
      + "4. 确保翻译准确、流畅\n\n"
      + "请开始翻译："

  function TranslationPrompt(content: string, title: Option<string>, sourceUrl: Option<string>,
                             domain: Option<string>): (r: string)
    ensures StartsWith(r, TranslationHead + ArticleInfo(title, sourceUrl, domain) + TranslationMid + content)
    ensures EndsWith(r, TranslationTail)
    ensures |r| == |TranslationHead| + |ArticleInfo(title, sourceUrl, domain)| + |TranslationMid|
                   + |content| + |TranslationTail|
  {
    var head := TranslationHead + ArticleInfo(title, sourceUrl, domain) + TranslationMid + content;
    assert (head + TranslationTail)[..|head|] == head;
    assert (head + TranslationTail)[|head + TranslationTail| - |TranslationTail|..] == TranslationTail;
    head + TranslationTail
  }

  /** The three copies of the domain-name table agree: the prompt, the
      domain table and the publisher's metadata name a domain alike. */
  lemma DomainNamesAgree(domain: string)
    ensures PromptDomainName(domain) == Domains.DomainName(domain, "zh")
  {
  }

  // ---------------------------------------------------------------------
  // `get_chunk_translation_prompt`.

  const OpeningContext := "这是文章的开头部分。"

  /** The context slot: the given context, or the opening note when empty. */
  function ContextText(context: string): (r: string)
    ensures r != ""
    ensures context != "" ==> r == context
  {
    if context != "" then context else OpeningContext
  }

  /** The position text `{chunk_number}/{total_chunks}`, as `str()` prints them. */
  function Position(chunkNumber: int, totalChunks: int): string {
    IntToString(chunkNumber) + "/" + IntToString(totalChunks)
  }

  /** The numbers are printed verbatim: splitting the position at `/`
      and parsing each side gives them back. */
  lemma PositionReadBack(chunkNumber: int, totalChunks: int)
    ensures var parts := SplitOn(Position(chunkNumber, totalChunks), '/');
      |parts| == 2 && ParseInt(parts[0]) == Some(chunkNumber) && ParseInt(parts[1]) == Some(totalChunks)
  {
    var a := IntToString(chunkNumber);
    var b := IntToString(totalChunks);
    SplitAtOnly(a, b, '/');
    ParseIntOfIntToString(chunkNumber);
    ParseIntOfIntToString(totalChunks);
  }

  /** Splitting `a + [c] + b` at `c`, when neither side contains `c`. */
  lemma SplitAtOnly(a: string, b: string, c: char)
    requires c !in a && c !in b
    ensures SplitOn(a + [c] + b, c) == [a, b]
  {
    var s := a + [c] + b;
    assert s[|a|] == c;
    var k := FirstIndex(s, c);
    assert s[..|a|] == a;
    assert k == |a|;
    assert s[k + 1..] == b;
  }

  const ChunkHead := "请继续翻译以下内容（这是长文的第 "
  const ChunkAfterPosition := " 部分）。\n\n## 翻译上下文\n"
  const ChunkMid := "\n\n## 待翻译内容\n"
  const ChunkTail :=
      "\n\n"
      + "## 翻译要求\n"
      + "1. 保持与前文翻译风格一致\n"
      + "2. 按照段落交替的双语格式输出\n"
      + "3. 注意上下文的连贯性\n\n"
      + "请开始翻译："

  function ChunkPrompt(content: string, chunkNumber: int, totalChunks: int, context: string): (r: string)
    ensures StartsWith(r, ChunkHead + Position(chunkNumber, totalChunks) + ChunkAfterPosition
                          + ContextText(context) + ChunkMid + content)
    ensures EndsWith(r, ChunkTail)
    ensures |r| == |ChunkHead| + |Position(chunkNumber, totalChunks)| + |ChunkAfterPosition|
                   + |ContextText(context)| + |ChunkMid| + |content| + |ChunkTail|
  {
    var head := ChunkHead + Position(chunkNumber, totalChunks) + ChunkAfterPosition
                + ContextText(context) + ChunkMid + content;
    assert (head + ChunkTail)[..|head|] == head;
    assert (head + ChunkTail)[|head + ChunkTail| - |ChunkTail|..] == ChunkTail;
    head + ChunkTail
  }

  /** Only the first chunk of an article (empty context) gets the opening note. */
  lemma OpeningOnlyWithoutContext(context: string)
    ensures ContextText(context) == OpeningContext <==> context == "" || context == OpeningContext
  {
  }

  // ---------------------------------------------------------------------
  // `get_combine_prompt`.

  const SectionMark := "### 片段 "
  const SectionSeparator := "\n\n---\n\n"

  /** Chunk `i` (0-based) as a section headed by its 1-based number. */
  function Section(i: nat, chunk: string): string {
    SectionMark + IntToString(i + 1) + "\n" + chunk
  }

  function Sections(chunks: seq<string>): (r: seq<string>)
    ensures |r| == |chunks|
    ensures forall i :: 0 <= i < |r| ==> r[i] == Section(i, chunks[i])
  {
    seq(|chunks|, i requires 0 <= i < |chunks| => Section(i, chunks[i]))
  }

  const CombineHead :=
      "请检查并整合以下翻译片段，确保：\n"
      + "1. 片段之间的过渡自然流畅\n"
      + "2. 术语翻译前后一致\n"
      + "3. 整体风格统一\n\n"
      + "如发现问题，请直接输出修正后的完整译文。如无问题，直接输出原译文。\n\n"
      + "## 翻译片段\n"
  const CombineTail := "\n\n请输出最终译文："

  /** `get_combine_prompt`: the numbered sections, separated by rules,
      between the fixed head and tail. */
  function CombinePrompt(chunks: seq<string>): (r: string)
    ensures StartsWith(r, CombineHead) && EndsWith(r, CombineTail)
    ensures |r| >= |CombineHead| + |CombineTail|
    ensures r[|CombineHead|..|r| - |CombineTail|] == Join(SectionSeparator, Sections(chunks))
    ensures chunks == [] ==> r == CombineHead + CombineTail
  {
    var body := Join(SectionSeparator, Sections(chunks));
    var whole := CombineHead + body + CombineTail;
    assert whole[..|CombineHead|] == CombineHead;
    assert whole[|whole| - |CombineTail|..] == CombineTail;
    assert whole[|CombineHead|..|whole| - |CombineTail|] == body;
    whole
  }

  /** One more chunk appends one separator and one section numbered after
      the others. */
  lemma CombineSnoc(chunks: seq<string>, chunk: string)
    requires chunks != []
    ensures Join(SectionSeparator, Sections(chunks + [chunk])) ==
            Join(SectionSeparator, Sections(chunks)) + SectionSeparator + Section(|chunks|, chunk)
  {
    assert Sections(chunks + [chunk]) == Sections(chunks) + [Section(|chunks|, chunk)];
    JoinSnoc(SectionSeparator, Sections(chunks), Section(|chunks|, chunk));
  }

  /** Text that occurs in a suffix occurs in the whole, shifted. */
  lemma OccursShift(a: string, b: string, pat: string, k: int)
    requires OccursAt(b, pat, k)
    ensures OccursAt(a + b, pat, |a| + k)
  {
    assert (a + b)[|a| + k..|a| + k + |pat|] == b[k..k + |pat|];
  }

  /** Every part occurs in the joined text. */
  lemma {:induction false} JoinHasPart(sep: string, parts: seq<string>, i: nat)
    requires i < |parts|
    ensures exists k :: OccursAt(Join(sep, parts), parts[i], k)
  {
    if i == 0 {
      JoinStartsWithFirst(sep, parts);
      assert OccursAt(Join(sep, parts), parts[0], 0);
    } else {
      JoinHasPart(sep, parts[1..], i - 1);
      var k :| OccursAt(Join(sep, parts[1..]), parts[1..][i - 1], k);
      OccursShift(parts[0] + sep, Join(sep, parts[1..]), parts[i], k);
      assert Join(sep, parts) == (parts[0] + sep) + Join(sep, parts[1..]);
    }
  }

  /** No translated chunk is lost: each one occurs in the merge prompt,
      inside the section carrying its number. */
  lemma CombineHasSection(chunks: seq<string>, i: nat)
    requires i < |chunks|
    ensures exists k :: OccursAt(CombinePrompt(chunks), Section(i, chunks[i]), k)
  {
    var sections := Sections(chunks);
    var body := Join(SectionSeparator, sections);
    JoinHasPart(SectionSeparator, sections, i);
    var k :| OccursAt(body, sections[i], k);
    OccursShift(CombineHead, body, sections[i], k);
    var j := |CombineHead| + k;
    var r := CombinePrompt(chunks);
    assert r == (CombineHead + body) + CombineTail;
    assert r[j..j + |sections[i]|] == (CombineHead + body)[j..j + |sections[i]|];
    assert OccursAt(r, Section(i, chunks[i]), j);
  }

  /** A section's heading line carries the 1-based number, which parses back. */
  lemma SectionNumberReadBack(i: nat, chunk: string)
    ensures var s := Section(i, chunk);
      var header := SectionMark + IntToString(i + 1);
      StartsWith(s, header + "\n") && ParseInt(header[|SectionMark|..]) == Some(i + 1)
  {
    var header := SectionMark + IntToString(i + 1);
    assert Section(i, chunk) == (header + "\n") + chunk;
    assert header[|SectionMark|..] == IntToString(i + 1);
    ParseIntOfIntToString(i + 1);
  }
}
