/**
 * The domain table behind domain-specific translation: for each of the
 * three domain keys a Chinese and an English display name, the extra
 * system-prompt instructions, and two example translations in the
 * interleaved quote/translation format.
 */
module Domains {
  import opened Opt

  datatype DomainInfo = DomainInfo(
    name: string,             // display name in Chinese
    nameEn: string,           // English name
    systemModifier: string,   // extra system-prompt instructions
    examples: seq<string>)    // example translations

  /** The keys of the table, in its insertion order. */
  const Keys: seq<string> := ["tech", "business", "academic"]

  // The instruction texts are long Chinese prose; only their opening
  // sentence is kept here.
  const TechModifier := "你正在翻译技术/编程领域的内容。请特别注意："
  const BusinessModifier := "你正在翻译商务/金融领域的内容。请特别注意："
  const AcademicModifier := "你正在翻译学术研究领域的内容。请特别注意："

  const Tech := DomainInfo(
    "技术/编程", "Technology/Programming", TechModifier,
    ["> The container orchestration platform uses a declarative approach.\n\n容器编排平台采用声明式方法。",
     "> You need to install the dependency first.\n\n你需要先安装这个依赖。"])

  const Business := DomainInfo(
    "商务/金融", "Business/Finance", BusinessModifier,
    ["> The company reported a 15% increase in quarterly revenue.\n\n该公司报告季度营收增长了 15%。",
     "> Investors are concerned about the high P/E ratio.\n\n投资者对高市盈率表示担忧。"])

  const Academic := DomainInfo(
    "学术研究", "Academic Research", AcademicModifier,
    ["> The study found a significant correlation between the two variables (p < 0.05).\n\n研究发现两个变量之间存在显著相关性（p < 0.05）。",
     "> According to Smith et al. (2023), this methodology has been widely adopted.\n\n根据 Smith 等人（2023）的研究，这种方法论已被广泛采用。"])

  /** `DOMAIN_PROMPTS.get(key)`. */
  function Lookup(key: string): (r: Option<DomainInfo>)
    ensures r.Some? <==> key in Keys
    ensures r.Some? ==> r.value.systemModifier != "" && |r.value.examples| == 2
  {
    if key == "tech" then Some(Tech)
    else if key == "business" then Some(Business)
    else if key == "academic" then Some(Academic)
    else None
  }

  /** `get_domain_prompt`: the table's instructions, or "" for an unknown key. */
  function DomainPrompt(key: string): (r: string)
    ensures r == "" <==> key !in Keys
    ensures key in Keys ==> r == Lookup(key).value.systemModifier
  {
    match Lookup(key)
    case Some(info) => info.systemModifier
    case None => ""
  }

  /** `get_domain_name`: Chinese for "zh", English for any other language,
      the key itself when unknown. */
  function DomainName(key: string, language: string): (r: string)
    ensures key !in Keys ==> r == key
    ensures key in Keys && language == "zh" ==> r == Lookup(key).value.name
    ensures key in Keys && language != "zh" ==> r == Lookup(key).value.nameEn
  {
    match Lookup(key)
    case Some(info) => if language == "zh" then info.name else info.nameEn
    case None => key
  }

  /** `get_available_domains`: key and Chinese name, in table order. */
  function AvailableDomains(): (r: seq<(string, string)>)
    ensures |r| == |Keys|
    ensures forall i :: 0 <= i < |r| ==> r[i].0 == Keys[i] && r[i].1 == DomainName(Keys[i], "zh")
  {
    seq(|Keys|, i requires 0 <= i < |Keys| => (Keys[i], Lookup(Keys[i]).value.name))
  }

  /** `get_domain_examples`: the two table examples, or [] when unknown. */
  function DomainExamples(key: string): (r: seq<string>)
    ensures key !in Keys ==> r == []
    ensures key in Keys ==> r == Lookup(key).value.examples && |r| == 2
  {
    match Lookup(key)
    case Some(info) => info.examples
    case None => []
  }

  /** The key whose Chinese display name is `name`, found by scanning the
      available domains. */
  function KeyOfName(name: string): Option<string> {
    KeyOfNameIn(AvailableDomains(), name)
  }

  function KeyOfNameIn(entries: seq<(string, string)>, name: string): Option<string> {
    if entries == [] then None
    else if entries[0].1 == name then Some(entries[0].0)
    else KeyOfNameIn(entries[1..], name)
  }

  /** The Chinese names are distinct, so a known key is recovered from the
      name shown for it, and an unknown key is shown as itself. */
  lemma NameIdentifiesKey(key: string)
    ensures key in Keys ==> KeyOfName(DomainName(key, "zh")) == Some(key)
    ensures key !in Keys ==> DomainName(key, "zh") == key
  {
    var av := AvailableDomains();
    assert av == [("tech", "技术/编程"), ("business", "商务/金融"), ("academic", "学术研究")];
    assert av[1..] == [("business", "商务/金融"), ("academic", "学术研究")];
    assert av[1..][1..] == [("academic", "学术研究")];
  }
}
