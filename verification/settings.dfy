/**
 * Configuration: reading typed values from the environment, the parts of
 * the YAML configuration the core depends on (domains, chunking, access
 * keys) and the start-up validation of the assembled configuration.
 *
 * The environment is a map from variable names to values; the YAML data is
 * a decoded JSON object.
 */
module Settings {
  import opened Opt
  import opened Text
  import Json

  type Env = map<string, string>

  // ---------------------------------------------------------------------
  // Environment values.

  /** `_get_env_int`: the parsed value, or the default when the variable is
      unset or is not an integer. */
  function EnvInt(env: Env, key: string, default: int): (r: int)
    ensures key !in env ==> r == default
    ensures key in env && ParseInt(env[key]).None? ==> r == default
    ensures key in env && ParseInt(env[key]).Some? ==> r == ParseInt(env[key]).value
  {
    if key !in env then default
    else match ParseInt(env[key])
      case Some(n) => n
      case None => default
  }

  /** A variable holding a number's decimal text reads back as that
      number, whatever the default. */
  lemma EnvIntOfText(env: Env, key: string, n: int, default: int)
    requires key in env && env[key] == IntToString(n)
    ensures EnvInt(env, key, default) == n
  {
    ParseIntOfIntToString(n);
  }

  const TrueWords: seq<string> := ["true", "1", "yes", "on"]

  /** `_get_env_bool`: the default only when unset; a set value is true
      exactly when, lower-cased, it is one of the four true words. */
  function EnvBool(env: Env, key: string, default: bool): (r: bool)
    ensures key !in env ==> r == default
    ensures key in env ==> (r <==> Lower(env[key]) in TrueWords)
  {
    if key !in env then default else Lower(env[key]) in TrueWords
  }

  /** Once the variable is set, the default no longer matters: "" and any
      unrecognised word read as false even when the default is true. */
  lemma EnvBoolIgnoresDefault(env: Env, key: string)
    requires key in env
    ensures EnvBool(env, key, true) == EnvBool(env, key, false)
    ensures env[key] == "" ==> !EnvBool(env, key, true)
  {
  }

  /** The upper-case spellings are accepted too. */
  lemma EnvBoolCaseInsensitive(env: Env, key: string)
    requires key in env && env[key] in ["TRUE", "True", "YES", "Yes", "ON", "On"]
    ensures EnvBool(env, key, false)
  {
    var v := env[key];
    if v == "TRUE" || v == "True" { LowerIs(v, "true"); }
    else if v == "YES" || v == "Yes" { LowerIs(v, "yes"); }
    else { LowerIs(v, "on"); }
  }

  lemma LowerIs(v: string, w: string)
    requires |v| == |w| && forall i :: 0 <= i < |v| ==> LowerChar(v[i]) == w[i]
    ensures Lower(v) == w
  {
  }

  /** A kept list item: non-empty, stripped, free of the separator. */
  predicate Item(s: string, sep: char) {
    s != "" && IsStripped(s) && sep !in s
  }

  predicate AllItems(items: seq<string>, sep: char) {
    forall i :: 0 <= i < |items| ==> Item(items[i], sep)
  }

  predicate Avoids(items: seq<string>, sep: char) {
    forall i :: 0 <= i < |items| ==> sep !in items[i]
  }

  lemma AvoidsTail(items: seq<string>, sep: char)
    requires items != [] && Avoids(items, sep)
    ensures sep !in items[0] && Avoids(items[1..], sep)
  {
    forall j | 0 <= j < |items[1..]| ensures sep !in items[1..][j] {
      assert items[1..][j] == items[j + 1];
    }
  }

  lemma AllItemsCons(s: string, rest: seq<string>, sep: char)
    requires Item(s, sep) && AllItems(rest, sep)
    ensures AllItems([s] + rest, sep)
  {
    forall i | 0 <= i < |[s] + rest| ensures Item(([s] + rest)[i], sep) {
      if i > 0 { assert ([s] + rest)[i] == rest[i - 1]; }
    }
  }

  lemma StripItem(s: string, sep: char)
    requires sep !in s
    ensures Strip(s) != "" ==> Item(Strip(s), sep)
  {
    StripAvoids(s, sep);
  }

  lemma AllItemsTail(items: seq<string>, sep: char)
    requires items != []
    ensures AllItems(items, sep) ==> Item(items[0], sep) && AllItems(items[1..], sep)
  {
    if AllItems(items, sep) {
      forall j | 0 <= j < |items[1..]| ensures Item(items[1..][j], sep) {
        assert items[1..][j] == items[j + 1];
      }
    }
  }

  /** Each item stripped, the blank ones dropped. */
  function StrippedItems(items: seq<string>, sep: char): (r: seq<string>)
    requires Avoids(items, sep)
    ensures |r| <= |items|
    ensures AllItems(r, sep)
  {
    if items == [] then []
    else
      AvoidsTail(items, sep);
      var rest := StrippedItems(items[1..], sep);
      StripItem(items[0], sep);
      var s := Strip(items[0]);
      if s != "" then AllItemsCons(s, rest, sep); [s] + rest else rest
  }

  /** What one leading piece contributes. */
  function Piece(x: string): seq<string> {
    if Strip(x) == "" then [] else [Strip(x)]
  }

  lemma StrippedItemsCons(x: string, rest: seq<string>, sep: char)
    requires sep !in x && Avoids(rest, sep)
    ensures Avoids([x] + rest, sep)
    ensures StrippedItems([x] + rest, sep) == Piece(x) + StrippedItems(rest, sep)
  {
    var items := [x] + rest;
    assert items[0] == x && items[1..] == rest;
    assert Avoids(items, sep) by {
      forall i | 0 <= i < |items| ensures sep !in items[i] {
        if i > 0 { assert items[i] == rest[i - 1]; }
      }
    }
  }

  /** One step of `StrippedItems` on a list and on its extension. */
  lemma StrippedItemsStep(a: seq<string>, b: seq<string>, sep: char)
    requires a != [] && Avoids(a, sep) && Avoids(b, sep)
    ensures Avoids(a[1..], sep) && Avoids(a[1..] + b, sep) && Avoids(a + b, sep)
    ensures StrippedItems(a, sep) == Piece(a[0]) + StrippedItems(a[1..], sep)
    ensures StrippedItems(a + b, sep) == Piece(a[0]) + StrippedItems(a[1..] + b, sep)
  {
    AvoidsTail(a, sep);
    assert Avoids(a[1..] + b, sep) by {
      forall i | 0 <= i < |a[1..] + b| ensures sep !in (a[1..] + b)[i] {
        if i < |a[1..]| { assert (a[1..] + b)[i] == a[1..][i]; }
        else { assert (a[1..] + b)[i] == b[i - |a[1..]|]; }
      }
    }
    assert a == [a[0]] + a[1..];
    assert a + b == [a[0]] + (a[1..] + b);
    StrippedItemsCons(a[0], a[1..], sep);
    StrippedItemsCons(a[0], a[1..] + b, sep);
  }

  /** Stripping and filtering works piece by piece: the items of a
      concatenation are the items of each part, in order. */
  lemma {:induction false} StrippedItemsAppend(a: seq<string>, b: seq<string>, sep: char)
    requires Avoids(a, sep) && Avoids(b, sep)
    ensures Avoids(a + b, sep)
    ensures StrippedItems(a + b, sep) == StrippedItems(a, sep) + StrippedItems(b, sep)
  {
    if a == [] {
      assert a + b == b;
    } else {
      StrippedItemsStep(a, b, sep);
      StrippedItemsAppend(a[1..], b, sep);
      var p, x, y := Piece(a[0]), StrippedItems(a[1..], sep), StrippedItems(b, sep);
      calc {
        StrippedItems(a + b, sep);
        p + StrippedItems(a[1..] + b, sep);
        p + (x + y);
        { Assoc(p, x, y); }
        (p + x) + y;
        StrippedItems(a, sep) + y;
      }
    }
  }

  /** A piece is kept, stripped, exactly when it is not blank. */
  predicate Yields(items: seq<string>, x: string) {
    x != "" && exists y :: y in items && Strip(y) == x
  }

  lemma InCons<T>(s: seq<T>, y: T)
    requires s != []
    ensures y in s <==> y == s[0] || y in s[1..]
  {
    assert s == [s[0]] + s[1..];
  }

  lemma PieceHas(y: string, x: string)
    ensures x in Piece(y) <==> x != "" && Strip(y) == x
  {
  }

  /** A piece is yielded by a list exactly when its head or its tail yields it. */
  lemma YieldsCons(items: seq<string>, x: string)
    requires items != []
    ensures Yields(items, x) <==> x in Piece(items[0]) || Yields(items[1..], x)
  {
    PieceHas(items[0], x);
    if Yields(items, x) {
      var y :| y in items && Strip(y) == x;
      InCons(items, y);
    }
    if Yields(items[1..], x) {
      var y :| y in items[1..] && Strip(y) == x;
      InCons(items, y);
    }
    if x in Piece(items[0]) {
      InCons(items, items[0]);
    }
  }

  /** The first step of `StrippedItems`, as a piece and the rest. */
  lemma StrippedItemsUncons(items: seq<string>, sep: char)
    requires items != [] && Avoids(items, sep)
    ensures Avoids(items[1..], sep)
    ensures StrippedItems(items, sep) == Piece(items[0]) + StrippedItems(items[1..], sep)
  {
    AvoidsTail(items, sep);
    assert items == [items[0]] + items[1..];
    StrippedItemsCons(items[0], items[1..], sep);
  }

  /** The items are exactly the non-blank stripped pieces. */
  lemma {:induction false} StrippedItemsMembers(items: seq<string>, sep: char, x: string)
    requires Avoids(items, sep)
    ensures x in StrippedItems(items, sep) <==> Yields(items, x)
  {
    if items != [] {
      StrippedItemsUncons(items, sep);
      StrippedItemsMembers(items[1..], sep, x);
      YieldsCons(items, x);
    }
  }

  /** A single piece yields its stripped text, or nothing when blank. */
  lemma StrippedItemsSingle(x: string, sep: char)
    requires sep !in x
    ensures StrippedItems([x], sep) == Piece(x)
  {
    StrippedItemsCons(x, [], sep);
    assert [x] + [] == [x];
  }

  /** A list that is already clean comes back unchanged. */
  lemma {:induction false} StrippedClean(items: seq<string>, sep: char)
    requires AllItems(items, sep)
    ensures Avoids(items, sep)
    ensures StrippedItems(items, sep) == items
  {
    if items != [] {
      AllItemsTail(items, sep);
      StrippedClean(items[1..], sep);
      StrippedKeepsHead(items, sep);
      assert items == [items[0]] + items[1..];
    }
  }

  /** One step of `StrippedItems` on a list whose head is already an item. */
  lemma StrippedKeepsHead(items: seq<string>, sep: char)
    requires items != [] && Avoids(items, sep) && Item(items[0], sep)
    ensures Avoids(items[1..], sep)
    ensures StrippedItems(items, sep) == [items[0]] + StrippedItems(items[1..], sep)
  {
    AvoidsTail(items, sep);
    assert Strip(items[0]) == items[0];
  }

  /** `_get_env_list`: unset gives the default (or []); a set value is
      split at commas, each item stripped, blank items dropped. */
  function EnvList(env: Env, key: string, default: Option<seq<string>>): (r: seq<string>)
    ensures key !in env ==> r == default.GetOr([])
    ensures key in env ==> AllItems(r, ',')
  {
    if key !in env then default.GetOr([])
    else StrippedItems(SplitOn(env[key], ','), ',')
  }

  /** A set variable is read piece by piece: whatever comma-free pieces
      its value is written from, the list holds their non-blank stripped
      texts in order. */
  lemma EnvListPieces(env: Env, key: string, pieces: seq<string>)
    requires key in env && |pieces| >= 1 && Avoids(pieces, ',')
    requires env[key] == Join(",", pieces)
    ensures EnvList(env, key, None) == StrippedItems(pieces, ',')
  {
    SplitOfJoin(pieces, ',');
    assert [','] == ",";
  }

  /** The list holds exactly the non-blank stripped pieces of the value. */
  lemma EnvListMembers(env: Env, key: string, x: string)
    requires key in env
    ensures x in EnvList(env, key, None) <==> Yields(SplitOn(env[key], ','), x)
  {
    StrippedItemsMembers(SplitOn(env[key], ','), ',', x);
  }

  lemma StripSpaced(b: string)
    requires IsStripped(b)
    ensures Strip(" " + b) == b
  {
    assert (" " + b)[1..] == b;
    assert TrimLeft(" " + b) == TrimLeft(b);
  }

  lemma JoinSpacedPair(a: string, b: string)
    ensures Join(",", [a, " " + b]) == a + ", " + b
  {
    JoinCons(",", a, [" " + b]);
    assert [a] + [" " + b] == [a, " " + b];
    assert ", " == "," + " ";
    Assoc(a + ",", " ", b);
  }

  lemma PieceSpaced(b: string)
    requires Item(b, ',')
    ensures ',' !in " " + b
    ensures Piece(" " + b) == [b]
  {
    StripSpaced(b);
  }

  lemma StrippedSpacedPair(a: string, b: string)
    requires Item(a, ',') && Item(b, ',')
    ensures Avoids([a, " " + b], ',')
    ensures StrippedItems([a, " " + b], ',') == [a, b]
  {
    var spaced := " " + b;
    PieceSpaced(b);
    StrippedItemsSingle(spaced, ',');
    assert X: StrippedItems([a, spaced], ',') == Piece(a) + [b] by {
      assert [a, spaced] == [a] + [spaced];
      StrippedItemsCons(a, [spaced], ',');
    }
    assert Piece(a) == [a];
  }

  /** A space after a comma is stripped away: two items written as
      `a, b` are read back as exactly those two items. */
  lemma EnvListSpacedPair(env: Env, key: string, a: string, b: string)
    requires key in env && Item(a, ',') && Item(b, ',')
    requires env[key] == a + ", " + b
    ensures EnvList(env, key, None) == [a, b]
  {
    JoinSpacedPair(a, b);
    StrippedSpacedPair(a, b);
    EnvListPieces(env, key, [a, " " + b]);
  }

  /** `ACCESS_KEYS=k1, k2` gives the two keys, without the space. */
  lemma EnvListSpaced(env: Env)
    requires "ACCESS_KEYS" in env && env["ACCESS_KEYS"] == "k1, k2"
    ensures EnvList(env, "ACCESS_KEYS", None) == ["k1", "k2"]
  {
    assert Item("k1", ',') && Item("k2", ',');
    assert "k1" + ", " + "k2" == "k1, k2";
    EnvListSpacedPair(env, "ACCESS_KEYS", "k1", "k2");
  }

  /** Items that are non-empty, stripped and comma-free survive being
      joined with commas and read back. */
  lemma EnvListRoundTrip(env: Env, key: string, items: seq<string>)
    requires key in env && env[key] == Join(",", items)
    requires AllItems(items, ',')
    ensures EnvList(env, key, None) == items
  {
    if items == [] {
      assert SplitOn("", ',') == [""];
    } else {
      SplitOfJoin(items, ',');
      StrippedClean(items, ',');
    }
  }

  // ---------------------------------------------------------------------
  // YAML sections.

  /** `DomainConfig`: the name and the prompt modifier, "" when absent. */
  datatype DomainConfig = DomainConfig(name: Json.Value, promptModifier: Json.Value)

  function ParseDomainConfig(data: seq<(string, Json.Value)>): (r: DomainConfig)
    ensures !Json.HasKey(data, "name") ==> r.name == Json.JStr("")
    ensures !Json.HasKey(data, "prompt_modifier") ==> r.promptModifier == Json.JStr("")
    ensures Json.HasKey(data, "name") ==> r.name == Json.Get(data, "name", Json.JNull)
    ensures Json.HasKey(data, "prompt_modifier") ==> r.promptModifier == Json.Get(data, "prompt_modifier", Json.JNull)
  {
    DomainConfig(Json.Get(data, "name", Json.JStr("")), Json.Get(data, "prompt_modifier", Json.JStr("")))
  }

  /** A domain section written out with both members reads back as the
      configuration it was written from. */
  lemma DomainConfigRoundTrip(c: DomainConfig)
    ensures ParseDomainConfig([("name", c.name), ("prompt_modifier", c.promptModifier)]) == c
  {
    var d := [("name", c.name), ("prompt_modifier", c.promptModifier)];
    Json.GetUnique(d, 0, Json.JStr(""));
    Json.GetUnique(d, 1, Json.JStr(""));
  }

  /** `_parse_domains`: the object-valued entries, in order; the others are
      skipped. */
  function ParseDomains(data: seq<(string, Json.Value)>): (r: seq<(string, DomainConfig)>)
    ensures |r| <= |data|
    ensures forall i :: 0 <= i < |r| ==>
              exists j :: 0 <= j < |data| && data[j].0 == r[i].0 && data[j].1.JObj?
  {
    if data == [] then []
    else
      var rest := ParseDomains(data[1..]);
      assert forall j :: 0 <= j < |data[1..]| ==> data[1..][j] == data[j + 1];
      if data[0].1.JObj? then [(data[0].0, ParseDomainConfig(data[0].1.fields))] + rest
      else rest
  }

  /** Every object-valued entry is kept. */
  lemma {:induction false} ParseDomainsKeeps(data: seq<(string, Json.Value)>, j: nat)
    requires j < |data| && data[j].1.JObj?
    ensures (data[j].0, ParseDomainConfig(data[j].1.fields)) in ParseDomains(data)
  {
    if j > 0 {
      assert data[1..][j - 1] == data[j];
      ParseDomainsKeeps(data[1..], j - 1);
    }
  }

  /** `ChunkingConfig`: strategy "semantic", 8000 tokens per chunk, 2
      sentences of overlap unless given. */
  datatype ChunkingConfig = ChunkingConfig(strategy: Json.Value, maxChunkTokens: Json.Value, overlapSentences: Json.Value)

  const DefaultChunking := ChunkingConfig(Json.JStr("semantic"), Json.JInt(8000), Json.JInt(2))

  function ParseChunkingConfig(data: seq<(string, Json.Value)>): (r: ChunkingConfig)
    ensures !Json.HasKey(data, "strategy") ==> r.strategy == DefaultChunking.strategy
    ensures !Json.HasKey(data, "max_chunk_tokens") ==> r.maxChunkTokens == DefaultChunking.maxChunkTokens
    ensures !Json.HasKey(data, "overlap_sentences") ==> r.overlapSentences == DefaultChunking.overlapSentences
    ensures Json.HasKey(data, "strategy") ==> r.strategy == Json.Get(data, "strategy", Json.JNull)
    ensures Json.HasKey(data, "max_chunk_tokens") ==> r.maxChunkTokens == Json.Get(data, "max_chunk_tokens", Json.JNull)
    ensures Json.HasKey(data, "overlap_sentences") ==> r.overlapSentences == Json.Get(data, "overlap_sentences", Json.JNull)
  {
    ChunkingConfig(Json.Get(data, "strategy", Json.JStr("semantic")),
                   Json.Get(data, "max_chunk_tokens", Json.JInt(8000)),
                   Json.Get(data, "overlap_sentences", Json.JInt(2)))
  }

  /** A chunking section written out with all three members reads back as
      the configuration it was written from. */
  lemma ChunkingConfigRoundTrip(c: ChunkingConfig)
    ensures ParseChunkingConfig([("strategy", c.strategy), ("max_chunk_tokens", c.maxChunkTokens),
                                 ("overlap_sentences", c.overlapSentences)]) == c
  {
    var d := [("strategy", c.strategy), ("max_chunk_tokens", c.maxChunkTokens),
              ("overlap_sentences", c.overlapSentences)];
    Json.GetUnique(d, 0, Json.JStr("semantic"));
    Json.GetUnique(d, 1, Json.JInt(8000));
    Json.GetUnique(d, 2, Json.JInt(2));
  }

  /** An empty section gives the dataclass defaults. */
  lemma EmptyChunkingIsDefault()
    ensures ParseChunkingConfig([]) == DefaultChunking
  {
  }

  /** `_parse_auth_config`: the ACCESS_KEYS list when it has items, else the
      YAML list (absent counts as empty). */
  function ParseAuthConfig(env: Env, yamlKeys: Option<seq<string>>): (r: seq<string>)
    ensures EnvList(env, "ACCESS_KEYS", None) != [] ==> r == EnvList(env, "ACCESS_KEYS", None)
    ensures EnvList(env, "ACCESS_KEYS", None) == [] ==> r == yamlKeys.GetOr([])
  {
    var envKeys := EnvList(env, "ACCESS_KEYS", None);
    if envKeys != [] then envKeys else yamlKeys.GetOr([])
  }

  /** A blank or comma-only ACCESS_KEYS does not override the YAML list. */
  lemma BlankEnvKeysFallBack(env: Env, yamlKeys: Option<seq<string>>)
    requires "ACCESS_KEYS" in env && AllSpace(env["ACCESS_KEYS"])
    ensures ParseAuthConfig(env, yamlKeys) == yamlKeys.GetOr([])
  {
    var v := env["ACCESS_KEYS"];
    assert SplitOn(v, ',') == [v];
    assert Strip(v) == "";
    assert SplitOn(v, ',')[1..] == [];
  }

  // ---------------------------------------------------------------------
  // Start-up validation.

  /** The parts of `AppConfig` that `validate_config` looks at. */
  datatype AppConfig = AppConfig(
    notionApiKey: string, notionParentPageId: string,
    accessKeys: seq<string>, domains: seq<(string, DomainConfig)>)

  datatype ConfigProblem = NoAnthropicKey | NoParentPage | NoAccessKeys | NoDomains

  function Rank(p: ConfigProblem): nat {
    match p
    case NoAnthropicKey => 0
    case NoParentPage => 1
    case NoAccessKeys => 2
    case NoDomains => 3
  }

  function Message(p: ConfigProblem): string {
    match p
    case NoAnthropicKey => "ANTHROPIC_API_KEY environment variable is required"
    case NoParentPage => "Notion parent_page_id is required when api_key is set"
    case NoAccessKeys => "At least one access key is required in auth.access_keys"
    case NoDomains => "At least one translation domain must be configured"
  }

  /** Each check on its own. */
  predicate Fails(env: Env, cfg: AppConfig, p: ConfigProblem) {
    match p
    case NoAnthropicKey => "ANTHROPIC_API_KEY" !in env || env["ANTHROPIC_API_KEY"] == ""
    case NoParentPage => cfg.notionApiKey != "" && cfg.notionParentPageId == ""
    case NoAccessKeys => cfg.accessKeys == []
    case NoDomains => cfg.domains == []
  }

  /** The problems whose flag is set, in rank order. */
  function Flagged(key: bool, page: bool, keys: bool, domains: bool): (r: seq<ConfigProblem>)
    ensures forall p :: p in r <==>
      match p
      case NoAnthropicKey => key
      case NoParentPage => page
      case NoAccessKeys => keys
      case NoDomains => domains
    ensures forall i, j :: 0 <= i < j < |r| ==> Rank(r[i]) < Rank(r[j])
  {
    (if key then [NoAnthropicKey] else [])
    + (if page then [NoParentPage] else [])
    + (if keys then [NoAccessKeys] else [])
    + (if domains then [NoDomains] else [])
  }

  /** `validate_config`: the failed checks, in order. */
  function ValidateConfig(env: Env, cfg: AppConfig): (r: seq<ConfigProblem>)
    ensures forall p :: p in r <==> Fails(env, cfg, p)
    ensures forall i, j :: 0 <= i < j < |r| ==> Rank(r[i]) < Rank(r[j])
  {
    Flagged(Fails(env, cfg, NoAnthropicKey), Fails(env, cfg, NoParentPage),
            Fails(env, cfg, NoAccessKeys), Fails(env, cfg, NoDomains))
  }

  /** The messages `validate_config` returns, one per failed check, in
      the order of the checks. */
  function ConfigErrors(env: Env, cfg: AppConfig): (r: seq<string>)
    ensures |r| == |ValidateConfig(env, cfg)| <= 4
    ensures forall i :: 0 <= i < |r| ==> r[i] == Message(ValidateConfig(env, cfg)[i])
  {
    var ps := ValidateConfig(env, cfg);
    seq(|ps|, i requires 0 <= i < |ps| => Message(ps[i]))
  }

  /** Distinct checks have distinct messages. */
  lemma MessageInjective(p: ConfigProblem, q: ConfigProblem)
    ensures Message(p) == Message(q) ==> p == q
  {
    if Message(p) == Message(q) {
      assert |Message(p)| == |Message(q)|;
      assert Message(p)[13] == Message(q)[13];
    }
  }

  /** A list of messages made from a list of checks holds a check's
      message exactly when the list holds the check. */
  lemma MessagesOf(ps: seq<ConfigProblem>, r: seq<string>, p: ConfigProblem)
    requires |r| == |ps| && forall i :: 0 <= i < |r| ==> r[i] == Message(ps[i])
    ensures Message(p) in r <==> p in ps
  {
    if Message(p) in r {
      var i :| 0 <= i < |r| && r[i] == Message(p);
      MessageInjective(p, ps[i]);
    }
    if p in ps {
      var i :| 0 <= i < |ps| && ps[i] == p;
      assert r[i] == Message(p);
    }
  }

  /** A check's message is among the errors exactly when that check fails. */
  lemma ConfigErrorsMessages(env: Env, cfg: AppConfig, p: ConfigProblem)
    ensures Message(p) in ConfigErrors(env, cfg) <==> Fails(env, cfg, p)
  {
    MessagesOf(ValidateConfig(env, cfg), ConfigErrors(env, cfg), p);
  }

  /** A configuration without Notion needs no parent page: the Notion check
      fires only for a key without a page. */
  lemma NotionOptional(env: Env, cfg: AppConfig)
    requires cfg.notionApiKey == ""
    ensures NoParentPage !in ValidateConfig(env, cfg)
  {
  }

  /** A configuration passes exactly when the API key is set, Notion is
      either off or has its page, and there are keys and domains. */
  lemma ValidIff(env: Env, cfg: AppConfig)
    ensures ValidateConfig(env, cfg) == [] <==>
      ("ANTHROPIC_API_KEY" in env && env["ANTHROPIC_API_KEY"] != ""
       && (cfg.notionApiKey != "" ==> cfg.notionParentPageId != "")
       && cfg.accessKeys != [] && cfg.domains != [])
  {
    var r := ValidateConfig(env, cfg);
    if r != [] {
      assert r[0] in r;
    }
  }
}
