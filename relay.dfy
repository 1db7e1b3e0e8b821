/**
 * The relay service's `/generate` handler: the cache key it derives from a request, the
 * in-memory cache in front of the model, the fence stripping applied to the model's
 * text, and the order of the handler's checks. The model call and `JSON.parse` are
 * function parameters: `model` maps a prompt to the text the model answers, `None` when
 * the call throws, and `parse` maps a text to the value it parses to, `None` when it
 * throws.
 */
module Relay {
  import opened Wrappers
  import opened Text
  import opened Json
  import opened Prompts

  // ---------------------------------------------------------------------------
  // 32-bit arithmetic and the cache key
  // ---------------------------------------------------------------------------

  const TwoTo32: int := 0x1_0000_0000
  const TwoTo31: int := 0x8000_0000

  predicate IsInt32(x: int) {
    -TwoTo31 <= x < TwoTo31
  }

  /** ECMAScript ToInt32: the signed 32-bit integer congruent to `x` modulo 2^32. */
  function ToInt32(x: int): (r: int)
    ensures IsInt32(r)
    ensures (x - r) % TwoTo32 == 0
    ensures IsInt32(x) ==> r == x
  {
    var m := x % TwoTo32;
    if m >= TwoTo31 then m - TwoTo32 else m
  }

  /** Integers congruent modulo 2^32 have the same ToInt32. */
  lemma {:induction false} ToInt32Congruent(a: int, b: int, q: int)
    requires a - b == q * TwoTo32
    ensures ToInt32(a) == ToInt32(b)
  {
    assert a % TwoTo32 == b % TwoTo32;
  }

  /** One step of the rolling hash as the loop body writes it: `(hash << 5) - hash + c`,
      where `<<` first converts to 32 bits, then `hash & hash` converts the sum. */
  function SourceStep(hash: int, c: int): int {
    ToInt32(ToInt32(hash * 32) - hash + c)
  }

  /** The step the hash is specified by: ToInt32(31 * h + c). */
  function HashStep(hash: int, c: int): (r: int)
    ensures IsInt32(r)
  {
    ToInt32(31 * hash + c)
  }

  /** The shifted form of the loop body computes the specified step exactly. */
  lemma {:induction false} SourceStepIsHashStep(hash: int, c: int)
    ensures SourceStep(hash, c) == HashStep(hash, c)
  {
    var s := ToInt32(hash * 32);
    var q := (hash * 32 - s) / TwoTo32;
    assert hash * 32 - s == q * TwoTo32;
    ToInt32Congruent(s - hash + c, 31 * hash + c, -q);
  }

  /** The UTF-16 code units of a string, which `charCodeAt` and `length` count: a
      character outside the Basic Multilingual Plane is a surrogate pair. */
  function Utf16(s: string): (r: seq<int>)
    ensures forall k :: 0 <= k < |r| ==> 0 <= r[k] < 0x1_0000
    ensures |r| >= |s|
  {
    if |s| == 0 then []
    else
      var n := s[0] as int;
      var head := if n < 0x1_0000 then [n]
                  else [0xD800 + (n - 0x1_0000) / 0x400, 0xDC00 + (n - 0x1_0000) % 0x400];
      head + Utf16(s[1..])
  }

  /** Text in the Basic Multilingual Plane is one code unit per character, its code. */
  lemma {:induction false} Utf16Bmp(s: string)
    requires forall k :: 0 <= k < |s| ==> s[k] as int < 0x1_0000
    ensures |Utf16(s)| == |s|
    ensures forall k :: 0 <= k < |s| ==> Utf16(s)[k] == s[k] as int
    decreases |s|
  {
    if |s| > 0 {
      Utf16Bmp(s[1..]);
      assert Utf16(s) == [s[0] as int] + Utf16(s[1..]);
    }
  }

  /** A character outside the Basic Multilingual Plane becomes a high and a low surrogate,
      which recombine to its code. */
  lemma {:induction false} Utf16Supplementary(c: char)
    requires c as int >= 0x1_0000
    ensures var u := Utf16([c]);
      |u| == 2 && 0xD800 <= u[0] < 0xDC00 && 0xDC00 <= u[1] < 0xE000
      && 0x1_0000 + (u[0] - 0xD800) * 0x400 + (u[1] - 0xDC00) == c as int
  {
    var n := c as int;
    assert [c][1..] == [];
    assert Utf16([c]) == [0xD800 + (n - 0x1_0000) / 0x400, 0xDC00 + (n - 0x1_0000) % 0x400];
  }

  /** The hash after folding `HashStep` over `units` from the left, starting at 0. */
  function HashOf(units: seq<int>): (r: int)
    ensures IsInt32(r)
  {
    if |units| == 0 then 0 else HashStep(HashOf(units[..|units| - 1]), units[|units| - 1])
  }

  /** The string the key is computed from: the commits run together, then the diff. */
  function KeyContent(commits: seq<string>, diff: string): string {
    Join(commits, "") + diff
  }

  /** The cache key of a request: the decimal rendering of the hash of its content. */
  function CacheKey(commits: seq<string>, diff: string): string {
    IntToString(HashOf(Utf16(KeyContent(commits, diff))))
  }

  /** `generateCacheKey`: the loop over the content's code units. */
  method GenerateCacheKey(commits: seq<string>, diff: string) returns (key: string)
    ensures key == CacheKey(commits, diff)
    ensures IsInt32(ParseInt(key))
  {
    var content := Join(commits, "") + diff;
    var units := Utf16(content);
    var hash := 0;
    var i := 0;
    while i < |units|
      invariant 0 <= i <= |units|
      invariant hash == HashOf(units[..i])
    {
      var c := units[i];
      SourceStepIsHashStep(hash, c);
      assert units[..i + 1][..i] == units[..i];
      hash := ToInt32(ToInt32(hash * 32) - hash + c);
      i := i + 1;
    }
    assert units[..i] == units;
    key := IntToString(hash);
    IntToStringValue(hash);
  }

  /** Two requests share a key exactly when their hashes agree, and requests with the same
      content always do. */
  lemma {:induction false} CacheKeyIff(c1: seq<string>, d1: string, c2: seq<string>, d2: string)
    ensures CacheKey(c1, d1) == CacheKey(c2, d2) <==>
      HashOf(Utf16(KeyContent(c1, d1))) == HashOf(Utf16(KeyContent(c2, d2)))
    ensures KeyContent(c1, d1) == KeyContent(c2, d2) ==> CacheKey(c1, d1) == CacheKey(c2, d2)
  {
    IntToStringInjective(HashOf(Utf16(KeyContent(c1, d1))), HashOf(Utf16(KeyContent(c2, d2))));
  }

  /** Splitting the same text into commits differently gives the same key: the commit
      boundaries are not part of the content. */
  lemma {:induction false} CommitBoundaryCollision(c1: seq<string>, c2: seq<string>, diff: string)
    requires c1 == ["ab"] && c2 == ["a", "b"]
    ensures CacheKey(c1, diff) == CacheKey(c2, diff)
  {
    assert Join(c2, "") == "a" + "" + Join(["b"], "");
    assert KeyContent(c1, diff) == KeyContent(c2, diff);
  }

  /** Different contents can collide too: "Aa" and "BB" both hash to 2112. */
  lemma {:induction false} ContentCollision(c1: seq<string>, c2: seq<string>)
    requires c1 == ["Aa"] && c2 == ["BB"]
    ensures KeyContent(c1, "") != KeyContent(c2, "")
    ensures CacheKey(c1, "") == CacheKey(c2, "")
  {
    assert KeyContent(c1, "") == "Aa";
    assert KeyContent(c2, "") == "BB";
    assert "Aa"[1] != "BB"[1];
    assert HashOf(Utf16("Aa")) == 2112 by {
      HashOfTwoChars("Aa");
    }
    assert HashOf(Utf16("BB")) == 2112 by {
      HashOfTwoChars("BB");
    }
  }

  /** The hash of a two-character string outside the surrogate range. */
  lemma {:induction false} HashOfTwoChars(s: string)
    requires |s| == 2 && s[0] as int < 0x1_0000 && s[1] as int < 0x1_0000
    ensures HashOf(Utf16(s)) == HashStep(HashStep(0, s[0] as int), s[1] as int)
  {
    var a, b := s[0] as int, s[1] as int;
    assert Utf16(s[1..][1..]) == [];
    assert Utf16(s[1..]) == [b];
    assert Utf16(s) == [a, b];
    assert HashOf([a]) == HashStep(0, a) by {
      assert [a][..0] == [];
    }
    assert HashOf([a, b]) == HashStep(HashOf([a]), b) by {
      assert [a, b][..1] == [a];
    }
  }

  // ---------------------------------------------------------------------------
  // Code fences
  // ---------------------------------------------------------------------------

  const OpeningFence := "```json"
  const ClosingFence := "```"

  /** The first replacement, of the pattern `^```json\s*` with nothing: the fence at the
      very start and all whitespace after it. */
  function DropOpeningFence(s: string): (r: string)
    ensures |r| <= |s| && r == s[|s| - |r|..]
    ensures !StartsWith(s, OpeningFence) ==> r == s
    ensures StartsWith(s, OpeningFence) ==> |r| <= |s| - |OpeningFence| && (|r| > 0 ==> !IsJsSpace(r[0]))
    ensures StartsWith(s, OpeningFence) ==> forall k :: |OpeningFence| <= k < |s| - |r| ==> IsJsSpace(s[k])
  {
    if StartsWith(s, OpeningFence) then
      var a := s[|OpeningFence|..];
      var r := TrimStart(a);
      assert forall k :: |OpeningFence| <= k < |s| - |r| ==> s[k] == a[k - |OpeningFence|];
      r
    else s
  }

  /** The second replacement, of the pattern `\s*```$` with nothing: the fence at the very
      end and all whitespace before it.
      The leftmost match starts where the whitespace run before the final fence starts. */
  function DropClosingFence(s: string): (r: string)
    ensures |r| <= |s| && r == s[..|r|]
    ensures !EndsWith(s, ClosingFence) ==> r == s
    ensures EndsWith(s, ClosingFence) ==> |r| <= |s| - |ClosingFence| && (|r| > 0 ==> !IsJsSpace(r[|r| - 1]))
    ensures EndsWith(s, ClosingFence) ==> forall k :: |r| <= k < |s| - |ClosingFence| ==> IsJsSpace(s[k])
  {
    if EndsWith(s, ClosingFence) then
      var a := s[..|s| - |ClosingFence|];
      var r := TrimEnd(a);
      assert forall k :: |r| <= k < |s| - |ClosingFence| ==> s[k] == a[k];
      r
    else s
  }

  /** The cleanup of the model's text: both replacements, opening fence first. */
  function StripFences(s: string): string {
    DropClosingFence(DropOpeningFence(s))
  }

  /** A text with no fence at either end is passed to `JSON.parse` unchanged. */
  lemma {:induction false} StripFencesUntouched(s: string)
    requires !StartsWith(s, OpeningFence) && !EndsWith(s, ClosingFence)
    ensures StripFences(s) == s
  {
  }

  /** A body fenced as "```json", whitespace, body, whitespace, "```" comes back exactly,
      whenever the body itself starts and ends with a non-whitespace character. */
  lemma {:induction false} StripFencesWrapped(before: string, body: string, after: string)
    requires forall k :: 0 <= k < |before| ==> IsJsSpace(before[k])
    requires forall k :: 0 <= k < |after| ==> IsJsSpace(after[k])
    requires |body| > 0 && !IsJsSpace(body[0]) && !IsJsSpace(body[|body| - 1])
    ensures StripFences(OpeningFence + before + body + after + ClosingFence) == body
  {
    var s := OpeningFence + before + body + after + ClosingFence;
    assert s[..7] == OpeningFence;
    assert s[7..] == before + (body + after + ClosingFence);
    TrimStartSpaces(before, body + after + ClosingFence);
    var o := body + after + ClosingFence;
    assert DropOpeningFence(s) == o;
    assert o[|o| - 3..] == ClosingFence;
    assert o[..|o| - 3] == body + after;
    TrimEndSpaces(body, after);
  }

  /** Leading whitespace before a non-whitespace character is exactly what `trimStart`
      removes. */
  lemma {:induction false} TrimStartSpaces(w: string, t: string)
    requires forall k :: 0 <= k < |w| ==> IsJsSpace(w[k])
    requires |t| > 0 && !IsJsSpace(t[0])
    ensures TrimStart(w + t) == t
    decreases |w|
  {
    if |w| == 0 {
      assert w + t == t;
    } else {
      assert (w + t)[1..] == w[1..] + t;
      TrimStartSpaces(w[1..], t);
    }
  }

  /** Trailing whitespace after a non-whitespace character is exactly what `trimEnd`
      removes. */
  lemma {:induction false} TrimEndSpaces(t: string, w: string)
    requires forall k :: 0 <= k < |w| ==> IsJsSpace(w[k])
    requires |t| > 0 && !IsJsSpace(t[|t| - 1])
    ensures TrimEnd(t + w) == t
    decreases |w|
  {
    if |w| == 0 {
      assert t + w == t;
    } else {
      assert (t + w)[..|t + w| - 1] == t + w[..|w| - 1];
      TrimEndSpaces(t, w[..|w| - 1]);
    }
  }

  // ---------------------------------------------------------------------------
  // The cache
  // ---------------------------------------------------------------------------

  /** The process-wide `Map` from cache key to parsed model reply. It has no bound and no
      eviction. */
  class Cache {
    var entries: map<string, JsValue>

    constructor()
      ensures entries == map[]
    {
      entries := map[];
    }

    /** `cache.has(key)`. */
    method Has(key: string) returns (b: bool)
      ensures b <==> key in entries
    {
      b := key in entries;
    }

    /** `cache.get(key)` for a key that is present. */
    method Get(key: string) returns (v: JsValue)
      requires key in entries
      ensures v == entries[key]
    {
      v := entries[key];
    }

    /** `cache.set(key, v)`: the key now maps to `v` and every other entry is as before. */
    method Set(key: string, v: JsValue)
      modifies this
      ensures key in entries && entries[key] == v
      ensures forall k :: k != key ==> (k in entries <==> k in old(entries))
      ensures forall k :: k != key && k in entries ==> entries[k] == old(entries)[k]
      ensures entries == old(entries)[key := v]
    {
      entries := entries[key := v];
    }
  }

  // ---------------------------------------------------------------------------
  // The handler
  // ---------------------------------------------------------------------------

  /** The relay's settings, read once from the environment. */
  datatype Config = Config(apiKey: string, maxCommits: int, maxDiff: int, head: string)

  /** What the handler sends: the parsed data (status 200), or a status with an error. */
  datatype Reply = Served(data: JsValue) | Failed(status: int, error: string)

  const MissingKeyError := "Service Configuration Error: Missing Gemini API Key."
  const GenerationError := "Failed to generate content"

  /** The reply together with the cache contents after the request. */
  datatype Outcome = Outcome(reply: Reply, entries: map<string, JsValue>)

  /** The prompt the relay sends for a request. */
  function RequestPrompt(cfg: Config, commits: seq<string>, diff: string): string {
    RelayPrompt(cfg.head, commits, diff, cfg.maxCommits, cfg.maxDiff)
  }

  /** The data the model's answer to a request parses to, if the call and the parse both
      succeed. */
  function ModelData(cfg: Config, commits: seq<string>, diff: string,
                     model: string -> Option<string>, parse: string -> Option<JsValue>): Option<JsValue>
  {
    match model(RequestPrompt(cfg, commits, diff))
    case None => None
    case Some(text) => parse(StripFences(text))
  }

  /** One `/generate` request against cache contents `entries`: the key check first, then
      the cache, then the model; only parsed data is stored. */
  function Respond(cfg: Config, entries: map<string, JsValue>, commits: seq<string>, diff: string,
                   model: string -> Option<string>, parse: string -> Option<JsValue>): Outcome
  {
    if cfg.apiKey == "" then Outcome(Failed(500, MissingKeyError), entries)
    else
      var key := CacheKey(commits, diff);
      if key in entries then Outcome(Served(entries[key]), entries)
      else match ModelData(cfg, commits, diff, model, parse)
        case Some(data) => Outcome(Served(data), entries[key := data])
        case None => Outcome(Failed(500, GenerationError), entries)
  }

  /** The service process: its settings and its cache. */
  class Service {
    const cfg: Config
    const cache: Cache

    constructor(cfg: Config)
      ensures this.cfg == cfg && fresh(cache) && cache.entries == map[]
    {
      this.cfg := cfg;
      cache := new Cache();
    }

    /** The `/generate` handler. */
    method Generate(commits: seq<string>, diff: string,
                    model: string -> Option<string>, parse: string -> Option<JsValue>) returns (reply: Reply)
      modifies cache
      ensures var out := Respond(cfg, old(cache.entries), commits, diff, model, parse);
        reply == out.reply && cache.entries == out.entries
    {
      if cfg.apiKey == "" {
        return Failed(500, MissingKeyError);
      }
      var key := GenerateCacheKey(commits, diff);
      var hit := cache.Has(key);
      if hit {
        var v := cache.Get(key);
        return Served(v);
      }
      var prompt := RelayPrompt(cfg.head, commits, diff, cfg.maxCommits, cfg.maxDiff);
      var answer := model(prompt);
      if answer.None? {
        return Failed(500, GenerationError);
      }
      var data := parse(StripFences(answer.value));
      if data.None? {
        return Failed(500, GenerationError);
      }
      cache.Set(key, data.value);
      return Served(data.value);
    }
  }

  // ---------------------------------------------------------------------------
  // Properties of the handler
  // ---------------------------------------------------------------------------

  /** Without an API key every request fails with the configuration error, cached or not,
      and the cache is untouched. */
  lemma {:induction false} MissingKeyFirst(cfg: Config, entries: map<string, JsValue>, commits: seq<string>, diff: string,
                                           model: string -> Option<string>, parse: string -> Option<JsValue>)
    requires cfg.apiKey == ""
    ensures Respond(cfg, entries, commits, diff, model, parse) == Outcome(Failed(500, MissingKeyError), entries)
  {
  }

  /** A cached request is answered from the cache whatever the model would say: the model
      is not consulted and the cache does not change. */
  lemma {:induction false} CacheHitIgnoresModel(cfg: Config, entries: map<string, JsValue>, commits: seq<string>, diff: string,
                                                m1: string -> Option<string>, p1: string -> Option<JsValue>,
                                                m2: string -> Option<string>, p2: string -> Option<JsValue>)
    requires cfg.apiKey != "" && CacheKey(commits, diff) in entries
    ensures Respond(cfg, entries, commits, diff, m1, p1) == Respond(cfg, entries, commits, diff, m2, p2)
    ensures Respond(cfg, entries, commits, diff, m1, p1) == Outcome(Served(entries[CacheKey(commits, diff)]), entries)
  {
  }

  /** A miss stores exactly the parsed data under the request's key when the model call and
      the parse succeed, and leaves the cache as it was otherwise, replying 500. */
  lemma {:induction false} MissStoresOnlyParsed(cfg: Config, entries: map<string, JsValue>, commits: seq<string>, diff: string,
                                                model: string -> Option<string>, parse: string -> Option<JsValue>)
    requires cfg.apiKey != "" && CacheKey(commits, diff) !in entries
    ensures var out := Respond(cfg, entries, commits, diff, model, parse);
      var data := ModelData(cfg, commits, diff, model, parse);
      (data.Some? ==> out.reply == Served(data.value)
                      && out.entries == entries[CacheKey(commits, diff) := data.value])
      && (data.None? ==> out == Outcome(Failed(500, GenerationError), entries))
  {
  }

  /** The cache only grows: an entry once stored is never replaced or removed, and at most
      the request's own key is added. */
  lemma {:induction false} CacheOnlyGrows(cfg: Config, entries: map<string, JsValue>, commits: seq<string>, diff: string,
                                          model: string -> Option<string>, parse: string -> Option<JsValue>)
    ensures var after := Respond(cfg, entries, commits, diff, model, parse).entries;
      (forall k :: k in entries ==> k in after && after[k] == entries[k])
      && (forall k :: k in after && k !in entries ==> k == CacheKey(commits, diff))
  {
  }

  /** A failed reply never changes the cache. */
  lemma {:induction false} FailureLeavesCache(cfg: Config, entries: map<string, JsValue>, commits: seq<string>, diff: string,
                                              model: string -> Option<string>, parse: string -> Option<JsValue>)
    ensures var out := Respond(cfg, entries, commits, diff, model, parse);
      out.reply.Failed? ==> out.entries == entries && out.reply.status == 500
  {
  }

  /** Once a request has been served, repeating it (or sending any request with the same
      key) gets the same data back without consulting the model again. */
  lemma {:induction false} RepeatServedFromCache(cfg: Config, entries: map<string, JsValue>, commits: seq<string>, diff: string,
                                                 model: string -> Option<string>, parse: string -> Option<JsValue>,
                                                 commits2: seq<string>, diff2: string,
                                                 model2: string -> Option<string>, parse2: string -> Option<JsValue>)
    requires Respond(cfg, entries, commits, diff, model, parse).reply.Served?
    requires CacheKey(commits2, diff2) == CacheKey(commits, diff)
    ensures var first := Respond(cfg, entries, commits, diff, model, parse);
      Respond(cfg, first.entries, commits2, diff2, model2, parse2) == Outcome(first.reply, first.entries)
  {
  }
}
