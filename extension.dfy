/**
 * The extension's small decision rules around the pipeline: where the diff is fetched
 * from, which service URLs are accepted and how the relay endpoint is formed, and which
 * model replies the direct mode accepts.
 */
module ExtensionRules {
  import opened Wrappers
  import opened Text
  import opened Json

  // ---------------------------------------------------------------------------
  // Diff URL
  // ---------------------------------------------------------------------------

  const DiffSuffix := ".diff"

  /** The pull request's diff URL: `.diff` appended unless already there. */
  function DiffUrl(prUrl: string): (r: string)
    ensures EndsWith(r, DiffSuffix)
    ensures StartsWith(r, prUrl)
    ensures r == prUrl <==> EndsWith(prUrl, DiffSuffix)
    ensures r != prUrl ==> r == prUrl + DiffSuffix
  {
    if EndsWith(prUrl, DiffSuffix) then prUrl else prUrl + DiffSuffix
  }

  /** Deriving the diff URL twice is deriving it once. */
  lemma {:induction false} DiffUrlIdempotent(prUrl: string)
    ensures DiffUrl(DiffUrl(prUrl)) == DiffUrl(prUrl)
  {
    assert EndsWith(DiffUrl(prUrl), DiffSuffix);
  }

  // ---------------------------------------------------------------------------
  // Service URL
  // ---------------------------------------------------------------------------

  /** The parts of `new URL(url)` the rule reads; parsing itself is not modelled, and a
      string that does not parse is `None`. */
  datatype ParsedUrl = ParsedUrl(protocol: string, href: string)

  const AllowedSchemes: seq<string> := ["http:", "https:"]

  const BadFormatMessage := "Invalid service URL format."

  function BadSchemeMessage(protocol: string): string {
    "Invalid URL scheme: " + protocol + ". Only HTTP and HTTPS are allowed."
  }

  /** `validateUrl`: the normalised URL when it parses and its protocol is `http:` or
      `https:`. The scheme error is rethrown unchanged by the `catch`, since its message
      starts with "Invalid URL scheme"; every other failure becomes the format error. */
  function ValidateUrl(parsed: Option<ParsedUrl>): (r: Result<string, string>)
    ensures r.Ok? <==> parsed.Some? && parsed.value.protocol in AllowedSchemes
    ensures r.Ok? ==> r.value == parsed.value.href
    ensures parsed.None? ==> r == Err(BadFormatMessage)
    ensures parsed.Some? && parsed.value.protocol !in AllowedSchemes ==>
              r == Err(BadSchemeMessage(parsed.value.protocol))
  {
    match parsed
    case None => Err(BadFormatMessage)
    case Some(u) =>
      if u.protocol in AllowedSchemes then Ok(u.href) else Err(BadSchemeMessage(u.protocol))
  }

  /** The two error messages can be told apart, which is what the `catch` relies on. */
  lemma {:induction false} SchemeErrorRethrown(protocol: string)
    ensures StartsWith(BadSchemeMessage(protocol), "Invalid URL scheme")
    ensures !StartsWith(BadFormatMessage, "Invalid URL scheme")
  {
    var m := BadSchemeMessage(protocol);
    assert m[..18] == "Invalid URL scheme";
    assert BadFormatMessage[8] == 's';
  }

  /** Only the two web schemes are accepted. */
  lemma {:induction false} SchemeRule(protocol: string)
    ensures protocol in AllowedSchemes <==> protocol == "http:" || protocol == "https:"
  {
  }

  /** The relay endpoint: `generate` joined onto the base with exactly one slash. */
  function GenerateUrl(base: string): (r: string)
    ensures EndsWith(r, "/generate")
    ensures StartsWith(r, base)
    ensures EndsWith(base, "/") ==> r == base + "generate"
    ensures !EndsWith(base, "/") ==> r == base + "/generate"
  {
    if EndsWith(base, "/") then base + "generate" else base + "/generate"
  }

  /** Joining adds a doubled slash only where the base already ends with one. */
  lemma {:induction false} GenerateUrlSingleSlash(base: string)
    ensures EndsWith(GenerateUrl(base), "//generate") ==> EndsWith(base, "//")
  {
    var r := GenerateUrl(base);
    if |r| >= 10 && r[|r| - 10..] == "//generate" {
      assert r[|r| - 10] == '/' && r[|r| - 9] == '/';
      if EndsWith(base, "/") {
        assert r == base + "generate";
        assert base[|base| - 2..] == [r[|r| - 10], r[|r| - 9]];
      }
    }
  }

  /** `generateRemote`'s target: the validated base with `/generate` joined on. */
  function RemoteEndpoint(serviceUrl: Option<ParsedUrl>): (r: Result<string, string>)
    ensures r.Ok? <==> ValidateUrl(serviceUrl).Ok?
    ensures r.Ok? ==> EndsWith(r.value, "/generate") && StartsWith(r.value, serviceUrl.value.href)
    ensures r.Err? ==> r == ValidateUrl(serviceUrl)
  {
    match ValidateUrl(serviceUrl)
    case Ok(base) => Ok(GenerateUrl(base))
    case Err(e) => Err(e)
  }

  // ---------------------------------------------------------------------------
  // Direct-mode response check
  // ---------------------------------------------------------------------------

  /** How `generateLocal` can fail before or after the model call it makes. `NullReply`
      is the TypeError of reading `title` off a `null` reply. */
  datatype LocalError = MissingApiKey | InvalidReply | NullReply | MissingFields

  function LocalErrorMessage(e: LocalError): string
    requires e != NullReply
  {
    match e
    case MissingApiKey => "Gemini API Key is missing for Local mode."
    case InvalidReply => "The AI returned an invalid response. Please try again."
    case MissingFields => "The AI response is missing required title or description fields."
  }

  /** `generateLocal` around its model call: `parsed` is `JSON.parse` of the model's text,
      `None` when it throws. The reply is passed on verbatim once both fields are truthy;
      nothing strips a code fence on this path. */
  function GenerateLocal(apiKey: string, parsed: Option<JsValue>): (r: Result<JsValue, LocalError>)
    ensures r.Ok? ==> parsed.Some? && r.value == parsed.value
  {
    if apiKey == "" then Err(MissingApiKey)
    else match parsed
      case None => Err(InvalidReply)
      case Some(v) =>
        if v.JNull? then Err(NullReply)
        else if !PropertyTruthy(v, "title") || !PropertyTruthy(v, "description") then Err(MissingFields)
        else Ok(v)
  }

  /** A reply is accepted exactly when a key is configured, it parses to an object, and
      both its `title` and `description` are truthy; the key check comes first. */
  lemma {:induction false} LocalAcceptsIff(apiKey: string, parsed: Option<JsValue>)
    ensures GenerateLocal(apiKey, parsed).Ok? <==>
      apiKey != "" && parsed.Some? && parsed.value.JObject?
      && "title" in parsed.value.fields && Truthy(parsed.value.fields["title"])
      && "description" in parsed.value.fields && Truthy(parsed.value.fields["description"])
    ensures apiKey == "" ==> GenerateLocal(apiKey, parsed) == Err(MissingApiKey)
    ensures apiKey != "" && parsed.None? ==> GenerateLocal(apiKey, parsed) == Err(InvalidReply)
  {
    if apiKey != "" && parsed.Some? && !parsed.value.JNull? {
      var v := parsed.value;
      assert PropertyTruthy(v, "title") <==> v.JObject? && "title" in v.fields && Truthy(v.fields["title"]);
      assert PropertyTruthy(v, "description") <==> v.JObject? && "description" in v.fields && Truthy(v.fields["description"]);
    }
  }

  /** An empty title is rejected like a missing one: the guard tests truthiness. */
  lemma {:induction false} EmptyTitleRejected(apiKey: string, fields: map<string, JsValue>)
    requires apiKey != "" && "title" in fields && fields["title"] == JString("")
    ensures GenerateLocal(apiKey, Some(JObject(fields))) == Err(MissingFields)
  {
    assert !PropertyTruthy(JObject(fields), "title");
  }
}
