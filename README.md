# pr-please pipeline, modelled in Dafny

pr-please is a browser extension that writes a pull request's title and description. It
uses Gemini, called either directly or through a small relay service. This project
models the deterministic part of that system:

- **Diff filter** (`filterDiff`). It splits the unified diff into per-file chunks on the
  literal `"diff --git "`. A whitespace-only chunk becomes empty. A lockfile or `.env`
  chunk becomes `(Skipped <name>)`. A chunk of more than 50 lines is cut to 50 lines
  plus a `... (truncated k lines)` banner.
- **Diff cleaner** (`cleanGitDiff`). Six line-anchored substitutions and one
  whole-text newline collapse run in a fixed order, then the result is trimmed. Each pattern is
  written out as a predicate on one line. Lines are split on the four ECMAScript line
  terminators, which is how the `m` flag reads `^` and `$`.
- **Prompt builders**. These are the extension's `constructPrompt` and the relay's
  template. The instruction wording is a parameter. What is modelled is the commit
  list, the diff excerpt, and the JavaScript `slice`/`substring` bounds applied to them.
- **URL and reply rules**. The `.diff` suffix, `validateUrl`, the `/generate` join, and
  the title/description check in the direct mode.
- **The relay's `/generate` handler**. The 32-bit rolling hash that forms the cache key
  (`generateCacheKey`, a method with a loop invariant). The in-memory cache (a class).
  The stripping of code fences from the model's text. The order of the handler's
  checks (`Relay.Service.Generate`, proved against the function `Relay.Respond`).
- **API-key obfuscation** (`obfuscateApiKey` and `deobfuscateApiKey`). XOR with the
  18-byte key `PrPlease2024ExtKey`, cycling by index, done by array methods. The XOR is
  wrapped in Base64. `btoa` and `atob` are modelled as the HTML standard's
  forgiving-base64 encode and decode, over the alphabet of section 4 of RFC 4648.

Modules:

| module | file | contents |
|---|---|---|
| `Wrappers` | `wrappers.dfy` | `Option` and `Result` |
| `Text` | `text.dfy` | JavaScript string operations: `split`, `join`, `includes`, `trim`, decimal rendering |
| `Json` | `json.dfy` | JavaScript values and truthiness |
| `DiffFilter` | `difffilter.dfy` | `filterDiff` |
| `DiffCleaner` | `cleaner.dfy` | `cleanGitDiff` |
| `Prompts` | `prompts.dfy` | both prompt builders and the relay's limits |
| `ExtensionRules` | `extension.dfy` | diff URL, `validateUrl`, endpoint join, direct-mode reply check |
| `Relay` | `relay.dfy` | cache key, fence stripping, `Cache`, `Service` |
| `Base64` | `base64.dfy` | `btoa` and `atob` over byte strings |
| `Obfuscation` | `obfuscation.dfy` | `obfuscateApiKey` and `deobfuscateApiKey` |

How the model reads the source:

- **Strings.** A string is a sequence of Unicode scalar values. The cache hash reads
  UTF-16 code units, as `charCodeAt` does: `Relay.Utf16` splits characters outside the
  Basic Multilingual Plane into surrogate pairs.
- **Integers.** JavaScript's 32-bit wrap-around in `(hash << 5) - hash + char` and
  `hash & hash` is written out as `Relay.ToInt32`.
- **Environment limits.** `Number(process.env.X) || d` is `Prompts.ConfiguredLimit`. An
  unset or non-numeric variable, or the value 0, gives the default.
- **Outside calls.** The model call and `JSON.parse` are function parameters of the
  handler. Each returns `None` when it throws.

Where the code behaves differently from what one might expect, the model follows the code:

- **Cleaning is not idempotent.** `Clean("++a")` is `"+a"`, and cleaning that again
  gives `"a"` (`DiffCleaner.CleanNotIdempotent`). The marker pattern removes one `+` or
  `-` per pass.
- **Whitespace-only chunks are not dropped.** They become the empty string, but they
  still count as a chunk, so the separator around them stays in the rejoined text
  (`DiffFilter.FilterDiffChunks`).
- **Blank lines can survive.** The excessive-newline substitution runs before trailing
  blanks are removed from each line. So a line holding only spaces separates two
  newlines while the run of newlines is collapsed, and becomes empty only afterwards.
  Three newlines in a row can therefore remain in the result. The model proves the
  weaker statement that none remain right after the collapse
  (`DiffCleaner.CollapseNoTriple`).
- **Skipped-file placeholders rarely reach the prompt.** The filter rejoins the chunks
  with `diff --git `, so every placeholder but the first chunk's stands on a line that
  starts `diff --git (Skipped `. The header pattern erases that line
  (`DiffCleaner.SeparatedPlaceholderErased`). A diff of one ignored file therefore
  cleans to the empty string (`DiffCleaner.LoneIgnoredFileErased`).
- **A content line can pose as a banner.** An added line reading
  `+... (truncated k lines)` escapes the banner pattern because of its `+`. The marker
  pass runs after the banner pass, so the line comes out of cleaning as
  `... (truncated k lines)` (`DiffCleaner.MarkedBannerSurvives`). The banners the
  filter writes itself always open a line, and that line is empty after the first five
  substitutions (`DiffCleaner.TruncationBannerBlanked`). The proof stops there; the
  collapse, edge stripping and trim that follow only remove characters.

## Model

| member | source | states |
|---|---|---|
| Text.Split | extension/src/background.ts:111 | `split` with a non-empty separator yields at least one piece, and the first piece is a prefix of the input |
| Text.JoinAround | extension/src/background.ts:133 | a join is the earlier parts joined, the k-th part, and the later parts joined, with one separator on each side of the k-th part that has a neighbour |
| Text.JoinSplit | extension/src/background.ts:133 | joining the pieces of a split with the same separator gives the input back |
| Text.SplitJoin | extension/src/background.ts:111 | splitting a join on a border-free separator gives the parts back when no part contains the separator |
| Text.SplitPiecesAvoidSep | extension/src/background.ts:111 | no piece of a split contains the separator |
| Text.ContainsIff | extension/src/background.ts:121 | `includes` holds exactly when the text occurs at some position |
| Text.TrimStart | extension/src/background.ts:104 | the result is a suffix, everything removed is JavaScript whitespace, and it does not start with whitespace |
| Text.TrimEnd | extension/src/background.ts:104 | the result is a prefix, everything removed is JavaScript whitespace, and it does not end with whitespace |
| Text.TrimSpan | extension/src/background.ts:104 | `trim` returns a contiguous slice with only whitespace outside it and no whitespace at its ends |
| Text.TrimEmptyIff | extension/src/background.ts:113 | a string trims to empty exactly when every character is whitespace |
| Text.NatToStringValue | extension/src/background.ts:128 | the decimal rendering of the dropped-line count reads back as that count |
| Text.IntToStringValue | service/src/index.ts:56 | `hash.toString()` reads back as the hash, sign included |
| Text.IntToStringInjective | service/src/index.ts:56 | two hashes render to the same key exactly when they are equal |
| DiffFilter.LastMarker | extension/src/background.ts:117 | finds the last ` b/` in a range, and there is none after it |
| DiffFilter.FindCapture | extension/src/background.ts:117 | the leftmost match of `a\/(.*) b\/`, with the greedy group ending at the last possible ` b/`, or no match at all |
| DiffFilter.FilenameIsRegexGroup | extension/src/background.ts:116-118 | the filename is group 1 of the leftmost, greedy match on the first line, and `"unknown"` when nothing matches |
| DiffFilter.BlankChunkIff | extension/src/background.ts:113 | a chunk becomes `""` exactly when it is all whitespace |
| DiffFilter.IgnoredChunkPlaceholder | extension/src/background.ts:121-123 | an ignored chunk becomes exactly `(Skipped <name>)`, which depends on its filename alone and not on its content |
| DiffFilter.ShortChunkUnchanged | extension/src/background.ts:126-130 | a kept chunk of at most 50 lines is returned unchanged |
| DiffFilter.LongChunkTruncated | extension/src/background.ts:126-129 | a kept chunk of n > 50 lines has as its lines the first 50 lines followed by the banner for n - 50 |
| DiffFilter.CapLinesLong | extension/src/background.ts:126-129 | the line cap of a long chunk: its first 50 lines, then one banner line counting the rest |
| DiffFilter.TruncatedLines | extension/src/background.ts:128 | the lines of the truncated text are the 50 kept lines and the banner |
| DiffFilter.NoNewlineInBanner | extension/src/background.ts:128 | the banner is a single line |
| DiffFilter.PlaceholderOneLine | extension/src/background.ts:122 | the placeholder is a single line |
| DiffFilter.ChunkLineBound | extension/src/background.ts:109-130 | every processed chunk has at most 51 lines |
| DiffFilter.ProcessedAvoidsSeparator | extension/src/background.ts:112-131 | processing never puts the separator into a chunk that lacked it |
| DiffFilter.CapLinesAvoidsSeparator | extension/src/background.ts:126-129 | cutting a chunk and adding the banner creates no separator |
| DiffFilter.FilterDiffChunks | extension/src/background.ts:111-133 | splitting the output on the separator gives exactly the processed chunks of the input, in order |
| DiffFilter.FilterDiffLineBound | extension/src/background.ts:107-134 | each chunk of the output has at most 51 lines |
| DiffFilter.FilterDiffIdentity | extension/src/background.ts:107-134 | a diff whose chunks are all non-blank, not ignored and at most 50 lines long passes through unchanged |
| DiffCleaner.StartsWithAnyIff | extension/src/background.ts:69 | an alternation of literal prefixes matches exactly when one of them starts the line |
| DiffCleaner.HunkLineIff | extension/src/background.ts:72 | the hunk pattern matches exactly when the line starts with `@@` and has a second `@@` at index 2 or later |
| DiffCleaner.BannerLineIff | extension/src/background.ts:75 | the banner pattern matches exactly when the line starts with the banner head, a non-empty run of digits, then ` lines)`; anything may follow |
| DiffCleaner.StripLeadingBlanks | extension/src/background.ts:87 | removes exactly the leading run of spaces and tabs |
| DiffCleaner.StripTrailingBlanks | extension/src/background.ts:87 | removes exactly the trailing run of spaces and tabs |
| DiffCleaner.ApplyPassNoTerminator | extension/src/background.ts:95-101 | no substitution puts a line terminator into a line |
| DiffCleaner.Lines | extension/src/background.ts:69-87 | a text has at least one line under the `m` flag's reading |
| DiffCleaner.Breaks | extension/src/background.ts:69-87 | there is one terminator between each pair of consecutive lines, and each is a line terminator |
| DiffCleaner.UnlinesLines | extension/src/background.ts:69-87 | a text is its lines rejoined by its own terminators |
| DiffCleaner.LinesAppend | extension/src/background.ts:69-87 | a terminator splits the lines of a text into those before it and those after it |
| DiffCleaner.LinesNoTerminator | extension/src/background.ts:69-87 | no line holds a terminator |
| DiffCleaner.MapLinesShape | extension/src/background.ts:95-99 | a line-anchored substitution rewrites each line on its own and keeps every terminator |
| DiffCleaner.CollapseNewlines | extension/src/background.ts:100 | collapsing keeps the first character of a non-empty text |
| DiffCleaner.CollapseNoTriple | extension/src/background.ts:100 | after the collapse no three newlines are adjacent |
| DiffCleaner.CollapseKeepsText | extension/src/background.ts:100 | the collapse removes only newlines |
| DiffCleaner.CollapseFixedIff | extension/src/background.ts:100 | the collapse leaves a text unchanged exactly when it has no three adjacent newlines |
| DiffCleaner.BeforeCollapseShape | extension/src/background.ts:95-99 | the first five substitutions keep the number of lines and the terminators, and apply header, hunk, banner, metadata and marker removal to each line in that order |
| DiffCleaner.HeaderLineBlanked | extension/src/background.ts:95 | a header line becomes empty |
| DiffCleaner.PlusPlusPlusBlanked | extension/src/background.ts:95-99 | a `+++ ` line is removed whole, because headers go before markers |
| DiffCleaner.NoiseLineBlanked | extension/src/background.ts:96-98 | hunk, banner and metadata lines become empty |
| DiffCleaner.MarkerStripsOne | extension/src/background.ts:99 | a marked line that matches no removal pattern loses exactly its first character |
| DiffCleaner.ParenLineUntouched | extension/src/background.ts:95-99 | a line starting with `(` passes the first five substitutions unchanged |
| DiffCleaner.FilterBannerMatches | extension/src/background.ts:75 | every banner the filter writes matches the truncation pattern |
| DiffCleaner.FilterBannerLineBlanked | extension/src/background.ts:97 | a line that begins with a filter banner becomes empty |
| DiffCleaner.BannerLinesBlanked | extension/src/background.ts:97 | in any text, every line that begins with a filter banner is empty after the first five substitutions |
| DiffCleaner.TruncationBannerBlanked | extension/src/background.ts:97-129 | for every chunk the filter truncates, some line of the filtered text opens with that chunk's banner, and the first five substitutions empty that line |
| DiffCleaner.StripEdgesEdgeFree | extension/src/background.ts:87 | a stripped line has no blank at either end |
| DiffCleaner.EdgeFreeConcat | extension/src/background.ts:101 | joining two lines without edge blanks at a non-blank character leaves no edge blank |
| DiffCleaner.EdgesPassEdgeFree | extension/src/background.ts:101 | after the whitespace substitution no line starts or ends with a space or tab |
| DiffCleaner.TrimEdgeFree | extension/src/background.ts:104 | the final trim keeps that property |
| DiffCleaner.CleanEdges | extension/src/background.ts:91-105 | the cleaned text has no whitespace at its ends, and no line in it starts or ends with a space or tab |
| DiffCleaner.BeforeCollapseSingle | extension/src/background.ts:95-99 | on one line, the first five substitutions are the five line passes |
| DiffCleaner.CleanOneLine | extension/src/background.ts:91-105 | cleaning one line is its passes, edge stripping and the trim |
| DiffCleaner.PlaceholderSurvives | extension/src/background.ts:91-105 | a `(Skipped <name>)` placeholder standing on a line of its own comes through cleaning unchanged; the filter puts one there only for the text before the first separator |
| DiffCleaner.SeparatedPlaceholderErased | extension/src/background.ts:91-105 | a placeholder right after the file separator, where the rejoin puts it, is on a header line and cleans to nothing |
| DiffCleaner.LoneIgnoredFileErased | extension/src/background.ts:91-133 | a diff of a single ignored file filters to the separator and its placeholder, which cleans to the empty string |
| DiffCleaner.MarkedBannerSurvives | extension/src/background.ts:95-99 | an added line `+... (truncated k lines)` escapes the banner pattern, loses its marker, and comes out of cleaning as the banner text |
| DiffCleaner.EdgesAndTrimKeep | extension/src/background.ts:101-104 | a line without whitespace at its ends is unchanged by the last two steps |
| DiffCleaner.CleanMarkedLine | extension/src/background.ts:91-105 | a marked line that matches no removal pattern is cleaned to itself without the marker |
| DiffCleaner.PlusLinesPatternFree | extension/src/background.ts:69-81 | `++a` and `+a` match none of the removal patterns |
| DiffCleaner.CleanDoubleMarker | extension/src/background.ts:91-105 | `++a` cleans to `+a` |
| DiffCleaner.CleanSingleMarker | extension/src/background.ts:91-105 | `+a` cleans to `a` |
| DiffCleaner.CleanNotIdempotent | extension/src/background.ts:91-105 | cleaning twice can differ from cleaning once |
| Prompts.SubstringCut | extension/src/background.ts:243 | `substring(0, end)` keeps a prefix: the text is that prefix followed by the rest, and a larger `end` keeps a longer prefix |
| Prompts.SliceCut | service/src/index.ts:152 | `slice(0, end)` keeps a prefix of the commits, followed by the rest; two bounds of the same sign keep nested prefixes, and `-1` keeps more of a list of two or more than `0` does |
| Prompts.SectionsPrefix | extension/src/background.ts:239-244 | the prompt tail opens with the commit lines under their heading and closes with the diff excerpt |
| Prompts.LocalPromptContents | extension/src/background.ts:217-245 | `constructPrompt` carries every commit joined by `\n` and exactly the first min(length, 30000) characters of the diff |
| Prompts.ShortDiffWhole | extension/src/background.ts:243 | a diff of at most 30000 characters is embedded whole |
| Prompts.RelayPromptBounds | service/src/index.ts:151-156 | the relay's prompt embeds a prefix of at most `maxCommits` commits and a prefix of at most `maxDiff` characters of the diff |
| Prompts.DefaultLimits | service/src/index.ts:13-14 | without configuration the limits are 50 commits and 10000 characters |
| Prompts.UnsetLimitsPrompt | service/src/index.ts:151-155 | with both limit variables unset or 0, the prompt holds the first min(n, 50) commits and the first min(length, 10000) characters of the diff |
| Prompts.NegativeCommitLimit | service/src/index.ts:152 | a negative commit limit -k drops the last k commits |
| Prompts.CommitLinesRecoverable | extension/src/background.ts:240 | single-line commit messages can be split back out of the prompt |
| ExtensionRules.DiffUrl | extension/src/background.ts:44 | the diff URL extends the PR URL, ends in `.diff`, and equals it exactly when it already ends so |
| ExtensionRules.DiffUrlIdempotent | extension/src/background.ts:44 | deriving the diff URL twice is deriving it once |
| ExtensionRules.ValidateUrl | extension/src/background.ts:18-29 | accepted exactly when the URL parses with protocol `http:` or `https:`, giving its `href`; otherwise the scheme error or the format error |
| ExtensionRules.SchemeErrorRethrown | extension/src/background.ts:22-26 | the scheme error's message starts with `Invalid URL scheme` and the format error's does not, so the `catch` tells them apart |
| ExtensionRules.SchemeRule | extension/src/background.ts:4 | the allowed schemes are exactly `http:` and `https:` |
| ExtensionRules.GenerateUrl | extension/src/background.ts:183 | the endpoint extends the base and ends in `/generate`, adding the slash only when the base lacks one |
| ExtensionRules.GenerateUrlSingleSlash | extension/src/background.ts:183 | the join adds no doubled slash: the endpoint ends in `//generate` only if the base already ends in `//` |
| ExtensionRules.RemoteEndpoint | extension/src/background.ts:182-183 | an endpoint exists exactly when the service URL validates, and it is formed from the validated `href` |
| ExtensionRules.GenerateLocal | extension/src/background.ts:154-179 | an accepted reply is the parsed value itself |
| ExtensionRules.LocalAcceptsIff | extension/src/background.ts:155-178 | a reply is accepted exactly when a key is set and the reply is an object whose `title` and `description` are both truthy; the key is checked first |
| ExtensionRules.EmptyTitleRejected | extension/src/background.ts:175-177 | an empty title is rejected with the missing-fields error |
| Relay.ToInt32 | service/src/index.ts:54 | the result is a signed 32-bit integer congruent to the input modulo 2^32, and an int32 is unchanged |
| Relay.ToInt32Congruent | service/src/index.ts:53-54 | inputs congruent modulo 2^32 convert to the same int32 |
| Relay.SourceStepIsHashStep | service/src/index.ts:53-54 | the shifted loop body computes toInt32(31·h + c) |
| Relay.Utf16 | service/src/index.ts:52 | every code unit is below 0x10000, and there are at least as many units as characters |
| Relay.Utf16Bmp | service/src/index.ts:52 | text within the Basic Multilingual Plane has one code unit per character, equal to its code |
| Relay.Utf16Supplementary | service/src/index.ts:52 | a character above U+FFFF becomes a high surrogate and then a low surrogate, which recombine to its code |
| Relay.HashOf | service/src/index.ts:50-55 | the hash of any unit sequence is a signed 32-bit integer |
| Relay.GenerateCacheKey | service/src/index.ts:48-57 | the loop returns the decimal rendering of the specified hash of `commits.join('') + diff`, which reads back as an int32 |
| Relay.CacheKeyIff | service/src/index.ts:48-56 | two keys are equal exactly when the hashes are, and equal contents give equal keys |
| Relay.CommitBoundaryCollision | service/src/index.ts:49 | `["ab"]` and `["a","b"]` get the same key |
| Relay.HashOfTwoChars | service/src/index.ts:50-55 | the hash of a two-unit string is two hash steps from 0 |
| Relay.ContentCollision | service/src/index.ts:50-55 | the distinct contents `Aa` and `BB` get the same key |
| Relay.DropOpeningFence | service/src/index.ts:168 | a leading `` ```json `` is removed with the whitespace after it: the result is a suffix, everything between the fence and it is whitespace, and it does not start with whitespace; text without the fence is unchanged |
| Relay.DropClosingFence | service/src/index.ts:168 | a closing `` ``` `` is removed with the whitespace before it: the result is a prefix, everything between it and the fence is whitespace, and it does not end with whitespace; text without the fence is unchanged |
| Relay.StripFencesUntouched | service/src/index.ts:168 | text with neither fence is unchanged |
| Relay.StripFencesWrapped | service/src/index.ts:168 | a body wrapped in both fences with whitespace comes back exactly |
| Relay.TrimStartSpaces | service/src/index.ts:168 | `\s*` after the opening fence removes exactly the whitespace run |
| Relay.TrimEndSpaces | service/src/index.ts:168 | `\s*` before the closing fence removes exactly the whitespace run |
| Relay.Cache.constructor | service/src/index.ts:31 | the cache starts empty |
| Relay.Cache.Has | service/src/index.ts:74 | membership of the key |
| Relay.Cache.Get | service/src/index.ts:76 | the stored value of a present key |
| Relay.Cache.Set | service/src/index.ts:173 | the key maps to the value and every other entry is unchanged |
| Relay.Service.constructor | service/src/index.ts:31 | a service starts with its settings and an empty cache of its own |
| Relay.Service.Generate | service/src/index.ts:59-181 | the reply and the new cache contents are those `Respond` specifies for the old contents |
| Relay.MissingKeyFirst | service/src/index.ts:68-70 | without an API key every request gets 500 with the configuration error, cached or not, and the cache is unchanged |
| Relay.CacheHitIgnoresModel | service/src/index.ts:73-77 | on a hit the stored value is served, the cache is unchanged, and the model and the parser play no part |
| Relay.MissStoresOnlyParsed | service/src/index.ts:163-175 | on a miss, parsed data is served and stored under the key, and a failed call or parse stores nothing |
| Relay.CacheOnlyGrows | service/src/index.ts:73-175 | no entry is removed or changed, and only the request's key can be added |
| Relay.FailureLeavesCache | service/src/index.ts:177-180 | every failure is a 500 and leaves the cache as it was |
| Relay.RepeatServedFromCache | service/src/index.ts:72-77 | after a served request, any request with the same key is served the same data without the model |
| Base64.CharCodes | extension/src/utils.ts:31 | one byte per character |
| Base64.CharCodesInverse | extension/src/utils.ts:23-31 | reading the codes of the byte string gives the bytes back |
| Base64.AlphabetValue | extension/src/utils.ts:28 | an alphabet character's value is below 64 |
| Base64.AlphabetRoundTrip | extension/src/utils.ts:23-28 | each sextet's character is in the alphabet, is not `=`, and decodes back to the sextet |
| Base64.Sextets | extension/src/utils.ts:23 | three bytes split into four values below 64 |
| Base64.SextetsOctets | extension/src/utils.ts:23-28 | regrouping the four sextets gives the three bytes back |
| Base64.EncodeGroup | extension/src/utils.ts:23 | a group encodes to four alphabet characters |
| Base64.EncodeUnpadded | extension/src/utils.ts:23 | the unpadded encoding has 4 characters per whole group plus one more than the remainder, never 1 modulo 4, and is all alphabet |
| Base64.EncodeLength | extension/src/utils.ts:23 | `btoa` output has length 4·⌈n/3⌉ |
| Base64.RemoveWhitespace | extension/src/utils.ts:28 | `atob` drops the ASCII whitespace first |
| Base64.DropPadding | extension/src/utils.ts:28 | removing the padding leaves a prefix |
| Base64.DecodeChars | extension/src/utils.ts:28 | the number of bytes decoded from a length |
| Base64.Decode | extension/src/utils.ts:28 | decoding succeeds exactly when the unpadded text has a length not 1 modulo 4 and uses only the alphabet |
| Base64.Atob | extension/src/utils.ts:28 | `atob` throws exactly when decoding fails, and otherwise gives a byte string with the decoded codes |
| Base64.GroupRoundTrip | extension/src/utils.ts:23-28 | each encoded character decodes to its sextet |
| Base64.DecodeCharsStep | extension/src/utils.ts:28 | decoding takes four characters to three bytes, then continues |
| Base64.DecodeGroupStep | extension/src/utils.ts:23-28 | decoding an encoding gives its first three bytes back, then continues |
| Base64.DecodeOneByte | extension/src/utils.ts:23-28 | a single trailing byte comes back |
| Base64.DecodeTwoBytes | extension/src/utils.ts:23-28 | two trailing bytes come back |
| Base64.DecodeEncodeUnpadded | extension/src/utils.ts:23-28 | decoding the unpadded encoding gives the bytes back |
| Base64.RemoveWhitespaceNone | extension/src/utils.ts:28 | text without whitespace is not changed by the first step |
| Base64.DropPaddingOfEncode | extension/src/utils.ts:23-28 | removing the padding of an encoding leaves its unpadded form |
| Base64.DecodeEncode | extension/src/utils.ts:23-28 | `atob` of `btoa` output gives the bytes back |
| Base64.DecodeIgnoresWhitespace | extension/src/utils.ts:28 | whitespace anywhere in the input does not change the result |
| Base64.DecodeRejectsLength | extension/src/utils.ts:28 | an input of length 1 modulo 4 is rejected |
| Base64.DecodeRejectsForeign | extension/src/utils.ts:28 | a non-alphabet character before the last two positions is rejected |
| Obfuscation.KeyIsText | extension/src/utils.ts:14-18 | the key bytes are the 18 character codes of `PrPlease2024ExtKey` |
| Obfuscation.XorStream | extension/src/utils.ts:19-22 | the masked bytes have the same length as the input |
| Obfuscation.XorStreamInvolution | extension/src/utils.ts:34-37 | masking twice gives the bytes back |
| Obfuscation.XorStreamPrefix | extension/src/utils.ts:20-21 | each byte's mask depends on its index alone |
| Obfuscation.XorWithKey | extension/src/utils.ts:19-22 | the loop fills a fresh array with byte i XORed with key byte i mod 18 |
| Obfuscation.CopyCharCodes | extension/src/utils.ts:29-32 | the loop fills a fresh array with the character codes of the decoded string |
| Obfuscation.ObfuscateApiKey | extension/src/utils.ts:16-24 | the result is the Base64 of the masked bytes |
| Obfuscation.DeobfuscateApiKey | extension/src/utils.ts:26-42 | the result is the unmasked decoded bytes, or none when `atob` throws |
| Obfuscation.RoundTrip | extension/src/utils.ts:16-38 | deobfuscating an obfuscated key gives its bytes back |
| Obfuscation.ObfuscatedLength | extension/src/utils.ts:23 | the stored text has 4·⌈n/3⌉ characters |
| Obfuscation.EmptyKey | extension/src/utils.ts:16-38 | the empty key obfuscates to `""`, and `""` deobfuscates to no bytes |
| Obfuscation.MalformedYieldsEmpty | extension/src/utils.ts:39-41 | input that does not decode gives the empty result and not an error |
| Obfuscation.MalformedExamples | extension/src/utils.ts:26-41 | a stored value of length 1 modulo 4, or one with a foreign character, deobfuscates to empty |

## Left out

- Browser I/O: Chrome messaging and storage (`chrome.runtime.onMessage`, `getSettings`,
  `chrome.storage.*`). These are outside the pipeline.
- Network and timers: `fetch` of the diff and of the relay, `AbortController` and the
  60-second timeout.
- The bodies of the relay's 500 replies: `{error: ...}` for the missing key and
  `{error: 'Failed to generate content', details: error}` for a failure. The model keeps
  only the tags `MissingKeyError` and `GenerationError`, not the `error` and `details`
  fields.
- The Gemini client. Both model calls are not modelled; the relay's call is the `model`
  parameter.
- `handleGeneratePR`: its sequence of fetch, filter, clean, settings and call is
  not modelled as one function. Its pure steps are modelled one by one.
- The Fastify server: CORS, rate limiting, `listen`, logging and request-body parsing.
- Environment parsing beyond the two limits; `Prompts.ConfiguredLimit` takes the
  outcome of `Number(...)` as an optional integer.
- `new URL` parsing. `ExtensionRules.ValidateUrl` takes the parsed protocol and `href`,
  or `None` when parsing throws.
- `TextEncoder` and `TextDecoder`. The obfuscation works on the UTF-8 byte sequences.
  The decoder's replacement of ill-formed bytes is not modelled.
- The wording of both prompt templates. It is a parameter, `head`.
- Prompts.Substring: counts Unicode scalar values, where JavaScript's `substring` counts
  UTF-16 code units. The two agree for text within the Basic Multilingual Plane.
- Prompts.ConfiguredLimit: non-integer and infinite limits are not modelled.
- ExtensionRules.LocalErrorMessage: the wording of the `TypeError` thrown for a `null`
  reply is the runtime's, so `NullReply` has no message.
- Relay.Respond: a request body without `commits` or `diff` arrays fails inside
  Fastify or the handler with a `TypeError`. That path is not modelled.
- Base64.CharCodesInverse: proves only that reading the codes of a byte string gives
  the bytes back, not the converse.
- Concurrency of requests to the relay. Each request is one atomic step of `Respond`.
