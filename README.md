# Design selection tool — a verified model

The repository is an MCP server tool. It takes three HTML designs, or a
prompt from which it generates three. It renders them side by side on a
page served from localhost, opens the browser, and waits up to fifteen
minutes for the user to pick one. The pick reaches the tool by an HTTP POST
or a WebSocket message. The tool then returns the chosen design's HTML.

This project models the sequential core of that tool in Dafny:

- **Selection sessions.** There are three variants of the session the page
  talks to, each a class whose fields are the module-level session record:
  - `ToolsSession`: the TypeScript server of the tools directory. It has
    the `selectionFinalized` flag and searches ports 8899 to 8999.
  - `LibSession`: the library server, with one active WebSocket.
  - `LegacySession`: the older JavaScript server.

  Each has a pure `Route` function from request and state to reply and new
  state, and methods for serving, handling, finalizing and stopping.
  Port search is a loop over an availability oracle (`Http`).
- **The tool.** `ToolValidation` holds the design and prompt validators,
  workflow detection, the filter of generated designs, and the
  selected-HTML lookup, previews and result records. The two `execute`
  methods are `SelectionTool.Execute` (the TypeScript tool) and
  `DistSelectionTool.Execute` (the compiled JavaScript tool). Each runs a
  polling loop against a session, with the clock as a function `now` of
  the check number (`Polling`).
- **Prompts.** `Prompts` holds the lookup tables of `designPrompts.ts`,
  with JavaScript's inherited `Object.prototype` members. It also holds the
  `validateOutput` predicate, and prompts as sequences of parts, so that
  optional lines are visible.
- **Page helpers.** `Escaping` covers `sanitizeName` and `escapeHtml`.
  `FrameworkDetect` covers the class-attribute regexes as scans. `Styles`
  covers `extractStyles`. `Layout` covers the layout analysis and CSS
  choice. `SafeEncoding` covers the URL-safe base64 of section 5 of
  RFC 4648, without padding (section 3.2). `PageAssembly` covers input
  validation, framework union, isolation wrappers and the page assembly.
  - The helpers of `dist/lib/templates/designSelection.js` and
    `dist/tools/templates/designSelection.js` are identical at the same
    lines, so one module serves both. Rows cite one of the two files.
  - `escapeHtml` is also at `dist/lib/templates/designSelection.js:1041-1048`
    and `dist/tools/templates/designSelection.js:1180-1187`.
  - `sanitizeName` is also at `dist/lib/templates/designSelection.js:284-286`.
- **Support modules.** `Text` holds the JavaScript string primitives used
  (ASCII case mapping, whitespace trimming, `includes`, decimal printing,
  global replace of one character). `JsValues` holds the values `JSON.parse`
  yields, truthiness and property access. `Wrappers` holds Option and Result.

## Model

| member | source | states |
|---|---|---|
| Text.ToLower | src/tools/DesignselectionTool.ts:138-140 | `toLowerCase` keeps the length and maps each character by the ASCII lower-case map |
| Text.ToUpper | src/prompts/designPrompts.ts:284 | `toUpperCase` keeps the length and maps each character by the ASCII upper-case map |
| Text.TrimStartShape | src/tools/DesignselectionTool.ts:125 | `trim`'s left half removes exactly a leading run of whitespace and leaves a non-whitespace first character |
| Text.TrimEndShape | src/tools/DesignselectionTool.ts:125 | the right half removes exactly a trailing run of whitespace |
| Text.TrimEmptyIffBlank | src/tools/DesignselectionTool.ts:125 | `s.trim().length === 0` holds iff every character of `s` is whitespace |
| Text.TrimShape | src/tools/DesignselectionTool.ts:211 | `trim` yields a contiguous slice of the input, with no whitespace at either end |
| Text.OccursAtAppend | src/tools/DesignselectionTool.ts:138 | an occurrence in either part of a concatenation is an occurrence in the whole, at the shifted index |
| Text.Contains | src/tools/DesignselectionTool.ts:138-140 | `includes` is true iff the pattern occurs at some index |
| Text.DigitChar | src/tools/utils/serverUtils.ts:179 | the digit character has the given value |
| Text.NatToString | src/tools/utils/serverUtils.ts:179 | the decimal form of a port number is non-empty, all digits, with no leading zero |
| Text.NatToStringRoundTrip | src/tools/utils/serverUtils.ts:179 | reading the digits back gives the number |
| Text.NatToStringInjective | src/tools/utils/serverUtils.ts:179 | different numbers print differently, so the URL names the port |
| Text.ReplaceChar | src/tools/templates/designSelection.ts:13 | a global one-character replace leaves no occurrence of the character, unless the replacement holds it, and introduces only characters of the input or the replacement |
| Text.ReplaceCharSingle | src/tools/templates/designSelection.ts:13 | on one character, the replace substitutes it or keeps it |
| Text.ReplaceCharAppend | src/tools/templates/designSelection.ts:13 | the replace distributes over concatenation |
| Text.ReplaceCharAbsent | src/tools/templates/designSelection.ts:13 | a string without the character is unchanged |
| Text.ReplaceCharByChar | dist/lib/templates/designSelection.js:111-114 | replacing by one character keeps the length and changes exactly the matching positions |
| Text.ReplaceCharDeletesRun | dist/lib/templates/designSelection.js:99 | deleting a character from a run of that character leaves nothing |
| JsValues.Get | src/tools/utils/serverUtils.ts:139 | property access yields the object's own field, or `undefined` on a missing field or a non-object |
| JsValues.ToStringThrowsIsTruthy | src/lib/utils/serverUtils.ts:137 | a value whose interpolation into a template literal throws is an object or array, hence truthy |
| JsValues.ToStringThrowsExamples | src/lib/utils/serverUtils.ts:137 | interpolation throws for an object with an own `toString` field that is not a function, and for an array holding one; an object without that field does not throw |
| Http.SelectedDesignOf | src/tools/utils/serverUtils.ts:136-151 | a parsed, non-nullish body yields its `selectedDesign`; an unparsable body or `null` yields the error path |
| Http.LoggedSelectionOf | src/lib/utils/serverUtils.ts:135-138 | the selection survives the log line exactly when the body parsed and interpolating its `selectedDesign` does not throw; it is then that value |
| Http.FindAvailablePort | src/tools/utils/serverUtils.ts:56-66 | the result is the smallest available port in [start, start+100]; none means none is available in the window |
| Http.TryPorts | src/lib/utils/serverUtils.ts:67-87 | the loop stops at the first available port in [port, port+100); otherwise it ends at port+100 with none available |
| ToolsSession.CleanPath | src/tools/utils/serverUtils.ts:76 | the result starts with '/', equals `path` when that already does, and ends with `path` |
| ToolsSession.Route | src/tools/utils/serverUtils.ts:105-170 | precedence is OPTIONS 204, then the page for any verb, then POST result, then GET finalized, then 404. Only a parsed result POST changes state, setting the selection and completion. A bad body gives 400 with the state unchanged |
| ToolsSession.LastSelectionWins | src/tools/utils/serverUtils.ts:136-147 | two result POSTs leave the second value selected, with completion set |
| ToolsSession.MalformedBodyIsHarmless | src/tools/utils/serverUtils.ts:148-151 | an unparsable POST gives 400 and leaves the session as it was for every later request |
| ToolsSession.FinalizedPollIsReadOnly | src/tools/utils/serverUtils.ts:158-165 | GET finalized reports `selectionFinalized` and changes nothing |
| ToolsSession.Session.constructor | src/tools/utils/serverUtils.ts:10-28 | the session starts empty with no server and no client, after the kill on the default port |
| ToolsSession.ServeTwiceResets | src/tools/utils/serverUtils.ts:74-102 | serving again after a completed selection starts from an empty, unfinished session |
| ToolsSession.Session.Serve | src/tools/utils/serverUtils.ts:74-102 | the session is reset and any old server dropped. The server is on the first free port of the window, the URL is `http://localhost:<port><cleanPath>`, and otherwise the no-ports error with no server |
| ToolsSession.Session.Handle | src/tools/utils/serverUtils.ts:105-170 | a request's reply and new state are those of `Route`, and the request becomes the last client connection |
| ToolsSession.Session.NotifySelectionFinalized | src/tools/utils/serverUtils.ts:214-221 | sets `selectionFinalized`, then stops the server |
| ToolsSession.Session.Stop | src/tools/utils/serverUtils.ts:242-270 | the server handle becomes null and nothing else changes; a second call is a no-op |
| LibSession.Route | src/lib/utils/serverUtils.ts:101-166 | OPTIONS 204, page 200, result POST 200 setting only the selection, bad body or a selection the log line cannot interpolate 400 with the state kept, else 404. Completion never changes; no other route changes state |
| LibSession.MalformedPostIsHarmless | src/lib/utils/serverUtils.ts:155-159 | an unparsable result POST gives 400 and keeps the state |
| LibSession.UnprintablePostIsRefused | src/lib/utils/serverUtils.ts:133-160 | a POST whose `selectedDesign` throws in the log line gets 400 and leaves the state as it was |
| LibSession.SelectionIn | src/lib/utils/serverUtils.ts:182-201 | a socket message yields a selection iff it parsed to a non-nullish value of type `selection`, and the selection is its `selectedDesign` |
| LibSession.SecondTabReplacesFirst | src/lib/utils/serverUtils.ts:172-257 | two tabs connect and the first closes: both were sent `connected`, only the second is sent `finalized`, and stopping clears the socket and the server |
| LibSession.Session.constructor | src/lib/utils/serverUtils.ts:14-19 | an empty session with no server, no socket and the initial port |
| LibSession.Session.Serve | src/lib/utils/serverUtils.ts:58-96 | resets only selection and completion, keeping the socket. It listens iff some port in [port, port+100) is free, on the first one; the port counter becomes chosen+1. Ok iff listening and the browser opened, with the URL of the chosen port |
| LibSession.Session.HandleRequest | src/lib/utils/serverUtils.ts:124-160 | the reply and state are `Route`'s; a recorded selection is pushed only to an open active socket |
| LibSession.Session.Connect | src/lib/utils/serverUtils.ts:172-180 | the new socket replaces the active one and is sent `connected` |
| LibSession.Session.Receive | src/lib/utils/serverUtils.ts:182-201 | a `selection` message sets the selection; it sends `selection-confirmed` back on the same socket unless the value throws in the log-file line; anything else changes nothing |
| LibSession.Session.GetSelectedDesign | src/lib/utils/serverUtils.ts:230-233 | the getter returns the stored selection, and throws the conversion error exactly when interpolating it in the log line throws |
| LibSession.Session.Disconnect | src/lib/utils/serverUtils.ts:203-208 | the active socket is cleared only when it is the one closing |
| LibSession.Session.NotifySelectionFinalized | src/lib/utils/serverUtils.ts:246-257 | sets completion, and sends `finalized` only when there is an active socket |
| LibSession.Session.Stop | src/lib/utils/serverUtils.ts:262-294 | server, WebSocket server and active socket all end null; the selection is kept |
| LegacySession.Route | src/tools/utils/serverUtils.js:75-127 | OPTIONS 204, `/design-selection` 200 for any verb, POST result sets only the selection, bad body or a selection the log line cannot interpolate 400 with the state kept, finalized for any verb reports completion, else 404 |
| LegacySession.RequestsNeverFinalize | src/tools/utils/serverUtils.js:118-121 | no run of requests changes `selectionComplete`; only the notify call can |
| LegacySession.UnprintablePostIsRefused | src/tools/utils/serverUtils.js:102-115 | a POST whose `selectedDesign` throws in the log line gets 400 and leaves the state as it was |
| LegacySession.Session.constructor | src/tools/utils/serverUtils.js:13-16 | an empty session with no server and port 3000 |
| LegacySession.Session.Serve | src/tools/utils/serverUtils.js:30-67 | resets selection and completion; listens on the first free port of [port, port+100) and moves the counter past it; Ok iff listening and the browser opened |
| LegacySession.Session.HandleRequest | src/tools/utils/serverUtils.js:75-127 | the reply and state are `Route`'s |
| LegacySession.Session.NotifySelectionFinalized | src/tools/utils/serverUtils.js:158-160 | sets `selectionComplete` and nothing else |
| LegacySession.Session.Stop | src/tools/utils/serverUtils.js:165-170 | the server becomes null and the state is kept; a second call is a no-op |
| Escaping.SanitizeName | src/tools/templates/designSelection.ts:12-14 | the result holds none of `<>'"`, keeps every other character with its count, is a subsequence of the input and is no longer |
| Escaping.SanitizeNameKeepsSafe | src/tools/templates/designSelection.ts:12-14 | a name without those characters is unchanged |
| Escaping.SanitizeNameIdempotent | src/tools/templates/designSelection.ts:12-14 | sanitizing twice is sanitizing once |
| Escaping.EscapeChar | src/tools/templates/designSelection.ts:797-804 | a special character becomes an entity from `&` to `;`; any other stays as it is |
| Escaping.EscapeHtml | src/tools/templates/designSelection.ts:797-804 | the chain of five global replaces, `&` first, equals escaping each character once |
| Escaping.EscapeChainIsEach | src/tools/templates/designSelection.ts:797-804 | the replace chain equals the per-character escape on every string |
| Escaping.SingleCharChain | src/tools/templates/designSelection.ts:797-804 | on one character the chain gives that character's entity |
| Escaping.TailOfChain | src/tools/templates/designSelection.ts:797-804 | the later replaces leave text without their characters unchanged |
| Escaping.EscapeHtmlIsSafe | src/tools/templates/designSelection.ts:797-804 | the output has no `<`, `>`, `"` or `'`, and every `&` begins one of the five entities |
| Escaping.EscapeEachIsSafe | src/tools/templates/designSelection.ts:797-804 | the same for the per-character escape |
| Escaping.EscapeCharIsSafe | src/tools/templates/designSelection.ts:797-804 | the same for one escaped character |
| Escaping.EscapedAppend | src/tools/templates/designSelection.ts:797-804 | safe strings stay safe under concatenation |
| Escaping.EscapeHtmlLength | src/tools/templates/designSelection.ts:797-804 | output length = input length + 4·#`&` + 3·#`<` + 3·#`>` + 5·#`"` + 4·#`'` |
| Escaping.EscapeEachLength | src/tools/templates/designSelection.ts:797-804 | the same count for the per-character escape |
| Escaping.EscapeHtmlKeepsPlain | src/tools/templates/designSelection.ts:797-804 | a string without any of `&<>"'` is unchanged |
| Escaping.EscapeHtmlRoundTrip | src/tools/templates/designSelection.ts:797-804 | decoding the five entities recovers the input, so nothing is escaped twice |
| Escaping.EscapeEachRoundTrip | src/tools/templates/designSelection.ts:797-804 | the same for the per-character escape |
| Escaping.UnescapeAfterEscapeChar | src/tools/templates/designSelection.ts:797-804 | decoding an escaped character followed by more text gives the character back first |
| Escaping.EntitySecondChar | src/tools/templates/designSelection.ts:797-804 | the five entities differ at their second character |
| Escaping.NoEntityWithoutAmpersand | src/tools/templates/designSelection.ts:797-804 | text not starting with `&` starts no entity |
| FrameworkDetect.TokenInValueSpec | dist/lib/templates/designSelection.js:9 | the scan is true iff a token follows a quote-free stretch from the given position |
| FrameworkDetect.MatchesFromSpec | dist/lib/templates/designSelection.js:9 | the scan from a position is true iff some `class=` + quote at or after it is followed by quote-free text and a token |
| FrameworkDetect.ScanClassTokensSpec | dist/lib/templates/designSelection.js:9-25 | the scan is true iff the framework's class regex matches |
| FrameworkDetect.GateIsImplied | dist/lib/templates/designSelection.js:7 | any regex match implies the `class="`/`class='` gate holds |
| FrameworkDetect.OfRank | dist/lib/templates/designSelection.js:4-30 | the framework at a given rank has that rank |
| FrameworkDetect.DetectUpToSpec | dist/lib/templates/designSelection.js:4-30 | the list built so far holds exactly the used frameworks of lower rank, in rank order |
| FrameworkDetect.DetectedSpec | dist/lib/templates/designSelection.js:4-30 | a framework is reported iff its regex matches the lowercased html; the list is in the fixed order and duplicate-free |
| FrameworkDetect.DetectCssFramework | dist/lib/templates/designSelection.js:4-30 | the push loop returns the `Detected` list, so it is empty without a class attribute |
| Styles.FindChar | dist/lib/templates/designSelection.js:35 | the first position at or after i holding the character, or none |
| Styles.FindCi | dist/lib/templates/designSelection.js:35 | the first case-insensitive occurrence at or after i, or none |
| Styles.StyleMatchAt | dist/lib/templates/designSelection.js:35 | a match at p is a well-placed `<style …>…</style>` block starting at p |
| Styles.StyleMatchAtSpec | dist/lib/templates/designSelection.js:35 | the match at p is the regex match there, the lazy body ending at the first `</style>` |
| Styles.NextStyle | dist/lib/templates/designSelection.js:41 | `exec` finds a well-placed block starting at or after the position |
| Styles.NextStyleSpec | dist/lib/templates/designSelection.js:35-41 | the block found is a regex match, and no match starts before it |
| Styles.StyleBlocks | dist/lib/templates/designSelection.js:41-44 | every block of the `exec` loop is well placed after the start |
| Styles.StyleBlocksMatch | dist/lib/templates/designSelection.js:41-44 | every block is a regex match |
| Styles.StyleBlocksAreOrdered | dist/lib/templates/designSelection.js:41-44 | blocks do not overlap and come in order |
| Styles.StyleBlocksAreLeftmost | dist/lib/templates/designSelection.js:41-44 | every regex match starts inside one of the blocks, so none is skipped |
| Styles.FindExact | dist/lib/templates/designSelection.js:43 | the first exact occurrence at or after i, or none |
| Styles.RemoveFirst | dist/lib/templates/designSelection.js:43 | `replace(text, '')` removes one occurrence when there is one, else keeps the string |
| Styles.RelStylesheetWithin | dist/lib/templates/designSelection.js:36 | true iff `rel="stylesheet"` lies within the tag |
| Styles.LinkMatchAt | dist/lib/templates/designSelection.js:36 | a link match starts with `<link` and ends at a `>` |
| Styles.LinkMatches | dist/lib/templates/designSelection.js:36-46 | link matches lie within the text, in order, without overlap |
| Styles.LinkMatchesMatch | dist/lib/templates/designSelection.js:36 | every listed (start, end) pair is a match of the link pattern starting at `start` and ending at `end` |
| Styles.LinkMatchesAreLeftmost | dist/lib/templates/designSelection.js:36-46 | no match is skipped: any match of the pattern from the search start on begins inside a listed match |
| Styles.RemoveLinks | dist/lib/templates/designSelection.js:49 | removing links never lengthens the text |
| Styles.RemoveLinksCutsMatches | dist/lib/templates/designSelection.js:36-49 | removing links is cutting exactly the listed matches out of the text, in order, so the text shrinks by their total length |
| Styles.CutSpans | dist/lib/templates/designSelection.js:49 | cutting ordered, non-overlapping spans shortens the text by their total length |
| Styles.LinkNote | dist/lib/templates/designSelection.js:47-48 | the note is empty iff there are no links, and otherwise names their count |
| Styles.ExtractStyles | dist/lib/templates/designSelection.js:34-52 | `css` is each style body plus a newline, then the link note; `cleanHtml` has each block removed and, when there are links, the links |
| Styles.NoStyleTagNoBlocks | dist/lib/templates/designSelection.js:34-52 | html with no `<style` yields no blocks |
| Layout.NameAt | dist/lib/templates/designSelection.js:171 | the tag-name alternative matched at a position, or none of them matches there |
| Layout.HeadLength | dist/lib/templates/designSelection.js:168 | a tag head starts at a `<` |
| Layout.TagMatchAt | dist/lib/templates/designSelection.js:168-172 | a tag match at i ends after i and within the text |
| Layout.TagMatchLength | dist/lib/templates/designSelection.js:168-172 | every match is at least as long as its pattern's minimum |
| Layout.NoMatchesIffNoTag | dist/lib/templates/designSelection.js:168 | `match` yields nothing iff no position starts a match, so `|| []` gives count 0 |
| Layout.MatchCountBound | dist/lib/templates/designSelection.js:168 | the count times the minimum length fits in the text |
| Layout.StripTagsLeavesNoTag | dist/lib/templates/designSelection.js:172 | the stripped text uses only input characters and has no complete tag left |
| Layout.StripTagsLength | dist/lib/templates/designSelection.js:172 | stripped length + covered length = text length |
| Layout.StripTagsPlain | dist/lib/templates/designSelection.js:172 | text without `<` is unchanged |
| Layout.AnalyzeComponentLayout | dist/lib/templates/designSelection.js:165-180 | the result is gallery or card, never mixed |
| Layout.LayoutWordTests | dist/lib/templates/designSelection.js:169-170 | the image and layout-word tests are the `includes` disjunction |
| Layout.AnalyzeIsGalleryIff | dist/lib/templates/designSelection.js:165-180 | gallery iff more than 10 elements, or over 500 text characters, or an image, or a layout word, or more than 3 section tags |
| Layout.NoAngleNoMatch | dist/lib/templates/designSelection.js:168 | text without `<` matches no tag pattern |
| Layout.PlainTextHasNoTags | dist/lib/templates/designSelection.js:168-172 | plain text has no element, section or tag matches |
| Layout.ShortPlainTextIsCard | dist/lib/templates/designSelection.js:165-180 | short plain text without the trigger words is a card |
| Layout.LayoutTypeMixedIffBoth | dist/tools/templates/designSelection.js:296-297 | `layoutType` is mixed iff both gallery and card occur |
| Layout.ContainerClass | dist/tools/templates/designSelection.js:859 | the container class is the layout name followed by `-layout` |
| Layout.LayoutCssMatchesType | dist/lib/templates/designSelection.js:184-270 | the CSS is mixed, gallery or empty exactly when the layout type is mixed, gallery or card |
| SafeEncoding.Padding | dist/lib/templates/designSelection.js:99 | the count of trailing `=` characters |
| SafeEncoding.SafeEncodeForJs | dist/lib/templates/designSelection.js:97-102 | the output contains no `+`, `/` or `=` |
| SafeEncoding.PadEnd | dist/lib/templates/designSelection.js:113 | `padEnd` keeps the prefix and fills up to the target length |
| SafeEncoding.EncoderSwaps | dist/lib/templates/designSelection.js:99-100 | the two replaces map the alphabet character by character |
| SafeEncoding.DecoderSwaps | dist/lib/templates/designSelection.js:111-112 | the decoder's replaces map the alphabet back character by character |
| SafeEncoding.DropPadding | dist/lib/templates/designSelection.js:101 | deleting `=` from padded text removes exactly the padding |
| SafeEncoding.EncodeShape | dist/lib/templates/designSelection.js:97-102 | encoding maps the unpadded base64 to the URL-safe alphabet |
| SafeEncoding.EncodeIsUrlSafe | dist/lib/templates/designSelection.js:97-102 | base64 input gives only URL-safe alphabet characters |
| SafeEncoding.PaddingRestored | dist/lib/templates/designSelection.js:113 | `(4 - len % 4) % 4` restores a padding of 0 to 2 for a multiple-of-4 original |
| SafeEncoding.RestoreShape | dist/lib/templates/designSelection.js:111-114 | the decoder's restore is the reverse map padded with `=` |
| SafeEncoding.PadEndRestoresPadding | dist/lib/templates/designSelection.js:113 | re-padding the unpadded text restores it |
| SafeEncoding.UrlCharsRoundTrip | dist/lib/templates/designSelection.js:111-112 | the reverse map undoes the forward map |
| SafeEncoding.RestoreMapped | dist/lib/templates/designSelection.js:111-114 | restoring the mapped unpadded text gives the base64 back |
| SafeEncoding.RestoreAfterEncode | dist/lib/templates/designSelection.js:97-114 | decoder restore after encode is the identity on standard base64 of length a multiple of 4 |
| SafeEncoding.SafeDecodeRoundTrip | dist/lib/templates/designSelection.js:108-120 | `safeDecode(safeEncodeForJS(·))` yields what decoding the original base64 yields |
| SafeEncoding.EncodeAfterRestore | dist/lib/templates/designSelection.js:97-114 | encode after restore is the identity on URL-safe text |
| PageAssembly.FirstFalsy | dist/tools/templates/designSelection.js:277-282 | none iff every field is truthy; otherwise the first falsy field in list order |
| PageAssembly.ValidateInputAccepts | dist/tools/templates/designSelection.js:273-282 | validation passes iff the input is an object with all six fields truthy |
| PageAssembly.ValidateInputNamesFirstMissing | dist/tools/templates/designSelection.js:277-282 | the error names the first missing field in list order |
| PageAssembly.FirstIndex | dist/lib/templates/designSelection.js:299 | the first index of a member |
| PageAssembly.FirstIndexAppend | dist/lib/templates/designSelection.js:299 | appending keeps first indices |
| PageAssembly.FirstIndexUnique | dist/lib/templates/designSelection.js:299 | a position whose prefix lacks the value is its first index |
| PageAssembly.DedupeSpec | dist/lib/templates/designSelection.js:299 | `[...new Set(…)]` is duplicate-free, has the same members, and keeps first-occurrence order |
| PageAssembly.ContainerClassInjective | dist/lib/templates/designSelection.js:56-93 | different indices give different `design-component-<index>` classes |
| PageAssembly.WrapInIsolatedContainer | dist/lib/templates/designSelection.js:56-93 | the wrapper uses class `design-component-<index>`, keeps the html, and lists the frameworks |
| PageAssembly.IsolationPrecedence | dist/lib/templates/designSelection.js:56-93 | tailwind isolation iff tailwind is present; bootstrap only without tailwind; neither gives none |
| PageAssembly.GenerateFrameworkCss | dist/tools/templates/designSelection.js:126-161 | each of the tailwind, bootstrap and bulma blocks is present iff listed, in that order |
| PageAssembly.SameMembersBothEmpty | dist/tools/templates/designSelection.js:126-161 | sequences with the same members are empty together |
| PageAssembly.OrderedBlocksUnique | dist/tools/templates/designSelection.js:126-161 | block lists with the same members in rank order are equal |
| PageAssembly.BuildDesign | dist/lib/templates/designSelection.js:284-314 | each design gets its sanitized name, the frameworks detected in its markup, its layout, its extracted styles, its cleaned markup in container `index`, and the encoding of its markup |
| PageAssembly.DesignContainersDiffer | dist/lib/templates/designSelection.js:305-307 | designs at different positions get different container classes |
| PageAssembly.AssemblePage | dist/lib/templates/designSelection.js:287-314 | design k is the part of `name_k` and `html_k` in container k; the frameworks are the deduplicated union of those detected in the three markups, with a compatibility block for each of tailwind, bootstrap and bulma among them, in that order; the layout type and layout CSS are those of the three layouts |
| PageAssembly.GenerateDesignSelectionPage | dist/lib/templates/designSelection.js:271-314 | throws the validation error; on success the six fields are strings and the page is the one `AssemblePage` states for them |
| Polling.ClockAdvances | src/tools/DesignselectionTool.ts:296-319 | with 500 ms between checks, check k is at least 500·k ms after check 0 |
| Polling.ChecksBounded | src/tools/DesignselectionTool.ts:289-296 | fewer than 1800 checks fit before the 15-minute deadline |
| Prompts.NormalizeNoUpper | src/prompts/designPrompts.ts:157 | a normalised key has no upper-case letter |
| Prompts.NormalizeKeeps | src/prompts/designPrompts.ts:157 | an already lower-case, trimmed key is unchanged |
| Prompts.Lookup | src/prompts/designPrompts.ts:232 | `table[key]` is an own entry iff the key is in the table, inherited iff it is a prototype member, else undefined |
| Prompts.LookupOr | src/prompts/designPrompts.ts:232 | `table[key] \|\| fallback` is the own entry, or an inherited member, or the fallback for any other key |
| Prompts.OwnLookupOr | src/prompts/designPrompts.ts:232 | the own entry, else the fallback |
| Prompts.MixedCasePrototypeMembers | src/prompts/designPrompts.ts:157 | every prototype member except `constructor` and `__proto__` has an upper-case letter |
| Prompts.NormalizedInherited | src/prompts/designPrompts.ts:157-232 | with a normalised key, only `constructor` and `__proto__` reach an inherited member |
| Prompts.NormalizedLookupAgrees | src/prompts/designPrompts.ts:157-232 | with a normalised key the written lookup agrees with the own-entries lookup off those two keys |
| Prompts.FrameworkGuidelinesAsWritten | src/prompts/designPrompts.ts:156-233 | as written, an inherited member is returned iff the key is `constructor` or `__proto__` |
| Prompts.FrameworkGuidelinesProto | src/prompts/designPrompts.ts:232 | the framework `__proto__` yields `Object.prototype`, not guidelines |
| Prompts.FrameworkGuidelinesCases | src/prompts/designPrompts.ts:156-233 | each of the six keys yields its own passage after lower-casing and trimming; every other name, `plain css` included, yields the CSS one |
| Prompts.FrameworkGuidelinesAgree | src/prompts/designPrompts.ts:156-233 | the written lookup equals the intended one iff the key is neither `constructor` nor `__proto__` |
| Prompts.TemplateForComponentAsWritten | src/prompts/designPrompts.ts:830-853 | as written, an inherited member is returned iff the key is `constructor` or `__proto__` |
| Prompts.TemplateForComponentConstructor | src/prompts/designPrompts.ts:852 | the component type `constructor` yields the `Object` function, not a template |
| Prompts.AliasesInTable | src/prompts/designPrompts.ts:833-851 | every alias of a template maps to it |
| Prompts.TableInAliases | src/prompts/designPrompts.ts:833-851 | every table key is an alias of its template |
| Prompts.TemplateForComponentCases | src/prompts/designPrompts.ts:830-853 | a template is chosen iff the key is one of its aliases; an unknown type gets the button template |
| Prompts.TemplateForComponentAgree | src/prompts/designPrompts.ts:830-853 | the written lookup equals the intended one iff the key is neither `constructor` nor `__proto__` |
| Prompts.DesignNamesAsWritten | src/prompts/designPrompts.ts:858-899 | as written, an inherited member is returned iff the key is `constructor` or `__proto__` |
| Prompts.DesignNamesProto | src/prompts/designPrompts.ts:894 | the type `__proto__` yields `Object.prototype` instead of three names |
| Prompts.DesignNames | src/prompts/designPrompts.ts:858-899 | always three names; for an unknown type the first is "Modern " + the original type |
| Prompts.DesignNamesKeys | src/prompts/designPrompts.ts:858-899 | the name table's keys are exactly the six template names |
| Prompts.DesignNamesAgree | src/prompts/designPrompts.ts:858-899 | the written lookup equals the intended one iff the key is neither `constructor` nor `__proto__` |
| Prompts.EveryComplete | src/prompts/designPrompts.ts:417 | `every` yields true iff each element has truthy name, html and description; it throws at the first nullish element before any failure |
| Prompts.ValidateOutputIff | src/prompts/designPrompts.ts:411-419 | `validateOutput` is true iff `designs` is an array of at least 3 complete elements, and throws exactly on the nullish-element case |
| Prompts.OrDefault | src/prompts/designPrompts.ts:283-285 | `x \|\| d` is the value when it is a non-empty string, else the default |
| Prompts.OptionalPart | src/prompts/designPrompts.ts:287-293 | the optional line is present iff its field is given |
| Prompts.BuildEnhancedPrompt | src/prompts/designPrompts.ts:274-323 | the header carries the defaults `UI Component` and `Responsive (mobile-first)`, and the prompt ends with the reminder |
| Prompts.EnhancedPromptOptionalLines | src/prompts/designPrompts.ts:287-311 | the audience, brand-colour and style lines appear iff their fields are truthy, with those values |
| Prompts.EnhancedPromptGuidelines | src/prompts/designPrompts.ts:307 | the only guidelines included are those of the context's framework |
| Prompts.BuildUserPrompt | src/prompts/designPrompts.ts:354-409 | starts with the template header naming the upper-cased framework, and ends with the framework guidelines and the OUTPUT line |
| Prompts.UserPromptLines | src/prompts/designPrompts.ts:364-366 | the `- Style:` line appears iff the style preference is truthy, and the guidelines are those of the context's framework |
| ToolValidation.Entries | src/tools/DesignselectionTool.ts:117-121 | the three name/html pairs |
| ToolValidation.EntryFault | src/tools/DesignselectionTool.ts:125-142 | no fault iff the name is non-blank and at most 100 long, and the html is non-blank and free of the three unsafe markers |
| ToolValidation.FirstFault | src/tools/DesignselectionTool.ts:123-143 | none iff every design passes; otherwise the fault of some design |
| ToolValidation.Designs | src/tools/DesignselectionTool.ts:117-121 | validated input gives three designs |
| ToolValidation.ValidatedFieldsGiven | src/tools/DesignselectionTool.ts:125-135 | after validation all six fields are non-empty strings |
| ToolValidation.ValidateDesignInputAccepts | src/tools/DesignselectionTool.ts:115-144 | validation passes iff all three designs are acceptable |
| ToolValidation.DistDesignFault | dist/tools/DesignselectionTool.js:58-66 | no fault iff the name is at most 100 long and the html has none of the unsafe markers |
| ToolValidation.DistValidateDesignInput | dist/tools/DesignselectionTool.js:49-68 | passes iff every design passes; otherwise the fault of some design |
| ToolValidation.SrcValidationIsStricter | dist/tools/DesignselectionTool.js:49-68 | whatever the TypeScript validator accepts, the compiled one accepts |
| ToolValidation.DistAcceptsEmptyDesigns | dist/tools/DesignselectionTool.js:49-68 | the compiled validator accepts empty names and html |
| ToolValidation.ValidatePromptInput | src/tools/DesignselectionTool.ts:149-163 | passes iff the prompt is non-blank, at most 1000 long, and any framework is one of the seven, case-insensitively; blank gives the empty-prompt error |
| ToolValidation.TrimKeeps | src/tools/DesignselectionTool.ts:150 | a string without leading or trailing whitespace trims to itself |
| ToolValidation.AcceptedFrameworkGuidelines | src/tools/DesignselectionTool.ts:159-162 | an accepted framework is already in normal form; `plain css` and `css` get the CSS guidelines |
| ToolValidation.GenerationRequestFor | src/tools/DesignselectionTool.ts:176-199 | the template comes from the lookup as written: a component type (default `button`) that normalises to `constructor` or `__proto__` fails with the `TypeError` of `template.buildUserPrompt`; otherwise the request carries that type's template and the framework (default `tailwind`) |
| ToolValidation.KeepSubstantial | src/tools/DesignselectionTool.ts:207-214 | keeps exactly the designs with non-blank name and description and trimmed html over 100, and never more |
| ToolValidation.KeepSubstantialAppend | src/tools/DesignselectionTool.ts:207-214 | the filter distributes over concatenation, so it keeps order |
| ToolValidation.DesignsFromGenerationSpec | src/tools/DesignselectionTool.ts:202-230 | succeeds iff generation succeeded with at least 3 designs and at least 3 are kept; the inputs are the first three kept, in order |
| ToolValidation.GeneratedDesignsAreNotEmpty | src/tools/DesignselectionTool.ts:207-230 | generated designs can fail validation only by a long name or unsafe html |
| ToolValidation.SelectedHtml | src/tools/DesignselectionTool.ts:362-370 | '' when no name equals the selection; otherwise the html of the first design whose name does |
| ToolValidation.SelectedFlagsAgree | src/tools/DesignselectionTool.ts:362-394 | with distinct names, one matching design is the only flagged one and supplies the html |
| ToolValidation.Preview | src/tools/DesignselectionTool.ts:382 | the first 100 characters, plus '...' iff the html is longer than 100 |
| ToolValidation.PreviewBounds | src/tools/DesignselectionTool.ts:382 | a preview is at most 103 long and begins with the html's first characters |
| ToolValidation.SuccessResultAgrees | src/tools/DesignselectionTool.ts:362-398 | each option's flag holds iff its name equals the selection; with distinct names the flagged design supplies the html; without a flag the html is '' |
| ToolValidation.ErrorResultOptions | src/tools/DesignselectionTool.ts:449-537 | an error result is unsuccessful, with no URL and a null selection. Its options show the generated placeholders for a prompt and the given names and previews otherwise. `api_help` is present iff the input is a prompt or the message mentions MiniMax |
| SelectionTool.Step | src/lib/utils/serverUtils.ts:124-208 | one event never changes completion |
| SelectionTool.Apply | src/lib/utils/serverUtils.ts:124-208 | a run of events never changes completion |
| SelectionTool.ApplyHoldsLastSelection | src/lib/utils/serverUtils.ts:136-201 | after a run of events the selection is the last one recorded by a POST or a socket message |
| SelectionTool.StateAt | src/tools/DesignselectionTool.ts:296-319 | the session before any check keeps its completion flag |
| SelectionTool.Deliver | src/lib/utils/serverUtils.ts:101-208 | handling a run of events in order leaves the state `Apply` gives |
| SelectionTool.PollForSelection | src/tools/DesignselectionTool.ts:294-319 | returns the first truthy selection seen before the deadline, after one notify. If the getter throws on that selection, returns the conversion error without notifying. Otherwise every check saw none and the deadline has passed. The new state is the one at the last check |
| SelectionTool.Checked | src/tools/DesignselectionTool.ts:279-282 | the design check passes only on validated input |
| SelectionTool.Prepare | src/tools/DesignselectionTool.ts:242-282 | designs reach the page only past the gate and validation. Design input is kept as given; a generated set replaces the prompt input and records the metadata |
| SelectionTool.PageChecksFollow | src/tools/DesignselectionTool.ts:279-282 | validated designs always pass the page's own field check |
| SelectionTool.PrepareAccepts | src/tools/DesignselectionTool.ts:242-282 | preparation succeeds iff the gate, the prompt checks, the template call, the generation and the validation all pass |
| SelectionTool.InheritedTemplateRefused | src/tools/DesignselectionTool.ts:180-190 | a valid prompt request whose component type normalises to `constructor` or `__proto__` is refused with the `TypeError` before generation |
| SelectionTool.BlankPromptHidesDesigns | src/tools/DesignselectionTool.ts:242-255 | a blank prompt with valid designs is rejected, because the prompt workflow is chosen |
| SelectionTool.Execute | src/tools/DesignselectionTool.ts:236-538 | errors, including a first selection the getter cannot log, give the error result with the server stopped. Success has the first selection seen before the deadline, flags and html per `SuccessResult`, and the server still up. A timeout gives the timeout result with the server stopped |
| DistSelectionTool.Apply | src/tools/utils/serverUtils.ts:105-170 | requests never change `selectionFinalized` |
| DistSelectionTool.ApplyCompletes | src/tools/utils/serverUtils.ts:136-147 | after a run of requests the selection is complete iff it was before or some parsed result POST arrived |
| DistSelectionTool.StateAt | dist/tools/DesignselectionTool.js:88-106 | the session before any check keeps its finalized flag |
| DistSelectionTool.Deliver | src/tools/utils/serverUtils.ts:105-170 | handling the arrivals in order leaves the state `Apply` gives |
| DistSelectionTool.PollForSelection | dist/tools/DesignselectionTool.js:83-106 | returns the first truthy selection before the deadline. It notifies, which stops the server, unless the debug line throws on that selection; otherwise none was seen and the server still runs |
| DistSelectionTool.PageAccepts | dist/lib/templates/designSelection.js:273-282 | the page's field check passes iff all six fields are non-empty |
| DistSelectionTool.CheckAccepts | dist/tools/DesignselectionTool.js:75-78 | the checks before serving pass iff the compiled validator and the page check both pass |
| DistSelectionTool.EmptyNameFailsAtPage | dist/tools/DesignselectionTool.js:75-78 | an empty first name passes the compiled validator but fails at the page, naming `design_name_1` |
| DistSelectionTool.Execute | dist/tools/DesignselectionTool.js:72-190 | the server always ends stopped. Check errors, no free port and a first selection the debug line cannot interpolate give the error result. Success carries the first selection before the deadline and finalization; timeout carries the timeout result |

## Findings

| source | as written | input that shows it | evidently intended | confidence | as-written member | corrected member |
|---|---|---|---|---|---|---|
| src/prompts/designPrompts.ts:232 | `guidelines[fw] \|\| guidelines.css` reads inherited members of the object literal | framework `"__proto__"` yields `Object.prototype` instead of a guidelines text | unknown frameworks fall back to the CSS guidelines | high, not executed | Prompts.FrameworkGuidelinesProto | Prompts.FrameworkGuidelinesCases |
| src/prompts/designPrompts.ts:852 | `templates[type] \|\| BUTTON_TEMPLATE` reads inherited members | component type `"constructor"` yields the `Object` function, which has no `buildUserPrompt` | unknown types fall back to the button template | high, not executed | Prompts.TemplateForComponentConstructor | Prompts.TemplateForComponentCases |
| src/prompts/designPrompts.ts:894 | `names[type] \|\| [...]` reads inherited members | component type `"__proto__"` yields `Object.prototype` instead of three names | unknown types get "Modern " + type and two fixed names | high, not executed | Prompts.DesignNamesProto | Prompts.DesignNames |

## Left out

- Sockets, HTTP and WebSocket servers are not modelled as I/O. Requests and socket traffic are events handed to the handlers in order. Port probing is an availability oracle `available: int -> bool`.
- Interleaving of callbacks is not modelled. The events between two polls are delivered before the next read.
- Opening the browser is a boolean parameter `browserOpens`. The fallback chain of `open` calls in src/tools/utils/serverUtils.ts:183-201 is left out, and its failure is not reported there. `LibSession.BrowserFailedMessage` stands for whatever `open` rejects with.
- Killing the process on the default port (`lsof`/`taskkill`) is only recorded as a ghost event in `kills`. The exit and SIGINT hooks are left out.
- Timers are abstracted:
  - the 500 ms and 1 s sleeps are folded into the clock `now`, which advances at least 500 ms per check;
  - the 2 s delayed stop after a selection is left out, so after success the TypeScript tool's server is still up;
  - the 3 s forced close in `stopLocalServer` is left out.
- Logging, the debug files and the temporary HTML file are left out.
- `JSON.parse` is opaque: a handler receives the parsed value or `None`. JSON numbers are integers only.
- `btoa`, `atob` and `encodeURIComponent` are parameters.
- The page's CSS and script text, the prompt passages and the response's messages, tips, timestamps and durations are left out. Prompts are sequences of parts, and the page is the record of what the template fills in. The page text is a `render` parameter of the tools.
- `generateDesigns` of the MiniMax client is a parameter `generate`. src/lib/utils/minimaxClient.ts is not part of this model.
- `toLowerCase`, `toUpperCase` and `trim` are ASCII case maps and the JavaScript whitespace set. Lengths count characters, not UTF-16 code units.
- `Prompts.EveryComplete`: a thrown `TypeError` from `validateOutput` on a nullish element is modelled as `None`.
- `SelectionTool.PollForSelection`: the messages the session sends while polling are not stated in its contract.
- dist/tools/utils/serverUtils.js, which the compiled tool imports, is not part of this model. The compiled tool is paired with the session of src/tools/utils/serverUtils.ts.
