# ytapp title helper — a Dafny model of its core

ytapp is a small web page with two back ends: serverless functions under
api/ and an Express server under server/. A user pastes a
YouTube link. The page extracts the video id and asks the back end for the
video's record: title, thumbnail, duration, channel and, in one copy, the view
and like counts. The user can then ask for five alternative titles, which a
chat-completion provider (Groq or Claude) writes and the back end normalises.

This project models that core and proves what it promises:

- `Text` — the JavaScript primitives the core relies on. It covers the
  ECMAScript white-space set shared by `\s` and `trim`, `trim`, one-character
  `split` and `join`, greedy `\d+`, `toString` and `parseInt` on naturals, and
  `padStart`.
- `Titles` — the normalisation pipeline shared by the three copies of
  `generateTitleVariations`: split into lines, strip a `digits.` marker, trim,
  drop empty lines, keep five.
- `Providers` — the three copies of `generateTitleVariations` around that
  pipeline. There are two identical Groq copies and one Claude copy. The model
  covers their prompt, model name, token limit, and the ways each can fail.
- `Duration` — `parseDuration`. Its regular expression is modelled
  explicitly: leftmost "PT", then each optional group greedily.
- `Catalog` — the pure part of both copies of `getVideoInfo`: from the catalog
  reply to the record.
- `VideoId` — `extractVideoId`, with both regular expressions modelled
  explicitly: leftmost match, first alternative, greedy capture.
- `Client` — the page's state: a class whose field is `currentVideoInfo`,
  with `handleSubmit` and `handleGenerateTitles` as methods.

Two behaviours of `parseDuration` are worth stating plainly:

- A duration with a day part such as "P1DT2H" contains no "PT", so
  `parseDuration` returns "0:00" (`Duration.DayFormHasNoPT`).
- A duration of seconds alone such as "PT45S" gives "0:45"
  (`Duration.ParseDesignators`).

Network calls, provider SDKs and environment reads are not executed. Their
outcomes are parameters:

- a `CatalogReply` for the catalog, which may also be a rejected `fetch` or
  `response.json()`;
- `Option<string>` for the Groq key;
- a function from request to reply, or to the error the call rejects with, for
  each provider;
- a function from id or title to record, message or variations for the two
  client round trips.

## Model

| member | source | states |
|---|---|---|
| Text.Trim | src/main.ts:142 | `trim()`: the result has no white space at either end; it is the input with a white-space prefix and a white-space suffix removed; it is empty exactly when the input is all white space |
| Text.TrimUnique | api/generate-titles.ts:35 | the trim is the only non-empty infix with non-blank ends that lies between white space, so any such infix is the trim |
| Text.TrimOfTrimmed | server/groq.ts:34 | trimming text that has no white space at its ends changes nothing |
| Text.TrimChars | server/claude.ts:32 | trimming introduces no character that was not in the input |
| Text.Split | api/generate-titles.ts:34 | `split('\n')`: always at least one piece, and text without the separator is one piece, itself; JoinSplit, SplitJoin and SplitNoSep pin the pieces down |
| Text.JoinSplit | api/generate-titles.ts:34 | `split('\n')` loses nothing: joining the pieces with the separator gives the text back |
| Text.SplitJoin | server/claude.ts:31 | splitting a join of separator-free pieces gives back exactly those pieces |
| Text.SplitNoSep | server/groq.ts:33 | no piece produced by `split` contains the separator |
| Text.SplitAppend | api/generate-titles.ts:34 | splitting `a + sep + b` gives the pieces of `a` followed by the pieces of `b` |
| Text.JoinAppend | server/groq.ts:33 | joining two non-empty lists of pieces puts exactly one separator between their joins |
| Text.DigitRun | api/generate-titles.ts:35 | greedy `\d+` from a position: the run is all digits and ends at the end of the text or at a non-digit |
| Text.DigitRunMaximal | api/generate-titles.ts:35 | the greedy `\d+` run is at least as long as any digit run at the same position |
| Text.DigitRunExact | server/youtube.ts:9 | a digit run ending at the end of the text or at a non-digit is exactly the greedy run |
| Text.Show | api/video-info.ts:21 | `toString` on a natural gives at least one decimal digit and no leading zero |
| Text.ParseDigits | api/video-info.ts:16-18 | `parseInt` on a digit run: zero exactly when every digit is a zero; ParseShow and ParseLeadingZero give its value |
| Text.ParseShow | api/video-info.ts:16-23 | `parseInt` reads back what `toString` wrote |
| Text.ParseLeadingZero | server/youtube.ts:12-14 | `parseInt` ignores a leading zero |
| Text.PadStart | api/video-info.ts:21 | `padStart`: the length is the larger of the width and the input length; the input ends the result; every character before it is the fill |
| Titles.HasMarker | api/generate-titles.ts:35 | whether `^\d+\.` matches: a marked line starts with a digit and holds a period; HasMarkerIffRegexMatches ties it to the regex |
| Titles.HasMarkerIffRegexMatches | api/generate-titles.ts:35 | the greedy test used by the model holds exactly when `^\d+\.` matches some prefix of the line |
| Titles.StripMarker | api/generate-titles.ts:35 | the result is a suffix of the line. Without a marker it is the whole line. With one, the removed prefix is a `\d+\.\s*` marker and the result does not start with white space |
| Titles.StripMarkerChars | server/groq.ts:34 | stripping the marker introduces no character |
| Titles.CleanLine | server/groq.ts:34 | a cleaned line has no white space at its ends and holds only characters of the original line |
| Titles.CleanAll | server/groq.ts:34 | `.map(...)`: one cleaned line per line, in order |
| Titles.DropEmpty | api/generate-titles.ts:36 | `filter(length > 0)`: every kept line is non-empty and comes from the input, and a list without empty lines is kept whole |
| Titles.Take | api/generate-titles.ts:38 | `slice(0, n)`: a prefix of the input of length min(n, length) |
| Titles.Candidates | api/generate-titles.ts:33-36 | the split/map/filter chain: no more lines than the split gives, none empty; CandidatesAreClean and CandidatesAppend state the rest |
| Titles.CandidatesAreClean | server/claude.ts:30-33 | every surviving line is non-empty, trimmed and free of newlines |
| Titles.Normalize | api/generate-titles.ts:33-38 | at most five variations, each non-empty, trimmed and free of newlines. They are a prefix of the surviving lines, in order, of length min(5, number of survivors) |
| Titles.MapAppend | server/groq.ts:34 | `map` distributes over concatenation |
| Titles.DropEmptyAppend | server/groq.ts:35 | `filter` distributes over concatenation |
| Titles.CandidatesAppend | api/generate-titles.ts:33-36 | order is preserved: the lines surviving from `a + "\n" + b` are those of `a` followed by those of `b` |
| Titles.NormalizeBlank | api/generate-titles.ts:31-38 | an empty or all-white-space reply yields no variations and no error |
| Titles.CleanLineBlank | server/claude.ts:32 | a blank line cleans to the empty string |
| Titles.CleanLineOfClean | server/groq.ts:34 | a trimmed line without a marker is left unchanged |
| Titles.StripMarkerOf | api/generate-titles.ts:35 | a `digits.` marker and all the white space after it are removed together |
| Titles.CleanLineStripsMarker | server/claude.ts:32 | `digits` + "." + white space + a trimmed body cleans to exactly the body, even when the body starts with another marker |
| Titles.NormalizeOneLine | server/groq.ts:32-37 | a one-line text yields its cleaned line, or nothing if that is empty |
| Titles.NormalizeMarkedLine | api/generate-titles.ts:33-38 | "n. body" yields exactly [body] |
| Titles.NormalizeIdempotent | server/groq.ts:32-37 | normalising the newline-join of the output gives the output back, as long as no variation starts with a `digits.` marker |
| Titles.NormalizeNotIdempotent | server/claude.ts:30-35 | without that premise idempotence fails: "1. 2. Foo" gives ["2. Foo"] and a second pass gives ["Foo"] |
| Providers.Prompt | api/generate-titles.ts:17-25 | the prompt is the fixed prefix, the title spliced in verbatim, then the fixed instructions |
| Providers.PromptRoundTrip | server/groq.ts:16-24 | the title can be read back from the prompt |
| Providers.PromptInjective | server/claude.ts:12-20 | different titles give different prompts |
| Providers.GroqText | api/generate-titles.ts:31 | `choices[0]?.message?.content \|\| ''`: the first choice's content when present, else the empty text, and non-empty only when that content exists |
| Providers.GroqRequest | server/groq.ts:11-28 | the Groq request names llama-3.3-70b-versatile with a 500-token limit, and its prompt carries the title |
| Providers.GroqVariations | api/generate-titles.ts:4-39 | no request is sent exactly when the key is missing or empty, and then "Groq API key not configured" is thrown. Otherwise the request is sent. A rejected call fails with the rejection; an answered one gives a prefix of the reply's surviving lines: at most five, each non-empty, trimmed and free of newlines |
| Providers.GroqMissingKeyIgnoresProvider | server/groq.ts:4-7 | a missing key fails the same way whatever the provider would answer, and nothing is sent |
| Providers.GroqBlankReply | server/groq.ts:30 | a reply with no choice, no message, no content or blank content gives no variations rather than an error |
| Providers.GroqIsNormalize | server/groq.ts:30-37 | once configured, the Groq copy is the shared normalisation of the reply text |
| Providers.ClaudeRequest | server/claude.ts:6-23 | the Claude request names claude-sonnet-4-20250514 with a 1024-token limit, and its prompt carries the title |
| Providers.ClaudeVariations | server/claude.ts:5-36 | an empty content list fails reading `type`; a non-text first block throws "Unexpected response format"; a text first block gives exactly the shared normalisation of its text; a rejected call fails with the rejection |
| Providers.CopiesAgree | server/claude.ts:25-35 | given the same reply text, the Claude copy and the Groq copies return the same variations, and they send the same prompt |
| Providers.RejectionPropagates | server/claude.ts:6-23 | a rejected provider call fails every copy with that rejection, unchanged |
| Providers.ClaudeHasNoFallback | server/claude.ts:25-28 | a non-text first block is an error, unlike the Groq copies' empty fallback |
| Duration.FindPT | api/video-info.ts:13 | the unanchored pattern starts at the first "PT": one is found exactly when the text has one, and none comes before it |
| Duration.Component | api/video-info.ts:13 | one optional group takes a digit run and its designator, or nothing, and the text is those digits, the designator and the rest |
| Duration.MatchDuration | api/video-info.ts:13-14 | the pattern fails exactly when the text holds no "PT"; every captured group is digits |
| Duration.GroupValue | api/video-info.ts:16-18 | `parseInt(group \|\| '0')`: 0 for a missing group, else the group's decimal value |
| Duration.Pad2 | api/video-info.ts:21 | `n.toString().padStart(2, '0')`: "0" then the digit below ten, the plain decimal from ten on; it always reads back as the number |
| Duration.Clock | api/video-info.ts:20-23 | the two template strings: `h:MM:SS` when there are hours, `M:SS` otherwise; ClockParts, ClockShapeOf and ClockRoundTrip state what it produces |
| Duration.ParseDuration | api/video-info.ts:12-24 | a text without "PT" gives "0:00"; every result has the `H:MM:SS` or `M:SS` shape |
| Duration.ZeroClock | server/youtube.ts:10 | the "0:00" fallback is the clock of a zero duration |
| Duration.ClockParts | server/youtube.ts:16-19 | the colon-separated fields of the clock are the shown hours, minutes and seconds |
| Duration.ClockShapeOf | api/video-info.ts:20-23 | every clock has the `H:MM:SS` shape with non-zero hours, or the `M:SS` shape |
| Duration.ClockRoundTrip | api/video-info.ts:20-23 | reading the clock back gives the hours, minutes and seconds it was made from, with no carry between fields |
| Duration.ClockInjective | server/youtube.ts:16-19 | different durations give different clock texts |
| Duration.ComponentTakes | api/video-info.ts:13 | a group whose digits are followed by its own designator takes them |
| Duration.ComponentSkips | server/youtube.ts:9 | a group that meets digits followed by another designator is skipped |
| Duration.FindAfterPrefix | api/video-info.ts:13 | behind text without a "PT", the match starts at the "PT" that follows |
| Duration.ParseDesignators | server/youtube.ts:8-20 | for any ISO 8601 time part with optional H, M and S components, behind text without a "PT", the result is the clock of the components' values, with absent components counting as zero |
| Duration.ParseDurationRoundTrip | api/video-info.ts:12-24 | for "PT{h}H{m}M{s}S" the result reads back as (h, m, s) |
| Duration.MinutesText | server/youtube.ts:8-19 | "PT" + digits + "M" is the clock of those minutes |
| Duration.MinutesOnly | api/video-info.ts:23 | minutes alone are shown as they are, with no carry into hours ("PT90M" gives "90:00") |
| Duration.MinutesLeadingZero | server/youtube.ts:13 | a leading zero in the minutes vanishes |
| Duration.DayFormHasNoPT | api/video-info.ts:13-14 | any text of a day part then "T" and a time part without "PT", such as "P1DT2H", gives "0:00" |
| Catalog.PickThumbnail | api/video-info.ts:47 | `high?.url \|\| default?.url`: the high URL when non-empty, else the default URL when that size exists, else nothing |
| Catalog.CountOrZero | api/video-info.ts:50-51 | a missing or empty count reads as "0", and any other count is kept |
| Catalog.FirstItem | api/video-info.ts:29-40 | a rejected `fetch` or `json()` fails with that rejection; a non-OK reply throws "YouTube API error: " + status; a missing or empty list throws "Video not found"; otherwise the first entry is used |
| Catalog.Basic | server/youtube.ts:40-45 | the record copies title and channel, picks the thumbnail, and formats the duration into a clock |
| Catalog.ServerGetVideoInfo | server/youtube.ts:22-46 | succeeds exactly when there is a first entry, with the basic record; otherwise fails with the same error |
| Catalog.ApiGetVideoInfo | api/video-info.ts:26-53 | the same errors; an entry without statistics fails reading `viewCount`; otherwise the record with both counts defaulted to "0" |
| Catalog.CopiesAgree | server/youtube.ts:22-46 | wherever the api copy succeeds, the server copy gives the same record without the counts; wherever the server copy fails, the api copy fails the same way |
| Catalog.OnlyFirstItemMatters | api/video-info.ts:40 | entries after the first never change either copy's result |
| Catalog.CountsDefault | api/video-info.ts:50-51 | a count reads "0" exactly when it is missing, empty or "0", and a non-empty count is copied unchanged |
| VideoId.IdRun | src/main.ts:50 | the greedy `[^&\n?#]+` run: all id characters, ending at the end of the text or at a non-id character |
| VideoId.FirstAlt | src/main.ts:50 | the first alternative that matches at a position, none before it matching |
| VideoId.Leftmost | src/main.ts:55 | the leftmost matching position and the first alternative matching there; nothing matches earlier, and nothing at all when none is found |
| VideoId.IdFrom | src/main.ts:50 | the capture is the text from its start on, character for character, all id characters, as many as the greedy run |
| VideoId.LeftmostIffAnyMatch | src/main.ts:55-56 | a match is found exactly when some alternative matches somewhere |
| VideoId.Capture | src/main.ts:55-58 | the capture is present exactly when a match is found; it is non-empty, consists of id characters, and is the greedy run after the leftmost match's prefix |
| VideoId.ExtractVideoId | src/main.ts:48-61 | nothing exactly when neither pattern matches anywhere. Otherwise the watch/short-link/embed capture if that pattern matches, else the shorts capture; the id is non-empty and consists of id characters |
| VideoId.WatchLink | src/main.ts:50 | when no 'y' comes before the prefix, a link with a watch, short-link or embed prefix gives exactly the id after the prefix, stopping at `&`, `?`, `#` or a line break |
| VideoId.ShortsLink | src/main.ts:51 | when no other 'y' appears in the text (before the prefix, in the id or after it), a shorts link gives exactly the id after the shorts prefix |
| VideoId.WatchBeatsEarlierShorts | src/main.ts:54-59 | when no 'y' comes before the shorts link or in its id, and a `?` follows that id, the watch pattern is tried on the whole text first, so a watch link wins even behind a shorts link |
| VideoId.PrefixesDistinct | src/main.ts:50 | at one position at most one watch alternative matches |
| VideoId.FirstMatchAt | src/main.ts:55-58 | with nothing matching earlier, the capture is the run of id characters after the first matching prefix |
| Client.RequestedId | src/main.ts:142-153 | blank input requests nothing; otherwise the id extracted from the trimmed input |
| Client.ShownMessage | src/main.ts:144-168 | the message left after a submit: "Please enter a YouTube URL" for blank input, "Invalid YouTube URL. Please check and try again." for an unrecognised link, the error's message for a failed load, and none after a load |
| Client.Session.constructor | src/main.ts:46 | no video is loaded and no card is shown at start |
| Client.Session.Submit | src/main.ts:141-171 | blank input shows the empty-URL message and an unrecognised link the invalid-URL message, both without a request. A successful fetch replaces the current video and shows it; a failed one shows its message. Only a successful fetch changes the current video, and only it leaves a video card (with its Generate button) shown; every other outcome empties the card, and a shown card is always the current video |
| Client.Session.GenerateTitles | src/main.ts:173-195 | without a current video nothing is requested. Otherwise exactly one request for the current video's title, showing its variations or its error message |
| Client.LoadedCardRequestsItsTitle | src/main.ts:84-89 | after a successful load the card shows that video, and its Generate button requests titles for exactly its title |
| Client.RejectedInputHidesCard | src/main.ts:141-158 | after a successful load, a blank submit keeps `currentVideoInfo` but removes the card and its Generate button, so the kept video cannot reach a title request |

## Left out

- The HTTP handlers are not part of this model: `handler` in api/generate-titles.ts and api/video-info.ts, and server/index.ts. That covers method checks, status codes, JSON bodies and request parameters. They only route to the modelled functions.
- The requests themselves are parameters: `fetch`, the Groq and Anthropic SDKs, and the environment reads. The catalog URL with its `part` list and key is not modelled.
- The Anthropic client's own key lookup is done by the SDK and is not modelled.
- DOM work in src/main.ts is left out: messages, `innerHTML`, button state, `showVideoInfo`, `showTitleVariations` and `formatNumber`. `fetchVideoInfo` and `generateTitles` are the `fetch` and `generate` parameters of the `Client.Session` methods.
- Client.Session.GenerateTitles: it models `handleGenerateTitles` itself, which checks only `currentVideoInfo`; that the Generate button exists only on a shown card is the `card` field and the lemma methods beside it, not a precondition.
- Client.Session.Submit: the method runs to completion. Two overlapping asynchronous submits, whose replies could arrive out of order, are not modelled.
- Client.Session.Submit: a thrown value that is not an `Error` shows "Failed to load video". The model folds that into the failure message the parameter returns.
- Duration.ParseDuration: numbers are unbounded naturals. `parseInt` above 2^53 loses precision in JavaScript, and `toString` switches to exponent notation from 10^21; neither is modelled.
- Catalog.ApiGetVideoInfo: a reply whose entry lacks `snippet`, `contentDetails` or `thumbnails` throws in JavaScript. The datatypes require those fields, so those replies are not represented. A missing `statistics` is modelled.
- Titles.NormalizeIdempotent: idempotence is proved only when no variation starts with a `digits.` marker. Titles.NormalizeNotIdempotent shows it fails otherwise.
- Strings are sequences of Dafny characters. JavaScript strings are UTF-16 code units, which differ only for characters outside the Basic Multilingual Plane. The white-space set and every delimiter the core uses lie inside it.
