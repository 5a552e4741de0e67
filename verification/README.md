# Konkurranseguiden AI back-end: the record pipeline in Dafny

This project models the part of the Konkurranseguiden back-end that turns
competition text into a competition record. It follows both back-ends of
the repository:

- **Text analysis** (`api/index.js`). The title, prize, organizer and
  deadline extractors feed `createFallbackFromText`. Its keyword ladder
  picks a category and an emoji. `validateCompetitionData` repairs a
  record in place. `analyzeTextWithAI` cleans the language model's reply,
  merges the manual overrides, stamps metadata, validates, and falls back
  to the text fallback on any failure.
- **Scraping** (`index.js`). `createSmartFallback` builds a record from a
  scraped page with a five-rule keyword ladder. `analyzeWithOpenAI` strips
  the code fences from the reply, stamps it, and falls back to
  `createSmartFallback`.

The modules are:

| module | file | what it holds |
|---|---|---|
| `Wrappers` | `wrappers.dfy` | `Option`, standing for `null`, `undefined` and a call that throws |
| `Text` | `text.dfy` | the string methods the code calls (`trim`, `indexOf`, `includes`, `split`, `replace`, `substring`, `padStart`, `toLowerCase`) |
| `Calendar` | `calendar.dfy` | UTC dates, `toISOString`, and `new Date(s)` for `YYYY-MM-DD` strings |
| `Patterns` | `patterns.dfy` | one hand-written scanner per regular expression, with `String.prototype.match`'s leftmost search |
| `Extractors` | `extractors.dfy` | `extractTitle`, `extractPrize`, `extractOrganizer`, `extractDeadline` |
| `Records` | `records.dfy` | the record, the overrides, `validateCompetitionData`, and the record as an object (`Competition`) assigned field by field |
| `Replies` | `replies.dfy` | removing code fences and isolating the `{...}` payload |
| `TextAnalysis` | `textanalysis.dfy` | `createFallbackFromText` and `analyzeTextWithAI` after the network call |
| `Scrape` | `scrape.dfy` | `createSmartFallback` and `analyzeWithOpenAI` after the network call |

The external inputs become parameters:

- The clock is `now`, in milliseconds since 1970, of type `Now`. The date
  thirty days later has a four-digit year.
- The host name of the URL is `hostname`.
- The engine's parser for date strings that are not `YYYY-MM-DD` is `legacy`.
- The model's reply is `reply`; `None` stands for a failed request.
- `JSON.parse` is `parse`; `None` stands for a throw.

The regular expressions are not run by an engine. Each is a scanner that
tries its quantifiers in the engine's order, greedy with backtracking. A
lemma per pattern (`Patterns.*Exact`) ties its scanner to the shape the
expression describes, in both directions: a reported match has that shape,
and a text of that shape at a position makes the scanner report a match
there. `Patterns.SearchFromLeftmost` states that the search reports the
leftmost start that matches.

The character classes are the engine's own for patterns without the `u`
flag: `\s` is ECMAScript's whitespace and line terminators, and `\w` is
ASCII letters, digits and `_`.

## Model

| member | source | states |
|---|---|---|
| `Extractors.TitleOf` | api/index.js:205-216 | Among the trimmed lines longer than five characters: the first one mentioning vinn, konkurranse, premie or gavekort (in any case). Otherwise the first such line. `None` exactly when there is no such line. |
| `Extractors.LongLines` | api/index.js:206 | Every kept line is longer than five characters. The list is empty exactly when no line is long once trimmed. |
| `Extractors.LongLinesSingle` | api/index.js:206 | One line contributes itself, trimmed, exactly when it is long once trimmed, and nothing otherwise. |
| `Extractors.LongLinesAppend` | api/index.js:206 | The filter goes line by line in order: the long lines of `a + b` are those of `a` followed by those of `b`. |
| `Extractors.LongLinesHead` | api/index.js:206 | The first long line, trimmed, heads the filtered list. |
| `Extractors.FirstCompetitionLine` | api/index.js:209-215 | The index of the first line with a competition word, and none before it; `None` only when no line has one. |
| `Extractors.FirstHitFrom` | api/index.js:226-233 | The ladder: the first pattern, in list order, whose search finds a match, with every earlier pattern finding none. |
| `Extractors.FirstHitNoneIff` | api/index.js:226-253 | A ladder finds nothing (no prize; the organizer falls back to the host name) exactly when the shape of none of its patterns occurs anywhere in the text. |
| `Extractors.PrizeOf` | api/index.js:218-234 | `None` exactly when none of the four prize patterns matches. Otherwise the trimmed whole match of the first pattern that matches. |
| `Extractors.ExtractPrize` | api/index.js:226-233 | The loop with early return computes `PrizeOf`. |
| `Extractors.OrganizerOf` | api/index.js:236-254 | With no organizer pattern matching: the host name with its first character upper-cased. Otherwise: the first group of the first matching pattern, trimmed, at most 31 characters. The group itself is non-empty, but its trim may be empty. |
| `Extractors.OrganizerGroupBound` | api/index.js:241-243 | A group of each organizer pattern has at most 31 characters. |
| `Extractors.ExtractOrganizer` | api/index.js:246-253 | The loop with early return computes `OrganizerOf`. |
| `Extractors.MonthNumberSpec` | api/index.js:269-273 | The month table finds exactly the twelve Norwegian names; the k-th name gives month k+1 in two digits. |
| `Extractors.MonthFromSpec` | api/index.js:269-274 | The lookup from entry k on finds a word exactly when it is among the names from k on, and gives that name's month number. |
| `Extractors.MonthNamesDistinct` | api/index.js:269-273 | No month name appears twice in the table. |
| `Extractors.MonthLookupAsWritten` | api/index.js:269-275 | The lookup on a plain object agrees with the table on the twelve names. Its only other hits are `constructor` and `__proto__`. |
| `Extractors.MonthNameDateShaped` | api/index.js:276 | Four year digits, a two-digit month and a one- or two-digit day padded with `0` make a `YYYY-MM-DD` string. |
| `Extractors.DeadlineFrom` | api/index.js:263-285 | A date comes from the first match of some pattern from k on. `None` only when every pattern that matches yields no date. |
| `Extractors.DeadlineFromFirst` | api/index.js:263-285 | The ladder's order: the date comes from the first match of pattern j, and every pattern from k up to j either misses or throws on its first match. |
| `Extractors.DeadlineOf` | api/index.js:256-288 | The deadline is the date of the first of the three patterns, in order, whose first match yields one; `None` when none does. Every deadline it returns has the form `YYYY-MM-DD`. |
| `Extractors.DeadlineMonthName` | api/index.js:266-276 | When the first day-month-year match names the k-th month in any letter case, the deadline is `year-MM-DD` from its groups, with MM = k+1 in two digits and the day padded with `0`. |
| `Extractors.DayWordYearMatch` | api/index.js:258 | A text made of a one- or two-digit day, `. `, a word, a space and four digits is matched whole, with the day, the word and the year as its groups. |
| `Extractors.OctoberDeadline` | api/index.js:256-288 | `15. oktober 2025` gives the deadline `2025-10-15`. |
| `Extractors.DeadlineIso` | api/index.js:263-283 | When the day-month-year pattern misses or throws and the first ISO match is a valid `YYYY-MM-DD` date, the deadline is that text unchanged. |
| `Extractors.IsoDeadline` | api/index.js:256-288 | `2025-10-15` gives the deadline `2025-10-15`. |
| `Extractors.DeadlineShaped` | api/index.js:263-285 | By induction over the ladder: every date it yields from pattern k on is `YYYY-MM-DD`. |
| `Extractors.DateFromMatchShaped` | api/index.js:266-283 | The date read from one match is `YYYY-MM-DD`, whether written from the month name or from the parsed date. |
| `Extractors.ExtractDeadline` | api/index.js:263-287 | The loop with early return and `continue` on a throw computes `DeadlineOf`. |
| `Extractors.ConstructorMonthCounterexample` | api/index.js:269-277 | With the table read as the source reads it, `15. constructor 2025` yields a deadline that is not `YYYY-MM-DD`. |
| `Patterns.WinPhraseExact` | api/index.js:220 | The scanner reports a match at a position exactly when text of the form `vinn`, spaces, and a group of 10 to 80 sentence characters starts there; what it reports has that shape. |
| `Patterns.PrizePhraseExact` | api/index.js:221 | The scanner reports a match at a position exactly when text of the form `premie`, up to 20 sentence characters, and a group of 10 to 80 more starts there; what it reports has that shape. |
| `Patterns.GiftCardExact` | api/index.js:222 | The scanner reports a match at a position exactly when text of the form `gavekort` and up to 50 sentence characters starts there; what it reports has that shape. |
| `Patterns.AmountExact` | api/index.js:223 | The scanner reports a match at a position exactly when text of the form digits, spaces, `kr` and up to 30 sentence characters, all of it the group starts there; what it reports has that shape. |
| `Patterns.OrganizerLabelExact` | api/index.js:241 | The scanner reports a match at a position exactly when text of the form `arrangør`, colons or spaces, and a group of 2 to 30 sentence characters starts there; what it reports has that shape. |
| `Patterns.ByNameExact` | api/index.js:242 | The scanner reports a match at a position exactly when text of the form `av`, spaces, and a group of a capital and 2 to 30 letters or spaces starts there; what it reports has that shape. |
| `Patterns.BrandExact` | api/index.js:243 | The scanner reports a match at a position exactly when text of the form one of the seven brand names, which is also the group starts there; what it reports has that shape. |
| `Patterns.DayMonthYearExact` | api/index.js:258 | The scanner reports a match at a position exactly when text of the form a day of one or two digits, a dot, a word and a four-digit year, with the three groups in place starts there; what it reports has that shape. |
| `Patterns.YearMonthDayExact` | api/index.js:259 | The scanner reports a match at a position exactly when text of the form four digits, a dash, one or two digits, a dash, and one or two digits starts there; what it reports has that shape. |
| `Patterns.DaySlashMonthSlashYearExact` | api/index.js:260 | The scanner reports a match at a position exactly when text of the form one or two digits, a slash, one or two digits, a slash, and four digits starts there; what it reports has that shape. |
| `Patterns.SearchFromLeftmost` | api/index.js:227 | `text.match(p)` reports the scanner's match at the leftmost start that has one. It reports nothing only when no start has one. |
| `Patterns.MatchAtExact` | api/index.js:220-260 | For every pattern: a match at a position is reported exactly when the text there has the pattern's shape, and what is reported has it. |
| `Patterns.SearchExact` | api/index.js:247 | What the search reports has the shape of its pattern. Wherever a text of that shape occurs, the search reports a match that starts there or earlier. |
| `Patterns.RunIs` | api/index.js:258 | A greedy run of one character class is exactly the characters of that class up to the first one outside it. |
| `Calendar.IsoStringDatePart` | api/index.js:186 | `toISOString().split('T')[0]` is the UTC date of the time. |
| `Calendar.DateStringRoundTrip` | api/index.js:301-305 | Parsing a written date gives the midnight that starts the day. |
| `Calendar.IsoDateStable` | api/index.js:280 | A valid `YYYY-MM-DD` string comes back unchanged through `new Date(s).toISOString().split('T')[0]`. |
| `Calendar.ParseFormatDate` | api/index.js:280 | Reading a written calendar date gives that date back. |
| `Calendar.CivilOfDayNumber` | api/index.js:280 | Counting days and converting back gives the same calendar date. |
| `Records.SiteName` | api/index.js:157 | Without a `www.` the host name is unchanged. With one, exactly the first occurrence of `www.` is cut out and the text before and after it is kept. |
| `Records.ValidatedPasses` | api/index.js:290-316 | After validation: title of at least 3 characters, organizer of at least 2, category one of the six, deadline parsing to a time in (now, now + 365 days]. |
| `Records.ValidatedFields` | api/index.js:290-316 | Each repaired field is kept exactly when it passes, else gets 'Ny konkurranse', 'Ukjent arrangør', the date of now + 30 days, or 'annet'. The other eight fields are unchanged. |
| `Records.DefaultDeadlineGood` | api/index.js:303-306 | The replacement date of now + 30 days is itself a deadline the validator keeps. |
| `Records.ValidatedDeadlineKept` | api/index.js:300-306 | The deadline stays exactly when it passes or already is the replacement date. |
| `Records.ValidatedIdempotent` | api/index.js:290-316 | Validating twice at the same time equals validating once. |
| `Records.Competition.Validate` | api/index.js:290-316 | The in-place repairs leave the object equal to `Validated` of its old value. |
| `Records.OverriddenFields` | api/index.js:133-138 | A truthy override replaces its field. A falsy one, and every field without an override, leaves it unchanged. |
| `Records.NoOverridesIdentity` | api/index.js:63 | The default `{}` overrides change nothing. |
| `Records.Competition.ApplyOverrides` | api/index.js:133-138 | The six conditional assignments leave the object equal to `Overridden` of its old value. |
| `Records.StampedFields` | api/index.js:141-144 | Stamping sets id, added date, source URL and `aiParsed = true`. The date part of the added date is today's date. Nothing else changes, and stamping is idempotent. |
| `Records.Competition.Stamp` | api/index.js:141-144 | The four assignments leave the object equal to `Stamped` of its old value. |
| `Replies.CleanReplyClean` | api/index.js:113-121 | After removing the fences, no "```" is left anywhere, and the text neither starts nor ends with whitespace. |
| `Replies.CleanReplyPlain` | index.js:136-143 | A reply with no backquote and no surrounding whitespace passes unchanged. |
| `Replies.PayloadSpec` | api/index.js:123-129 | When some `{` precedes some `}`, the payload runs exactly from the first `{` to the last `}`. Otherwise the text passes unchanged. |
| `TextAnalysis.ClassifyLadder` | api/index.js:169-182 | ikea gives 🏠 and sets the organizer to 'Ikea' only if it is empty. Otherwise iphone/apple give teknologi and 📱, overriding a manual category. Otherwise reise/ferie give reise and ✈️. Otherwise 🎁. A category among the six stays among the six. |
| `TextAnalysis.ClassifyImage` | api/index.js:174-182 | Past the ikea rung, a tech or travel hit picks a category among the six and shows the emoji the scraping back-end pairs with it (`Records.Emoji`). Without a hit the category is kept and the image is the gift of `annet`. |
| `TextAnalysis.FallbackShape` | api/index.js:188-201 | Title, prize and organizer are at most 80, 100 and 50 characters. `aiParsed` is false, the source URL is the input URL, and the id is the clock. |
| `TextAnalysis.FallbackPrecedence` | api/index.js:161-197 | For title, prize and deadline: truthy override, then extracted value, then default. Title and prize are truncated. The type is the override or 'gratis'. |
| `TextAnalysis.FallbackOrganizer` | api/index.js:167-193 | The organizer is the override, then the extracted organizer, then the site name, after the ikea rule, cut to 50. The description names the uncut organizer. |
| `TextAnalysis.FallbackCategory` | api/index.js:170-182 | Category and image come from the keyword ladder over the manual category or 'annet'. Without a tech or travel word the manual category is kept. |
| `TextAnalysis.FallbackNotValidated` | api/index.js:188-201 | The fallback is not validated: a manual category outside the six survives. |
| `TextAnalysis.AiRecordFields` | api/index.js:133-147 | A parsed reply becomes a record that is AI-parsed, carries the URL, and passes the validator. It keeps truthy prize and type overrides and a truthy title override of at least 3 characters. |
| `TextAnalysis.AnalyzeTextWithAI` | api/index.js:113-151 | A failed request or a failed parse gives the text fallback. Otherwise the result is the payload of the cleaned reply, parsed, overridden, stamped and validated. |
| `Scrape.SmartTopicIsFirstRule` | index.js:170-188 | The category is that of the first rule with a word in the lower-cased content, else 'annet'. It is one of the six, and the image is its emoji. |
| `Scrape.TopicsPaired` | index.js:170-188 | Each of the six outcomes pairs a category with its own emoji: teknologi 📱, reise ✈️, gaming 🎮, sport ⚽, mat 🍕, annet 🎁. |
| `Scrape.FirstRule` | index.js:173-188 | The first rule from k on with a word in the text, and none before it; `None` only when no rule has one. |
| `Scrape.TechnologyRule` | index.js:173 | The teknologi rule fires exactly when one of its six words occurs. |
| `Scrape.TravelRule` | index.js:176 | The reise rule fires exactly when one of its five words occurs. |
| `Scrape.GamingRule` | index.js:179 | The gaming rule fires exactly when one of its five words occurs. |
| `Scrape.SportRule` | index.js:182 | The sport rule fires exactly when one of its four words occurs. |
| `Scrape.FoodRule` | index.js:185 | The mat rule fires exactly when one of its four words occurs. |
| `Scrape.SmartFallbackFields` | index.js:164-204 | Title: the first 80 characters of the scraped title, else of 'Ny konkurranse' (all of it when shorter). Organizer: the site name with its first letter upper-cased. Category: one of the six, with its emoji. The other fields are fixed, or come from the clock and the URL. |
| `Scrape.SmartFallbackShortTitle` | index.js:165 | A non-empty title of at most 80 characters is kept unchanged. |
| `Scrape.AnalyzeWithOpenAI` | index.js:136-160 | A failed request or parse gives the smart fallback. Otherwise the result is the fence-stripped reply, parsed and stamped, with no validation. |
| `Text.RemoveAllTripleLeavesNone` | api/index.js:119 | Removing "```" from left to right leaves no "```" behind. |
| `Text.TrimFacts` | api/index.js:206 | `trim` keeps a slice that neither starts nor ends with whitespace, and cuts only whitespace. |
| `Text.SplitFirst` | api/index.js:186 | Splitting at the first separator gives the part before it first. |
| `Text.JoinSplit` | api/index.js:206 | Joining the split parts with the separator gives back the text. |
| `Text.IncludesIff` | api/index.js:211-212 | `includes` holds exactly when the pattern occurs at some position. |

## Left out

- HTTP handling is not part of this model. That covers the request handlers and CORS headers of both files, and `server.js` as a whole: persistence, the Express app, and its constant AI fallback.
- The OpenAI requests are not part of this model. The reply is an input, and `JSON.parse` is a parameter that returns a record or fails.
- A parsed reply is a record of string fields. A JSON value of another shape is not modelled: a number, an array, `null`, or a field that is not a string.
- The prompt is not modelled, including its 4000-character excerpt of the text (api/index.js:68). The reply stands for the model's answer to it.
- The cheerio scraping is not part of this model. The scraped page is an input.
- `new URL(url).hostname` is the `hostname` parameter. A URL that the URL parser rejects, which makes both fallbacks throw, is not modelled.
- `Date.now()` is one `now` per call, although the source reads the clock several times in one call.
- Times are limited to 1970-01-01 through 9999-12-31 (`Calendar.Time`). This is a limit of the model, not of the engine: `toISOString` writes an extended year such as `+010000-01-01T00:00:00.000Z` for any valid time and throws only on an invalid one.
- The model's own date parser (`Calendar.ParseIsoDate`) reads only `YYYY-MM-DD` strings with a year from 1970 to 9999. An earlier date such as `1969-12-31` goes to the `legacy` parameter. So the model leaves open what `extractDeadline` writes for it, and whether `Records.GoodDeadline` keeps it. The engine parses it to a time before 1970, writes it back unchanged, and the validator always rejects it as a deadline in the past.
- `new Date(s)` is modelled concretely only for valid `YYYY-MM-DD` strings. Every other form goes through the `legacy` parameter, because the engine's parse is implementation-defined and depends on the time zone.
- Comparing dates by their time value is modelled; time zones are not.
- `toLowerCase`/`toUpperCase` cover ASCII and Latin-1 only.
- `substring` and `.length` count Unicode scalar values, not UTF-16 code units. This covers the cuts to 80, 100, 50 and 4000 characters and the length tests `> 5` (api/index.js:206), `< 3` (api/index.js:292) and `< 2` (api/index.js:296). The two differ only for characters outside the Basic Multilingual Plane.
- `extractOrganizer` splits the text into trimmed lines (api/index.js:237) but never uses them, so the model leaves that out.
- `id = Date.now()` is the clock reading; ids are not unique.
- Console logging is not modelled.
- `Extractors.DeadlineOf`: uses the month table as own properties only, not as written. The as-written lookup is `Extractors.MonthLookupAsWritten`, and the Findings section covers the difference. `TextAnalysis.FallbackFromText` inherits this.
- `Text.Trim`, `Patterns.Run`, `Patterns.MonthWord` and `Patterns.LargestSep` state only bounds in their own contracts. What they compute is stated in the lemmas beside them: `TrimFacts`, `RunFacts`, `MonthWordFacts` and `LargestSepFacts`.

Where the code and its description differ, the model follows the code:

- The text fallback is returned without validation.
- 'Ikea' becomes the organizer only when the organizer is empty.
- An iphone/apple or reise/ferie hit overrides a manual category.
- Each date pattern is tried at its first match only. When that match yields no date, the next pattern is tried, not a later occurrence of the same pattern.

## Findings

| source | as written | input that shows it | evidently intended | confidence | as-written member | corrected member |
|---|---|---|---|---|---|---|
| api/index.js:269-277 | `monthMap[word]` on a plain object literal also finds the inherited `constructor` and `__proto__` properties; the truthy function is interpolated into the date | the text `15. constructor 2025` gives the deadline `2025-function Object() { [native code] }-15` | only the twelve month names are found; any other word falls through to the generic date parse | high; not executed | `Extractors.ConstructorMonthCounterexample` | `Extractors.DeadlineShaped` |
