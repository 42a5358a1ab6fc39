# Callout annotations, modelled in Dafny

This project models the callout annotation subsystem of OpenHands. A
*callout* is a short note attached to an agent's message. It flags a
workaround, a hack, a compromise, an assumption, an incomplete solution or a
warning. Two source files make up the subsystem:

- `openhands/events/action/message.py` holds the data model:
  - the closed `CalloutType` enumeration and its lower-case string values;
  - the `CalloutMessage` record, with its emoji and its `to_dict`/`from_dict` pair;
  - `MessageAction` (the chat message that carries callouts) and `SystemMessageAction`, each with its `__str__` rendering.
- `openhands/utils/callout_detector.py` holds the `CalloutDetector`:
  - it scans a message with case-insensitive, word-bounded keyword patterns grouped by type;
  - it reports at most one callout per type, in the table's order;
  - each callout gets a title and a context snippet;
  - it can add the detected callouts to a `MessageAction` in place.

Modules:

- `Wrappers`: `Option` and `Result`.
- `Text`: the Python string operations the source relies on.
  - `str.lower`, `str.upper`, `str.capitalize` and `str.strip`;
  - the substring test `g in s`;
  - `str(n)` for counts;
  - the `ret += "\n" + …` loops of the renderers, as methods. The source builds its strings only with `+=`. `JoinLines`, the lines separated by newlines, is the specification those loops are proved equal to, not an operation of the source.
- `Patterns`: the detector's regular expressions, as finite lists of literal alternatives.
  - A match needs a word boundary (`\b`) on both sides.
  - Letters compare case-insensitively (`re.IGNORECASE`).
  - `\s` matches one whitespace character.
  - `pattern.search` returns the leftmost position where some alternative matches. At that position, alternatives are tried in the order the regular expression tries them.
- `Message`: `message.py`.
  - `MessageAction` is a class, because the `images_urls` setter and the detector update its fields in place.
  - `SystemMessageAction` is a datatype, because nothing updates it.
- `CalloutDetection`: `callout_detector.py`.
  - The pattern table and the pure helpers (`_extract_context`, `_generate_title`) are functions.
  - `detect` is a method with the source's nested loops, its `detected_types` set and its `break`. It is proved equal to the function `Detected`.
  - `enrich_message_action` is a method that appends to `action.callouts` in place. It is proved to produce `Enriched(old callouts, Detected(content))`.
  - `Detected` is defined through *findings*: a finding is a reported type together with the match that produced it. Lemmas about order, uniqueness and reporting are stated once for any table, then specialised to the default table.

`_extract_context` returns the first sentence, in message order, that contains the matched text. That sentence can differ from the sentence where the match was found. An example is "The hacker left. This is a hack.": "hacker" contains "hack", but it is not a whole-word match, so the match is found in the second sentence while the first sentence is returned. The model keeps this behaviour. It proves that the details contain the matched text. It also proves that the details are always a stripped sentence: a pattern match holds no `.`, `!` or `?` and no whitespace at either end, so it lies inside one sentence, and the fallback to the 100-character window is never reached.

## Model

| member | source | states |
|---|---|---|
| Patterns.IsBoundary | openhands/utils/callout_detector.py:17-46 | `\b` at a position: exactly one of the characters on either side is a word character, a message end counting as a non-word character |
| Patterns.AltMatchesAt | openhands/utils/callout_detector.py:17-46 | `\b`, then one alternative, then `\b`, matches starting at a position: each literal character equals the lower-cased message character, and `\s` accepts any whitespace character |
| Patterns.MatchEndAt | openhands/utils/callout_detector.py:17-46 | a match that starts at position i ends at or after i and within the message |
| Patterns.MatchEndAtSpec | openhands/utils/callout_detector.py:17-46 | at position i, a match ends where the first alternative, in the order the engine tries them, that matches with word boundaries on both sides, ignoring letter case, ends; no earlier alternative matches there; there is no match exactly when no alternative matches at i |
| Patterns.Search | openhands/utils/callout_detector.py:65 | a match returned by `pattern.search` lies within the message |
| Patterns.SearchSpec | openhands/utils/callout_detector.py:65 | the match is the leftmost: the pattern matches at its start up to its end and at no earlier position; no match is returned exactly when the pattern matches at no position |
| Patterns.SearchFromSpec | openhands/utils/callout_detector.py:65 | scanning from a position returns the first position at or after it where the pattern matches, or nothing when there is none |
| Patterns.SearchFrom | openhands/utils/callout_detector.py:65 | the scan behind `pattern.search`: a match found from a position starts at or after it and ends within the message |
| Patterns.Group | openhands/utils/callout_detector.py:72 | `match.group()`: the text between the match start and the match end |
| Patterns.MatchHasSolidEnds | openhands/utils/callout_detector.py:17-46 | the text matched by a pattern whose alternatives begin and end with a word character (a letter, a digit or `_`) neither begins nor ends with whitespace |
| Patterns.MatchHasNoSentenceEnd | openhands/utils/callout_detector.py:17-46 | the text matched by a pattern none of whose literals is `.`, `!` or `?` holds none of those characters |
| Patterns.NoMatchAnywhere | openhands/utils/callout_detector.py:65 | `pattern.search` finds nothing when no alternative begins with the first two letters, lower-cased, of a word of the message |
| Patterns.SearchIgnoresCase | openhands/utils/callout_detector.py:17-46 | `re.IGNORECASE`: a pattern finds the same match in a message and in its lower-cased form |
| CalloutDetection.PatternsFor | openhands/utils/callout_detector.py:15-48 | the patterns `__init__` compiles for each type, in list order, each written as its literal alternatives in the order the engine tries them |
| CalloutDetection.DefaultTable | openhands/utils/callout_detector.py:15-48 | the `self.patterns` dictionary as six rows, in insertion order: WORKAROUND, HACK, COMPROMISE, ASSUMPTION, INCOMPLETE, WARNING |
| CalloutDetection.RankRow | openhands/utils/callout_detector.py:15-48 | every type has a row in the default table, at its rank, holding exactly that type's patterns |
| CalloutDetection.DefaultTableValid | openhands/utils/callout_detector.py:15-48 | the table names each type once; every literal alternative begins and ends with a word character and holds no `.`, `!` or `?` |
| CalloutDetection.PatternsWellFormed | openhands/utils/callout_detector.py:17-46 | every alternative of every type's patterns begins and ends with a word character and holds no `.`, `!` or `?` |
| CalloutDetection.DefaultRows | openhands/utils/callout_detector.py:15-48 | the table has six rows; row k holds the type of rank k with that type's patterns |
| CalloutDetection.Window | openhands/utils/callout_detector.py:93-94 | 0 <= start <= match start <= match end <= end <= len(message), with 50 characters on each side unless the message ends first |
| CalloutDetection.SkipSpaces | openhands/utils/callout_detector.py:100 | `\s+` consumes exactly the run of whitespace that follows |
| CalloutDetection.SplitFrom | openhands/utils/callout_detector.py:100 | scanning from a position, a `[.!?]` followed by whitespace ends the current piece and the whole whitespace run after it is skipped; the rest of the text is the last piece, so there is always at least one piece |
| CalloutDetection.SplitSentences | openhands/utils/callout_detector.py:100 | `re.split(r'[.!?]\s+', message)`: the split of the whole message, scanning from its start |
| CalloutDetection.SplitFromJoin | openhands/utils/callout_detector.py:100 | the scanned text is the pieces joined by the separators they were cut at, each a `[.!?]` and one or more whitespace characters |
| CalloutDetection.SplitFromPieces | openhands/utils/callout_detector.py:100 | no piece holds a `[.!?]` followed by whitespace, the first piece starts the scanned text, and no later piece starts with whitespace |
| CalloutDetection.SplitSentencesSpec | openhands/utils/callout_detector.py:100 | the message is the sentences joined by their separators; no sentence holds a separator; no sentence but the first starts with whitespace |
| CalloutDetection.SplitFromKeepsOccurrence | openhands/utils/callout_detector.py:100-103 | an occurrence of a text with no `.`, `!` or `?` and no whitespace at either end lies inside a single piece |
| CalloutDetection.FirstContaining | openhands/utils/callout_detector.py:101-103 | the sentence returned is one of the sentences |
| CalloutDetection.FirstContainingSpec | openhands/utils/callout_detector.py:101-103 | the sentence returned contains the text and is the first such sentence; no sentence is returned exactly when none contains the text |
| CalloutDetection.ExtractContext | openhands/utils/callout_detector.py:81-105 | the first sentence of the split that contains the matched text, stripped; when none does, the stripped window of 50 characters either side of the match |
| CalloutDetection.ContextContainsMatch | openhands/utils/callout_detector.py:81-105 | the context (the first sentence holding the matched text, stripped, or else the stripped window) contains the matched text |
| CalloutDetection.ContextIsSentence | openhands/utils/callout_detector.py:96-105 | when the matched text holds no `.`, `!` or `?` and has no whitespace at either end, some sentence contains it, so the context is the first such sentence, stripped, and the window is not used |
| CalloutDetection.MatchContextIsSentence | openhands/utils/callout_detector.py:96-105 | the context of a match of a well-formed pattern is the first sentence holding the matched text, stripped |
| CalloutDetection.DefaultTitle | openhands/utils/callout_detector.py:125-132 | the `titles` map: "Workaround Applied", "Hack Applied", "Compromise Made", "Assumption Made", "Incomplete Solution" and "Warning" |
| CalloutDetection.GenerateTitle | openhands/utils/callout_detector.py:107-133 | the capitalised match followed by " Detected" when the stripped, lower-cased match is hack, workaround, compromise or warning; otherwise the type's default title |
| CalloutDetection.KeywordTitleNamesMatch | openhands/utils/callout_detector.py:119-122 | when the stripped, lower-cased match is hack, workaround, compromise or warning, the lower-cased title is the lower-cased match followed by " detected" |
| CalloutDetection.TitleIgnoresCase | openhands/utils/callout_detector.py:119-133 | the title does not depend on the letter case of the matched text |
| CalloutDetection.LoweredTitle | openhands/utils/callout_detector.py:119-133 | lower-casing the message keeps the title of the callout built for a match |
| CalloutDetection.MakeCallout | openhands/utils/callout_detector.py:68-74 | the callout for a match: its type, the title generated from the matched text, the extracted context as details, and no metadata |
| CalloutDetection.FirstMatch | openhands/utils/callout_detector.py:64-65 | the match of a type lies within the message |
| CalloutDetection.FirstMatchSpec | openhands/utils/callout_detector.py:64-77 | a type's match is the leftmost match of the first pattern, in list order, that matches at all; there is none exactly when no pattern matches |
| CalloutDetection.FirstMatchIsFirst | openhands/utils/callout_detector.py:64-77 | when pattern j is the first pattern that matches, the type's match is pattern j's match, and later patterns are not consulted |
| CalloutDetection.RowFindings | openhands/utils/callout_detector.py:64-77 | one iteration of the outer loop: a finding of the row's type at its first pattern's match, or nothing when no pattern matches |
| CalloutDetection.Findings | openhands/utils/callout_detector.py:63-77 | every reported match lies within the message |
| CalloutDetection.Detected | openhands/utils/callout_detector.py:50-79 | what `detect` returns: one callout per finding, in the order of the findings |
| CalloutDetection.Callouts | openhands/utils/callout_detector.py:68-75 | one callout is built per finding |
| CalloutDetection.CalloutsAt | openhands/utils/callout_detector.py:68-75 | callout i has finding i's type, the title generated from its matched text, the extracted context as details, and no metadata |
| CalloutDetection.DetectedSnoc | openhands/utils/callout_detector.py:63-77 | handling one more row of the table appends that row's callout, if it has one, at the end |
| CalloutDetection.DetectedTypes | openhands/utils/callout_detector.py:70-71 | each callout carries the type of the finding it was built from |
| CalloutDetection.FindingsOrigins | openhands/utils/callout_detector.py:63-77 | finding i comes from a table row: that row's type at that row's first match; the rows strictly increase, and every row with a match contributes |
| CalloutDetection.OnePerType | openhands/utils/callout_detector.py:61-77 | no two callouts have the same type |
| CalloutDetection.SingleTypeSingleCallout | openhands/utils/callout_detector.py:61-77 | a message whose callouts report a single type gives exactly one callout, of that type |
| CalloutDetection.DetectedInRowOrder | openhands/utils/callout_detector.py:63 | callouts come in table order, and there are at most as many as rows |
| CalloutDetection.DetectedInTableOrder | openhands/utils/callout_detector.py:15-63 | on the default table, callouts come in the order WORKAROUND, HACK, COMPROMISE, ASSUMPTION, INCOMPLETE, WARNING, so there are at most six |
| CalloutDetection.ReportedIffRowMatched | openhands/utils/callout_detector.py:63-66 | a type is reported exactly when its row has a matching pattern; the result is empty exactly when no row has one |
| CalloutDetection.RowMatchedIsReported | openhands/utils/callout_detector.py:63-75 | a row with a matching pattern contributes a callout of its type |
| CalloutDetection.ReportedHasRow | openhands/utils/callout_detector.py:63-75 | every callout's type has a row with a matching pattern |
| CalloutDetection.ReportedIffMatched | openhands/utils/callout_detector.py:63-66 | on the default table, a type is reported exactly when one of its patterns matches; a message that matches no pattern gives no callouts |
| CalloutDetection.ReportedOnce | openhands/utils/callout_detector.py:63-77 | a type whose patterns match has exactly one callout, built from its first match |
| CalloutDetection.CalloutFromFirstMatchIn | openhands/utils/callout_detector.py:64-75 | every callout is built from its row's first match, and its details contain the matched text |
| CalloutDetection.CalloutFromFirstMatch | openhands/utils/callout_detector.py:64-75 | on the default table, each callout is built from the leftmost match of its type's first matching pattern, and its details contain the matched text |
| CalloutDetection.CalloutDetailsAreSentence | openhands/utils/callout_detector.py:64-103 | on the default table, each callout's details are the first sentence holding its matched text, stripped |
| CalloutDetection.FirstMatchIgnoresCase | openhands/utils/callout_detector.py:17-46 | a type's match is the same in a message and in its lower-cased form |
| CalloutDetection.FindingsIgnoreCase | openhands/utils/callout_detector.py:17-46 | a message and its lower-cased form give the same findings |
| CalloutDetection.CalloutsIgnoreCase | openhands/utils/callout_detector.py:68-75 | callouts built from the lower-cased message keep their types and titles |
| CalloutDetection.DetectIgnoresCase | openhands/utils/callout_detector.py:17-77 | "WORKAROUND", "Workaround" and "workaround" give callouts of the same types with the same titles |
| CalloutDetection.WarningMessageMatch | tests/unit/utils/test_callout_detector.py:73-81 | in "Warning: This operation may fail." the first WARNING pattern matches the first seven characters |
| CalloutDetection.WarningTitle | openhands/utils/callout_detector.py:119-122 | the match "Warning" is titled "Warning Detected" |
| CalloutDetection.WarningOnlyType | tests/unit/utils/test_callout_detector.py:73-81 | WARNING is the only type "Warning: This operation may fail." reports: no pattern of the five other types matches anywhere in it |
| CalloutDetection.WarningExample | tests/unit/utils/test_callout_detector.py:73-81 | "Warning: This operation may fail." gives exactly one callout in total; it is a WARNING titled "Warning Detected" |
| CalloutDetection.NewCallouts | openhands/utils/callout_detector.py:154-156 | the detected callouts whose type is not among the existing types, in detection order |
| CalloutDetection.NewCalloutsFilter | openhands/utils/callout_detector.py:154-156 | the appended callouts are exactly the detected callouts whose type is not already present |
| CalloutDetection.NewCalloutsOrdered | openhands/utils/callout_detector.py:154-156 | the appended callouts keep detection order: any ranking that orders the detected callouts also orders them |
| CalloutDetection.NewCalloutsUnique | openhands/utils/callout_detector.py:154-156 | the appended callouts have distinct types when the detected ones do |
| CalloutDetection.Enriched | openhands/utils/callout_detector.py:145-158 | with nothing detected, the callouts as they were; otherwise the old callouts (None read as an empty list) followed by the detected callouts of types not already present |
| CalloutDetection.EnrichedSpec | openhands/utils/callout_detector.py:145-158 | with nothing detected the callouts are unchanged (None stays None); otherwise the old callouts stay as a prefix, exactly the detected callouts of new types follow, and afterwards every detected type is present |
| CalloutDetection.EnrichedKeepsTypesUnique | openhands/utils/callout_detector.py:152-156 | enriching keeps the types of the callouts distinct |
| CalloutDetection.MergeCallouts | openhands/utils/callout_detector.py:147-156 | None becomes an empty list, then the detected callouts of types absent before the merge are appended in place; no other field changes |
| CalloutDetection.CalloutDetector.constructor | openhands/utils/callout_detector.py:12-48 | the detector holds the default pattern table, which names each type once and has word-delimited alternatives |
| CalloutDetection.CalloutDetector.Detect | openhands/utils/callout_detector.py:50-79 | the nested loops, with the `detected_types` set and the `break`, return exactly `Detected` of the table and the message |
| CalloutDetection.CalloutDetector.EnrichMessageAction | openhands/utils/callout_detector.py:135-158 | returns the same action; its callouts become `Enriched` of the old callouts and what `detect` finds in the content; content and the other fields are unchanged |
| Message.Value | openhands/events/action/message.py:10-18 | every type's value is a non-empty lower-case word |
| Message.ParseCalloutType | openhands/events/action/message.py:10-18 | `CalloutType(s)` gives the member whose value is `s`, and fails exactly when no member has that value |
| Message.ValueRoundTrip | openhands/events/action/message.py:10-18 | value to enum to value is the identity, and distinct members have distinct values |
| Message.CalloutMessage.Emoji | openhands/events/action/message.py:30-41 | every type has an emoji |
| Message.EmojiIdentifiesType | openhands/events/action/message.py:33-41 | two callouts show the same emoji exactly when they have the same type |
| Message.ToDict | openhands/events/action/message.py:43-50 | the dictionary has exactly the keys type, title, details and metadata; type is the enum's value and the others are copied |
| Message.FromDict | openhands/events/action/message.py:52-60 | succeeds exactly when type is a known value and title and details are present; a missing type is a KeyError; an unknown type is a ValueError; metadata is copied, and a missing metadata is None |
| Message.RoundTrip | openhands/events/action/message.py:43-60 | `from_dict(c.to_dict()) == c` for every callout |
| Message.DictRoundTrip | openhands/events/action/message.py:43-60 | a dictionary with exactly the four keys that `from_dict` accepts is what `to_dict` gives back |
| Message.Header | openhands/events/action/message.py:87 | the first line of `__str__`: the action's kind in bold and its source |
| Message.ImageLine | openhands/events/action/message.py:91 | the line `IMAGE_URL: url` |
| Message.FileLine | openhands/events/action/message.py:94 | the line `FILE_URL: url` |
| Message.CountLine | openhands/events/action/message.py:96 | the line `CALLOUTS: n callout(s)`, with n in decimal |
| Message.CalloutLine | openhands/events/action/message.py:98 | two spaces, the callout's emoji, its upper-cased type value, a colon and its title |
| Message.CalloutBlock | openhands/events/action/message.py:95-98 | nothing for an empty callout list; otherwise the count line followed by one line per callout, in list order |
| Message.MessageAction.constructor | openhands/events/action/message.py:63-71 | the fields hold the given values |
| Message.MessageAction.Message | openhands/events/action/message.py:73-75 | `message` is the content |
| Message.MessageAction.ImagesUrls | openhands/events/action/message.py:77-80 | the `images_urls` getter reads `image_urls` |
| Message.MessageAction.SetImagesUrls | openhands/events/action/message.py:82-84 | after setting `images_urls = v`, both `image_urls` and `images_urls` read back `v`; nothing else changes |
| Message.MessageAction.Lines | openhands/events/action/message.py:86-99 | the header, the CONTENT line, one IMAGE_URL line per image, one FILE_URL line per file, then the callout block |
| Message.MessageAction.ToString | openhands/events/action/message.py:86-99 | the string built with `+=` is the lines of the action joined by newlines |
| Message.MessageRenderStart | openhands/events/action/message.py:87-88 | the rendering begins with the header line, a newline and the CONTENT line |
| Message.MessageLinesLayout | openhands/events/action/message.py:86-99 | header, CONTENT, one IMAGE_URL line per image, one FILE_URL line per file, then for non-empty callouts the count line and one line per callout (emoji, upper-cased type value, title) in list order |
| Message.CountLineIffCallouts | openhands/events/action/message.py:95-98 | an entry of `Lines()` beginning "CALLOUTS: " exists exactly when the callout list is non-empty (content with an embedded newline can still render such a line) |
| Message.SystemMessageAction.Message | openhands/events/action/message.py:114-116 | `message` is the content |
| Message.ToolsLine | openhands/events/action/message.py:122 | the line `TOOLS: n tools available`, with n in decimal |
| Message.AgentLine | openhands/events/action/message.py:124 | the line `AGENT_CLASS: name` |
| Message.SystemMessageAction.Lines | openhands/events/action/message.py:118-125 | the header, the CONTENT line, a TOOLS line for a non-empty tool list, and an AGENT_CLASS line for a non-empty class name |
| Message.SystemMessageAction.ToString | openhands/events/action/message.py:118-125 | the string built with `+=` is the system message's lines joined by newlines |
| Message.SystemLinesOptional | openhands/events/action/message.py:121-124 | the TOOLS line appears exactly when the tool list is non-empty, and the AGENT_CLASS line exactly when the agent class is a non-empty string |
| Text.LowerString | openhands/utils/callout_detector.py:119 | `str.lower()` on ASCII letters: the same length, each character lower-cased |
| Text.UpperString | openhands/events/action/message.py:98 | `str.upper()` on ASCII letters: the same length, each character upper-cased |
| Text.Capitalize | openhands/utils/callout_detector.py:122 | `str.capitalize()`: the first character upper-cased and the rest lower-cased, with the length kept |
| Text.Strip | openhands/utils/callout_detector.py:96 | `str.strip()`: the leading and then the trailing whitespace removed; the result is no longer than the text |
| Text.Decimal | openhands/events/action/message.py:96 | `str(n)` for a count: a non-empty string of decimal digits |
| Text.DecimalRoundTrip | openhands/events/action/message.py:96 | reading the digits of `str(n)` back gives n |
| Text.IsWordChar | openhands/utils/callout_detector.py:17-46 | a `\w` character: an ASCII letter, a digit or `_` |
| Text.IsSpace | openhands/utils/callout_detector.py:100 | a `\s` character, the set `str.isspace` accepts: the ASCII whitespace and separator controls and the Unicode space characters |
| Text.Contains | openhands/utils/callout_detector.py:102 | `g in s`: the text occurs at some position of the sentence |
| Text.TrimStart | openhands/utils/callout_detector.py:96 | the leading half of `strip()`: the result is no longer than the input |
| Text.TrimEnd | openhands/utils/callout_detector.py:96 | the trailing half of `strip()`: the result is no longer than the input |
| Text.TrimStartSpec | openhands/utils/callout_detector.py:96 | the leading half of `strip()` removes exactly the leading whitespace and leaves a suffix that starts with a non-space |
| Text.TrimEndSpec | openhands/utils/callout_detector.py:96 | the trailing half of `strip()` removes exactly the trailing whitespace and leaves a prefix that ends with a non-space |
| Text.StripKeeps | openhands/utils/callout_detector.py:96-103 | `strip()` keeps every occurrence of a text that neither begins nor ends with whitespace |
| Text.CapitalizeLower | openhands/utils/callout_detector.py:119-122 | `capitalize()` ignores the case the text came in, and lower-cases back to the lower-cased text |
| Text.AppendEach | openhands/events/action/message.py:89-94 | the `for url in …: ret += "\n" + line` loop extends the joined lines by one line per element, in order |
| Text.AppendBlock | openhands/events/action/message.py:95-98 | the count line followed by one line per callout extends the joined lines in order |

## Left out

- `AgentController._step` is not part of this model.
- The `re` engine in general. Each pattern is modelled as its finite list of literal alternatives. `trade[-\s]?off` becomes "trade-off", "trade", one whitespace character and "off", and "tradeoff". `assum(e|ing)` becomes "assume" and "assuming". `expect(ing)?` becomes "expecting" and "expect", in greedy order.
- Unicode: word characters are ASCII letters, digits and `_`, and case folding covers only ASCII letters. Python's `\w` and `re.IGNORECASE` are wider: `re.IGNORECASE` also matches, for example, the Kelvin sign against `k`. Whitespace is the set that Python's `str.isspace` accepts.
- Emoji encoding: the source file shows the emojis in a mis-decoded byte form. The model uses the intended symbols, one distinct constant per type, and proves nothing about their bytes.
- `_extract_context` takes a `context_chars` parameter, but the source only calls it with the default of 100, so the model fixes it at 100.
- The fallback of `titles.get(...)` in `_generate_title` is not modelled, because the title map covers all six types and the fallback cannot be reached.
- The `Action` base class, `ActionType`, `ActionSecurityRisk`, and the `action` and `security_risk` fields are outside the model. The event `source` is an opaque string that the renderers print.
- `get_version()`, the default of `openhands_version`, is a call into code outside the model, so the version is a plain field.
- `event_to_dict` and `event_from_dict` are not part of this model.
- `metadata` and the tools list are modelled as JSON-like values that are copied unchanged.
- Message.FromDict: rejects a `title` or `details` that is not a string, while Python accepts any value. The model's `CalloutMessage` holds text in those fields.
- CalloutDetection.CalloutDetector.EnrichMessageAction: the Python list in `action.callouts` is modelled as a sequence value in the field. Aliasing that list from elsewhere is not modelled.
