# jiraa IP enrichment, modelled in Dafny

`index.js` of jiraa is a small Node.js service. On every poll it fetches the
Jira tickets of a project. It looks for an IPv4 address in each ticket's
summary and asks AbuseIPDB about the first address it finds. It then posts a
comment on the ticket. The comment is a six-line `Label: value` text turned
into an Atlassian Document Format (ADF) body with bold labels.

This project models the text handling of that service and proves what it does:

- `IPv4` is the regular expression `\b\d{1,3}\.\d{1,3}\.\d{1,3}\.\d{1,3}\b`.
  - It is stated as a grammar over positions (`MatchAt`).
  - The scanner (`DottedEnd`) finds the match that starts at a given position.
  - The search (`Leftmost`) tries each start position in turn.
  - `ExtractFirstIPv4` is proved to return the leftmost match, or nothing when the summary has no match.
- `TicketScan` is the decision of the `for...of` loop over the tickets: which tickets are enriched, and with which address.
- `ReputationComment` is the comment template literal, rendered from the address and the AbuseIPDB record.
- `CommentDoc` is the conversion of `addJiraComment`: trim, split on line breaks, drop blank lines, and build one paragraph per line.
- `JsText` models the JavaScript built-ins the code relies on: `trim`, `split` with a one-character separator, `join`, `filter`, and a loop that keeps the elements for which a step produced something.
- `PollCycle` puts the pieces together for one poll.
  - The two kinds of HTTP read are parameters: the search result as an `Option`, and the AbuseIPDB answers as `responses`, where `responses(n)` is the answer (an `Option`) to the `n`-th lookup request of the poll. Each request has its own answer, so two requests for the same address may differ.

The central results:

- **Leftmost match.** The extracted address is the leftmost match. From a given start the pattern can match in one way only.
- **No range check.** Octets are not range-checked: any four groups of one to three digits joined by dots are extracted whole.
- **Ticket order.** The scan keeps the order of the tickets. It enriches exactly the tickets whose summary has a match, each once, with its leftmost match.
- **Paragraphs.** Paragraph `m` comes from the `m`-th non-blank line. A line with a colon gives a bold `label + ": "` run and a plain value run, and the value keeps its later colons. A line without one gives one plain run.
- **Template round trip.** Rendering the template for a record and converting it gives exactly six bold-labelled paragraphs, in template order, each holding the field trimmed. This holds when no text field has a line break.

## Model

| member | source | states |
|---|---|---|
| `IPv4.MatchAt` | index.js:41 | definition of the pattern over positions: a `\b`, four dot-separated groups of 1–3 digits, a `\b`; its properties are stated in `MatchEndAtSpec` and `MatchAtUnique` |
| `IPv4.IsFirstMatch` | index.js:41-43 | definition of what `match` without the `g` flag returns: a match that no other match starts before; its properties are stated in `FirstMatchIsFirst` and `FirstMatchExtracted` |
| `IPv4.DottedEnd` | index.js:41 | the scanner for `n` dotted groups from a start: any end it reports lies between the start and the end of the string; soundness and completeness are stated in `DottedEndSound` and `DottedEndComplete` |
| `IPv4.MatchEndAt` | index.js:41 | the engine at one start position: any end it reports lies between the start and the end of the string; that it reports exactly the match starting there is stated in `MatchEndAtSpec` |
| `IPv4.DottedEndSound` | index.js:41 | what the scanner finds from a start is `n` dot-separated groups of 1–3 digits followed by a word boundary |
| `IPv4.DottedEndComplete` | index.js:41 | whenever such groups followed by a boundary lie at a start, the scanner finds exactly their end: from one start the pattern matches in one way only |
| `IPv4.MatchEndAtSpec` | index.js:41 | the scanner at a start reports a match of the whole pattern, boundaries included, and reports none only when no match starts there |
| `IPv4.MatchAtUnique` | index.js:41 | two matches that start at the same position end at the same position |
| `IPv4.Leftmost` | index.js:41 | the search returns the first start from which a match is found, with its end; no earlier start has one; when nothing is found, no start in the range has one |
| `IPv4.ExtractFirstIPv4` | index.js:41-43 | `None` exactly when the title has no match anywhere; otherwise the text of a match that no other match starts before (`ipMatch[0]`) |
| `IPv4.NoMatchAnywhere` | index.js:41-43 | a search that finds nothing means the pattern matches nowhere in the title |
| `IPv4.FirstMatchIsFirst` | index.js:41-43 | what the search finds is the leftmost match and the only one at its start |
| `IPv4.FirstMatchExtracted` | index.js:41-43 | given the leftmost match, the extraction returns exactly its text |
| `IPv4.DottedGroupsChars` | index.js:41 | dotted groups hold only digits and dots and begin and end with a digit |
| `IPv4.MatchedTextChars` | index.js:41-43 | the text of a match is non-empty, made of digits and dots, and begins and ends with a digit |
| `IPv4.ExtractedAddressChars` | index.js:41-43 | an extracted address is non-empty, made of digits and dots, and begins and ends with a digit |
| `IPv4.WholeTitleMatch` | index.js:41-43 | a title that is four dotted groups from end to end is extracted whole |
| `IPv4.GroupsShift` | index.js:41 | dotted groups keep matching when text is put in front of them |
| `IPv4.GroupsPrepend` | index.js:41 | one group and a dot in front of `n` dotted groups make `n + 1` groups |
| `IPv4.JoinedGroups` | index.js:41 | octets of 1–3 digits joined with dots are as many dotted groups |
| `IPv4.DottedQuadExtracted` | index.js:41-43 | any four 1–3-digit groups joined by dots are extracted whole, whatever their value (no 0–255 check, so `999.999.999.999` matches) |
| `TicketScan.EnrichmentOf` | index.js:41-46 | a ticket yields no enrichment exactly when its summary has no match; otherwise one enrichment with the ticket's key and the leftmost match |
| `TicketScan.ScanTickets` | index.js:36-47 | the loop makes no more enrichments than there are tickets; the per-ticket facts are in `ScanFollowsTickets` |
| `TicketScan.ScanOne` | index.js:36-47 | a single ticket is enriched exactly when its summary matches, and then once, with its key and its leftmost match |
| `TicketScan.ScanAppend` | index.js:36-47 | scanning two ticket lists in turn gives their two scans in turn: the loop keeps ticket order |
| `TicketScan.ScanFollowsTickets` | index.js:36-47 | enrichments correspond one to one, in increasing ticket order, to the tickets whose summary has a match, and every such ticket has one |
| `ReputationComment.Decimal` | index.js:72 | `${n}` for a count is a non-empty run of decimal digits without a leading zero |
| `ReputationComment.DecimalRoundTrip` | index.js:72 | reading back the digits of a rendered count gives the count |
| `ReputationComment.DecimalTrimmed` | index.js:76 | a rendered count is its own `trim` and has no line break |
| `ReputationComment.TemplateLine` | index.js:71-76 | definition of one template line: eight spaces, the label, `": "`, the value; how it converts is stated in `LineReadBack` |
| `ReputationComment.RenderLines` | index.js:70-77 | definition of the template literal: a line break, the lines joined by line breaks, a line break and eight spaces; its properties are stated in `TemplateTrim` and `TemplateLinesReadBack` |
| `ReputationComment.RenderComment` | index.js:70-77 | definition of the comment for an address and record: the six labels with their values; its properties are stated in `TemplateThenParse` and `PostedDocument` |
| `ReputationComment.FieldValues` | index.js:70-77 | the template interpolates one value per label |
| `ReputationComment.TemplateLines` | index.js:70-77 | the template has one line per label |
| `ReputationComment.ReadBackLines` | index.js:70-77 | the lines read back from the template are one per label |
| `ReputationComment.TemplateTrim` | index.js:70-91 | `trim` of the rendered comment removes the leading line break and indentation of the first line and the final line break and indentation, keeping the other lines as written |
| `ReputationComment.ReadBackLinesUnbroken` | index.js:70-91 | no template line holds a line break when no value does |
| `ReputationComment.ReadBackLinesNotBlank` | index.js:70-91 | no template line is blank |
| `ReputationComment.TemplateLinesReadBack` | index.js:70-91 | the non-blank lines of the rendered comment are its template lines, the first without indentation |
| `ReputationComment.LineReadBack` | index.js:70-100 | each template line converts to the bold label and the value trimmed |
| `ReputationComment.DocOfLines` | index.js:91-137 | a text whose non-blank lines are given converts to the envelope around the paragraphs of those lines |
| `ReputationComment.TemplateThenParseLines` | index.js:70-137 | a rendered template with labels of the right shape converts to one bold-labelled paragraph per label, in order, holding the value trimmed |
| `ReputationComment.FieldValuesHaveNoLineBreak` | index.js:70-77 | without line breaks in the text fields, no value has one, and the last value, a count, ends in a digit |
| `ReputationComment.SixParagraphs` | index.js:70-77 | the six paragraphs spelled out label by label: counts appear as rendered, text fields trimmed |
| `ReputationComment.TemplateThenParse` | index.js:70-137 | the comment for an address and record converts to exactly six paragraphs: IP Address, Abuse Confidence Score, ISP, Domain, Country, Total Reports, each with its value trimmed |
| `ReputationComment.LabelsAreLabels` | index.js:71-76 | the six labels are non-empty, have no whitespace at their ends, and hold no colon or line break |
| `CommentDoc.CommentLines` | index.js:91 | no line that `trim().split('\n').filter(...)` leaves is blank or holds a line break; order and correspondence are stated in `ParagraphsFollowLines` |
| `CommentDoc.ParagraphOf` | index.js:94-127 | definition of the `paragraphs.map` callback; its properties are stated in `LabelValueLine`, `PlainLine` and `ParagraphShape` |
| `CommentDoc.BuildCommentDoc` | index.js:91-137 | the body is `{type: "doc", version: 1, content}`, with one paragraph per non-blank line of the trimmed text, paragraph `i` built from line `i` |
| `CommentDoc.ParagraphsFollowLines` | index.js:91-94 | paragraphs correspond one to one, in increasing line order, to the non-blank lines of the trimmed text, and blank lines give none |
| `CommentDoc.LabelValueLine` | index.js:96-115 | a line whose first colon follows `before` gives a bold `before` (trimmed) + `": "` run and a plain run holding everything after that colon, later colons kept, trimmed |
| `CommentDoc.PlainLine` | index.js:116-126 | a line without a colon gives one unmarked run holding the trimmed line |
| `CommentDoc.ParagraphShape` | index.js:96-126 | a paragraph has two runs, the first bold, exactly when the trimmed line has a colon; the last run is never marked |
| `CommentDoc.LabeledLine` | index.js:96-115 | an indented `name: value` line is not blank and gives the label `name` and the value trimmed |
| `JsText.Trim` | index.js:91 | `trim` leaves no whitespace at either end and is empty exactly when its argument is all whitespace |
| `JsText.TrimSpec` | index.js:91 | `trim` returns a slice of its argument with only whitespace before and after it |
| `JsText.TrimSurrounded` | index.js:91 | `trim` of a trimmed text wrapped in whitespace is that text |
| `JsText.TrimAfterWhitespace` | index.js:96 | leading whitespace does not change `trim` |
| `JsText.TrimAroundPart` | index.js:96 | indentation, then a trimmed part, then a tail, trims to the part followed by the tail without its trailing whitespace |
| `JsText.TrimOfNoLeading` | index.js:96 | without leading whitespace, `trim` only drops the trailing whitespace |
| `JsText.TrimEndAppend` | index.js:100 | dropping trailing whitespace after a part that ends in non-whitespace keeps the part |
| `JsText.TrimAfterTrimEnd` | index.js:100 | trimming after dropping the trailing whitespace is trimming |
| `JsText.TrimOfTrimmed` | index.js:99 | `trim` leaves a text without whitespace at its ends unchanged |
| `JsText.IndexOf` | index.js:96 | the position of the first occurrence of a character, when there is one, lies inside the string; its properties are stated in `IndexOfSpec` and `IndexOfAt` |
| `JsText.IndexOfSpec` | index.js:96 | the first occurrence of a character: none exactly when the character is absent, otherwise a position holding it with none before |
| `JsText.IndexOfAt` | index.js:96 | the position of a character with none before it is its first occurrence |
| `JsText.Split` | index.js:91 | `split` returns at least one part |
| `JsText.SplitJoin` | index.js:96-100 | `join` of the parts of `split` gives the string back, and no part holds the separator |
| `JsText.SplitWithoutSeparator` | index.js:116-126 | a string without the separator splits into itself alone |
| `JsText.SplitAtFirst` | index.js:96-100 | splitting stops at the first separator: the text before it is the first part and the rest splits on |
| `JsText.SplitOfJoin` | index.js:91 | `split` undoes `join` when no part holds the separator |
| `JsText.Join` | index.js:100 | definition of `join`: the parts with one separator between neighbours; its properties are stated in `SplitJoin`, `SplitOfJoin` and `JoinEndsWithLast` |
| `JsText.JoinEndsWithLast` | index.js:91 | a join ends with the last character of its last part |
| `JsText.Filter` | index.js:91 | `filter` returns no more elements than it was given, and each element it returns is one of its argument's and is accepted |
| `JsText.KeptPicks` | index.js:91 | the `m`-th element kept by `filter` is the element at the `m`-th accepted position |
| `JsText.KeptIncreasing` | index.js:91 | the accepted positions increase: `filter` keeps the order |
| `JsText.KeptComplete` | index.js:91 | every accepted position is listed: `filter` drops no accepted element |
| `JsText.FilterKeepsAll` | index.js:91 | when every element is accepted, `filter` returns its argument |
| `JsText.FilterMap` | index.js:36-47 | the loop makes no more results than it has elements |
| `JsText.FilterMapPicks` | index.js:36-47 | result `m` comes from the element at the `m`-th position where the step produced something |
| `JsText.FilterMapAppend` | index.js:36-47 | looping over two lists in turn gives their results in turn |
| `PollCycle.Requests` | index.js:36-66 | the lookup requests of a poll are numbered in the order the loop sends them, one per enrichment, request `n` carrying enrichment `n` |
| `PollCycle.PostFor` | index.js:54-85 | definition of `enrichTicketWithAbuseIPDB` for one request: no comment when its answer failed, otherwise the comment for the enrichment's ticket holding the converted template; its properties are stated in `PollFollowsEnrichments` and `PostedDocument` |
| `PollCycle.PollOnce` | index.js:19-51 | a failed search posts nothing; otherwise there are no more comments than enrichments; the per-request facts are in `PollFollowsEnrichments` |
| `PollCycle.PollFollowsEnrichments` | index.js:36-85 | comments correspond one to one, in order, to the lookup requests that succeeded; comment `m` answers request `idx[m]`, goes to the ticket of enrichment `idx[m]` and holds the document for its address and the record of that request's own answer; a failed request posts nothing |
| `PollCycle.AddressTrimmed` | index.js:71 | an address made of digits and dots is its own `trim` and has no line break |
| `PollCycle.PostedDocument` | index.js:41-115 | the comment for a ticket with an address shows that address exactly, then the record's fields, under the six labels in order |

## Left out

- HTTP is not modelled. This covers the Jira search (index.js:22-32), the AbuseIPDB lookup (index.js:57-69) and the comment POST (index.js:130-145). The search result and the answers to the lookup requests are parameters of `PollCycle.PollOnce`, and a post is a value. The answers are indexed by request, not by address, so the model does allow two lookups of the same address in one poll to get different answers.
- Response shapes are not modelled: `response.data.issues`, `ticket.fields.summary`, `response.data.data`. A summary is a string and a record has five fields. If `summary` is `null` or not a string, `title.match` throws and the outer `catch` ends the whole loop. The model does not cover this.
- Scheduling, configuration and startup are not modelled (index.js:2-13, 153-159). That means `node-cron`, `dotenv` and the startup log. Two polls that overlap in time are not modelled either.
- The Basic-auth token built with `Buffer` (index.js:16) is a library call and is left out.
- Logging is left out (index.js:33, 44, 146). Of the caught errors (index.js:48-50, 82-84, 147-149), only their effect is modelled: a failed search or lookup posts nothing. A failed POST does not change the model's list of posts.
- Whitespace is ASCII only: space, tab, LF, VT, FF and CR. The Unicode spaces and line terminators that JavaScript's `trim` also removes are not modelled.
- JavaScript strings are UTF-16 code units, while a Dafny `char` is a Unicode scalar value. Surrogate pairs are not modelled.
- The regular expression is modelled by what it matches, not by a backtracking engine. The scanner's backtracking is argued in the comments of `OctetDot` and `OctetEnd`, and `DottedEndComplete` proves it finds every match.
- `${abuseData.abuseConfidenceScore}` and `${abuseData.totalReports}` are modelled for non-negative integers only. `null`, `undefined`, fractions, negatives and exponent notation are not modelled. The text fields `isp`, `domain` and `countryCode` are modelled as strings, so `null` and `undefined` are not modelled for them.
- `ReputationComment.TemplateThenParse` covers only records whose text fields hold no line break, because a field with a line break is cut into extra lines by `split('\n')`. `PollCycle.PostedDocument` has the same limit.
- `split` is modelled only for the one-character separators the code uses (`'\n'`, `':'`).
- index.test.js is not part of this model. It is a mock-based test of the HTTP calls.
