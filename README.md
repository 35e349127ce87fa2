# RiskWise display and export helpers, modelled in Dafny

RiskWise is a browser-based risk-assessment assistant. A user names a technology and describes its control deficiencies. A hosted language model then writes a risk statement and a description, rates likelihood and impact, and breaks the impact down over confidentiality, integrity and availability. All of that text comes from the model, so this project models only the logic the repository owns. That logic is the set of pure helpers that decide what the user sees, what they may submit and what they export:

- the register page (`src/app/risks/page.tsx`): the five-point value map, the total rating (likelihood value times impact value), the badge that colours the total, and removal of a record by id (module `RiskRegister`);
- the results view (`src/components/risk-results.tsx`): CSV quoting, the header, the data row and the exported text (module `CsvExport`); the prefix-based badge and the split of "label - justification" text (module `RatingDisplay`);
- the CIA chart (`src/components/cia-impact-chart.tsx`): the four-point value map, the three chart entries and the Y-axis tick formatter (module `CiaChart`);
- the clarifying-questions form (`src/components/questionnaire.tsx`): the answer update on a copied array, the "every answer non-blank" rule and the submit gate (module `Questionnaire`);
- the intake form (`src/components/risk-form.tsx`): the length rules, the defaults and the submit gate (module `RiskForm`).

The two label scales of `src/ai/flows/rate-risk.ts` are datatypes in `RatingScales`. A lookup of label text answers `None` for a label outside the scale. Both value maps use that case to fall back to 0. `JsStrings` models the JavaScript string operations the helpers call: `trim`, `toLowerCase`, `length` in UTF-16 code units and `join`. The only `split` in the source is the regular-expression split of `risk-results.tsx:51`, which `RatingDisplay.SplitRating` models. `JsStrings.SplitOnChar` serves only the model's own CSV reader, `CsvExport.ParseCsvContent`, which reads the export back. `Badge` holds the three badge variants, ordered by severity. `Wrappers` holds `Option`.

Each consumer is modelled with the record shape it actually uses. The register page reads `likelihood.rating`, so `RiskRecord` carries `Rating` records. The results view quotes and parses `likelihood` and `impact` as text, so `ResultsData` carries strings. The chart receives `CiaImpact` records of `Rating`s.

Some facts of the code that a reader might not expect:

- An unknown label gives a total rating of 0 (`page.tsx:83`). The five labels of `ratingScale` (`rate-risk.ts:23`) give totals in 1..25, so 0 marks a label outside that scale.
- The results view splits its likelihood and impact text on ` - ` or `: ` (`risk-results.tsx:49-55`), although the rater returns a separate justification field (`rate-risk.ts:32-39`). The split is modelled as written.
- The exported columns are titled "Likelihood" and "Impact" (`risk-results.tsx:20`) and hold the whole likelihood and impact text (`risk-results.tsx:27-28`).
- Technology must be at least 2 UTF-16 code units long (`risk-form.tsx:14`), so a one-letter name inside the Basic Multilingual Plane is refused.

## Model

| member | source | states |
|---|---|---|
| RatingScales.ParseLevel | src/ai/flows/rate-risk.ts:23 | a known label reads back as the level whose label it is; `None` exactly when no five-point level has that label |
| RatingScales.ParseCiaLevel | src/ai/flows/rate-risk.ts:24 | the same for the four-point CIA scale |
| RatingScales.LabelsRoundTrip | src/ai/flows/rate-risk.ts:23-24 | every level's label reads back as that level; each scale lists its levels without repetition |
| RiskRegister.OrdinalFollowsScale | src/app/risks/page.tsx:14-16 | Very Low .. Very High are worth 1 .. 5 in scale order, so the map is strictly increasing |
| RiskRegister.Ordinal | src/app/risks/page.tsx:14-16 | each five-point level's value in the map; characterised by OrdinalFollowsScale |
| CiaChart.CiaOrdinal | src/components/cia-impact-chart.tsx:11-16 | each CIA level's value in the map; characterised by CiaOrdinalFollowsScale |
| CiaChart.Entry | src/components/cia-impact-chart.tsx:37-53 | one chart entry from a residual rating and an optional inherent one; characterised by ChartData |
| CsvExport.ExportRow | src/components/risk-results.tsx:22-29 | the data row; characterised by ExportRowRoundTrip |
| CsvExport.CsvContent | src/components/risk-results.tsx:31 | the exported text: prefix, header, line feed, row; characterised by CsvContentRoundTrip |
| RatingDisplay.SplitRating | src/components/risk-results.tsx:51 | the split on ` - ` or `: `; it always yields at least one part; characterised by SplitNoSep, SplitAtFirstSep and JoinSplitRating |
| RatingDisplay.NormaliseSeps | src/components/risk-results.tsx:53 | the text with every separator rewritten as ` - `; characterised by JoinSplitRating |
| Questionnaire.AllQuestionsAnswered | src/components/questionnaire.tsx:27 | every answer is non-blank after trimming; characterised by AnsweredIffNotAllWhitespace |
| Questionnaire.SubmitEnabled | src/components/questionnaire.tsx:68 | the submit button is enabled iff not loading and every answer is non-blank; characterised by Submit and AnsweredIffNotAllWhitespace |
| RiskForm.DefaultValues | src/components/risk-form.tsx:28-31 | both fields start empty; characterised by DefaultsCannotBeSubmitted |
| RiskForm.SubmitEnabled | src/components/risk-form.tsx:81 | the submit button is enabled iff not loading and both length rules pass; characterised by Submit and DefaultsCannotBeSubmitted |
| JsStrings.Trim | src/components/questionnaire.tsx:27 | JavaScript `trim`: TrimStart then TrimEnd, whose contracts say only leading and trailing whitespace is removed; characterised by TrimEmptyIffAllWhitespace |
| JsStrings.ToLowerAscii | src/components/risk-results.tsx:43 | same length, each character lower-cased on its own; characterised by ToLowerAsciiIdempotent and BadgeVariantIgnoresCase |
| JsStrings.Join | src/components/risk-results.tsx:20 | JavaScript `join`: the parts with the separator between neighbours; characterised by SplitOnCharJoin, ParseRecordOfRow and JoinSplitRating |
| RiskRegister.RatingValue | src/app/risks/page.tsx:83 | the value is at most 5; it is 0 exactly for a label outside the scale; a known label gets its ordinal |
| RiskRegister.TotalRating | src/app/risks/page.tsx:83 | with both labels known, the total is the product of their ordinals and lies in 1..25; otherwise it is 0 |
| RiskRegister.TotalIs25Iff | src/app/risks/page.tsx:83 | the total is 25 exactly when likelihood and impact are both "Very High" |
| RiskRegister.TotalRatingBadge | src/app/risks/page.tsx:37-41 | destructive iff the total is at least 16; secondary iff it is in 6..15; outline iff it is below 6, 0 included |
| RiskRegister.TotalRatingBadgeMonotone | src/app/risks/page.tsx:37-41 | a larger total never gets a less severe badge |
| RiskRegister.TotalBadgeByLevels | src/app/risks/page.tsx:37-41 | with known labels: destructive iff both ordinals are at least 4 (High); outline iff one side is Very Low or both are Low |
| RiskRegister.UnknownLabelIsOutline | src/app/risks/page.tsx:83 | an unknown likelihood or impact label gives total 0 and the outline badge |
| RiskRegister.DeleteRisk | src/app/risks/page.tsx:28 | a record remains iff it was present and its id differs from the deleted id; the list never grows |
| RiskRegister.DeleteRiskKeepsOthersInOrder | src/app/risks/page.tsx:28 | the result is a subsequence of the list; each other-id record keeps its multiplicity; no record with the id remains |
| RiskRegister.DeleteRiskConcat | src/app/risks/page.tsx:28 | deleting from a concatenation is the concatenation of the deletions, so relative order is kept |
| RiskRegister.DeleteRiskIdempotent | src/app/risks/page.tsx:28 | deleting the same id twice gives the same list as deleting it once |
| RiskRegister.DeleteRiskAbsentId | src/app/risks/page.tsx:28 | deleting an id no record has leaves the list unchanged |
| CsvExport.DoubleQuotes | src/components/risk-results.tsx:18 | the length grows by the number of quotes; quotes in the result come only in adjacent pairs; text without quotes is unchanged |
| CsvExport.EscapeCsvField | src/components/risk-results.tsx:18 | the result begins and ends with `"`; between them quotes come only in pairs; an empty field becomes exactly `""` |
| CsvExport.CollapseDoubleQuotes | src/components/risk-results.tsx:18 | collapsing `""` to `"` undoes the doubling |
| CsvExport.DoubleCollapseQuotes | src/components/risk-results.tsx:18 | on text with paired quotes, doubling undoes the collapsing |
| CsvExport.EscapeUnquoteRoundTrip | src/components/risk-results.tsx:18 | stripping the outer quotes and collapsing pairs recovers the field; a quoted field that reads as a value is exactly that value's quoting |
| CsvExport.ExportHeader | src/components/risk-results.tsx:20 | the header is `Technology,Control Deficiencies,Risk Statement,Risk Description,Likelihood,Impact`; split on commas it gives the six titles; it has no line feed |
| CsvExport.ParseRecordOfRow | src/components/risk-results.tsx:22-29 | a non-empty list of fields, each quoted and joined by commas, reads back as that list |
| CsvExport.ExportedFields | src/components/risk-results.tsx:22-29 | one value per header column |
| CsvExport.ExportRowRoundTrip | src/components/risk-results.tsx:22-29 | the data row reads back as technology, deficiencies, statement, description, likelihood and impact, in that order |
| CsvExport.CsvContentRoundTrip | src/components/risk-results.tsx:31 | the exported text reads back as the six titles and the six values, even when a value holds a line feed |
| RatingDisplay.BadgeVariant | src/components/risk-results.tsx:42-47 | destructive iff the lower-cased label starts with "high"; secondary iff it starts with "medium"; outline otherwise |
| RatingDisplay.BadgeVariantIgnoresCase | src/components/risk-results.tsx:43 | the badge depends on the label only up to letter case |
| RatingDisplay.BadgeVariantOnFivePointLabels | src/components/risk-results.tsx:42-47 | High is destructive; Medium is secondary; Very Low, Low and Very High are outline, so Very High looks calmer than High |
| RatingDisplay.SplitNoSep | src/components/risk-results.tsx:51 | text without ` - ` or `: ` splits into itself alone |
| RatingDisplay.SplitAtFirstSep | src/components/risk-results.tsx:51 | the first part is the text before the leftmost separator; the other parts are the split of what follows it |
| RatingDisplay.JoinSplitRating | src/components/risk-results.tsx:51-53 | rejoining the parts with ` - ` gives the text with every `: ` separator rewritten as ` - ` |
| RatingDisplay.ParseRating | src/components/risk-results.tsx:49-55 | empty text gives (N/A, Not available.); text without a separator gives (text, No justification provided.); otherwise the rating is the text before the leftmost separator (N/A if that is empty) and the justification is the rest with separators normalised |
| RatingDisplay.ParseRatingRoundTrip | src/components/risk-results.tsx:49-55 | "label - justification" and "label: justification" both parse back to the two parts when the label is non-empty and cannot run into the separator and the justification has no `: ` |
| RatingDisplay.FirstSepIsLeftmost | src/components/risk-results.tsx:51 | no separator begins before the position where the split cuts first |
| CiaChart.CiaValue | src/components/cia-impact-chart.tsx:11-16 | the value is at most 4; it is 0 exactly for a label outside the CIA scale; a known label gets its ordinal |
| CiaChart.CiaOrdinalFollowsScale | src/components/cia-impact-chart.tsx:11-16 | Low, Medium, High, Critical are worth 1, 2, 3, 4 |
| CiaChart.ChartData | src/components/cia-impact-chart.tsx:36-55 | three entries named Confidentiality, Integrity, Availability in that order; residual value and label come from the matching residual rating; with no inherent impact every inherent value is 0 and every inherent label is N/A; otherwise they come from the inherent rating (N/A for an empty label); every value is in 0..4 |
| CiaChart.TickFormatter | src/components/cia-impact-chart.tsx:67 | a label is produced exactly for the values 1..4 |
| CiaChart.TickFormatterInvertsValue | src/components/cia-impact-chart.tsx:67 | formatting a label's value gives back the label; reading back a tick's label gives the tick |
| CiaChart.UnknownLabelHasNoTick | src/components/cia-impact-chart.tsx:67 | an unknown CIA label draws 0, which has no tick label |
| JsStrings.TrimEmptyIffAllWhitespace | src/components/questionnaire.tsx:27 | a string trims to "" exactly when every character is JavaScript whitespace |
| JsStrings.Utf16Length | src/components/risk-form.tsx:14-15 | the length lies between the number of characters and twice that; it equals the number of characters exactly when none lies outside the Basic Multilingual Plane |
| Questionnaire.AnsweredIffNotAllWhitespace | src/components/questionnaire.tsx:27 | all questions count as answered iff no answer is whitespace only; no answers at all count as answered |
| Questionnaire.HandleAnswerChange | src/components/questionnaire.tsx:21-25 | the result is a new array equal to the old contents with position `index` replaced by `value`; the array passed in is not modified |
| Questionnaire.AnswerChangeShape | src/components/questionnaire.tsx:21-25 | same length, the new value at the index, every other position unchanged |
| Questionnaire.AnswerChangeGate | src/components/questionnaire.tsx:21-27 | a blank new answer makes the form incomplete; a non-blank one leaves completeness to the other answers |
| Questionnaire.Submit | src/components/questionnaire.tsx:29-31 | answers are handed on iff not loading and no answer is blank, and then unchanged |
| RiskForm.Validate | src/components/risk-form.tsx:13-16 | no errors iff both fields are valid; the technology message appears iff technology is shorter than 2; the deficiencies message appears iff deficiencies are shorter than 10 |
| RiskForm.DefaultsCannotBeSubmitted | src/components/risk-form.tsx:28-31 | the empty defaults fail both rules and cannot be submitted whatever the loading state |
| RiskForm.Submit | src/components/risk-form.tsx:81 | values are handed on iff not loading and validation finds nothing, and then unchanged |
| RiskForm.TechnologyLengthInCodeUnits | src/components/risk-form.tsx:14 | two characters always suffice; one character suffices only outside the Basic Multilingual Plane; the empty name fails |
| RiskForm.DeficienciesLengthBounds | src/components/risk-form.tsx:15 | ten characters always suffice; fewer than five never do |

## Left out

- Persistence is browser I/O and is not modelled: the `localStorage` reads and writes of the register page (`page.tsx:23`, `page.tsx:29`) and of the detail page.
- Navigation (`router.push`) is not modelled.
- The browser download steps are not modelled: `encodeURI`, link creation and `link.click()` (`risk-results.tsx:33-39`). `CsvContent` is the text handed to them.
- React state hooks, react-hook-form wiring, the recharts rendering and the chart's tooltip component (`cia-impact-chart.tsx:18-33`) are UI plumbing and are not modelled.
- The language-model flows under `src/ai/flows/` are foreign calls to a hosted model. Only the rating enums are modelled. The assessment sequencing in `src/app/page.tsx` is not part of this model for the same reason.
- `src/components/clarifying-questions.tsx`, `src/components/loader.tsx` and `src/ai/dev.ts` hold no logic of their own.
- `src/types/index.ts` is not part of this model because its field types disagree with the consumers. Each consumer is modelled with the shape it uses. The assessment page passes the rater's `{rating, justification}` objects as `likelihood` and `impact` (`src/app/page.tsx:27-40`, `:66`). Given such an object, `parseRating` throws while rendering (`text.split` is not a function, `risk-results.tsx:51`, `:57-58`), so the view does not render and the export button is never reached. `RatingDisplay.ParseRating` and `CsvExport.EscapeCsvField` take text only. They capture neither this error nor the `[object Object]` that `String()` would give.
- RiskRegister.RatingValue: looks labels up as own keys only. In JavaScript, an inherited key such as `constructor` would give `NaN` instead of 0.
- CiaChart.CiaValue: looks labels up as own keys only, as `RatingValue` does.
- RatingDisplay.BadgeVariant: lower-cases ASCII letters only. The only non-ASCII characters whose lower case contains one of the letters of "high" or "medium" turn into two characters ("İ" becomes "i" followed by a combining dot). So no other character can complete either prefix, and the verdict equals the source's.
- Questionnaire.HandleAnswerChange: requires `index < answers.Length`. The indices range over `questions` (`questionnaire.tsx:45`). The component does not check them against `answers.length`, and no caller in the source is shown to keep the two lists aligned. An index at the end makes JavaScript append, and one past the end leaves holes that `every` skips; neither case is modelled.
- Questionnaire.Submit: models submission through the submit button, which is disabled while loading or incomplete. Implicit submission from a textarea does not happen.
- RiskForm.Submit: models the button's disabled state and react-hook-form's validation before `onSubmit` together as one gate.
- CsvExport.EscapeCsvField: takes a string only. The `|| ''` fallback for `undefined` and `null` is covered only through the empty string.
- The header and the row are separated by a line feed (`risk-results.tsx:31`), not the CRLF that RFC 4180 recommends. The row has no closing line break. `CsvContent` builds the text this way.
- CiaChart.TickFormatter: takes integers. Recharts only passes the ticks 1..4.
- Strings are sequences of Unicode scalar values, so lone UTF-16 surrogates cannot be represented.
