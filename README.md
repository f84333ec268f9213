# The Breeze event planner: prompt, promotion list and result card

The Breeze is a single-page form. A venue manager picks a month, an audience,
an event type, a goal and a cuisine. The page turns these into a prompt for a
generative model and renders the structured event idea that comes back as a
card. This project models the three deterministic pieces of `index.tsx` and
proves what they promise:

- **Prompt builder** (`generatePrompt`), in `prompt.dfy`, module `PromptBuilder`.
  Each form value is an `Option<string>`, where `None` is an absent field.
  `GeneratePrompt` is an imperative method. It calls `AppendCriteria`, which
  grows a local `criteria` string with the same five guarded appends as the
  source. `GeneratePrompt` then returns the fallback sentence if nothing was
  appended. It is proved equal to the specification function `Prompt`, which
  is the header followed by one line per listed field
  (`Lines(Criteria(form))`), or the fallback when no field is listed.
- **Promotion splitter**, in `promotion.dfy`, module `Promotion`.
  - `Split` is `split(/•|-|\*|\n/)`, and `Delimiters` lists the split points.
  - `NonBlank` is the `filter(s => s.trim() !== '')` step.
  - `TrimEach` trims each kept fragment, as the `forEach` does.
  - `Items` composes the three steps.
  - `Trim` follows the index-based trimming of String.prototype.trim: it finds
    the first and last characters that are not whitespace, then slices
    between them. Whitespace is the JavaScript set: white space, every Unicode
    space separator and the line terminators.
  - `Rejoin` puts the delimiters back between the fragments. It is the partner
    that makes the split a proved round trip.
- **Result card** (`displayResult`), in `render.dfy`, module `ResultRenderer`.
  - The DOM is replaced by a `Card` value: a title, detail entries, an
    optional promotion list and the financial entries. `Render` is its
    specification.
  - `BuildCard` builds the card with the source's loops. The `for...in` over
    the label table is `BuildDetails`, the promotion `forEach` is `ListItems`,
    and the `for...in` over the financial labels is `BuildFinancials`.
  - The page's output area is the class `OutputArea`. Its `DisplayResult`
    clears the area and then appends the card.
  - A parsed response is a `map<string, string>`.
  - `wrappers.dfy` holds the `Option` type.

Month, audience, type and goal skip the value `"any"`. Cuisine is tested only
with `if (cuisine)` (index.tsx:47), so a cuisine of `"any"` still produces the
line `- Cuisine Focus: any`. `CuisineAnyIsListed` proves this, and
`SentinelIsNoConstraint` proves that the other four fields ignore `"any"`.

The splitter also splits on a hyphen inside a word: `"Wi-Fi"` gives two items.
This is the behaviour of the regular expression, and `HyphenSplitsWords`
states it.

## Model

| member | source | states |
|---|---|---|
| PromptBuilder.Prompt | index.tsx:35-54 | The prompt generatePrompt returns: the fallback sentence when no field is listed, otherwise the header followed by one line per listed field in the order month, audience, type, goal, cuisine. |
| PromptBuilder.Truthy | index.tsx:43-47 | JavaScript truthiness of a form entry: a missing entry and the empty string are falsy, any other text is truthy. |
| PromptBuilder.Listed | index.tsx:43-47 | A field gets a line when its entry is truthy and, for month, audience, type and goal, is not "any". Cuisine only has to be truthy. |
| PromptBuilder.Line | index.tsx:43-47 | The line of a listed field: "- ", the field's label, ": ", the submitted value and a newline. |
| PromptBuilder.GeneratePrompt | index.tsx:35-54 | The returned prompt is `Prompt(form)`: the fallback sentence when no field is listed, otherwise the header followed by the listed fields' lines. |
| PromptBuilder.AppendCriteria | index.tsx:42-47 | After the five guarded appends, `criteria` is the header followed by exactly the lines of the listed fields, in the order month, audience, type, goal, cuisine. |
| PromptBuilder.AppendStep | index.tsx:43-47 | A single guarded append grows the text by exactly that field's line when the field is listed, and by nothing otherwise. |
| PromptBuilder.GuardsAreListed | index.tsx:43-47 | The guards `x && x !== 'any'` (month, audience, type, goal) and `if (cuisine)` hold exactly when the field is listed. |
| PromptBuilder.NothingAppended | index.tsx:49 | The accumulated text equals the header if and only if no line was appended. |
| PromptBuilder.FallbackExactly | index.tsx:42-51 | The prompt is the fallback sentence if and only if month, audience, type and goal are each absent, empty or "any" and cuisine is absent or empty; that holds if and only if no criterion is listed. |
| PromptBuilder.ConstrainedShape | index.tsx:42-53 | For a constrained form, the prompt is the header plus the lines. It starts with the header, is strictly longer than it, and ends in a newline. |
| PromptBuilder.CriteriaInOrder | index.tsx:43-47 | There are at most five criteria, in strictly increasing field order. Each one is a listed field with its submitted value, and every listed field has a criterion. |
| PromptBuilder.CriteriaUnfolded | index.tsx:43-47 | The criteria are the month, audience, type, goal and cuisine contributions, concatenated in that order. |
| PromptBuilder.PromptByContributions | index.tsx:43-47 | The prompt's lines are the five fields' lines, concatenated in field order. |
| PromptBuilder.LinesEmpty | index.tsx:43-47 | The lines are empty exactly when there are no criteria, because every line is non-empty. |
| PromptBuilder.LinesEndInNewline | index.tsx:43-47 | A non-empty list of lines ends in a newline. |
| PromptBuilder.SentinelIsNoConstraint | index.tsx:43-47 | For every field, "" gives the same prompt as an absent value. For month, audience, type and goal, "any" also gives the same prompt as an absent value. |
| PromptBuilder.CuisineAnyIsListed | index.tsx:47 | A cuisine of "any" gives the header, the lines of the other fields, and then the line "- Cuisine Focus: any". |
| PromptBuilder.CuisineAnyCriteria | index.tsx:47 | A cuisine of "any" gives the criteria without a cuisine, followed by the cuisine criterion. |
| Promotion.Delimiters | index.tsx:114 | The delimiter characters of the text, left to right. There are never more of them than characters in the text. |
| Promotion.Rejoin | index.tsx:114 | The inverse of the split: the fragments with the delimiters put back between them, in order. |
| Promotion.Trim | index.tsx:114-117 | `trim()`: leading and then trailing whitespace removed. The result is never longer than the text and has no whitespace at either end. |
| Promotion.NonBlank | index.tsx:114 | The `filter(s => s.trim() !== '')` step: the fragments whose trimmed form is not empty, in order. There are never more than there were fragments. |
| Promotion.NonBlankSingleton | index.tsx:114 | A single fragment is kept if and only if its trimmed form is not empty. |
| Promotion.TrimEach | index.tsx:115-119 | The `forEach` step: each kept fragment trimmed, exactly one item per fragment. |
| Promotion.Items | index.tsx:114-118 | The list items of a promotion text: split, filter, then trim each fragment. There are at most one more items than delimiters. |
| Promotion.Split | index.tsx:114 | Splitting gives exactly one more fragment than there are delimiter characters. |
| Promotion.SplitRoundTrip | index.tsx:114 | Putting the delimiters back between the fragments gives the original text. |
| Promotion.SplitOfRejoin | index.tsx:114 | Splitting fragments without delimiters that were joined with delimiters gives back exactly those fragments. |
| Promotion.SplitAround | index.tsx:114 | The fragments of `a + d + b`, for a delimiter `d`, are the fragments of `a` followed by those of `b`. |
| Promotion.FragmentsHaveNoDelimiter | index.tsx:114 | No fragment contains a bullet, hyphen, asterisk or newline. |
| Promotion.DelimitersAreDelimiters | index.tsx:114 | Every recorded split point is a bullet, hyphen, asterisk or newline. |
| Promotion.TrimCharacterized | index.tsx:114-117 | Trim keeps a contiguous piece of the text. Everything it cuts at either end is whitespace, and the piece has no whitespace at either end. |
| Promotion.TrimEmptyIffBlank | index.tsx:114 | `trim()` gives "" if and only if the text is all whitespace. |
| Promotion.TrimOfTrimmed | index.tsx:117 | Trimming a text with no whitespace at either end leaves it unchanged. |
| Promotion.TrimKeepsNoDelimiter | index.tsx:114-117 | Trimming a text that has no delimiter gives a text that has no delimiter. |
| Promotion.NonBlankKeeps | index.tsx:114 | Every fragment kept by the filter is one of the input fragments and does not trim to "". |
| Promotion.NonBlankConcat | index.tsx:114 | Filtering distributes over concatenation and keeps the order. |
| Promotion.TrimEachSnoc | index.tsx:115-119 | Trimming one more fragment appends its trimmed form at the end. |
| Promotion.ItemsWellFormed | index.tsx:114-118 | Every list item is non-empty, trimmed and free of delimiters, and there are at most one more items than delimiters. |
| Promotion.ItemsAround | index.tsx:114-118 | The items of `a + d + b`, for a delimiter `d`, are the items of `a` followed by those of `b`, so items keep their left-to-right order. |
| Promotion.ItemsOfFragment | index.tsx:114-118 | A text without delimiters gives no item if it is blank, and otherwise one item, its trimmed self. |
| Promotion.ItemsOfRejoin | index.tsx:114-118 | The items of fragments joined by delimiters are the trimmed non-blank fragments, in their order. |
| Promotion.HyphenSplitsWords | index.tsx:114 | Two non-blank words joined by a hyphen give two items, the two trimmed words. |
| Promotion.ItemsExample | index.tsx:114-118 | "- Run ads\n* Offer discount\n• Partner with hotel" gives exactly ["Run ads", "Offer discount", "Partner with hotel"]. |
| ResultRenderer.Render | index.tsx:56-149 | The card displayResult builds: the title, the detail entries, the promotion list when there is a strategy, and the three financial entries. |
| ResultRenderer.Title | index.tsx:63 | The title is the event name, or "" when the record has none. |
| ResultRenderer.TemplateText | index.tsx:133-141 | A field interpolated into a template literal: its text, or "undefined" when the record lacks it. |
| ResultRenderer.HasPromotion | index.tsx:109 | `if (data.promotionStrategy)`: the strategy is present and not empty. |
| ResultRenderer.DetailsOf | index.tsx:90-105 | One detail entry for each given key the record has, in the keys' order. There are never more entries than keys. |
| ResultRenderer.Financials | index.tsx:132-143 | One entry per financial label, in the labels' order, each showing its field's template text. |
| ResultRenderer.BuildCard | index.tsx:56-149 | The card built is `Render(data)`. |
| ResultRenderer.BuildDetails | index.tsx:90-105 | The loop over the label table gives the detail entries of `Render`: one per key the record has, in table order. |
| ResultRenderer.BuildPromotion | index.tsx:109-122 | The promotion list is present exactly when the strategy text is non-empty, and its items are `Items` of that text. |
| ResultRenderer.ListItems | index.tsx:115-119 | The `forEach` gives one trimmed item per kept fragment, in order. |
| ResultRenderer.BuildFinancials | index.tsx:132-143 | The loop over the financial labels gives the three financial entries of `Render`. |
| ResultRenderer.OutputArea.DisplayResult | index.tsx:56-149 | After a call, the output area holds exactly one card, the card for the record, whatever it held before. |
| ResultRenderer.DisplayTwice | index.tsx:57-148 | Rendering the same record twice leaves the same single card as rendering it once. |
| ResultRenderer.DetailsExactly | index.tsx:69-105 | There are at most seven detail entries. They come in the table's key order, each is for a key present in the record and shows that field's text, and every present key has an entry. |
| ResultRenderer.DetailsOfComplete | index.tsx:90-91 | Every key of the table that the record has gets an entry. |
| ResultRenderer.PromotionBlock | index.tsx:109-118 | The promotion block is present if and only if `promotionStrategy` is present and non-empty. Its items are `Items` of the text: at most one more than the delimiters, each non-empty, trimmed and free of delimiters. |
| ResultRenderer.FinancialsFixed | index.tsx:132-143 | There are always exactly three financial entries: Cost Estimate, Expected Revenue and Net Profit, in that order. Each shows its field, or "undefined" when the field is missing. |
| ResultRenderer.ConformingCard | index.tsx:28-32 | For a record with all twelve required fields, the card has the event name as its title, all seven detail entries in order, and the record's own cost, revenue and profit. It has a promotion list exactly when the strategy text is non-empty. |

## Left out

- The Gemini client, the `generateContent` call, the model name and the system instruction (index.tsx:3, 167-182) are calls into an external library and service.
- The `responseSchema` object (index.tsx:12-33) is configuration for that library. Only its twelve required keys are kept, as `RequiredKeys`.
- `JSON.parse` and `response.text.trim()` (index.tsx:184-185) are left out. `Render` takes an already parsed record.
- The record's values are all text. `guestCapacity`, which the schema declares as a number, is taken as already rendered as text.
- DOM creation, `innerHTML`/`textContent` and CSS classes are replaced by the abstract `Card`. The fixed headings "📣 Promotion Strategy" and "💰 Financial Overview" are not part of it.
- The submit handler, with its spinner, button and loader toggling (index.tsx:155-196), is UI state and asynchronous flow. So is the race between overlapping submissions.
- `displayError` (index.tsx:151-153) only writes one HTML string.
- `process.env` and the module-level element lookups (index.tsx:3-10) are left out.
- Form values that are `File` objects are left out. Every field is an optional string.
- ResultRenderer.DetailItem.Heading: the icon and label strings of a detail entry are constants. The model proves nothing about the emoji themselves.
- ResultRenderer.Title: when `eventName` is missing, the title is "". Setting `textContent` to `undefined` shows nothing.
