# Recipe finder page: a Dafny model of its state handling

The application is one web page. It keeps a list of free-text ingredient
entries, sends the non-blank ones to a remote recipe service in a single
POST, and shows either the recipe that comes back or an error. This project
models the state logic of the page's `Home` component in `app/page.tsx`:

- the ingredient-list handlers `addIngredient`, `removeIngredient` and
  `updateIngredient`, and the initial one-blank-entry list;
- `handleSubmit`: the `trim` filter, the validation error, the request
  (prompt text with the `", "`-joined list, plus the list itself), and how
  the four state slots change once the POST settles;
- `clearForm`.

Files:

- `text.dfy` (`Text`): JavaScript `trim` over the ECMAScript whitespace and
  line-terminator characters, and `Array.prototype.join`.
- `ingredients.dfy` (`IngredientList`): the list operations and the submit filter.
- `option.dfy` (`Optional`): the nullable recipe slot.
- `home.dfy` (`Home`): the page state and every handler as a pure transition.
- `session.dfy` (`Session`): runs of user and network events, plus a count of
  unanswered requests.

The page keeps `ingredients`, `isLoading`, `recipe` and `error` as four
independent `useState` slots. The model keeps them the same way, as four
fields of `Home.Page`, and does not use a single idle/loading/success/error
variant. The code really does reach combinations that such a variant would
exclude:

- A failed validation sets `error` but leaves an earlier `recipe` and
  `isLoading` as they were (app/page.tsx:55-58).
- `clearForm` does not reset `isLoading` (app/page.tsx:83-87).
- A successful answer does not clear `error`. It is `""` only because the
  submission that started the request cleared it (app/page.tsx:61, 74).

`handleSubmit` is split at its one `await`. `Home.BeginSubmit` covers lines
52-68 and returns the request it would send. `Home.Settle` covers lines
70-80 and takes the result of the POST as an input (`Home.Outcome`). The
recipe payload is the opaque type parameter `R`, because the code stores it
without looking inside.

Two further behaviours of the code are easy to overlook:

- The filter keeps the entries in their order (app/page.tsx:53).
- A falsy response body, such as `null`, throws nothing and is stored as
  the recipe (app/page.tsx:70, 74). It renders as no recipe, and the error
  slot is left as it was (it is `""` when this submission began it). The
  model calls this `FalsyBody`.

## Model

| member | source | states |
|---|---|---|
| IngredientList.Initial | app/page.tsx:29 | the list starts as exactly `[""]`: one entry, the empty string |
| Home.InitialPage | app/page.tsx:29-32 | first render: the list is exactly `[""]`, not loading, no recipe, empty error |
| IngredientList.Add | app/page.tsx:34-36 | the old entries, unchanged and in place, followed by exactly one `""`; length grows by one |
| Home.AddIngredient | app/page.tsx:34-36 | adding touches only the list, which gains one blank entry at the end; loading, recipe and error are kept |
| IngredientList.OtherPositions | app/page.tsx:40 | the index filter equals cutting out position `index` when it is a position of the list, and returns the list itself for any other index, negative ones included |
| IngredientList.Remove | app/page.tsx:38-43 | with more than one entry and an in-range index: one entry fewer, earlier entries unchanged, later ones shifted down by one; otherwise the list is unchanged; a non-empty list stays non-empty |
| Home.RemoveIngredient | app/page.tsx:38-43 | removing changes only the list, in the way `Remove` states |
| IngredientList.Update | app/page.tsx:45-49 | for an in-range index: same length, position `index` holds the new value, every other position is unchanged |
| Home.UpdateIngredient | app/page.tsx:45-49 | editing an entry changes only that entry; loading, recipe and error are kept |
| Text.IsWhitespace | app/page.tsx:53 | the characters `trim` strips are exactly the ECMAScript WhiteSpace and LineTerminator code points (a predicate; `WhitespaceExamples` states sample members and non-members) |
| Text.WhitespaceExamples | app/page.tsx:53 | tab, space, no-break space and the BOM are trimmed; the zero-width space U+200B, NEXT LINE U+0085 and letters are not |
| Text.TrimStart | app/page.tsx:53 | the result is a suffix of the input; everything dropped is whitespace, and the result does not start with whitespace |
| Text.TrimEnd | app/page.tsx:53 | the result is a prefix of the input; everything dropped is whitespace, and the result does not end with whitespace |
| Text.Trim | app/page.tsx:53 | `trim` returns the contiguous piece of the input that starts after the leading whitespace, neither starts nor ends with whitespace, and has only whitespace cut away before and after it |
| Text.TrimDetermined | app/page.tsx:53 | any piece of the input with only whitespace around it and no whitespace at its ends is the trim, so `Trim`'s contract fixes its result |
| Text.TrimKeepsUnpadded | app/page.tsx:53 | a string with no whitespace at either end is returned unchanged by `trim` |
| Text.TrimEmptyIffBlank | app/page.tsx:53 | `s.trim() === ""` exactly when every character of `s` is whitespace |
| IngredientList.IsUsable | app/page.tsx:53 | the filter's keep-test: some character of the entry is not whitespace (a predicate; `UsableIffTrimNonEmpty` ties it to `trim`) |
| IngredientList.UsableIffTrimNonEmpty | app/page.tsx:53 | the filter's keep-test is exactly "trimmed text is non-empty" |
| IngredientList.Usable | app/page.tsx:53 | the filtered list is no longer than the input and every entry in it is usable; which entries are kept, and in what order, is stated by `UsableIsSubsequence` and `UsableCounts` |
| IngredientList.UsableIsSubsequence | app/page.tsx:53 | the kept entries are a subsequence of the list, so their order is preserved |
| IngredientList.UsableCounts | app/page.tsx:53 | each usable value is kept as many times as it occurs, and unusable values are dropped entirely |
| IngredientList.SubsequenceOccurrences | app/page.tsx:53 | an order-preserving selection from a list holds no value more often than the list does |
| IngredientList.UsableDetermined | app/page.tsx:53 | any order-preserving selection from the list with the filter's occurrence counts is the filter's result, so `UsableIsSubsequence` and `UsableCounts` together determine it |
| IngredientList.UsableAppend | app/page.tsx:53 | filtering a concatenation filters each part |
| IngredientList.UsableEmptyIffAllBlank | app/page.tsx:53-55 | no entry survives the filter exactly when every entry is blank |
| Text.Join | app/page.tsx:66 | the empty list joins to `""` and a single entry to itself; otherwise the joined text is as long as the entries plus one separator per gap (positions of entries and separators are in `JoinEntryAt` and `JoinSeparatorAfter`) |
| Text.JoinEntryAt | app/page.tsx:66 | each entry appears verbatim in the joined text, at the offset after all earlier entries and separators |
| Text.JoinSeparatorAfter | app/page.tsx:66 | a separator sits directly after each entry except the last |
| Text.JoinSnoc | app/page.tsx:66 | joining one more entry onto a non-empty list appends the separator and then that entry |
| Home.Prompt | app/page.tsx:66 | the message starts with "I have these ingredients: " and ends with ". Can you suggest a recipe?" |
| Home.PromptBodyRoundTrip | app/page.tsx:66 | reading the text between the fixed lead and tail of the message gives back exactly the `", "`-joined list |
| Home.PromptListsEveryIngredient | app/page.tsx:66-67 | every ingredient sent in the request also appears verbatim in the message, at its place in the list |
| Home.BeginSubmit | app/page.tsx:51-68 | with no usable entry: no request is sent, only `error` changes (to the validation message), and list, loading and recipe are kept. Otherwise exactly one request is sent; it carries the filtered list and the prompt built from it, and the page is loading with an empty error and no recipe |
| Home.SubmitRejectsOnlyBlankLists | app/page.tsx:53-58 | a submission is rejected without sending anything exactly when every entry is blank |
| Home.Settle | app/page.tsx:70-80 | loading is false after every outcome and the list is untouched. A transport failure or an `error` field in the body sets the generic failure message and keeps the recipe slot. A recipe body becomes the recipe and keeps the error. A falsy body leaves no recipe |
| Home.ClearForm | app/page.tsx:83-87 | the list is back to exactly `[""]`, no recipe, empty error; the loading flag is kept |
| Home.SubmitThenSettle | app/page.tsx:55-80 | a valid submission that then settles is no longer loading. A failure shows the generic message and no recipe. A recipe body shows that recipe and no error |
| Home.ExampleFilter | app/page.tsx:53 | `["eggs", "", "flour"]` filters to `["eggs", "flour"]` |
| Home.ExampleJoin | app/page.tsx:66 | `["eggs", "flour"]` joins to `"eggs, flour"` |
| Home.SubmitSkipsBlankEntry | app/page.tsx:53-68 | submitting `["eggs", "", "flour"]` sends one request carrying `["eggs", "flour"]`, whose prompt lists `"eggs, flour"` |
| Session.Start | app/page.tsx:29-32 | a fresh page has no requests sent or pending and is not loading |
| Session.Step | app/page.tsx:34-87 | a submission that passes validation adds one request to the log and to the pending count; an answer removes one from the pending count and ends loading; every other event sends and answers nothing |
| Session.StartHealthy | app/page.tsx:29-32 | the initial page satisfies the session invariant |
| Session.StepHealthy | app/page.tsx:34-87 | every handler keeps the invariant: the list is non-empty, loading implies an unanswered request, and no more requests are pending than were sent |
| Session.RunHealthy | app/page.tsx:34-87 | any run of events keeps the invariant |
| Session.AllAnsweredNotLoading | app/page.tsx:29-87 | starting from a fresh page, once every request sent has been answered, the page is not loading and the list still has an entry |
| Session.QuietAfterAnswer | app/page.tsx:34-87 | once loading is off, a run without any submission keeps it off |
| Session.EarlyAnswerEndsLoading | app/page.tsx:60-80 | with two submissions in flight, the first answer already ends loading while the second request is still pending |

## Left out

- Rendering, styling and icons (app/page.tsx:89-323) are presentation only.
  This includes the 1-based step numbers of the instructions (line 300) and
  the conditional showing of the remove and clear buttons.
- The POST to `/recipe/analyze` and the remote service behind it. The model
  takes the outcome as an input (`Home.Outcome`). It does not model what the
  service returns for a given request.
- `console.error` (line 76) is logging only and does not affect state.
- React's update batching and scheduling. Each handler is one atomic
  transition, and `handleSubmit` is two. Events may interleave freely in
  `Session`; there is no model of timing.
- The fields of the `Recipe` interface (lines 7-26). The code never reads
  or checks them before rendering, so the payload is a type parameter.
- IngredientList.Update: requires an in-range index. Outside the list,
  `newIngredients[index] = value` (app/page.tsx:47) would append at
  `index == length`, leave holes past the end, and for a negative index add a
  property that is not an array element. The form never does any of these,
  since it only passes the index of an entry it shows (app/page.tsx:128-134).
- Home.UpdateIngredient: requires an in-range index, for the same reason.
- Strings are sequences of Unicode code points, not UTF-16 code units.
  Every character `trim` removes is a single UTF-16 unit, so trimming
  behaves the same.
- Indices are mathematical integers. The JavaScript `number` passed to
  `removeIngredient` is always a list position or a small integer, never a
  fraction or NaN.
