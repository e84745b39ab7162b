# gift-idea — a verified model of the client-side core

gift-idea is a small React front-end for keeping gift ideas per person ("giftee"). It
stores giftees and their ideas in a hosted database, asks a language model for
suggestions, and shows birthday and Christmas countdowns. It has no engine of its own.
What this project models is the logic that sits in its components and helpers:

- **String builders.** The URL normaliser of the add-link dialog, the Amazon search link
  with its associate tag, the suggestion prompt (both the `chatgpt.ts` one and
  `buildGiftPrompt`), and the splitting of a completion into suggestions.
  - The search link's query string uses the `application/x-www-form-urlencoded`
    serializer of the WHATWG URL Standard, section 5.2. It is modelled together with
    a parser, so the round trip can be stated.
- **Date-of-birth arithmetic.** Zero-padded `YYYY-MM-DD` text, the `DD-MM` plus age
  form of the details tab, the age with its birthday-not-yet-reached correction, the
  `+` phone prefix, the days until Christmas and the birthdays-in-the-next-n-days list.
  - Dates are integer `(year, month, day)` triples.
  - "Today" is a parameter.
- **Idea lists.** Appending, replacing by id, deleting by id, toggling `purchased_at`,
  the bought/idea counts with the plural ending, and the table projection of the ideas
  page.
- **Component state.** Every component whose handlers call React setters is a `class`
  whose fields are that state and whose methods are the handlers (`modifies this`).
  - The backend, the model call and the clock are parameters: `Option<T>` is the
    awaited result, `None` when the call throws.
  - Route guarding and the auth redirect are pure functions of `(loading, session
    present)`.

Module layout: one module per source file of the core (`AddUrlDialog`, `ActionList`,
`ChatGpt`, `GiftPrompt`, `SuggestionsTab`, `IdeasForm`, `DetailsTab`, `GifteeDetail`,
`GifteeRow`, `IdeasPage`, `AddIdeaForm`, `Dashboard`, `App`, `AuthRedirect`,
`DateUtils`), plus support modules:

- `Wrappers`: the Option type.
- `Text`: JavaScript whitespace, `trim`, `split`, `padStart`, decimal text and the
  digit filter.
- `JsNumbers`: `parseInt`, `String(x)`, `NaN` and `undefined`.
- `Calendar`: the Gregorian calendar and the `YYYY-MM-DD` form.
- `FormUrlEncoding`: UTF-8 and the urlencoded serializer and parser.
- `Records`: idea and giftee rows.
- `IdeaLists`: list operations shared by several pages.

## Model

| member | source | states |
|---|---|---|
| AddUrlDialog.FormatUrlResult | src/components/AddUrlDialog.tsx:22-33 | a blank URL comes back unchanged, untrimmed; otherwise the result is the trimmed URL exactly when the untrimmed URL starts with `http://` or `https://` in any case, and `https://` plus the trimmed URL otherwise |
| AddUrlDialog.FormatUrlIdempotent | src/components/AddUrlDialog.tsx:22-33 | formatting a formatted URL changes nothing |
| AddUrlDialog.WithDefaultProtocol | src/components/AddUrlDialog.tsx:32 | a prefixed non-empty trimmed URL carries a protocol, stays trimmed and differs from its input, so every non-blank result has a protocol |
| AddUrlDialog.HasProtocolTrim | src/components/AddUrlDialog.tsx:27-29 | trimming a URL that starts with a protocol keeps the protocol at its start |
| AddUrlDialog.LeadingSpaceDoublesProtocol | src/components/AddUrlDialog.tsx:27-32 | whitespace before an `https://` link defeats the protocol test, so the result is `https://` followed by the whole trimmed link, protocol included |
| AddUrlDialog.Dialog.constructor | src/components/AddUrlDialog.tsx:42 | the field starts as the current URL, or `""` without one |
| AddUrlDialog.Dialog.OnOpenChange | src/components/AddUrlDialog.tsx:44-84 | the dialog takes the `open` value the parent sets (reopening, or closing through Cancel); opening resets the field to the current URL or `""`, closing keeps the edited text, and nothing is saved |
| AddUrlDialog.Dialog.Submit | src/components/AddUrlDialog.tsx:50-57 | exactly one save, of the formatted field, and the dialog is closed |
| ActionList.AmazonSearchUrlShape | src/pages/ActionList.tsx:76-83 | every link starts with `https://www.amazon.co.uk/s?` followed by its query |
| ActionList.AmazonSearchQuery | src/pages/ActionList.tsx:78-82 | parsing the query gives exactly two pairs, `k` with the search text and then `tag` with `giftgoats-21`, whatever characters the text holds |
| ActionList.AmazonSearchQueryLayout | src/pages/ActionList.tsx:78-82 | the link is the base, `k=`, the encoded text, `&tag=giftgoats-21`; the encoded text has no `&` and no `=`, so it cannot add a parameter or replace the tag |
| ActionList.MenuItems | src/pages/ActionList.tsx:41-69 | the menu has four entries: the toggle, the link entry, "Search Amazon" with the idea name, "Delete" |
| ActionList.ToggleEntry | src/pages/ActionList.tsx:41-50 | "Mark as bought" is offered iff the idea is not bought, "Mark as not bought" iff it is |
| ActionList.LinkEntry | src/pages/ActionList.tsx:53 | the link entry reads "Edit Link" iff the URL is present and non-empty, "Add Link" iff it is absent or empty |
| ActionList.OpensTab | src/pages/ActionList.tsx:56-66 | only the search entry opens a new tab, and the tab it opens is the Amazon search link for the idea name |
| FormUrlEncoding.Encode | src/pages/ActionList.tsx:78-82 | an encoded name or value holds only serializer output characters, never `&` or `=` |
| FormUrlEncoding.DecodeEncode | src/pages/ActionList.tsx:78-82 | decoding an encoded string returns it, for every string |
| FormUrlEncoding.ParseSerialize | src/pages/ActionList.tsx:78-82 | parsing a serialized list of pairs returns every name and value, in order |
| ChatGpt.GetSuggestionsForGiftee | src/lib/chatgpt.ts:6-51 | a missing key fails before any request exists; otherwise exactly one request goes out with the bearer key, the fixed model and system message and a user prompt built for that name and bio; no answer or a non-ok status fails; an ok answer yields the parsed completion |
| ChatGpt.AssemblePrompt | src/lib/chatgpt.ts:15-19 | the prompt built step by step is the introduction with the name, the bio part, then the fixed instruction |
| ChatGpt.PromptBio | src/lib/chatgpt.ts:15-19 | such a prompt is longer than introduction plus instruction iff the bio is present and not blank after trimming; its middle is then the sentence with the untrimmed bio |
| ChatGpt.BioPart | src/lib/chatgpt.ts:16-18 | the bio part is non-empty exactly when the bio is present and not blank |
| ChatGpt.FramedUnique | src/lib/chatgpt.ts:15-19 | a text framed by a given head, middle and tail is their concatenation |
| ChatGpt.ParsedSuggestionsAreLines | src/lib/chatgpt.ts:45-49 | there are no more suggestions than lines; each one is non-empty, trimmed, free of newlines, and is the trim of some line; each non-empty trimmed line occurs among the suggestions as often as among the trimmed lines |
| ChatGpt.ParseSuggestionsOfLines | src/lib/chatgpt.ts:45-49 | non-empty trimmed lines joined by newlines parse back to exactly those lines, in order |
| ChatGpt.NonEmpty | src/lib/chatgpt.ts:49 | the filter keeps exactly the non-empty lines, each as often as it occurs, and drops every empty one |
| ChatGpt.NonEmptyAppend | src/lib/chatgpt.ts:49 | filtering a concatenation is filtering each part and concatenating, so the kept lines stay in their order |
| ChatGpt.NonEmptyOne | src/lib/chatgpt.ts:49 | a single line is kept exactly when it is non-empty |
| ChatGpt.TrimEach | src/lib/chatgpt.ts:48 | each line is replaced by its trim, position by position |
| GiftPrompt.SystemMessageFixed | src/lib/prompt.ts:3-9 | the system prompt is the same constant for every name and bio |
| GiftPrompt.SystemPromptEnds | src/lib/prompt.ts:3-9 | the system prompt starts with the concierge sentence and ends with the JSON-array instruction |
| GiftPrompt.UserMessage | src/lib/prompt.ts:11-13 | the user prompt is the name line, a newline and two spaces, and the bio line with the bio or `N/A` when it is absent |
| GiftPrompt.UserPromptBio | src/lib/prompt.ts:13 | an absent bio reads `N/A`, but an empty one stays empty |
| GiftPrompt.PaddedTrim | src/lib/prompt.ts:3-13 | trimming the template drops only its blank lead-in |
| SuggestionsTab.AgeOf | src/pages/tabs/Suggestions.tsx:36-47 | no date of birth gives `undefined`, an unreadable one `NaN`, otherwise the whole number of years from the birth date to today |
| SuggestionsTab.AgeUnique | src/pages/tabs/Suggestions.tsx:36-47 | that age is unique |
| SuggestionsTab.AgeOnBirthday | src/pages/tabs/Suggestions.tsx:43-46 | on the birthday itself the age is the plain year difference |
| SuggestionsTab.AgeBeforeBirthday | src/pages/tabs/Suggestions.tsx:43-46 | the day before the birthday the age is one less |
| SuggestionsTab.Tab.BeginFetch | src/pages/tabs/Suggestions.tsx:27-49 | without a name nothing changes; otherwise the flag is raised, both lists are emptied, the active follow-up becomes the argument, and one call is made with the name, the bio or `""`, the follow-up and the age: `undefined` without a date of birth, `NaN` for an unreadable one, otherwise the whole years from birth to today |
| SuggestionsTab.Tab.FinishFetch | src/pages/tabs/Suggestions.tsx:49-56 | a response fills both lists with its fields; in every case the flag drops and the active follow-up stays |
| SuggestionsTab.Tab.HandleFetchSuggestions | src/pages/tabs/Suggestions.tsx:27-57 | without a name nothing changes; otherwise the active follow-up is the argument (none clears it), the call carries the age `BeginFetch` states, the flag ends false, and the lists hold the response or stay empty on failure |
| SuggestionsTab.Tab.HandleCustomFollowUp | src/pages/tabs/Suggestions.tsx:59-64 | a blank question changes nothing; otherwise the input is cleared, and a call is made exactly when the giftee has a name: with the trimmed question as the active follow-up and the giftee's age, or with nothing else changed when there is no name |
| IdeasForm.Form.HandleFetchSuggestions | src/pages/IdeasForm.tsx:20-32 | without a name nothing changes; otherwise the bio or `""` is sent, the flag ends false, the list holds the parsed suggestions on success and stays empty on any failure |
| DetailsTab.InitialPhone | src/pages/tabs/Details.tsx:21-23 | a stored number is shown with one `+` in front; a missing or empty one as `""` |
| DetailsTab.StripPlus | src/pages/tabs/Details.tsx:63 | at most one leading `+` is removed |
| DetailsTab.SavedPhone | src/pages/tabs/Details.tsx:63 | an empty field saves null; otherwise the field, less one leading `+` |
| DetailsTab.PhoneRoundTrip | src/pages/tabs/Details.tsx:21-23 | showing then saving a stored number gives it back; a missing or empty one saves null |
| DetailsTab.LoadedFields | src/pages/tabs/Details.tsx:26-40 | with a date of birth, the birthday is padded `DD-MM` and the age the plain year difference with no birthday correction; an unreadable date gives `NaN-NaN` and `NaN`; without one nothing is set |
| DetailsTab.CalculateDateOfBirth | src/pages/tabs/Details.tsx:42-54 | the result is empty exactly when the birthday or the age is empty |
| DetailsTab.CalculateOfFields | src/pages/tabs/Details.tsx:42-54 | for readable fields the result is the current year less the age, then month and day padded to two, joined by `-` |
| DetailsTab.LoadThenSave | src/pages/tabs/Details.tsx:26-54 | loading a stored four-digit-year date and saving it unchanged writes the same text back |
| DetailsTab.LoadThenSaveDate | src/pages/tabs/Details.tsx:26-54 | the saved text reads back as the same year, month and day |
| DetailsTab.Tab.constructor | src/pages/tabs/Details.tsx:17-40 | initial fields: loaded birthday and age, bio or `""`, the shown phone |
| DetailsTab.Tab.HandleSave | src/pages/tabs/Details.tsx:56-105 | the update sends the computed date, the bio and the saved phone; `onClose` gets a giftee only after a successful update, equal to the original with those three fields replaced |
| Calendar.ParseFormatIso | src/pages/GifteeDetail.tsx:61-64 | the stored `YYYY-MM-DD` text of a date reads back as that date |
| GifteeDetail.DobSplit | src/pages/GifteeDetail.tsx:41-43 | splitting a saved date of birth on `-` gives the padded year, month and day |
| GifteeDetail.DobFieldsOfSaved | src/pages/GifteeDetail.tsx:41-43 | the three inputs loaded from a saved date are its padded fields |
| GifteeDetail.DobTextParses | src/pages/GifteeDetail.tsx:61-64 | digit fields that name a real day save as text that reads back as that day |
| GifteeDetail.DigitFilter | src/pages/GifteeDetail.tsx:147 | the digit filter is idempotent and works piece by piece, so it keeps digits in order |
| Text.KeepDigits | src/pages/GifteeDetail.tsx:147 | the filtered text is all digits, no longer than the input, and a digit-only input is kept as it is |
| Text.KeepDigitsMembership | src/pages/GifteeDetail.tsx:155 | a character survives the filter iff it is a digit of the input |
| GifteeDetail.Detail.LoadGiftee | src/pages/GifteeDetail.tsx:41-43 | loading stores the giftee and splits its date of birth into the three inputs |
| GifteeDetail.Detail.OnDobInput | src/pages/GifteeDetail.tsx:147-163 | typing into the day, month or year input stores only its digits, in that input alone |
| GifteeDetail.Detail.HandleSaveDob | src/pages/GifteeDetail.tsx:54-78 | an empty field rejects the save; otherwise the padded date is sent when there is a giftee, and stored on it only after a successful update |
| GifteeDetail.Detail.HandleSubmit | src/pages/GifteeDetail.tsx:80-96 | a blank name sends nothing; otherwise the untrimmed name is sent, and a created idea is appended and the input cleared |
| GifteeDetail.Detail.HandleToggleChosen | src/pages/GifteeDetail.tsx:202-210 | the patch toggles `purchased_at`; the returned row replaces the entries with that id |
| GifteeDetail.Detail.HandleDeleteIdea | src/pages/GifteeDetail.tsx:218-221 | a successful delete removes the entries with that id |
| GifteeDetail.Detail.HandleRating | src/pages/GifteeDetail.tsx:223-226 | the patch sets the rating; the returned row replaces the entries with that id |
| IdeaLists.Toggled | src/pages/GifteeDetail.tsx:202-203 | a set timestamp becomes null and an unset one becomes now |
| IdeaLists.ToggleTwice | src/pages/GifteeDetail.tsx:202-203 | two toggles from unset come back to unset |
| IdeaLists.ReplaceById | src/pages/GifteeDetail.tsx:209 | same length; each position holds the new row if its id matches and the old entry otherwise |
| IdeaLists.ReplaceByIdIdempotent | src/pages/GifteeDetail.tsx:209 | replacing twice with the same row equals replacing once |
| IdeaLists.ReplaceAbsentId | src/pages/GifteeDetail.tsx:209 | replacing an id that is not present changes nothing |
| IdeaLists.RemoveById | src/pages/GifteeDetail.tsx:220 | the survivors are exactly the entries whose id differs |
| IdeaLists.RemoveByIdAppend | src/pages/GifteeDetail.tsx:220 | removal works entry by entry, so survivors keep their order |
| IdeaLists.RemoveByIdCount | src/pages/GifteeDetail.tsx:220 | removal drops exactly one entry per match |
| IdeaLists.RemoveAbsentId | src/pages/GifteeDetail.tsx:220 | removing an absent id changes nothing |
| IdeaLists.CountsPartition | src/pages/GifteeRow.tsx:67-68 | the bought count plus the idea count is the number of ideas |
| IdeaLists.CountsAppend | src/pages/GifteeRow.tsx:67-68 | an appended idea adds one to exactly one of the two counts |
| IdeaLists.Plural | src/pages/GifteeRow.tsx:69 | the ending is `s` exactly when the count is not one |
| GifteeRow.ReplaceWithBoughtKeepsBought | src/pages/GifteeRow.tsx:45-47 | replacing with a bought row never lowers the bought count and leaves the matching entries bought |
| GifteeRow.SummaryWords | src/pages/GifteeRow.tsx:66-69 | the summary reads, word by word, `-`, the bought count, `bought,`, the count still to buy, and `idea` with its plural ending |
| GifteeRow.SummaryShowsCounts | src/pages/GifteeRow.tsx:66-69 | two lists with the same summary have the same two counts: the text shows both counts unambiguously |
| GifteeRow.Row.constructor | src/pages/GifteeRow.tsx:31 | the list starts as the giftee's ideas, or empty |
| GifteeRow.Row.HandleAddIdea | src/pages/GifteeRow.tsx:36-43 | the name is sent as given; a created idea is appended at the end |
| GifteeRow.Row.HandleMarkAsBought | src/pages/GifteeRow.tsx:45-52 | the patch always sets `purchased_at` to now; the returned row replaces the entries with that id |
| GifteeRow.Row.HandleDeleteIdea | src/pages/GifteeRow.tsx:54-58 | a successful delete removes the entries with that id |
| IdeasPage.PurchasedColumn | src/pages/Ideas.tsx:134-139 | `−` when unbought; `✓` when bought with `purchased_for` empty; otherwise `purchased_for` |
| IdeasPage.GetData | src/pages/Ideas.tsx:127-143 | one row per idea, same length and order |
| IdeasPage.GetDataCopies | src/pages/Ideas.tsx:130-140 | a row copies id, name and `purchased_at`, and takes the giftee name and id from the nested giftee; both are undefined without one |
| IdeasPage.GetDataAppend | src/pages/Ideas.tsx:128 | the projection keeps the order of any split of the list |
| IdeasPage.Page.Load | src/pages/Ideas.tsx:11-13 | the fetched ideas replace the list; a failed fetch keeps it |
| IdeasPage.Page.HandleToggleChosen | src/pages/Ideas.tsx:19-27 | the patch toggles `purchased_at`; the returned row replaces the entries with that id |
| AddIdeaForm.Form.HandleSubmit | src/pages/AddIdeaForm.tsx:12-18 | a blank name submits nothing and keeps the field; otherwise the untrimmed name is submitted once and the field cleared |
| Dashboard.Board.Load | src/pages/Dashboard.tsx:11-13 | the fetched list replaces the giftees; a failed fetch keeps them |
| Dashboard.Board.HandleSubmit | src/pages/Dashboard.tsx:15-26 | a blank name requests nothing; otherwise the untrimmed name is requested; only a created giftee is appended, and only then is the input cleared |
| App.ProtectedRoute | src/App.tsx:13-28 | loading shows the placeholder; loaded without a session redirects to `/login` with replace; loaded with a session renders the children |
| App.RootRoute | src/App.tsx:36-43 | `/` is the dashboard, guarded |
| App.LoginRoute | src/App.tsx:35 | `/login` is the login page, unguarded |
| App.GifteeRoute | src/App.tsx:44-51 | `/giftee/<id>` is that giftee's page, guarded |
| App.GuardSafety | src/App.tsx:13-51 | a page other than login is shown only when loaded with a session; a guarded path without a session redirects; an unguarded one renders whatever the session |
| AuthRedirect.RedirectEffect | src/components/AuthRedirect.tsx:10-18 | navigation happens iff loaded with a session, and it goes to `/dashboard` with replace |
| AuthRedirect.DashboardPathUnrouted | src/components/AuthRedirect.tsx:15 | the application's routes match no `/dashboard`, so the redirect target renders no page |
| DateUtils.DaysToChristmas | src/lib/dateUtils.ts:6-20 | the countdown is between 1 and 366 days |
| DateUtils.ChristmasReached | src/lib/dateUtils.ts:9-19 | stepping that many days from today lands on 25 December |
| DateUtils.ChristmasFirst | src/lib/dateUtils.ts:9-19 | no earlier day of the countdown is 25 December, so the countdown reaches the nearest one after today |
| DateUtils.FilterUpcoming | src/lib/dateUtils.ts:30-34 | the kept giftees are exactly those whose birthday is in the window, each kept as often as it occurs in the input |
| DateUtils.SortByKey | src/lib/dateUtils.ts:36-42 | the result is sorted by the key and is a permutation of its input |
| DateUtils.SortSharedKeyKeepsOrder | src/lib/dateUtils.ts:36-42 | entries that all share one birthday come out in their input order, as the stable `sort` leaves them |
| DateUtils.InsertByKey | src/lib/dateUtils.ts:36-42 | inserting into a sorted list keeps it sorted and adds exactly the one giftee |
| DateUtils.BirthdaysResult | src/lib/dateUtils.ts:25-43 | each giftee appears as often as in the input when its birthday is in the window and never otherwise; a giftee is in it iff its birthday in this year falls after today and no later than n days on; earlier entries never have later birthdays |
| DateUtils.BirthdayIn | src/lib/dateUtils.ts:32-33 | the birthday moved into the year is a real date of that year; a readable date keeps its month and day, except that 29 February in a common year becomes 1 March; no date of birth, or an unreadable one, gives 1 January |
| Calendar.MoveToYear | src/lib/dateUtils.ts:33 | `setFullYear` keeps month and day exactly unless the day is 29 February and the year is common, and then gives 1 March |
| DateUtils.NextDaysInWindow | src/lib/dateUtils.ts:26-28 | each of the next n days lies in the window |
| DateUtils.InvalidNeverListed | src/lib/dateUtils.ts:32-34 | a giftee without a readable date of birth is never listed |
| DateUtils.NewYearNotReached | src/lib/dateUtils.ts:33 | in December, a January birthday is never listed, because it is placed in the current year |
| DateUtils.TodayNotListed | src/lib/dateUtils.ts:34 | a birthday falling on today itself is not listed, since today is already under way |

## Left out

- The hosted database, authentication and analytics calls are not modelled. Each awaited
  result (`addIdea`, `updateIdea`, `deleteIdea`, `addGiftee`, `updateGiftee`,
  `getGiftees`) is a parameter, `None` when it throws. Toasts and console logging have no
  effect on the model.
- The HTTP request in `src/lib/chatgpt.ts` is a `Reply` parameter: no answer, or a status
  and a completion text. A completion body without `choices` is not modelled.
- The suggestions call in `Suggestions.tsx` has four arguments and a structured response.
  It is an abstract step with a `Response` parameter; its schema and validation are not
  part of the chat-completion helper.
- The wall clock, time of day, timezone offsets, daylight saving and the millisecond
  arithmetic with `Math.ceil` are not modelled. "Now" is a moment strictly after midnight
  of `today`, counted in whole days.
  - On 25 December the Christmas countdown therefore gives next year's.
  - A birthday falling on today is outside the window.
- JavaScript's lenient `Date` parsing is not modelled. Only the canonical `YYYY-MM-DD`
  text reads as a date; anything else is an Invalid Date (`NaN`).
- DetailsTab.LoadThenSave: stated for four-digit years only, because `String(year)` is not
  padded when saving, so a year below 1000 comes back shorter.
- `Date` objects are changed in place by `setFullYear` and `setDate` in the source. Here
  they are values: `MoveToYear` and `StepDays`.
- Negative `n` in `birthdaysInNextNDays` is not modelled; `n` is a natural number.
- SortByKey: insertion keeps ties in input order, but stability is proved only for
  entries that all share one birthday (`SortSharedKeyKeepsOrder`). For mixed keys the
  relative order of equal birthdays is not stated.
- `AuthRedirect.tsx` renders its children unchanged in every state. The model has no
  rendered tree, so this is not stated; only the navigation decision is modelled. No
  route in `App.tsx` mounts the component, so its redirect is what it would do if used.
- The urlencoded serializer works on UTF-8. Lone surrogates, which JavaScript would
  replace by U+FFFD, are not modelled: characters are code points.
- JavaScript numbers are unbounded integers here, so large-number precision loss is not
  modelled.
- Only one fetch is in flight at a time. Overlapping fetches (the last response wins)
  are a concurrency matter and are not modelled.
- The router's case-insensitive matching is not modelled. Paths
  are split on `/` with empty segments dropped.
- `maxLength` on inputs, the Google search link and the save-idea buttons of the
  suggestions tab, the URL dialogs' update handlers in `GifteeDetail.tsx`, and the
  table's sorting and filtering are presentation or are delegated to libraries; they are
  not modelled.
