# 20-day learning tracker: a Dafny model

This project models the one page of a 20-day "Python + AI" learning tracker.
The page keeps an array of 20 completion flags, one per topic card. It also
keeps a start date and the index of the motivational quote on show. The array
and the start date live in the browser's local storage. From the array the
page derives the completed count, the progress percentage, the "Current Day"
statistic and the highlighted ("current") card. The user can toggle a card,
complete the current day, or reset after a confirmation prompt. A timer
advances the quote.

Files:

- `progress.dfy` (module `Progress`): the pure derivations and the two array
  updates as functions, with lemmas about them.
- `motivation.dfy` (module `Motivation`): the quote index and its tick.
- `storage.dfy` (module `Storage`): the local storage as a class over a
  `map<string, Entry>`; an `Entry` is an already decoded value.
- `page.dfy` (module `Page`): the page component as the class `Home`. Its
  fields are the component's state and its methods are the handlers and
  effects. `Persist` is the save step the handlers share. Every handler
  keeps the invariant `Valid()`, which says a non-empty array and a set start
  date are exactly what storage holds. The array handlers are proved against
  the functions of `Progress`, and the quote tick against
  `Motivation.NextQuote`.

Behaviour of the code worth knowing:

- The page never checks the array it reads back, so the model does not assume
  it has 20 entries. A stored array of another length is loaded as it is.
  Properties that need length 20 say so in their `requires`.
- `toggleComplete` with an index at or past the end of the array extends the
  copy. JavaScript leaves holes that read as `undefined`, which is falsy;
  the model fills them with `false`. Every place that reads the array only
  tests truthiness, so the two are indistinguishable there.
- A stored start date is kept only when it is a non-empty string (`if
  (savedDate)`); an empty one is replaced by today and rewritten. A stored
  array is always taken, even an empty one, since its JSON text is never empty.
- Before the stored array is loaded, the page renders with `[]`. Then card 1
  is highlighted while "Current Day" shows 20 (`Progress.BeforeLoad`).
- Cards may be completed out of order. Then more than one card can be
  highlighted (`Progress.OutOfOrderHighlightsTwo`). With in-order completion
  and at least one open entry, exactly one card inside the array is
  highlighted, and it is the "Current Day"; when every entry is done, no card
  inside the array is (`Progress.InOrderHighlightsCurrentDay`). A card just
  past the end of a short or empty array can still be highlighted.

## Model

| member | source | states |
|---|---|---|
| `Progress.Fresh` | app/page.tsx:52 | the default array has 20 entries, all `false` |
| `Progress.CompletedCount` | app/page.tsx:114 | the count is at most the length; it equals the length iff every entry is `true`, and is 0 iff none is |
| `Progress.CompletedCountIsMultiplicity` | app/page.tsx:114 | the count equals the number of occurrences of `true` in the array, as a multiset |
| `Progress.ProgressPercentage` | app/page.tsx:115 | the percentage p satisfies 20 * p = 100 * count, the exact value of count/20*100 |
| `Progress.ProgressInRange` | app/page.tsx:114-115 | for a 20-entry array the percentage lies in [0,100]; it is 100 iff all days are done and 0 iff none is |
| `Progress.FirstIncomplete` | app/page.tsx:186 | the result is -1 iff every entry is `true`; otherwise it is an index of a `false` entry with only `true` entries before it |
| `Progress.CurrentDay` | app/page.tsx:116 | the day is 1 + the index of the first `false` entry, or 20 when there is none (including the empty array); it is at least 1 and, for at most 20 entries, at most 20 |
| `Progress.Done` | app/page.tsx:155 | reading entry `index` is truthy only inside the array, and there it is the stored flag; past the end it reads as not done |
| `Progress.IsCurrent` | app/page.tsx:155-156 | a highlighted card is not done and is card 0 or follows a done card; a card more than one past the end is never highlighted, and the card just past the end is highlighted iff it is card 0 or the last entry is done |
| `Progress.CompletedNeverCurrent` | app/page.tsx:156 | a completed card is never highlighted |
| `Progress.FirstIncompleteIsCurrent` | app/page.tsx:156 | the card at the first `false` index, which is card `currentDay`, is always highlighted |
| `Progress.InOrderHighlightsCurrentDay` | app/page.tsx:156 | when days were completed in order, a card inside the array is highlighted iff it is the first open day, i.e. iff it is the open card numbered `currentDay` |
| `Progress.OutOfOrderHighlightsTwo` | app/page.tsx:153-156 | with days 1 and 3 done, cards 2 and 4 are both highlighted while "Current Day" is 2 |
| `Progress.BeforeLoad` | app/page.tsx:40 | on the pre-load empty array card 1 is highlighted and card 2 is not, the count is 0 and "Current Day" is 20 |
| `Progress.Toggled` | app/page.tsx:99-103 | the copy has entry `index` flipped and every other entry unchanged; its length is kept when `index` is in range, else it grows to `index + 1` |
| `Progress.ToggleTwice` | app/page.tsx:99-103 | toggling the same in-range index twice gives back the original array |
| `Progress.CountAfterUpdate` | app/page.tsx:101 | overwriting one entry changes the count by the difference of the old and new flag |
| `Progress.CountConcat` | app/page.tsx:114 | the count of two arrays joined is the sum of their counts |
| `Progress.ToggleCount` | app/page.tsx:99-103 | toggling an open card (including one past the end of a short array) adds one to the count, and toggling a done card removes one |
| `Progress.CompleteFirst` | app/page.tsx:185-190 | the length is kept; the first `false` entry becomes `true` and every other entry is unchanged; with no `false` entry the array is unchanged |
| `Progress.CompleteFirstCount` | app/page.tsx:185-190 | the button adds exactly one completed day, or none when all are done |
| `Progress.CompleteFirstKeepsOrder` | app/page.tsx:185-190 | the button keeps in-order completion in order |
| `Progress.CurrentDayNeverDecreases` | app/page.tsx:185-190 | for at most 20 entries, the button never lowers "Current Day" |
| `Progress.TwoDaysDone` | app/page.tsx:114-116 | with days 1 and 2 done of 20: count 2, percentage 10, "Current Day" 3, card 3 highlighted |
| `Progress.FreshStart` | app/page.tsx:52 | on the default array: count 0, percentage 0, "Current Day" 1, card 1 highlighted |
| `Motivation.NextQuote` | app/page.tsx:64 | the next index is below 8; from a valid index it is the successor, wrapping from 7 to 0 |
| `Motivation.QuoteAfterTicks` | app/page.tsx:63-65 | after n ticks from a valid index q the index is (q + n) mod 8 |
| `Motivation.QuoteCycle` | app/page.tsx:63-65 | eight ticks return to the starting quote, and no fewer ticks do |
| `Storage.LocalStorage.SetItem` | app/page.tsx:60 | a write replaces the value under its key and keeps every other key |
| `Page.Home.constructor` | app/page.tsx:40-42 | the page mounts with an empty array, no start date and quote 0, holding the given storage |
| `Page.Home.Persist` | app/page.tsx:70-74 | the array is written under `completedTopics` exactly when it is non-empty; nothing else changes |
| `Page.Home.Load` | app/page.tsx:45-61 | the stored array is taken, or 20 `false` without one; a stored non-empty start date is kept, else `today` is used and written under `startDate`; storage ends holding both, nothing else changes |
| `Page.Home.ToggleComplete` | app/page.tsx:99-103 | the array becomes `Toggled(old, index)` and is saved; a 20-entry array stays 20 long for indices below 20; start date and quote unchanged |
| `Page.Home.ResetProgress` | app/page.tsx:105-111 | when confirmed: 20 `false`, start date `today`, both written to storage; when declined: nothing changes |
| `Page.Home.CompleteCurrentDay` | app/page.tsx:185-190 | the array becomes `CompleteFirst(old)` and is saved; with every day done, neither the state nor storage changes |
| `Page.Home.TickQuote` | app/page.tsx:64 | the quote index advances by `NextQuote` and stays below 8 |
| `Page.FirstVisit` | app/page.tsx:45-74 | on a first visit with empty storage the page shows day 1, count 0 and 0%, and storage holds exactly the start date and 20 `false` |

## Left out

- `daysSinceStart` and the next-reminder countdown (app/page.tsx:76-97, 118-120): they depend on the wall clock, local-time `setHours`, ISO date parsing with time zones and floating-point division of millisecond differences. The start date is an opaque string here.
- Timer set-up and teardown (`setInterval`, `clearInterval`): only one tick of the quote timer is modelled (`Page.Home.TickQuote`).
- `JSON.stringify` / `JSON.parse` and the browser storage itself: storage is a map of decoded entries. Since the page does no validation, `Storage.WellFormed` demands that each key holds the kind of value the page writes there.
- The `confirm()` prompt and `new Date()`: both are parameters (`confirmed`, `today`) of the methods that use them.
- JSX rendering, CSS classes and the topic-title split; the topic and quote texts themselves (only their counts, 20 and 8, matter).
- app/layout.tsx: page metadata and an HTML wrapper, with no logic.
- React's asynchronous state updates: each handler's state change and the save effect it triggers are modelled as one sequential step.
- Progress.ProgressPercentage: gives the exact value `5 * count`; the source computes `(count / 20) * 100` in IEEE doubles, which may differ from it in the last binary digits (the value only sets a CSS width).
- Progress.Toggled: models JavaScript array holes as `false`, not as `undefined` (`JSON.stringify` would save them as `null`); both are falsy wherever the page reads them.
