# Korean vocabulary page: list, filter, selection and bulk delete

This project models the controller of the admin page that lists Korean
vocabulary words (`src/pages/KoreanPage.js`). The page holds eight pieces of
hook state:

- the page cursor `page`;
- the category filter `currentCategory`;
- the "only words missing English" switch `showOnlyMissingEnglish`;
- the row selection `selectedRowKeys`;
- the delete-confirmation flag `open`;
- the rows `dataSource` and their `metadata`;
- the per-category badge `count`.

Event handlers change this state. An effect reloads the list whenever `page`,
`currentCategory` or `showOnlyMissingEnglish` changes. Two fetch functions,
`getList` and `getCounts`, apply server responses.

The project has two modules:

- `WordList` (`word_list.dfy`) holds the value-level rules as functions and
  lemmas:
  - which endpoint and `{page, limit, type}` a list request carries;
  - how `words` become keyed rows;
  - how a list response and a counts response are applied;
  - which request the effect and `refresh` issue;
  - the loop that builds the delete batch.
- `KoreanPageState` (`korean_page.dfy`) holds the class `KoreanPage`. Its
  fields are the hook state and it has one method per handler. A ghost log
  `requests` records every call to the word API: list requests as
  `(endpoint, page, limit, type)`, the counts request, and one entry per
  deleted id.

Network calls are split in two:

- **The request.** The handler, or the effect it triggers, appends the request
  to `requests`.
- **The response.** `ReceiveList` and `ReceiveCounts` apply an outcome later.
  An outcome is a status with its data, or a throw.

Nothing ties a response to the request it answers, exactly as in the code. So
the last successful response applied decides the table, even if it answers an
older query (`LastSuccessWins`, `StaleResponseScenario`). The delete batch is
one step: the flag `anyRejected` says whether one of the delete calls rejects,
so the join at line 104 fails only when that flag is set and the batch is not
empty.

The model keeps these behaviours of the code:

- Stale list responses are not discarded.
- A failed counts fetch leaves `count` as it was.
- The initial `count` keeps its total under the key `"total"`. Only a
  successful counts response introduces `"all"`.
- After a successful delete on page 1, the list is reloaded for category
  `"all"` rather than for the current category (`RefreshOnFirstPageDropsCategory`).
- The selection is not cleared on a page or filter change.
- The page is not clamped to `totalPage`.

## Model

| member | source | states |
|---|---|---|
| `WordList.BuildListRequest` | src/pages/KoreanPage.js:60-75 | limit is always 10 and the page is the one asked for; the endpoint is `getWordsOnlyEN` exactly when the switch is on and `getWords` exactly when it is off; `type` is absent exactly when the category is "all" and otherwise equals the category |
| `WordList.RequestRoundTrip` | src/pages/KoreanPage.js:60-75 | the switch, page and category can be read back from the request, so distinct query states give distinct requests |
| `WordList.EffectRequest` | src/pages/KoreanPage.js:132-134 | the effect issues a request exactly when one of page, category or switch changed; that request is for the new values with limit 10, goes to `getWordsOnlyEN` exactly when the switch is on, and has no `type` exactly when the new category is "all" |
| `WordList.RefreshRequest` | src/pages/KoreanPage.js:114-120 | refresh always leads to one request for page 1 on the endpoint the switch selects; its type is absent exactly when the page was 1 or the category is "all"; off page 1 it is the request for the current category |
| `WordList.RefreshOnFirstPageDropsCategory` | src/pages/KoreanPage.js:114-116 | on page 1 under a category filter, refresh reloads category "all", which differs from the query the page shows |
| `WordList.WithKeys` | src/pages/KoreanPage.js:82-87 | keying the words keeps their number |
| `WordList.WithKeysAt` | src/pages/KoreanPage.js:82-87 | row i is word i with `key` equal to its id |
| `WordList.WordsOfWithKeys` | src/pages/KoreanPage.js:82-87 | stripping the keys gives back the words in the same order |
| `WordList.WithKeysKeeps` | src/pages/KoreanPage.js:82-87 | keyed rows are the words in order, each keyed by its id |
| `WordList.ApplyListOutcome` | src/pages/KoreanPage.js:77-95 | a 200 response replaces the rows by the response's words in order, each keyed by its id, and the metadata by exactly its `totalCount` and `totalPage`; any other status or a throw leaves rows and metadata unchanged |
| `WordList.ApplyKeepsKeys` | src/pages/KoreanPage.js:82-88 | applying any list outcome keeps every row keyed by its id |
| `WordList.LastSuccessWins` | src/pages/KoreanPage.js:77-92 | after any sequence of list outcomes, the view is the one the last successful outcome gives, whichever request it answered |
| `WordList.NoSuccessKeepsView` | src/pages/KoreanPage.js:93-95 | if no outcome in a sequence succeeds, the view is unchanged |
| `WordList.ApplyCountsOutcome` | src/pages/KoreanPage.js:284-297 | a 200 counts response sets basic, daily_conversation and topik_word, and "all" to their sum, with no other key; anything else leaves `count` unchanged |
| `WordList.BuildDeleteBatch` | src/pages/KoreanPage.js:99-102 | the batch holds one delete call per selected key, in selection order |
| `KoreanPageState.KoreanPage.DeleteEnabled` | src/pages/KoreanPage.js:462 | the delete button is enabled exactly when the selection is non-empty |
| `KoreanPageState.KoreanPage.constructor` | src/pages/KoreanPage.js:30-47 | initial state is page 1, category "all", switch off, empty selection and rows, metadata (0, 1), closed dialog and the initial counts; the mount effects issue the page-1 "all" list request, then the counts request |
| `KoreanPageState.KoreanPage.ShowModal` | src/pages/KoreanPage.js:49-51 | opens the confirmation and changes nothing else |
| `KoreanPageState.KoreanPage.HideModal` | src/pages/KoreanPage.js:52-54 | closes the confirmation and changes nothing else |
| `KoreanPageState.KoreanPage.GetList` | src/pages/KoreanPage.js:60-75 | issues exactly one list request, built from the current switch and the given page and category (defaults 1 and "all") |
| `KoreanPageState.KoreanPage.ReceiveList` | src/pages/KoreanPage.js:77-95 | rows and metadata become the result of applying the outcome; nothing else changes and rows stay keyed by id |
| `KoreanPageState.KoreanPage.GetCounts` | src/pages/KoreanPage.js:282-284 | issues the counts request |
| `KoreanPageState.KoreanPage.ReceiveCounts` | src/pages/KoreanPage.js:286-297 | `count` becomes the result of applying the outcome and keeps "all" equal to the sum whenever present |
| `KoreanPageState.KoreanPage.RunFetchEffect` | src/pages/KoreanPage.js:132-134 | issues one list request for the current page and category exactly when page, category or switch differs from before |
| `KoreanPageState.KoreanPage.OnChangeCategory` | src/pages/KoreanPage.js:276-280 | choosing the active category changes nothing; another one becomes current, page becomes 1 and one request for it is issued |
| `KoreanPageState.KoreanPage.HandleMissingEnglishSwitch` | src/pages/KoreanPage.js:304-307 | the switch takes the new value and page becomes 1; one request is issued unless both were already so |
| `KoreanPageState.KoreanPage.OnChangePage` | src/pages/KoreanPage.js:496-498 | page becomes the chosen value with no clamping; one request is issued if it differs |
| `KoreanPageState.KoreanPage.OnSelectChange` | src/pages/KoreanPage.js:122-125 | the selection becomes the given keys; nothing else changes |
| `KoreanPageState.KoreanPage.Refresh` | src/pages/KoreanPage.js:114-120 | page becomes 1 and exactly the refresh request for the previous query state is issued |
| `KoreanPageState.KoreanPage.OnDelete` | src/pages/KoreanPage.js:98-112 | one delete call per selected key in order; when no call rejects, or the selection is empty, the notice reports the selection size, the selection empties, the dialog closes and the refresh request follows; when a call of a non-empty batch rejects nothing else changes |

## Left out

- Rendering: the table columns, the tag colours, the badges (including the
  `count.all || "0"` fallback), and the radio, switch and pagination layout.
  They are presentation only.
- Navigation to the register and edit routes. It is a router call with no
  page state.
- The word API module `../api/word` is not part of this model. Its four calls
  are represented only by the requests logged and the outcomes passed in.
- Concurrency. In-flight requests are not tracked. A response is applied
  whenever `ReceiveList` or `ReceiveCounts` is called. Nothing records which
  request it answers, and the code checks no such thing either.
- OnDelete: the per-call results of `Promise.all` are reduced to one flag,
  whether any call rejects. The
  stale values a suspended `onDelete` closure would see after the await are
  not modelled, because the batch is treated as one step.
- `console.log`, `console.error` and the toast. Only the number in the
  success notice is kept, in the ghost field `deletedNotices`.
- JavaScript's dynamic typing. Counts are integers and ids are integers.
  Malformed response bodies that would throw are covered by the throw outcome.
