# TransformerDive core logic in Dafny

TransformerDive is an educational web application about transformer models. It has
a React client and a small Express server. Most of it is static teaching material,
but a few pieces of sequential logic sit inside it. This project models those pieces
as pure Dafny functions and methods and proves what they promise:

- **Scroll spy** (`ScrollSpy`): the IntersectionObserver callback of the
  `useScrollSpy` hook.
  - A batch of `(target id, isIntersecting)` entries and the previously active
    section give the new active section.
  - The first registered section that is visible wins. If no registered section is
    visible, the previous value is kept.
  - Before any batch arrives, no section is active (`InitialActive`).
  - The model also covers the defaults of the observer options and the rule that
    only mounted sections are observed.
- **Attention playground** (`AttentionPlayground`): the tokenizer of
  `calculateAttention` and the per-head weight rows.
  - The tokenizer isolates `. , ! ? ; :`, splits on whitespace and drops empty
    pieces.
  - The weights are `numHeads` rows of random draws, each row divided by its sum.
  - The `visualizeAttention` guard refuses blank input.
- **Search page** (`Search`):
  - a blank query returns nothing;
  - otherwise the six fixed results are filtered by case-insensitive substring
    matching on title and snippet;
  - the per-tab type filter;
  - the four per-type counts on the tabs.
- **In-memory store** (`Storage`, on the insertion-ordered map `OrderedMaps`): the
  server's `MemStorage`.
  - Users get ids 1, 2, 3, … in creation order. `getUserByUsername` returns the
    earliest-created match.
  - Sections are kept under their slug and listed sorted by `order`.
  - `updateUserProgress` creates a record or merges into the existing one.
- **Progress validation** (`Routes`): `POST /api/progress` accepts only a JSON
  number in [0, 100] and echoes it back.
- **Step navigator** (`TransformerFlow`): a counter clamped to the steps 1 to 3.
- **Quiz card** (`QuizQuestion`): checking an answer moves the card one way, from
  unanswered to answered, and the controls then stay locked.

Shared helpers:
- `Text` covers JavaScript whitespace, `trim`, ASCII `toLowerCase` and
  `String.prototype.includes`.
- `Seqs` covers `Array.prototype.filter`, `find` and `findIndex`.
- `Wrappers` holds `Option`, which stands for `null`/`undefined`.

Effects become parameters:
- `Math.random()` values are the `draws` argument. They are reals in [0, 1), one row
  per head.
- `new Date().toISOString()` is the `now` argument.
- The browser's intersection geometry is the entry list.

The comments inside `calculateAttention` (client/src/pages/AttentionPlayground.tsx:51
and :53) speak of each token attending to the other tokens, with weights that sum to 1
for each position, which suggests an N×N pattern per head. The code builds something else:
- it makes `numHeads` rows;
- each row has one random weight per token;
- each row is normalised by its sum.

This model follows the code.

## Model

| member | source | states |
|---|---|---|
| `ScrollSpy.ResolveOptions` | client/src/hooks/use-scroll-spy.ts:34 | Each omitted option takes its default: root null (the viewport), rootMargin "0px", threshold 0.2. Supplied options pass through unchanged. |
| `ScrollSpy.DefaultOptions` | client/src/hooks/use-scroll-spy.ts:34 | With no options at all, the observer is created with the viewport, "0px" and 0.2. |
| `ScrollSpy.Observed` | client/src/hooks/use-scroll-spy.ts:67-73 | An element is observed exactly when some registered section's ref currently holds it. Sections with an unset ref are skipped. |
| `ScrollSpy.VisibleIds` | client/src/hooks/use-scroll-spy.ts:45-50 | An id is collected exactly when some entry with that target is intersecting. |
| `ScrollSpy.OrderedVisible` | client/src/hooks/use-scroll-spy.ts:54-56 | The list holds only visible ids. It is empty exactly when no registered section's id is visible. Otherwise its head is a registered section's id. |
| `ScrollSpy.OnEntries` | client/src/hooks/use-scroll-spy.ts:43-61 | If no registered section is visible, the active id is unchanged. Otherwise it becomes the id of the earliest registered section that is visible. Either way the result is the previous value or a registered id. |
| `ScrollSpy.EntryOrderIrrelevant` | client/src/hooks/use-scroll-spy.ts:45-56 | Two batches with the same set of intersecting ids give the same active section, whatever their order or repetitions. |
| `ScrollSpy.OnEntriesIdempotent` | client/src/hooks/use-scroll-spy.ts:45-60 | Delivering the same batch twice gives the same active section as delivering it once. |
| `ScrollSpy.TieBreakExample` | client/src/hooks/use-scroll-spy.ts:54-59 | With "architecture" and "embeddings" both visible and listed in reverse, the earlier-registered "architecture" wins. |
| `ScrollSpy.RetentionExample` | client/src/hooks/use-scroll-spy.ts:48 | A batch in which nothing intersects keeps the current section. |
| `Text.TrimEmptyIffAllSpace` | client/src/pages/Search.tsx:55 | `trim()` yields the empty string exactly when every character is JavaScript whitespace. |
| `Text.LowerIdempotent` | client/src/pages/Search.tsx:110-111 | Lower-casing twice is the same as lower-casing once. |
| `Text.IncludesIffOccurs` | client/src/pages/Search.tsx:110-111 | `includes` is true exactly when the needle occurs at some position of the haystack. |
| `AttentionPlayground.Tokenize` | client/src/pages/AttentionPlayground.tsx:42-45 | Every token is non-empty and whitespace-free. Each token is either a lone `. , ! ? ; :` or contains none of them. Concatenating the tokens gives the input with all whitespace removed. |
| `AttentionPlayground.TokensAsWords` | client/src/pages/AttentionPlayground.tsx:43-45 | Splitting on whitespace runs and then dropping empty pieces equals a character-by-character word splitter. |
| `AttentionPlayground.WordsGood` | client/src/pages/AttentionPlayground.tsx:43-44 | After the punctuation padding, every word the reference splitter produces is a well-formed token. |
| `AttentionPlayground.TokenizeJoin` | client/src/pages/AttentionPlayground.tsx:42-45 | Well-formed tokens joined by single spaces tokenize back to the same tokens. |
| `AttentionPlayground.WordsJoin` | client/src/pages/AttentionPlayground.tsx:44-45 | Non-empty, whitespace-free words joined by single spaces split back into the same words. |
| `AttentionPlayground.TokenizeSentence` | client/src/pages/AttentionPlayground.tsx:42-45 | Non-empty words free of whitespace and punctuation, joined by spaces and followed by one punctuation mark, tokenize to the words and then the mark on its own. |
| `AttentionPlayground.NonBlankHasToken` | client/src/pages/AttentionPlayground.tsx:78-79 | An input whose trim is non-empty yields at least one token. |
| `AttentionPlayground.DefaultTextLiteral` | client/src/pages/AttentionPlayground.tsx:67 | The nine words joined by spaces, followed by ".", are exactly the initial input "The quick brown fox jumps over the lazy dog.". |
| `AttentionPlayground.DefaultTextTokens` | client/src/pages/AttentionPlayground.tsx:67 | "The quick brown fox jumps over the lazy dog." gives ten tokens: its nine words, then ".". |
| `AttentionPlayground.Normalize` | client/src/pages/AttentionPlayground.tsx:57-58 | A row of non-negative draws keeps its length. With a positive sum it becomes a distribution: every entry is in [0, 1], the entries sum to 1, and each entry times the sum gives back its draw. With sum 0 every entry is NaN. |
| `AttentionPlayground.SumScale` | client/src/pages/AttentionPlayground.tsx:57-58 | Dividing every entry by c divides the left-fold sum by c. |
| `AttentionPlayground.ElementAtMostSum` | client/src/pages/AttentionPlayground.tsx:57-58 | In a non-negative row no entry exceeds the row's sum. |
| `AttentionPlayground.ZeroSumRow` | client/src/pages/AttentionPlayground.tsx:57 | A non-negative row that sums to 0 is all zeros. |
| `AttentionPlayground.DrawRow` | client/src/pages/AttentionPlayground.tsx:49-54 | The inner loop collects the head's draws, one per token and in token order, so the row is exactly the given draw row. |
| `AttentionPlayground.RowSum` | client/src/pages/AttentionPlayground.tsx:56 | The running total of the `reduce` from 0 equals the left-fold sum of the row. |
| `AttentionPlayground.NormalizeRow` | client/src/pages/AttentionPlayground.tsx:56-57 | Dividing each draw by the running total gives the reference normalisation `Normalize` of the row, NaN throughout when the total is 0. |
| `AttentionPlayground.CalculateAttention` | client/src/pages/AttentionPlayground.tsx:40-63 | The tokens are the tokenizer's output. There are exactly `numHeads` rows, each as long as the token list, and row h is draw row h normalised. Rows with a positive sum are distributions. |
| `AttentionPlayground.VisualizeAttention` | client/src/pages/AttentionPlayground.tsx:77-83 | Blank input leaves the page state unchanged. Otherwise the state holds data with the input's tokens (at least one) and `numHeads` rows, row h being draw row h normalised, and switches to the visualization tab. |
| `Search.TypeName` | client/src/pages/Search.tsx:15 | A result's type is one of "section", "article", "codeExample" and "concept". |
| `Search.MatchesIffRelevant` | client/src/pages/Search.tsx:109-111 | The filter keeps a result exactly when the lower-cased query occurs in its lower-cased title or snippet. |
| `Search.SearchIn` | client/src/pages/Search.tsx:53-112 | A blank query gives no results. Otherwise the results are an order-preserving subsequence of the candidates. Every result is relevant to the query, and every relevant candidate is returned. |
| `Search.GetSearchResults` | client/src/pages/Search.tsx:53-112 | Over the fixed six-item list: blank gives nothing. Otherwise a catalogue entry is returned exactly when it is relevant, in catalogue order. |
| `Search.SearchCaseInsensitive` | client/src/pages/Search.tsx:110-111 | Queries that lower-case to the same string give identical results over any candidate list. |
| `Search.GetSearchResultsCaseInsensitive` | client/src/pages/Search.tsx:110-111 | The same holds for the fixed result list. |
| `Search.TabFilter` | client/src/pages/Search.tsx:154-156 | Tab "all" shows the results unchanged. Any other tab shows, in the original order, exactly the results whose type equals the tab. |
| `Search.TypeCountsSum` | client/src/pages/Search.tsx:235-248 | The section, concept, code-example and article counts add up to the "All" count. |
| `Search.HandleSearch` | client/src/pages/Search.tsx:126-137 | A blank query changes nothing. Otherwise the results become `getSearchResults(query)`, and the query and tab are kept. |
| `Search.HandleSearchIdempotent` | client/src/pages/Search.tsx:126-137 | Searching twice for the same query is the same as searching once. |
| `Search.Mount` | client/src/pages/Search.tsx:118-144 | The page opens on tab "all" with the address's query. The search runs only for a non-empty query, so a blank query leaves no results. |
| `Search.Shown` | client/src/pages/Search.tsx:154-156 | Tab "all" shows the results as they are. Any other tab shows only stored results, and a result is shown exactly when its type equals the tab. |
| `Search.ShownAreRelevant` | client/src/pages/Search.tsx:154-156 | After a search, every result shown on any tab is relevant to the query. |
| `OrderedMaps.Set` | server/storage.ts:70 | Setting a key makes it map to the value and leaves every other key alone. A new key goes to the end of the iteration order, and an existing key keeps its place. |
| `OrderedMaps.Values` | server/storage.ts:62 | The values are listed in key-insertion order. |
| `OrderedMaps.ValuesAreEntries` | server/storage.ts:62 | A value is listed exactly when it is stored under some key. |
| `Storage.Initial` | server/storage.ts:43-51 | The constructor's empty maps and counters at 1 satisfy the store invariant. |
| `Storage.InitializeContent` | server/storage.ts:134-201 | Sample content keeps the invariant. It advances the section counter by four and the quiz counter by two, and touches neither users nor progress. |
| `Storage.SampleSections` | server/storage.ts:136-166 | The four sample sections have consecutive ids from the counter, orders 1 to 4 and the slugs introduction, architecture, embeddings and attention. |
| `Storage.SampleQuiz` | server/storage.ts:175-200 | The two sample questions have consecutive ids, with correct answers "c" and "b". |
| `Storage.AddSectionsValues` | server/storage.ts:169-172 | Adding sections with new, distinct slugs lists them after the existing ones, in the order added. |
| `Storage.FreshSections` | server/storage.ts:134-172 | On a new store, `getAllSections` is exactly the four sample sections in order 1 to 4. |
| `Storage.FreshStore` | server/storage.ts:43-53 | A new store has no users and no progress. It has four sections with ids and orders 1 to 4 and the expected slugs, and two quiz questions with ids 1 and 2. |
| `Storage.Fresh` | server/storage.ts:43-54 | The constructor, followed by the sample content, gives a store that satisfies the invariant, with no users and no progress, user and progress counters at 1, the section counter at 5 and the quiz counter at 3. |
| `Storage.GetUser` | server/storage.ts:57-59 | A user is found exactly when its id is a key of the map. In a valid store the found user carries that id, which lies between 1 and the counter. |
| `Storage.GetUserByUsername` | server/storage.ts:61-65 | With no user of that name the result is undefined. Otherwise the result is the stored user of that name with the smallest id, which is the earliest created. |
| `Storage.CreateUser` | server/storage.ts:67-72 | The new user gets the counter's id, which was free, and can be read back by `getUser`. No other user changes, and the counter advances by one. |
| `Storage.CreateUsers` | server/storage.ts:67-72 | A run of creations hands out consecutive ids in call order. Every created user can be read back, and earlier users are untouched. |
| `Storage.FreshUserIds` | server/storage.ts:48 | On a new store the users created get ids 1, 2, 3, … in call order. |
| `Storage.InsertByOrder` | server/storage.ts:92 | Inserting into a list sorted by `order` keeps it sorted and adds exactly that element. |
| `Storage.SortByOrder` | server/storage.ts:92 | The result is sorted ascending by `order` and is a permutation of the input. |
| `Storage.SortSorted` | server/storage.ts:92 | Sorting a list that is already sorted by `order` leaves it unchanged. |
| `Storage.GetAllSections` | server/storage.ts:91-93 | Every stored section appears, and nothing else. The list is sorted by `order` and is a permutation of the stored values. |
| `Storage.GetContent` | server/storage.ts:75-85 | The content's sections are the same list as `getAllSections`, and `lastUpdated` is the clock value. |
| `Storage.GetSection` | server/storage.ts:87-89 | A found section carries the requested slug and is among all sections. The result is undefined exactly when no section has that slug. |
| `Storage.GetQuizQuestions` | server/storage.ts:96-98 | In a valid store the questions have distinct ids, each between 1 and the quiz counter (exclusive), as numbered by `initializeContent`. |
| `Storage.GetUserProgress` | server/storage.ts:101-103 | A record is found exactly when the user id is a key of the map. In a valid store its progress id lies between 1 and the progress counter (exclusive). |
| `Storage.Merge` | server/storage.ts:123-127 | The merged record keeps the old id. Each field the update supplies overwrites the old value, each field it leaves out keeps the old value, and `lastAccessed` is the clock value. |
| `Storage.UpdateUserProgress` | server/storage.ts:105-131 | A user with no record gets a fresh progress id, progress 0 and empty collections before the update applies, and only then does the progress counter advance. The supplied fields overwrite, the others are kept, and `lastAccessed` is the clock value. The stored record equals the returned one, the store invariant is kept, and every other user's record is unchanged. |
| `Storage.MergeAbsorbs` | server/storage.ts:123-127 | Applying the same update to an already-updated record changes nothing. |
| `Storage.UpdateUserProgressTwice` | server/storage.ts:105-131 | Sending the same update twice with the same clock leaves the same store and record as sending it once. |
| `Storage.ProgressIdStable` | server/storage.ts:106-124 | An existing record keeps its progress id through an update. |
| `Routes.Property` | server/routes.ts:15 | `req.body.progress` is the object's field, or undefined when it is missing or the body is not an object. |
| `Routes.PostProgress` | server/routes.ts:14-23 | Status 200 is returned exactly when progress is a number in [0, 100], and the body then echoes that value with success true. Anything else gets 400 with "Invalid progress value". |
| `Routes.EndpointsAccepted` | server/routes.ts:16-22 | 0 and 100 are accepted, and 100 is echoed back. |
| `Routes.OutsideRejected` | server/routes.ts:16-17 | -0.5, 100.5, the string "50" and a missing field are rejected. |
| `TransformerFlow.StepIds` | client/src/components/TransformerFlow.tsx:10-26 | There are three steps, with ids 1, 2 and 3 in list order. |
| `TransformerFlow.Prev` | client/src/components/TransformerFlow.tsx:31-35 | "Previous" steps back by one above step 1 and does nothing at step 1 or below. From a step in [1, 3] it stays in [1, 3]. |
| `TransformerFlow.Next` | client/src/components/TransformerFlow.tsx:37-41 | "Next" steps forward by one below the last step and does nothing at or past it. From a step in [1, 3] it stays in [1, 3]. |
| `TransformerFlow.Apply` | client/src/components/TransformerFlow.tsx:94-98 | One click keeps the step in [1, 3]. The button of step k selects step id k + 1, and a button past the last step does not exist, so nothing changes. |
| `TransformerFlow.Run` | client/src/components/TransformerFlow.tsx:31-41 | Starting inside [1, steps.length], any run of previous, next and step-button clicks stays inside it. |
| `TransformerFlow.ReachableInRange` | client/src/components/TransformerFlow.tsx:29-41 | From the initial step 1, every run of clicks keeps the step between 1 and 3. |
| `TransformerFlow.NextThenPrev` | client/src/components/TransformerFlow.tsx:31-41 | From any step before the last, "next" then "previous" returns to it. |
| `TransformerFlow.PrevThenNext` | client/src/components/TransformerFlow.tsx:31-41 | From any step after the first, "previous" then "next" returns to it. |
| `TransformerFlow.EndsAreFixed` | client/src/components/TransformerFlow.tsx:31-41 | "Previous" at step 1 and "next" at step 3 do nothing. |
| `QuizQuestion.HandleCheck` | client/src/components/QuizQuestion.tsx:31-39 | With no selection, or one that names no option, nothing changes. Otherwise the question becomes answered, and correctness is the `isCorrect` flag of the first option with that id. |
| `QuizQuestion.Step` | client/src/components/QuizQuestion.tsx:49-113 | Once answered, neither selecting nor checking changes the state, because the radio group and the button are disabled. |
| `QuizQuestion.AnsweredIsFinal` | client/src/components/QuizQuestion.tsx:53-109 | From an answered state, no sequence of user actions changes anything. |
| `QuizQuestion.CorrectOnlyWhenAnswered` | client/src/components/QuizQuestion.tsx:27-38 | Starting from a state where "correct" implies "answered", as the initial state is, that stays true forever. |
| `QuizQuestion.AnsweredOnlyByMatchingCheck` | client/src/components/QuizQuestion.tsx:31-38 | The only action that answers the question is a check of a non-empty selection naming one of the options. |

## Left out

- Text.LowerChar: lower-cases ASCII `A`–`Z` only. JavaScript's `toLowerCase` also maps non-ASCII letters. Unicode case tables are out of scope, so matching differs for non-ASCII input.
- The IntersectionObserver lifecycle is not modelled: construction, `observe`, `disconnect` and re-creation when `options` change. The threshold and rootMargin geometry is computed by the browser, so each callback is given its entry list directly.
- `Math.random` is replaced by given draws, and floating point is modelled as exact reals: there is no IEEE-754 rounding. A zero-sum row's 0/0 is modelled as NaN. A row of exact reals sums to exactly 1, which floating point only approximates.
- The playground's `numHeads` is any natural number. The slider's 1–12 range is a UI detail.
- The search's 500 ms `setTimeout`, the `isSearching` spinner flag and parsing the `?q=` query from the address are not modelled. The search result is applied at once, and the initial query is a parameter of `Search.Mount`.
- Timestamps (`new Date().toISOString()`) are an opaque `now` string passed in, and `toLocaleDateString` formatting is omitted.
- `MemStorage`'s methods are modelled as synchronous functions; the Promise wrappers are dropped.
- Storage.UpdateUserProgress: a field that the update object holds with the explicit value `undefined` is modelled as absent. In JavaScript the spread would overwrite that field with `undefined`.
- Storage.UpdateUserProgress: the JSON columns (`completedSections`, `quizScores`, `sectionProgress`) are given fixed types: a list of strings and maps from strings to integers. The schema leaves them untyped.
- Routes.Property: a `null` body would make the destructuring throw. The JSON body parser never produces one, so the model treats every non-object body as having no `progress` field.
- Express routing, `GET /api/content` and `GET /api/quiz` are not modelled. Both storage methods are `async`, and these handlers pass the un-awaited Promise to `res.json`, which serialises a Promise as `{}`; so these routes answer `{}`, not the content or the quiz. The storage methods themselves (`getContent`, `getQuizQuestions`) are modelled.
- Storage.SortByOrder: the contract states that the result is sorted by `order` and is a permutation of the input, not that the sort is stable. The modelled insertion sort is stable, like JavaScript's `sort`, and in every store the model reaches the section orders are distinct, where a sorted permutation is unique.
- Presentation code is not modelled: Home.tsx, ApiDocs.tsx, UserDashboard.tsx, AttentionVisualizer.tsx, ArchitectureDiagram.tsx, MainLayout.tsx, CodeBlock.tsx, UserMenu.tsx, App.tsx and ScrollSpyContext.tsx. AuthContext.tsx, the MathJax configuration and the database schema declarations are left out too.
