# GrameenConnect portal core in Dafny

This project models the stateful core of the GrameenConnect rural portal, a React application. It covers five pieces:

- **Download simulator** (App.tsx). Each resource moves through `idle`, `downloading` and `downloaded`. `startDownload` registers an interval. Each firing of the interval adds 10 to the progress. At 100 the item becomes `downloaded`, the interval is cleared and the record is written to the store. `cancelDownload` and `deleteDownload` put the item back to idle at 0.
- **Load merge, search filter and prepend** (App.tsx). Stored progress is merged onto the catalog of a language. The portal's search filter is a pure predicate. Discovered web items are put in front of the list.
- **Local database** (services/db.ts). It holds a user table, a session slot and the progress table `userId -> resourceId -> record`.
- **Web-resource parser and system instruction** (services/geminiService.ts). The parser reads the search response text: it splits it on `---`, drops short chunks, extracts the `Title:`, `Description:`, `Category:` and `Link:` lines and builds idle items. `getSystemInstruction` builds a string keyed by language.
- **Sign-in / sign-up form** (components/AuthModal.tsx). It validates the fields, runs the submit sequence and toggles the mode.

How the modules map to the source:

| module (file) | source | form |
|---|---|---|
| `Types` (types.dfy) | types.ts | datatypes |
| `JsText` (js_text.dfy) | the JavaScript string built-ins the core calls | functions and lemmas |
| `Store` (store.dfy) | services/db.ts | class `Database`, with pure functions that specify its progress table |
| `Downloads` (downloads.dfy) | the list transitions of App.tsx | functions and lemmas |
| `Portal` (portal.dfy) | the `App` component of App.tsx | class `App` |
| `WebResources` (web_resources.dfy) | services/geminiService.ts | a parser method with a loop, plus the functions that specify it |
| `AuthForm` (auth_form.dfy) | components/AuthModal.tsx | class `AuthModal` |

Other modelling choices:

- **Timers.** They are explicit in `App`. `timers` is the `timers.current` record from resource id to the last handle registered for it. `intervals` maps each live handle to what its callback captured: the resource id and the user signed in when the download started. `App.Tick(handle)` is one firing of the interval.
- **Inputs.**
  - `Date.now()` is a parameter. In `register` it is `now`. In the parser it is `clock`, read once per chunk.
  - The response text of the search call is a parameter.
  - How the sign-in or sign-up callback settles is a parameter of `AuthModal.Submit`.
  - The password hash (`btoa`) is an abstract function that the database requires to be injective.
- **String semantics.** These follow JavaScript:
  - `trim` uses the ECMAScript whitespace set.
  - `length` counts UTF-16 code units.
  - `split('---')` splits at the leftmost non-overlapping occurrences.
  - `/Key:\s*(.+)/` takes the leftmost match, with the backtracking of `\s*` modelled exactly.
  - Numbers are rendered as decimal digits.

Behaviour of the code worth noting, which the model keeps as written:

- A second `startDownload` on a resource that is already downloading is not rejected. The new interval replaces the handle in `timers`, the old interval stays live, and both advance the same item.
- A firing that finds its item gone or no longer downloading changes nothing and does not clear its interval.
- Malformed stored JSON is not caught by services/db.ts, so reads do not fall back to empty data.

## Model

| member | source | states |
|---|---|---|
| Store.FindUser | services/db.ts:37-59 | `users.find`: the first index whose email matches (and whose hash matches, for login); None exactly when no user matches |
| Store.Sanitize | services/db.ts:83-86 | `sanitizeUser`: putting the stored hash back on the result gives back the stored user, so only the hash is dropped |
| Store.UserProgress | services/db.ts:89-92 | a user without records reads as the empty map; otherwise the user's own records |
| Store.Overlay | services/db.ts:101-105 | `{...previous, ...patch, resourceId}`: each field comes from the patch when given and from the previous record otherwise; `resourceId` is always the key |
| Store.WriteProgress | services/db.ts:94-108 | the write creates the user's entry if missing, overlays the patch on that one record, and keeps every other user and every other resource of the same user |
| Store.WriteKeepsKeysMatch | services/db.ts:101-105 | after a write, every record is still stored under its own resource id |
| Store.WriteThenRead | services/db.ts:89-108 | writing (downloaded, 100) and then reading the user gives `r -> {r, downloaded, 100}` |
| Store.WriteCompleteIdempotent | services/db.ts:94-108 | writing the same complete record twice leaves the table as one write does |
| Store.WriteKeepsRecordsConsistent | services/db.ts:94-108 | writing a consistent status/progress pair keeps every stored record consistent |
| Store.LoginAfterRegister | services/db.ts:28-66 | with an injective `hashPassword`, after a user is appended under a new email, a login with that email matches iff the password is the one registered |
| Store.Database.constructor | services/db.ts:18-26 | empty storage: no users, no session, no progress |
| Store.Database.Register | services/db.ts:33-54 | a taken email fails with "User with this email already exists." and changes nothing; otherwise exactly one citizen is appended, with id `now` and the password's hash, the session holds that user without the hash, and the same user is returned |
| Store.Database.Login | services/db.ts:56-67 | succeeds iff some stored user has the email and the hash of the password, and then returns that user and puts it in the session; otherwise fails with "Invalid email or password." and leaves the session unchanged |
| Store.Database.Logout | services/db.ts:69-71 | the session slot is empty afterwards, so `getSession` returns null |
| Store.Database.GetSession | services/db.ts:73-76 | returns the session slot |
| Store.Database.CreateSession | services/db.ts:78-81 | the session holds the user without its hash |
| Store.Database.GetUserProgress | services/db.ts:89-92 | the user's records, or empty when there are none; each is keyed by its own resource id |
| Store.Database.SaveUserProgress | services/db.ts:94-108 | the progress table becomes `WriteProgress` of the old one; users and session are unchanged |
| Downloads.FindIndex | App.tsx:925 | `prev.find`: the first item with the id, or None when no item has it |
| Downloads.Started | App.tsx:920 | `startDownload`'s rewrite: same ids in the same order; each item with the id becomes downloading at 0 with every other field kept; every other item is unchanged |
| Downloads.Reset | App.tsx:945-954 | the rewrite of cancel and delete: same ids in the same order; each item with the id becomes idle at 0 with every other field kept; every other item is unchanged |
| Downloads.UpdateWhere | App.tsx:920-947 | `prev.map(r => r.id === id ? f(r) : r)`: same length and order, items with other ids unchanged, items with the id rewritten |
| Downloads.Ticked | App.tsx:924-939 | one firing keeps the length, order and ids of the list |
| Downloads.TickNoOpKeepsList | App.tsx:925-926 | when the item is missing or not downloading, a firing returns the list unchanged |
| Downloads.TickedFrame | App.tsx:924-939 | a firing changes no item with another id |
| Downloads.TransitionsKeepItemsOk | App.tsx:920-947 | start, firing and reset keep every item consistent (idle at 0, downloading at a multiple of 10 below 100, downloaded at 100) and keep ids unique |
| Downloads.ResetIdempotent | App.tsx:945-954 | resetting an item twice is the same as resetting it once |
| Downloads.TickFrom | App.tsx:928-938 | from downloading at 10m, one firing reaches downloading at 10(m+1) below 100, or downloaded at 100, and changes nothing else |
| Downloads.TicksFromStart | App.tsx:920-939 | after a start and k ≤ 10 firings the item is downloading at 10k (downloaded at 100 when k = 10) and nothing else changed; the 10th firing is the one that completes, and later ones are no-ops |
| Downloads.TenTicksDownload | App.tsx:920-939 | from a fresh start exactly 10 firings reach downloaded; the progress after k firings is 10k |
| Downloads.Merge | App.tsx:866-874 | same length, order and ids as the catalog; an item takes the stored status and progress iff a record exists for its id; all other fields are unchanged |
| Downloads.MergeKeepsItemsOk | App.tsx:866-874 | consistent records merged onto a consistent catalog give a consistent list with unique ids |
| Downloads.MergeIdempotent | App.tsx:866-874 | merging the same records again changes nothing |
| Downloads.MatchesSearch | App.tsx:530-531 | an item matches iff the lower-cased query occurs at some position of the lower-cased title or of the lower-cased description |
| Downloads.Shown | App.tsx:530-533 | a shown item always matches the search; in all-resources mode shown iff it matches; in downloaded-only mode shown iff it matches and is downloaded; with an empty query only the mode decides |
| Downloads.Filtered | App.tsx:529-534 | an order-preserving sublist of shown items that keeps every shown item as many times as the list holds it and drops every other |
| Downloads.DownloadedOnlyShowsDownloaded | App.tsx:532 | in downloaded-only mode every item shown is downloaded |
| Downloads.EmptyQueryShowsAll | App.tsx:529-534 | an empty query in all-resources mode shows the whole list |
| Portal.App.constructor | App.tsx:832-864 | mounting: English, landing page, no timers; with a stored session, the user and their progress merged onto the English catalog; otherwise the raw catalog |
| Portal.App.LoadUserProgress | App.tsx:866-874 | the list becomes the user's stored progress merged onto the catalog of the language |
| Portal.App.SetLanguage | App.tsx:854-864 | a new language re-runs the session effect: with a session, that user's progress on the new catalog; without one, the raw catalog |
| Portal.App.HandleLogin | App.tsx:876-882 | a login succeeds iff some stored user has the email and the password's hash; it then returns and signs in that stored user without the hash, loads that user's progress and opens the admin dashboard for an admin, the citizen portal otherwise; a failed login reports "Invalid email or password." and changes nothing in the portal |
| Portal.App.HandleRegister | App.tsx:884-889 | a taken email fails with the duplicate message and changes neither the portal nor the user table or session; otherwise exactly one citizen with id `now` and the password's hash is appended to the user table, the same user without the hash is returned and signed in, their progress is loaded and the citizen portal is opened |
| Portal.App.HandleLogout | App.tsx:891-897 | no user or session, the landing page, and the raw catalog of the current language; timers keep running |
| Portal.PrependDiscovered | App.tsx:899-904 | `[...newItems, ...prev]`: the items parsed from the response go in front of the list, which follows unchanged; an absent or empty response leaves the list as it was; the result is consistent whenever the list is, and free of duplicate ids whenever the list is and holds none of the ids the clock gives |
| Portal.App.HandleDiscoverOnline | App.tsx:899-904 | the list becomes the items parsed from the response followed by the old list; the portal stays consistent and nothing else changes |
| Portal.App.StartDownload | App.tsx:914-943 | with no user only the auth modal opens and nothing else changes; with a user only that item goes to downloading at 0, a fresh interval capturing the id and user replaces the handle in `timers`, and nothing is written to the store |
| Portal.App.Tick | App.tsx:923-940 | the list becomes `Ticked` of the old one; on completion the handle registered under the id is cleared and (downloaded, 100) is written for the captured user; otherwise no interval is cleared and nothing is written |
| Portal.App.CompleteDownload | App.tsx:929-934 | the completing firing: the handle registered under the id is cleared, the list becomes `Ticked` of the old one (the item at 100 and downloaded), and (downloaded, 100) is written for the captured user; users, session and every other piece of portal state are unchanged |
| Portal.App.ResetDownload | App.tsx:945-954 | the part cancel and delete share: the list becomes `Reset` of the old one; (idle, 0) is written for the signed-in user, and nothing is written without one; timers, users and session are unchanged |
| Portal.App.CancelDownload | App.tsx:945-949 | the interval under the id, if any, is cleared; the item is reset to idle at 0; (idle, 0) is written only when a user is signed in |
| Portal.App.DeleteDownload | App.tsx:951-954 | as cancel, but no interval is cleared |
| WebResources.GetSystemInstruction | services/geminiService.ts:14-32 | starts with the persona sentence, ends with the goal sentence, and the middle is the language's reply sentence (English by default) |
| WebResources.ReplyInstructionDistinct | services/geminiService.ts:17-27 | different languages get different reply sentences |
| WebResources.KeepLong | services/geminiService.ts:124 | kept chunks are a sublist in the original order, each with trimmed UTF-16 length above 10, and every such chunk is kept as many times as it occurs |
| WebResources.CategoryByFirstKeyword | services/geminiService.ts:134-139 | `CategoryOf`: Agriculture iff the value contains `Agri`; Finance iff it lacks `Agri` and contains `Fin`; Healthcare iff it lacks both and contains `Health`; Education iff it lacks those three and contains `Edu`; Government iff it contains none of the four |
| WebResources.CategoryNamesMapBack | services/geminiService.ts:134-139 | each category's own name maps back to that category, and "Government" (also the fallback when the Category line is missing) maps to Government |
| WebResources.WebIdInjective | services/geminiService.ts:142 | `web-<time>-<index>` ids are equal only for the same time and index |
| WebResources.LinkOf | services/geminiService.ts:150 | no Link line gives no link; a present link is the trimmed Link value, never "NA", without surrounding whitespace; a Link line gives no link only when its trimmed value is "NA" |
| WebResources.ParseChunk | services/geminiService.ts:127-152 | a chunk yields an item iff both Title and Description match; its title and description are the trimmed captures, its category is `CategoryOf` the trimmed Category capture or Government without one, its link is `LinkOf` the Link capture; it is idle at 0, has the Globe icon, is not available offline, and has the id for its index and time |
| WebResources.ParseChunkBody | services/geminiService.ts:127-152 | the `forEach` callback on one chunk, with its category if-chain, pushes exactly the item `ParseChunk` describes |
| WebResources.KeptChunksAreLongPieces | services/geminiService.ts:124 | `KeptChunks`, the `split('---')` followed by the length filter: an order-preserving sublist of the pieces, all long enough, keeping each long piece as many times as the split gives it and dropping every other |
| WebResources.ParsedItemsWellFormed | services/geminiService.ts:126-155 | at most one item per kept chunk; every item is idle at 0, with the Globe icon, not available offline and an id of the form `web-<time>-<index>`; no two ids are equal |
| WebResources.ParseChunks | services/geminiService.ts:126-153 | the `forEach` loop pushes exactly the items `ParsedItems` describes, in chunk order |
| WebResources.ParseWebResources | services/geminiService.ts:119-155 | absent or empty text gives no items; otherwise the kept chunks are parsed in order, giving at most one item each; every item is idle at 0 with the Globe icon, not available offline, and has a web id, no two the same |
| JsText.Trim | services/geminiService.ts:124 | `trim`: the result is `s[a..b]`, where `a` is the first non-whitespace position and everything before `a` and from `b` on is whitespace; it is empty exactly when the text is all whitespace, and otherwise starts and ends with a non-whitespace character |
| JsText.SplitDashes | services/geminiService.ts:124 | `split('---')` gives at least one piece, and the text starts with the first piece |
| JsText.SplitLeftmost | services/geminiService.ts:124 | the split takes the leftmost separator: the first piece holds no `---`; a single piece is the whole text; otherwise `---` follows the first piece, no `---` starts at any earlier position (not even one overlapping the first piece's end), and the other pieces are the split of the rest |
| JsText.SplitJoinRoundTrip | services/geminiService.ts:124 | joining the pieces of `split('---')` with `---` gives back the text |
| JsText.SplitPiecesHaveNoSeparator | services/geminiService.ts:124 | no piece of the split contains `---` |
| JsText.IncludesIffOccurs | services/geminiService.ts:136-139 | `includes` holds iff the substring occurs at some position |
| JsText.CaptureAt | services/geminiService.ts:127-130 | what `\s*(.+)` captures after the key: when a character other than whitespace follows, the rest of its line from that character; when only whitespace follows, no capture if it is all line terminators, otherwise the last whitespace character that is not a line terminator (the engine's backtracking) |
| JsText.MatchLine | services/geminiService.ts:127-130 | a capture of `Key:\s*(.+)` is non-empty and contains no line terminator |
| JsText.MatchLineLeftmost | services/geminiService.ts:127-130 | the search fails iff the key matches nowhere; otherwise it returns the capture at the leftmost position where the key matches |
| JsText.MatchLineCapturesRestOfLine | services/geminiService.ts:127-130 | when the leftmost match of the key is followed by text other than whitespace, the capture runs from the first such character to the end of its line |
| JsText.MatchLineFindsLabel | services/geminiService.ts:127-130 | a key followed on its line by a non-whitespace character always matches |
| JsText.DecimalRoundTrip | services/db.ts:42 | the decimal rendering of a number reads back as that number |
| AuthForm.MissingFields | components/AuthModal.tsx:97-104 | the form is incomplete iff the email or the password is empty, or, in sign-up mode, the name or the village is |
| AuthForm.SignInIgnoresProfileFields | components/AuthModal.tsx:97-104 | in sign-in mode the name and village are not checked |
| AuthForm.SignUpIsStricter | components/AuthModal.tsx:97-104 | sign-up accepts a form iff sign-in accepts it and the name and village are non-empty |
| AuthForm.FailureText | components/AuthModal.tsx:118 | the error shown after a failure is the thrown message, or the fallback when that message is empty; never empty |
| AuthForm.AuthModal.constructor | components/AuthModal.tsx:15-23 | sign-in mode, not loading, four empty fields, no error |
| AuthForm.AuthModal.Submit | components/AuthModal.tsx:92-122 | an incomplete form shows the localized message and calls nothing; a complete form calls `onRegister` in sign-up mode and `onLogin` otherwise, exactly once; on success the modal closes and the form is emptied; on failure the message is shown and the form kept; loading is off at the end |
| AuthForm.AuthModal.ToggleMode | components/AuthModal.tsx:224-227 | the mode flips and the error is cleared; the fields are kept |

## Left out

- Rendering is not modelled: JSX, the translation tables, `LandingPage`, `Header`, `AdminDashboard`, `LearningPage`, the charts and the chat assistant.
- The text of `RESOURCES_BY_LANG` is not modelled. The catalog is a parameter of `App`, required to be consistent and free of duplicate ids.
- The generative-AI SDK calls are not modelled: recommendations, chat, lessons, and the search call inside `fetchWebResources` together with its error path that returns `[]`. The parser takes the response text as input.
- `localStorage` and JSON are not modelled. The database keeps typed fields. The `delay(800)` and `async`/`await` are sequential steps.
- Real time and `setInterval` are not modelled. Firings are explicit `App.Tick` calls, in any order the caller chooses.
- The network listener (`isOffline`), `isDiscovering`, `activeLesson` and the learning page are UI state with no logic to verify.
- `hashPassword` is not modelled as Base64. It is an abstract injective function, and `btoa`'s rejection of non-Latin-1 input is not modelled.
- MatchesSearch: `toLowerCase` is modelled on ASCII letters only; other letters are compared as written.
- Store.Database.SaveUserProgress: requires that a patch leaving out a field is applied to an existing record. The source would store an incomplete record otherwise. Every caller in the portal passes both fields.
- Portal.App.HandleDiscoverOnline: requires that the ids built from the clock readings are not already in the list. This holds when `Date.now()` differs from any earlier discovery and no catalog id has the form `web-<time>-<index>`. The source does not check it.
- Store.Database.Register: the id is the decimal rendering of `now`. Two registrations in the same millisecond would share an id; the source does not guard against that either.
- The `isOpen` gate of the auth modal and the disabled submit button while loading are rendering concerns and are not modelled.
