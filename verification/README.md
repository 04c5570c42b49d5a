# KS Templates: shortcut matching, dedup and insertion, in Dafny

KS Templates is a browser extension that expands typed shortcuts such as `\wsd` into stored rich-text templates inside web mail editors. It has three scripts:

- **The background worker** keeps a rolling typing buffer and a cache of the template records. It runs a three-tier match against them: exact suffix, lower-cased suffix, then a unique 5-character partial hit. It guards each shortcut with a 1500 ms cooldown table and sends `insertTemplate` commands to the page.
- **The content script** keeps its own 20-character key buffer and a fixed-list detector (`\wsd`, `\lbj`). A processing flag blocks it while one insertion is in flight. Its `insertTemplate` handler replaces the last occurrence of the shortcut in the caret's text node with the template.
- **The popup** edits the template store. The store is a map keyed by shortcut.

This project models those three pieces as pure step functions over immutable state:

- Time is an explicit `now` parameter.
- The result of an asynchronous store read is a parameter: `Some(records)`, or `None` when opening or reading the database failed.
- Outgoing messages are returned as values.
- The caret's text node is a string, and the template content is an opaque string.

Modules, one per file:

| file | module | contents |
|---|---|---|
| `option.dfy` | `Opt` | `Option` and `a \|\| b` on objects |
| `text.dfy` | `Text` | `endsWith`, `includes`, `slice(-n)`, the bounded append, `lastIndexOf`, `trim`, ASCII lower-casing |
| `search.dfy` | `Search` | `Array.find` and `Array.filter` with their contracts |
| `cooldown.dfy` | `Cooldown` | the recent-insertions table: guard, record, sweep |
| `match_engine.dfy` | `MatchEngine` | the three tiers and the two `shortcutDetected` lookups |
| `background.dfy` | `Background` | the worker's state machine |
| `splice.dfy` | `Splice` | the text edit of the insertion handler |
| `content.dfy` | `Content` | the page's buffer, detector, relays, target resolution and insertion handler |
| `popup.dfy` | `Popup` | store edits, save validation, notices and the Save button's listener |

Where the extension's intended design and its code differ, the model follows the code, except for the two entries under "## Findings", where the handlers use the corrected member:

- Tier 1 returns the first suffix hit in store order, not the longest.
- The page's fallback target is the first `[contenteditable="true"]` element, not a general editability probe.
- Appending without a selection dispatches no `input` event and records nothing in the cooldown table.
- The guards test `recentInsertions[k]` for truthiness, so a recorded time of 0 reads as "never fired" (`Cooldown.Cooling`).
- The tables are plain objects, so the key `__proto__` is never stored: assigning a time to it does nothing, and reading it yields the prototype, which makes the guard's comparison false. A shortcut named `__proto__` therefore never cools (`Cooldown.ProtoKeyNeverCools`). The edit form lets such a shortcut into the store, because it skips the backslash rule.

Two of the proved properties describe behaviour that follows from the code as written:

- The page records a shortcut in its cooldown table when its own detector asks for it. The insertion handler uses that same table. So every `insertTemplate` for that shortcut arriving within 1500 ms is dropped, whichever worker path sent it (`Content.LocalDetectionDropsReply`). The worker normally replies within milliseconds, so when the template is stored under exactly the typed shortcut, `\wsd` and `\lbj` typed in a monitored editor are not expanded by those replies. The worker's replies carry the stored shortcut, however. When the template is stored under a case variant such as `\Wsd`, the reply names that variant and is not dropped (`Content.VariantReplyNotDropped`). Its last occurrence is then not found in the typed `\wsd`, so the content is inserted at the caret and the typed shortcut stays.
- No keydown or `inputChange` fires a template stored under a shortcut within 1500 ms of that shortcut being recorded, whatever the cache and the store hold (`Background.NoRefireWithinCooldown`). The exception is a shortcut named `__proto__`: a template under that name fires again on every matching input (`Background.ProtoShortcutRefires`).
- A firing does not always record the stored shortcut. The `shortcutDetected` handler records the requested key, then may fire, through its case-insensitive fallback, a record stored under a different spelling. That record's own key stays unrecorded (`Background.FallbackLeavesStoredKeyUnguarded`), so a keydown or `inputChange` can fire it again at once. A `shortcutDetected` request naming a case variant of a recently fired shortcut is likewise not refused, because its guard is on the requested key.

## Model

| member | source | states |
|---|---|---|
| `Text.AppendBounded` | background.js:201-202 | the buffer after a key is at most the cap long, is a suffix of old buffer + key, and is old + key exactly when that fits |
| `Text.KeepLast` | background.js:136 | `slice(-n)` yields a suffix of length min(n, length) |
| `Text.LastIndexOf` | content.js:245 | the result is an occurrence with no later occurrence; none exactly when the shortcut does not occur |
| `Text.Trim` | popup.js:53 | the trimmed shortcut has no leading or trailing whitespace, and it is the input with only whitespace removed before and after it |
| `Text.TrimIdempotent` | popup.js:53 | trimming an already trimmed shortcut changes nothing |
| `Search.Find` | background.js:97 | `find` returns the first element passing the test, and nothing exactly when none passes |
| `Search.Filter` | background.js:137-142 | `filter` keeps only elements passing the test, and keeps every element that passes |
| `Search.FilterCounts` | background.js:137-142 | the filter holds no element more often than the input, and holds every passing element exactly as often |
| `Search.FilterConcat` | background.js:137-142 | filtering a concatenation gives the filter of the first part followed by that of the second, so the kept elements stay in input order |
| `Search.FilterSingleton` | background.js:137-142 | the filter has exactly one element iff exactly one position qualifies, and then it is that position's element |
| `Text.Lower` | background.js:126 | lower-casing keeps the length and lowers each character on its own |
| `MatchEngine.SuffixMatch` | background.js:121-127 | tiers 1 and 2 return the first record, in snapshot order, whose shortcut ends the buffer (exactly, or after lower-casing both), and nothing iff none does |
| `MatchEngine.ExactHitIsIgnoreCaseHit` | background.js:124-127 | every exact suffix hit is also a lower-cased suffix hit |
| `MatchEngine.PartialMatch` | background.js:136-145 | tier 3 matches iff exactly one record's shortcut contains, or is contained in, the last characters, and returns that record; two or more candidates give no match |
| `MatchEngine.StoreMatch` | background.js:119-145 | tier 2 is used only when tier 1 finds nothing, tier 3 only when both find nothing and the buffer has at least 3 characters; the result is a stored record with its original casing |
| `MatchEngine.KeyLookup` | background.js:224-226 | `get` returns a record stored under exactly this key, and nothing iff there is none |
| `MatchEngine.CaseInsensitiveLookup` | background.js:231-235 | the fallback returns the first record whose lower-cased shortcut equals the lower-cased request |
| `Cooldown.Cooling` | background.js:100 | a shortcut is cooling when its recorded time is truthy and less than the window ago, and never when it is `__proto__`; the same test at background.js:149 and 214 and content.js:112 and 211-212. Its behaviour is stated by `Cooldown.RefireSuppressedIff` and `Cooldown.ProtoKeyNeverCools` |
| `Cooldown.Record` | background.js:105 | recording sets the shortcut to `now`, adds it if new, and keeps every other entry; recording `__proto__` changes nothing |
| `Cooldown.Sweep` | background.js:266-273 | the sweep keeps exactly the entries with now − t ≤ 5000, with their times unchanged |
| `Cooldown.RefireSuppressedIff` | background.js:99-103 | a shortcut other than `__proto__` recorded at t is refused at t + d exactly when d is below the window |
| `Cooldown.ProtoKeyNeverCools` | background.js:100-105 | recording `__proto__` leaves the table as it was, and the guard never refuses `__proto__` |
| `Cooldown.SweepInvisibleToGuard` | background.js:266-273 | sweeping never changes a later 1500 ms or 2000 ms cooldown decision |
| `Background.InsertCommand` | background.js:170-187 | exactly one `insertTemplate`, carrying the given content and shortcut, when the tab id is truthy; none otherwise |
| `Background.CheckForTemplateMatch` | background.js:93-168 | a cache hit is decided on the cache's first exact hit alone. Otherwise a failed read gives `StoreFailed` and no store match gives `NoMatch`, changing nothing; a store match fires exactly when it is not cooling and is suppressed otherwise. A firing match records `now`, sends the command, empties the buffer and (store path only) replaces the cache; a suppressed match changes nothing |
| `Background.OnShortcutDetected` | background.js:211-248 | a cooldown hit changes nothing. Otherwise `now` is recorded before any lookup; the exact-key record wins, then the first case-insensitive equal (sent with its stored shortcut), else nothing. Buffer and cache are untouched |
| `Background.OnMessage` | background.js:190-263 | the sender's tab is remembered; a keydown runs the match on the bounded append of the key, and an `inputChange` runs it on the received text; the buffer is left as that text unless a match fired, and a firing keydown records its shortcut at `now` unless it is `__proto__`; a `shortcutDetected` is the direct lookup step on the request |
| `Background.SweepRecent` | background.js:266-273 | the periodic sweep keeps exactly the table entries no older than 5000 ms, with their times, and changes nothing else in the worker |
| `Background.FallbackLeavesStoredKeyUnguarded` | background.js:211-238 | when the case-insensitive fallback fires a record stored under another spelling, the cooldown verdict for that record's key is the same as before the request |
| `Background.ReloadCache` | background.js:46-61 | a successful read replaces the cache wholesale, a failed one keeps it; nothing else changes |
| `Background.CacheHitIgnoresStore` | background.js:96-109 | on a cache hit the step does not depend on what the store holds |
| `Background.ReloadHealsStaleCache` | background.js:279-283 | after `templatesUpdated` reloads a snapshot, an input ending with a stored shortcut is decided on that snapshot's first exact hit |
| `Background.CacheHitInCooldownSuppressed` | background.js:97-103 | a first exact cache hit whose shortcut is still cooling is suppressed with no state change and no command |
| `Background.NoRefireWithinCooldown` | background.js:93-168 | once a shortcut other than `__proto__` was recorded at a non-zero t0, no keydown or `inputChange` before t0 + 1500 fires a template stored under it, for any cache and store |
| `Background.ProtoShortcutRefires` | background.js:97-106 | a template stored under `__proto__` fires on every `inputChange` whose first exact cache hit it is, and leaves the table unchanged |
| `Background.RedundantInputChangeSuppressed` | background.js:199-210 | once a template not named `__proto__` fired at t0, an `inputChange` whose first exact cache hit is that template, within 1500 ms, sends nothing and changes only the buffer |
| `Splice.SpliceAt` | content.js:249-269 | the text before the span and after it are kept, the content sits in the span's place, and the insertion range ends after it |
| `Splice.SpliceUndo` | content.js:249-258 | putting the removed span back over the content restores the original text |
| `Splice.InsertAtSelection` | content.js:239-269 | the last occurrence of a non-empty shortcut is replaced by the content with everything else kept; with no occurrence or no shortcut, the content is inserted at the caret. The caret is left right after the content |
| `Splice.InsertAtSelectionAsWritten` | content.js:239-269 | the same text edit; when the shortcut is found, the caret keeps its place relative to the surrounding text, so a caret inside or at the end of the shortcut is left before the content. Otherwise it ends after the content |
| `Splice.CaretBeforeTemplateAsWritten` | content.js:249-268 | as written, a shortcut typed at the end of a text node leaves the caret exactly the content's length short of the insertion range's end, before the content |
| `Splice.ShortcutRemovedOnce` | content.js:244-258 | exactly one occurrence, the last, is removed: re-inserting the shortcut in place of the content gives back the original text |
| `Splice.ExpandExample` | content.js:244-269 | `prefix\wsd` with the caret at the end becomes `prefix<b>hello</b>` with the caret after the markup |
| `Splice.ExpandExampleAsWritten` | content.js:244-269 | as written, the same expansion leaves the caret at 6, before the markup |
| `Content.CheckForLocalShortcuts` | content.js:100-137 | it fires exactly when not processing and the first listed shortcut the buffer ends with is outside the 2000 ms window; firing sets the flag, records `now` and sends one `shortcutDetected`; every other case changes nothing |
| `Content.UpdateLocalBuffer` | content.js:85-97 | other keys change nothing; a kept key leaves a buffer of at most 20 characters that is a suffix of old + key and runs the detector on it; the flag is raised only by a detection |
| `Content.OnEditorKeydown` | content.js:47-63 | while processing nothing is sent or changed; otherwise the key is relayed first, followed by exactly what the buffer update sends |
| `Content.InputTail` | content.js:70-71 | the forwarded text is a suffix of at most 20 characters of `innerText` (or `textContent` when that is empty), all of it when short and exactly its last 20 characters otherwise |
| `Content.OnEditorInput` | content.js:66-81 | while processing nothing is sent; otherwise exactly one `inputChange` with the tail |
| `Content.ReleaseProcessing` | content.js:130-132 | the timer lowers the processing flag and changes nothing else |
| `Content.EditorFocused` | content.js:38-41 | a focused editor becomes the remembered one, and nothing else changes |
| `Content.ResolveTarget` | content.js:224-228 | the focused element if editable, else the remembered editor, else the first editable element; none only when all three are missing |
| `Content.OnInsertTemplate` | content.js:207-293 | a non-empty shortcut within 1500 ms drops the command unchanged, and so does a missing target. Otherwise the buffer is emptied. With a selection the shortcut is recorded and spliced out; without one the target is focused (and remembered when it did not hold focus) and the content appended with nothing recorded |
| `Content.VariantReplyNotDropped` | content.js:207-215 | after the page's detector asks for a shortcut, a reply naming any other spelling is dropped only if that spelling was already cooling |
| `Content.LocalDetectionDropsReply` | content.js:121 | after the local detector asks for a shortcut at t0, any `insertTemplate` for it before t0 + 1500 is dropped |
| `Popup.Put` | popup.js:75-80 | `put` stores the content under the key and keeps every other record |
| `Popup.Delete` | popup.js:272-275 | `delete` removes only that key and keeps every other record |
| `Popup.Get` | popup.js:222-224 | reading a key gives a value exactly when the key is stored, and then the stored content |
| `Popup.AddSave` | popup.js:51-73 | the save is accepted iff the trimmed shortcut starts with `\` and the content is non-empty. It then puts the record and posts one notice; a rejection shows an alert and changes nothing |
| `Popup.DeleteTemplate` | popup.js:272-287 | the key is removed; one notice is posted only when reloading |
| `Popup.OpenEdit` | popup.js:219-238 | Edit on an existing record switches Save to the edit listener for it; otherwise nothing changes |
| `Popup.EditStore` | popup.js:243-249 | the new key holds the content, a renamed old key is gone, and every other record is kept |
| `Popup.EditSaveAsWritten` | popup.js:238-262 | with both fields non-empty the store is edited, one notice is posted and Save is left with no listener; otherwise nothing changes |
| `Popup.EditSave` | popup.js:238-262 | as the edit listener, but the add listener is back on Save afterwards |
| `Popup.SaveClicked` | popup.js:51 | a click runs the add listener, the edit listener or nothing, according to what is on the button; it posts at most one notice, and none only when the store is unchanged |
| `Popup.SaveClickedAsWritten` | popup.js:255-266 | the same dispatch with the edit listener as written, with the same notice rule |
| `Popup.SaveThenGet` | popup.js:75-80 | after an accepted save, reading the trimmed key returns the saved content unchanged, and every other key reads as before |
| `Popup.SaveThenGetExample` | popup.js:51-80 | saving `\ab` with `<i>x</i>` into an empty store, then reading `\ab`, gives `<i>x</i>` |
| `Popup.EditSkipsBackslashRule` | popup.js:240-249 | the edit path stores the shortcut `a`, which the add form refuses |
| `Popup.RenamePostsOneNotice` | popup.js:243-260 | a rename removes the old key, stores the new one and posts exactly one notice |
| `Popup.AddIgnoredAfterEditAsWritten` | popup.js:255-266 | as written, after an edit-save a valid add changes nothing and posts nothing |
| `Popup.AddSavedAfterEdit` | popup.js:255-266 | with the add listener restored, the valid add after an edit-save is stored and notified |

## Findings

| source | as written | input that shows it | evidently intended | confidence | as-written member | corrected member |
|---|---|---|---|---|---|---|
| content.js:249-268 | when the shortcut is found, the insertion uses a fresh range, and `collapse(false)` moves only that range; the page selection is left where deleting and splitting put it | type `prefix\wsd` with the caret at its end and expand `<b>hello</b>`: the caret is left at 6, before the markup | the caret after the inserted template, as the comment on `collapse(false)` says | medium, not executed | `Splice.ExpandExampleAsWritten` | `Splice.ExpandExample` |
| popup.js:255-266 | after an edit-save, Save's `onclick` is assigned `dataset.originalOnClick`. That dataset value is a string (the stringified edit listener), and assigning a non-function to `onclick` leaves the button with no listener | Edit a template, change it, press Save. Then fill the add form with `\x` / `hi` and press Save: nothing is stored and no notice is posted | Save goes back to adding templates | medium, not executed | `Popup.AddIgnoredAfterEditAsWritten` | `Popup.AddSavedAfterEdit` |

The rest of the model uses the corrected members: `Content.OnInsertTemplate` splices with `Splice.InsertAtSelection`, and `Popup.SaveClicked` dispatches to `Popup.EditSave`.

## Left out

- DOM plumbing is not modelled. That covers `checkEditorState`, the `MutationObserver`, listener attachment, the `data-ks-monitored` marker and the start-up timers (content.js:13-44, 139-149, 174-204). Only the focus listener's effect survives, as `Content.EditorFocused`.
- `Range` handling and `innerHTML` parsing are not modelled. The selection's start container is a text node with a string, and the template content is inserted as one opaque string, which stands for the node-by-node insertion.
- The `input` event dispatched after a splice is shown only by the `Spliced` effect. Its re-entry into the page's own input listener is not chained.
- The document-level keydown listener is left out (content.js:151-172). It relays keys from plain inputs and opens the popup on Ctrl+Shift+E, both through browser messaging.
- Browser messaging, commands, popup opening and tab activation are left out (background.js:66-91, 249-256, 275-295). Messages are values. The active tab changes only through the sender of a message.
- IndexedDB opening and transactions are not modelled. A store read is a snapshot parameter applied atomically with its handler, using the same `now`. Buffer changes between a request and its callback are not modelled, and neither is the order of the popup's notice relative to its write's commit.
- Timers are explicit events: `Content.ReleaseProcessing` stands for the 1000 ms flag release and `Background.SweepRecent` for the 10 s sweep.
- Each context (worker, page, popup) is an independent state machine. Cross-context races are not modelled.
- Text.Lower: lowers only the ASCII letters A-Z. JavaScript's `toLowerCase` applies full Unicode case mapping.
- Content.UpdateLocalBuffer: a key counts as one character when it is one Unicode scalar value. The page tests `key.length === 1` in UTF-16 code units, so a key outside the Basic Multilingual Plane, such as an emoji, is kept by the model and dropped by the page.
- Content.OnInsertTemplate: assumes the first `[contenteditable="true"]` element already carries the focus listener that monitoring attaches, so focusing it on the append path remembers it.
- Splice.InsertAtSelection: the selection is treated as collapsed at its start. A selection that spans text is not modelled.
- Text.KeepLast: counts characters as Unicode scalar values. JavaScript's `length` and `slice` count UTF-16 code units, so the models differ on text outside the Basic Multilingual Plane.
- The debug log and `getDebugLog` are diagnostics only (background.js:13-23).
- Popup rendering, preview styling, clipboard copy, the delete confirmation and the Escape key are left out (popup.js:82-217, 290-302). Ctrl+Enter is the same as `Popup.SaveClicked`.
- The popup's port to the worker is opened at start-up and is always present, so every `if (port)` is taken.
