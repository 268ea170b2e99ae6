# SnapBridge feed core, modelled in Dafny

SnapBridge is a client-only demo page. It shows a scrollable feed of video posts and lets a visitor sign in under a name kept in the browser's local storage. It can also upload a local video file as a session-only post, prepend a set of sample "learning" videos, and clear the feed. This project models the logic under that page, all of it in `script.js`:

- **Feed store** (`feed.dfy`, `app.dfy`). The in-memory feed (`runtimeFeed`) is a sequence of `Post` records `{src, user, caption, persistent}`, and local storage is a map from keys to stored values. The class `App.SnapBridge` holds the feed, the signed-in user and the store. Its methods are the page's actions: `persistFeed`, `loadPersisted`, `loadInitialFeed`, `seedLearning`, `doUploadFile` and `clearFeed`. The pure functions in `Feed` specify them:
  - `PersistentOnly`: the part of a feed that gets written.
  - `ReadFeed`: what a read returns.
  - `InitialFeed`: what a page load builds.
  - The object's `Valid()` says that the session the page shows is the one a reload would read back.
  - `InSync` says that storage holds exactly the persistent part of the feed. `loadInitialFeed` establishes it (when storage holds no transient record), and every later action keeps it.
- **Session** (`app.dfy`). `doSignIn` and `doSignOut` change the current name and the `snapbridge_user` key. Form fields are trimmed with JavaScript's `String.prototype.trim`, which is modelled in `text.dfy`.
- **HTML escaper** (`html.dfy`). `escapeHtml` replaces each of `& < > " '` with its entity. A reference decoder `Unescape` is proved to be its left inverse.
- **Autoplay selector** (`autoplay.dfy`). This is the first loop of `playVisibleVideo`: it picks the post with the greatest positive share of its own height that is visible in the viewport, the first such post on ties. The second loop plays that post's video and pauses all the others. The loop works on integer pixels and compares fractions by cross-multiplication. Its contract is stated over the same fractions as real numbers, and `CrossMultiply` connects the two.

Browser facilities become inputs:
- A confirmation dialog is a `bool`.
- A form field is a `string`.
- The picked file is a flag plus the URL `URL.createObjectURL` would return.
- The viewport height and the post rectangles are parameters.
- An `alert` for a rejected action is a `false` result.

Two consequences of the code are worth knowing:
- Persisting a feed that has no persistent record and then loading the page yields the three samples, not `[]` (`Feed.InitialAfterPersist`).
- Clearing stores the empty list rather than removing the key, so the next page load reseeds the samples (`App.SnapBridge.ClearFeed`).

## Model

| member | source | states |
|---|---|---|
| `Text.IsWhite` | script.js:206-207 | Holds exactly for the white-space and line-terminator characters that `trim()` cuts. |
| `Text.Trim` | script.js:206-207 | `trim()` removes only white characters, and only at the two ends. The result is empty exactly when the input is all white space; otherwise it neither starts nor ends with a white character. |
| `Text.TrimIdempotent` | script.js:206-207 | Trimming an already trimmed value changes nothing. |
| `Text.TrimKeepsClean` | script.js:246 | A string with no white space at either end is returned unchanged by `trim()`. |
| `Html.Special` | script.js:153 | Holds exactly for the five characters of the class `/[&<>"']/`. |
| `Html.Entity` | script.js:153 | Each of the five special characters becomes an entity starting with `&`; every other character stands for itself. |
| `Html.Escape` | script.js:153 | The output is never shorter than the input and contains no raw `<`, `>`, `"` or `'`. |
| `Html.EscapeHtml` | script.js:153 | A falsy argument gives `""`. For a string, decoding the output gives the input back. |
| `Html.UnescapeEscape` | script.js:153 | Decoding the five entities inverts the escaper on every string. |
| `Html.EscapeInjective` | script.js:153 | Two different strings never escape to the same markup. |
| `Html.EscapeConcat` | script.js:153 | The global replace acts on each character independently, so escaping distributes over concatenation. |
| `Html.EscapeUnchangedIff` | script.js:153 | A string is returned as it is if and only if it contains none of `& < > " '`. |
| `Feed.LearningSamples` | script.js:27-46 | `LEARNING_SAMPLES` is three records, in the source's order, all persistent. |
| `Feed.PersistentOnly` | script.js:15 | The filter keeps only persistent records, never lengthens the feed, and keeps every persistent record of the feed. |
| `Feed.PersistentOnlyConcat` | script.js:15 | Filtering a concatenation is concatenating the filtered parts, so the order is preserved. |
| `Feed.AllPersistentKept` | script.js:15 | A feed of persistent records only is written out whole and in order. |
| `Feed.AllTransientWritesNothing` | script.js:15 | A feed of transient records only writes the empty list. |
| `Feed.PersistentOnlyIdempotent` | script.js:15 | Filtering the written feed again changes nothing. |
| `Feed.SamplesPersist` | script.js:27-46 | All three learning samples are persistent, so persisting them writes them unchanged. |
| `Feed.SeedPersist` | script.js:237-240 | After seeding, storage receives the samples followed by the old feed's persistent records. |
| `Feed.TransientInvisible` | script.js:250-251 | A transient upload at the front of the feed does not change what would be persisted. |
| `Feed.ReadFeed` | script.js:18-24 | A missing key or a value that is not a stored record list reads as `[]`; a non-empty read is exactly the record list stored under `snapbridge_feed`. |
| `Feed.InitialFeed` | script.js:224-233 | The feed a page load builds is never empty: the persisted list when it is non-empty, otherwise the three samples. |
| `Feed.StoredUser` | script.js:50 | The name read at page load is never empty; it is the text stored under `snapbridge_user`, and a missing, non-text or empty value means the guest. |
| `Feed.ReloadAfterPersist` | script.js:13-23 | `persistFeed` followed by `loadPersisted` returns exactly the persistent subsequence, and the store then holds no transient record. |
| `Feed.InitialAfterPersist` | script.js:224-233 | `persistFeed` followed by `loadInitialFeed` gives the persistent subsequence, or the samples when that subsequence is empty. |
| `Feed.ReadFailureIsEmpty` | script.js:18-24 | A missing key, an empty text or an unparseable feed value reads as `[]`, and a page load then seeds the samples. |
| `Feed.FeedWriteKeepsUser` | script.js:16 | Writing the feed key never changes the session a reload would read. |
| `Feed.UserWriteKeepsFeed` | script.js:210 | Writing the session key never changes the stored feed. |
| `Feed.UserRemoveKeepsFeed` | script.js:219 | Removing the session key never changes the stored feed. |
| `App.SnapBridge.constructor` | script.js:49-50 | At page load the feed is empty and the user is the non-empty name stored under `snapbridge_user`, or the guest. |
| `App.SnapBridge.PersistFeed` | script.js:13-17 | Only the feed key changes, and it receives the persistent subsequence of the given feed, in order. |
| `App.SnapBridge.LoadPersisted` | script.js:18-24 | Returns the stored record list; a missing key or an unreadable value yields `[]` instead of an error. |
| `App.SnapBridge.LoadInitialFeed` | script.js:224-235 | An empty read makes the feed the three samples and stores exactly those. Otherwise the feed equals the persisted list and storage is untouched. When storage held only persistent records, storage then mirrors the feed's persistent part. |
| `App.SnapBridge.SeedLearning` | script.js:237-242 | The feed becomes the samples followed by the old feed, three records longer. Storage then holds its persistent subsequence (the samples followed by the old persistent records). |
| `App.SnapBridge.DoUploadFile` | script.js:244-254 | With no file, nothing changes. With a file, a transient record is put first, with the object URL, the user name or `Guest`, and the trimmed caption or `User upload`. Storage is never written, and storage/feed agreement is kept. |
| `App.SnapBridge.ClearFeed` | script.js:266-271 | Declined: nothing changes. Confirmed: the feed is empty and the stored feed is the empty list whatever was there before, so a reload seeds the samples again. |
| `App.SnapBridge.DoSignIn` | script.js:205-214 | A blank trimmed username changes nothing. Otherwise the user becomes the trimmed display name if non-empty, else the trimmed username, and is stored under `snapbridge_user`. The feed key is untouched. |
| `App.SnapBridge.DoSignOut` | script.js:216-221 | Declined: nothing changes. Confirmed: the user is the guest and `snapbridge_user` is removed; nothing else in storage changes. |
| `App.SignInName` | script.js:209 | The name a sign-in records is already trimmed, and it is empty only when both the username and the display name are blank. |
| `App.UploadCaption` | script.js:246 | An upload caption is never empty and is already trimmed. |
| `App.SignInNameClean` | script.js:205-209 | An accepted sign-in records a non-empty, already trimmed name: the trimmed display name when it is non-blank, else the trimmed username. |
| `App.UploadCaptionClean` | script.js:246 | An upload caption is never empty: it is the trimmed input when that is non-blank, else `User upload`. |
| `Autoplay.Height` | script.js:161-162 | `rect.height` is `bottom - top`. |
| `Autoplay.Rects` | script.js:156-160 | One rectangle per rendered post, in page order. |
| `Autoplay.Visible` | script.js:161 | The visible pixel count lies between 0 and the rectangle's height (and the viewport's). It is the full height for a rectangle inside the viewport and 0 for one outside it. |
| `Autoplay.Ratio` | script.js:162 | The visible share of a post's height lies in `[0, 1]`. |
| `Autoplay.RatioBounds` | script.js:161-162 | The visible fraction lies in `[0, 1]` and is positive exactly when some pixel is visible. |
| `Autoplay.CrossMultiply` | script.js:162-163 | For positive heights, comparing the two fractions is the same as comparing their cross products, which is what the integer loop does. |
| `Autoplay.SelectBest` | script.js:157-164 | The chosen post has a positive fraction that no post exceeds, and every earlier post has a strictly smaller one. No post is chosen exactly when every fraction is 0. |
| `Autoplay.FirstBestUnique` | script.js:157-164 | At most one post meets the selection rule, so the choice is determined. |
| `Autoplay.ApplyPlayback` | script.js:165-170 | A post without a video is skipped. The chosen post's video is played and every other video paused, so at most one video plays. |
| `Autoplay.PlayVisibleVideo` | script.js:155-171 | Only the first best-visible post's video plays; when no post is visible, no video plays. |
| `Autoplay.SecondOfThreeChosen` | script.js:157-164 | With visible fractions 0.2, 0.9 and 0.5, the second post is the one selected. |

## Left out

- DOM construction and rendering are not modelled because they are presentation, not logic. This covers `makePostItem`, `renderFeed`, `updateUserUI`, the open/close modal functions, the like/comment counters and the admin alert text.
- Timers and events are not modelled because they are asynchronous browser scheduling. This covers the scroll debounce, the `focus` listener, the `ResizeObserver` and the delayed call in `renderFeed`.
- `exportFeedJSON` is left out: it only builds a `Blob` and triggers a download, and changes no state.
- `URL.createObjectURL` is a parameter (`objectUrl`). Revoking object URLs never happens in the source and is not modelled.
- `video.play()`/`pause()` are not modelled: their promises are browser calls, and the model only produces `Play`/`Pause` commands.
- `confirm`, `alert` and `prompt` are inputs (booleans, strings) or `false` results.
- The guest confirmation in `openUpload` is not modelled; it only decides whether the upload form opens.
- JSON is abstracted. A stored value is a record list, a plain text or a corrupt text. Records read back exactly as written, because a `Post` has the same four fields that `persistFeed` projects.
- App.SnapBridge.LoadInitialFeed: a stored feed text that parses as JSON but not as an array makes the source throw after emptying the feed. The model reads such a value as `[]` and seeds the samples.
- App.SnapBridge.LoadInitialFeed: a stored JSON array whose items are not post records (`[1,2]`, say) is pushed into the feed by the source without reseeding. The model has no such value: it reads as `[]` and the samples are seeded.
- App.SnapBridge.LoadPersisted: the source returns whatever `JSON.parse` yields, which can be a non-array or an array of non-records. The model returns only record lists, or `[]`.
- App.SnapBridge.PersistFeed: `localStorage.setItem` can throw (quota exceeded, storage disabled). In the model every write succeeds. The source would then stop half done: the feed is already reassigned in `seedLearning`, `clearFeed` and `loadInitialFeed`, but storage is not written.
- App.SnapBridge.DoSignIn: the same failing `setItem` would leave `currentUser` set but not stored. The model's write always succeeds, so `Valid()` always holds afterwards.
- App.SnapBridge.Valid: other tabs of the same site share local storage and can change it underneath the page. That would break `Valid()` and `InSync` between actions. The model assumes this page is the only writer.
- App.SnapBridge.constructor: a record list or corrupt text stored under `snapbridge_user` would be taken as a user name (its raw text) by the source; the model reads it as the guest.
- Html.EscapeHtml: `None` stands for every falsy argument. Conversion of non-string truthy values by `String(...)` is not modelled, because every caller in the source passes a string.
- Autoplay.SelectBest: rectangles are whole pixels and fractions are exact rationals. Floating-point rounding of `visible / rect.height` and fractional pixel coordinates are not modelled. A rectangle without positive height counts as fraction 0, which matches the source, where its `NaN` or `-0` ratio never wins.
