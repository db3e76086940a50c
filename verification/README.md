# Podcast player session engine, modelled in Dafny

A model of the client-side logic of a podcast-search web app (`public/script.js`).
Under the DOM calls, the script is made of five parts, each modelled here with
immutable datatypes and pure transition functions:

- **Durable store** (`store.dfy`, module `DurableStore`). The browser's local
  storage is a `map<string, Value>` under the keys `queue`, `searchHistory` and
  `playerState`. A JSON round trip is modelled as storing the structured value.
- **Queue** (`queue.dfy`, `QueueStore`). The in-memory `queueItems` list is
  written through to `queue` on every change, and the queue cards are shown on
  screen. Saving refuses a title that is already queued. Removal filters the
  list by `id` but removes the on-screen cards by title. The model keeps this
  mismatch and proves that the cards still match the list after a removal
  exactly when the removed id and title agree on every queued entry.
- **Search history** (`history.dfy`, `SearchHistory`). This is a duplicate-free,
  append-only list of queries. It is re-read before every save and deleted
  whole by the reset button.
- **Transport arithmetic** (`clock.dfy`, `Clock`; `transport.dfy`, `Transport`).
  `formatTime` turns whole seconds into `h:mm:ss` / `m:ss`. A reader of those
  two shapes inverts it. `skipTime` clamps the target position to
  `[0, duration]`.
- **Image loading** (`render.dfy`, `Render`; `scheduler.dfy`, `ImageScheduler`).
  The result lists are rendered into card images: feeds are filtered, and images
  after index 20 are deferred. The first `limit` images get an eager pending
  counter. When a decrement lands exactly on zero, the loader is hidden and the
  rest of the images are observed lazily. Each observed image moves from
  waiting to activated to resolved.
- **Playback session** (`session.dfy`, `Playback`). This covers the `isPlaying`
  flag and the play button, `loadPodcast` and its `loadedmetadata` handlers,
  `timeupdate`, and the prev/next skips. It also covers the 5-second snapshot,
  modelled as an explicit `SnapshotTick` step, and the restore at start-up,
  which does not resume playback.

Events from the browser arrive as inputs: image load/error, viewport entry,
media metadata and time updates, and timer ticks. So do the results of the
search API, the formatted publication date, and whether the screen is small.

Behaviour of `script.js` the model keeps:

- `formatTime(0)` leaves the element's text as it was (`FormatTime` returns
  `None`). The `"0:00"` shown after loading comes from `loadPodcast` itself.
- When `handleImageLoad` finds no image to wait for, it hides the loader and
  returns. The lazy phase is never started in that case.
- A broken eager image reaches the counter twice: once for its own error and
  once for the placeholder's load (see Findings). So the counter counts events,
  not images.
- Queue removal goes by `id`. Saving deduplicates by `title`.
- `loadQueue` does not tolerate a missing `queue` key, so it is modelled as
  partial.

## Model

| member | source | states |
|---|---|---|
| `DurableStore.Get` | public/script.js:182 | `getItem` returns the stored value exactly when the key is present, and nothing otherwise |
| `DurableStore.Put` | public/script.js:176 | after `setItem`, a read of the key returns the written value, and every other key reads as before |
| `DurableStore.Remove` | public/script.js:319 | after `removeItem`, the key reads as absent, and every other key reads as before |
| `DurableStore.PutKeepsWellTyped` | public/script.js:176 | writing a key the kind of value the script writes there keeps every key holding its own kind |
| `Media.EpisodeArtwork` | public/script.js:433 | episode artwork is the episode image, else the feed image, else the placeholder, and it is never empty |
| `Media.FeedArtwork` | public/script.js:110 | a search card's image is the feed image, or the placeholder when the feed has none |
| `QueueStore.SaveQueue` | public/script.js:172-178 | `saveQueue` reports success iff the title is not queued yet. If refused, the list and store are unchanged; otherwise the episode is appended at the end and the `queue` key holds the new list |
| `QueueStore.AddToQueue` | public/script.js:159-165 | the queue button adds a card titled after the episode exactly when the save succeeded |
| `QueueStore.Without` | public/script.js:192 | the filtered list holds exactly the entries whose `id` differs from the removed one |
| `QueueStore.DropCards` | public/script.js:194-198 | the remaining cards are exactly those whose heading differs from the removed episode's title |
| `QueueStore.RemoveFromQueue` | public/script.js:191-199 | removal leaves the list filtered by `id` and writes it back to `queue`; the cards left are the ones whose heading is not the title. No other key changes |
| `QueueStore.DropCardsAppend` | public/script.js:194-198 | dropping cards by title distributes over concatenation, so the cards left keep their page order |
| `QueueStore.DropCardsAbsentTitle` | public/script.js:194-198 | removing a title no card shows leaves the cards unchanged |
| `QueueStore.LoadQueue` | public/script.js:180-189 | loading needs the `queue` key (as written it throws without it). It rebuilds the list as stored, and the cards match it |
| `QueueStore.LoadQueueGuarded` | public/script.js:182-188 | with the iteration inside the null check, a missing key clears the cards and keeps the list; otherwise it is `LoadQueue` |
| `QueueStore.FirstVisitHasNoQueue` | public/script.js:184 | the empty store of a first visit has no `queue` key, and the guarded load leaves the empty queue |
| `QueueStore.WithoutAppend` | public/script.js:192 | the id filter distributes over concatenation, so it keeps the entries' order |
| `QueueStore.WithoutAbsentId` | public/script.js:192 | removing an id that no entry carries leaves the list unchanged |
| `QueueStore.WithoutKeepsDistinct` | public/script.js:192 | filtering a list with distinct titles gives a list with distinct titles |
| `QueueStore.QueueKeepsDistinctTitles` | public/script.js:172-193 | saving and removing both keep the queued titles pairwise distinct |
| `QueueStore.DuplicateTitleIsNoOp` | public/script.js:173 | queueing a title that is already queued changes neither the list, nor the cards, nor the store |
| `QueueStore.QueueWritesThrough` | public/script.js:172-193 | if the store mirrors the list before an operation, it mirrors it after saving or removing |
| `QueueStore.QueueReloads` | public/script.js:176-187 | round trip: the list left by a save or a removal is what the next page load reads back, in the same order |
| `QueueStore.RemoveMatchesCards` | public/script.js:192-198 | when id equality and title equality agree on every entry, filtering by id and dropping cards by title give the same titles |
| `QueueStore.AddKeepsInSync` | public/script.js:159-178 | saving keeps the on-screen cards equal to the queued titles |
| `QueueStore.RemoveKeepsInSync` | public/script.js:191-199 | removal keeps the cards equal to the queued titles whenever every entry shares the removed episode's id iff it shares its title |
| `QueueStore.RemoveInSyncOnlyIfAgree` | public/script.js:191-199 | conversely, if the cards matched the list before and after a removal, every entry shared the removed episode's id exactly when it shared its title |
| `QueueStore.SyncedRemovalAgrees` | public/script.js:192-198 | when the cards dropped by title equal the titles left by the id filter, id and title agree on every entry |
| `QueueStore.KeptHeadKeepsTitle` | public/script.js:192-198 | an entry the id filter keeps shows its title among the remaining cards, so it is not the removed title |
| `QueueStore.DroppedHeadDropsTitle` | public/script.js:192-198 | an entry the id filter drops must carry the removed title, or its title would stay on one card more than the list holds it |
| `QueueStore.DropCardsCount` | public/script.js:194-198 | dropping cards by one title keeps every other title as many times as before |
| `QueueStore.WithoutTitlesCount` | public/script.js:192 | the id filter never shows a title more often than the list did |
| `QueueStore.RemoveByIdDivergesFromCards` | public/script.js:192-198 | with two queued episodes that share an id under different titles, removing one empties the list but leaves the other's card on screen |
| `SearchHistory.ReadHistory` | public/script.js:95-96 | reading yields the stored list, or the empty list when the key is missing |
| `SearchHistory.SaveSearchHistory` | public/script.js:230-236 | a query already in the list writes nothing; otherwise the stored list becomes the old one with the query appended. No other key changes |
| `SearchHistory.SubmitSearch` | public/script.js:239-241 | a non-empty query ends up in the history: a new one appended to the stored list, a known one writing nothing. An empty one leaves the store untouched, and no other key changes |
| `SearchHistory.ResetHistory` | public/script.js:318-319 | the reset button removes the history key and nothing else |
| `SearchHistory.ResetThenReadIsEmpty` | public/script.js:319 | after a reset, the next read yields the empty list |
| `SearchHistory.SaveKeepsHistoryInvariant` | public/script.js:230-236 | saving keeps the history duplicate-free, leaves the query in it, and keeps the earlier entries as a prefix in insertion order |
| `SearchHistory.SaveIsIdempotent` | public/script.js:232 | repeating a search does not change the store again |
| `SearchHistory.SaveKeepsNoDuplicates` | public/script.js:239-241 | one search keeps the list duplicate-free, and adds exactly the non-empty query |
| `SearchHistory.SearchAll` | public/script.js:238-242 | after a run of searches the history is duplicate-free and holds exactly the earlier queries and the non-empty searched ones |
| `Clock.Decimal` | public/script.js:417-418 | a number prints as a non-empty string of digits, one digit long exactly below ten |
| `Clock.DecimalRoundTrip` | public/script.js:417-418 | reading a printed number back gives the number |
| `Clock.Pad2` | public/script.js:410-412 | a value below 60 is padded to exactly two digits that read back as the value |
| `Clock.Components` | public/script.js:406-408 | hours·3600 + minutes·60 + seconds recombine to the time |
| `Clock.FormatTime` | public/script.js:405-420 | zero leaves the text unchanged. Any other time gives `m:ss`, or `h:mm:ss` with three fields exactly from 3600 s on. The seconds are two digits, the minutes two digits when hours show, and the leading field is unpadded. The last field reads as the seconds and the one before as the minutes, both below 60; a third field reads as the hours |
| `Clock.ShowTime` | public/script.js:414-419 | the element keeps its text for zero; otherwise it shows a well-formed clock that reads back as exactly the given time |
| `Clock.FormatTimeRoundTrip` | public/script.js:405-420 | reading the formatted text back as minutes and seconds (or hours, minutes, seconds) gives the original time |
| `Clock.FormatTimeInjective` | public/script.js:405-420 | two different positive times never display the same text |
| `Clock.FormatTimeExample65` | public/script.js:405-420 | 65 s shows "1:05" |
| `Clock.FormatTimeExample3661` | public/script.js:405-420 | 3661 s shows "1:01:01" |
| `Clock.FormatTimeExample3605` | public/script.js:405-420 | 3605 s shows "1:00:05", and 0 leaves the text |
| `Clock.UnpaddedDecimal` | public/script.js:417-418 | a printed number has no leading zero unless it is "0" |
| `Clock.LeadingDigit` | public/script.js:417 | a positive number does not print with a leading zero |
| `Clock.FieldsOfJoin` | public/script.js:417 | splitting `a:b` at colons gives `a` followed by the fields of `b` when `a` is all digits |
| `Clock.FieldsOfPlain` | public/script.js:418 | a digit string is a single field |
| `Transport.SkipTime` | public/script.js:449-454 | the new position is never above the duration. It equals the target when the target lies in `[0, duration]`, 0 below that range and the duration above it |
| `Transport.SkipIsNearest` | public/script.js:450-453 | the clamped position is the point of `[0, duration]` nearest the target |
| `Transport.SkipIsMonotone` | public/script.js:450-453 | skipping by more never lands earlier |
| `Transport.SkipExamples` | public/script.js:478-479 | "prev" (−15) from 10 s gives 0, and "next" (+30) from five seconds before the end gives the duration |
| `ImageScheduler.HandleImageLoad` | public/script.js:31-38 | pending starts at `min(images, limit)`. The loader is hidden at once exactly when there is nothing to wait for, and the lazy phase has not started |
| `ImageScheduler.Eager` | public/script.js:43-52 | an eager load/error decrements the counter and marks the image settled, with the placeholder if broken. The loader is hidden and the lazy phase started exactly on the decrement that reaches zero. No other image changes. A detached handler ignores a second event |
| `ImageScheduler.Lazy` | public/script.js:67-72 | a load/error of an activated stashed image resolves it (unobserves it), with the placeholder if broken. A waiting or unstashed image is not affected, no other image changes, and the counters stay |
| `ImageScheduler.Enter` | public/script.js:61-78 | before the lazy phase starts, or for a resolved image, entering the viewport does nothing. Otherwise a stashed image shows its stash and is activated, and an unstashed one gets the placeholder and is resolved. No other image changes, and the counters stay |
| `ImageScheduler.Step` | public/script.js:40-84 | an event goes to the handler its image carries: a load/error of an eager image to `Eager`, of a deferred one to `Lazy`, and a viewport entry of a deferred one to `Enter`. As written, each eager event decrements the counter once. Events past the list and viewport entries of eager images change nothing, and only eager events move the counters. The counter never rises and the loader and lazy flags never fall |
| `ImageScheduler.Run` | public/script.js:40-84 | along any event sequence the counter never rises and the loader and lazy flags never fall |
| `ImageScheduler.RunCountsEvents` | public/script.js:43-51 | every eager load/error event decrements the counter once, and the loader/lazy flags follow whether it has reached zero |
| `ImageScheduler.CompletionAtMostOnce` | public/script.js:31-54 | over any event sequence, the loader is hidden at most once and the lazy phase started at most once. The lazy phase starts exactly when as many eager events as eager images have arrived, and never when there was nothing to wait for |
| `ImageScheduler.StepKeepsLazyInv` | public/script.js:61-78 | every event keeps each deferred image's stash. Waiting images keep their source, activated ones show the stash, and resolved ones the stash or the placeholder |
| `ImageScheduler.RunKeepsLazyInv` | public/script.js:56-84 | the deferred-image invariant holds along every event sequence |
| `ImageScheduler.DeferredImagesStayCoherent` | public/script.js:56-84 | from a fresh render, whatever the events, deferred images stay coherent, and nothing is observed before the eager phase completes |
| `ImageScheduler.ResolvedIsFinal` | public/script.js:71-75 | an unobserved image stays resolved, and entering the viewport again changes nothing |
| `ImageScheduler.DeferredActivation` | public/script.js:65-72 | on entering the viewport a stashed image shows its stash. Its next load/error resolves it, with the placeholder only if broken, and it never re-triggers |
| `ImageScheduler.UnstashedGetsFallback` | public/script.js:73-76 | an observed image with no stash gets the placeholder on entering the viewport and is unobserved |
| `ImageScheduler.PrematureCompletion` | public/script.js:43-50 | as written, one broken image out of two completes the eager phase before the second image has loaded, and the counter later goes below zero |
| `ImageScheduler.ThreeBrokenOfFive` | public/script.js:31-54 | with limit 3 and five images, three broken: the phase completes exactly once, the placeholders' loads take the counter to −3, and the three images show the placeholder |
| `ImageScheduler.CountSettled` | public/script.js:43-44 | the number of settled images equals the list length exactly when all are settled |
| `ImageScheduler.CountSettledUpdate` | public/script.js:43-44 | marking one image settled raises the count by one |
| `ImageScheduler.DetachedStep` | public/script.js:43-52 | with the handler detached after the first event, every event keeps the counter equal to the number of unsettled eager images |
| `ImageScheduler.DetachedRun` | public/script.js:43-52 | the detached counting invariant holds along every event sequence |
| `ImageScheduler.DetachedCompletesWhenAllSettled` | public/script.js:43-52 | with detaching, the loader is hidden and the lazy phase started exactly when every eager image has settled, and at most once |
| `ImageScheduler.NoneSettled` | public/script.js:42-43 | a fresh render has no settled image |
| `Render.CardImg` | public/script.js:263-266 | a deferred card has an empty `src` and its URL in the stash; any other card loads its URL and has no stash |
| `Render.RenderFeeds` | public/script.js:253-268 | the rendered feeds are exactly those with episodes whose title no earlier such feed had, in original order. Each card's image is deferred by the given policy (as written: original index above 20) |
| `Render.RenderEpisodes` | public/script.js:296-305 | every episode gets a card with its artwork, deferred by the given policy |
| `Render.EpisodesPartitioned` | public/script.js:300-310 | deferring by position 20, exactly the lazily observed episode images carry a stash and exactly the eager ones load |
| `Render.FeedsPartitioned` | public/script.js:263-270 | deferring feeds by rendered position 20 partitions them the same way |
| `Render.TwentyFirstEpisodeLosesArtwork` | public/script.js:300-310 | as written, the card at index 20 loads its artwork but is observed without a stash, so entering the viewport replaces it with the placeholder |
| `Render.DeferredEpisodesKeepArtwork` | public/script.js:300-310 | deferring from position 20, every observed episode image that enters the viewport shows its own artwork |
| `Render.EagerPlaceholderStays` | public/script.js:43-52 | an eager image that shows the placeholder keeps it along any events, since the observer never handles the eager slice |
| `Render.FeedStashedInEagerSliceLosesArtwork` | public/script.js:263-270 | as written, a feed with original index above 20 rendered at a position below 20 has its `src` cleared inside the eager slice. Its error gives it the placeholder, and its stashed artwork is never shown, whatever follows |
| `Playback.Initial` | public/script.js:382 | the page starts paused, with the play icon, no metadata handler and no known duration |
| `Playback.PlayPodcast` | public/script.js:385-390 | `playPodcast` sets `isPlaying` and the pause icon and label, and changes nothing else |
| `Playback.PausePodcast` | public/script.js:393-398 | `pausePodcast` clears `isPlaying`, shows the play icon and label, and changes nothing else |
| `Playback.TogglePlay` | public/script.js:401-403 | the play button flips `isPlaying` and leaves the button showing the new state |
| `Playback.ToggleTwiceIsIdentity` | public/script.js:401-403 | two presses of the play button restore the session |
| `Playback.LoadPodcast` | public/script.js:423-438 | loading shows the episode's title, date, artwork and enclosure. It rewinds to 0 with "0:00" shown, marks loading and adds a handler. The new source has no duration yet. Everything else stays: `isPlaying`, the button, the shown duration, the progress width and the view |
| `Playback.MetadataHandler` | public/script.js:439-446 | the metadata handler shows the duration, clears loading and plays with the pause icon and label; nothing else changes |
| `Playback.RunHandlers` | public/script.js:439-446 | with at least one handler the session ends up playing, with the pause icon and loading cleared; with none it is unchanged; the source, position and duration stay |
| `Playback.HandlersCollapse` | public/script.js:439-446 | running the handlers added by several loads has the effect of running one |
| `Playback.OnMetadata` | public/script.js:439-446 | a metadata event makes the duration known. It runs the handler when one was added and does nothing else otherwise |
| `Playback.ShareBounds` | public/script.js:460 | the share `currentTime / duration` of a positive duration recombines to the position, lies in [0, 1] within the duration, and is 1 at the end |
| `Playback.Percent` | public/script.js:460 | the progress percentage exists exactly for a positive duration, where it is `currentTime / duration * 100`. It lies in [0, 100] when the position is within the duration, and is 100 at the end |
| `Playback.OnTimeUpdate` | public/script.js:457-465 | a time update records the position, updates the progress width when it is a number, and reformats both times; nothing else changes |
| `Playback.Skip` | public/script.js:449-454 | a skip changes only the position. With a known duration the position is the target clamped to `[0, duration]`: the target when in range, 0 below it and the duration above. With none, the assignment of NaN throws and nothing changes |
| `Playback.SnapshotOf` | public/script.js:485-492 | the snapshot carries the shown title, date, artwork, source and position, and the duration, with 0 standing for the `null` an unknown duration serialises to |
| `Playback.Tick` | public/script.js:483-496 | the timer writes the six-field snapshot exactly while playing. When paused the store is unchanged, and no other key is touched |
| `Playback.LoadPlayerState` | public/script.js:498-514 | a stored snapshot's title, date, position, artwork and source are shown, along with both times and the progress. The small-screen view switch applies. Nothing else changes: `isPlaying`, the button, the media duration and the handlers stay. With no snapshot nothing changes |
| `Playback.RestoreAfterTick` | public/script.js:483-514 | restoring after a tick shows exactly the snapshotted episode and position. With a known duration it also shows that duration and fills the bar to the position's percentage of it, within [0, 100]. With an unknown one, the duration text and bar stay. It does not resume playback |
| `Playback.Startup` | public/script.js:498-516 | after start-up the session is paused with the play icon, no handler is waiting and no duration is known. The player view shows exactly when a snapshot exists on a small screen |
| `Playback.RestoredMetadataStaysPaused` | public/script.js:439-446 | the restored source's metadata only makes the duration known; it does not start playback |
| `Playback.RestoredSkipWaitsForMetadata` | public/script.js:449-454 | prev or next pressed after start-up, before the restored source's metadata, leaves the restored position as it is |
| `Playback.Step` | public/script.js:401-496 | each action reaches its handler: play toggles, prev skips −15 s and next +30 s, a load runs `loadPodcast`, metadata its handlers, a time update `updateProgressBar`, and a tick the snapshot writer. A tick changes only the store; every other action changes only the session |
| `Playback.StepFrame` | public/script.js:381-403 | only the play button and the metadata handler change `isPlaying`, only a tick while playing writes the store, and the button always shows the flag |
| `Playback.PausedNeverWrites` | public/script.js:483-496 | with no play press and no metadata, a paused session never writes a snapshot, however many ticks pass |
| `Playback.Run` | public/script.js:476-496 | a run without ticks leaves the store as it was, and a run of ticks alone leaves the session as it was |
| `Playback.RunKeepsDurationConsistent` | public/script.js:423-446 | along every run a duration is recorded only once the media knows it |
| `Playback.RunKeepsButton` | public/script.js:384-403 | the button matches `isPlaying` along every run |

## Left out

- DOM templating and card construction (`createCard`, `createEpisodeCard`, `createQueueCard`, the option list built by `resetSearchHistory` and `loadSearchHistory`) and `navigateToSearch`/`navigateToPlayer`: presentation only. The model keeps just the queue cards' titles and a player-view flag.
- The `fetch` calls to `/api/search` and `/api/episodes`, the "No podcasts found", "No episodes found" and error messages, and the loader handling on those paths: network I/O. The result lists are inputs.
- IntersectionObserver geometry, `img.complete`/`naturalWidth` and media decoding: host capabilities. They appear as input events, with `broken` standing for a complete image with no natural width.
- The `handleImageLoad(20)` call repeated inside the feeds `forEach` (public/script.js:270). The calls run synchronously, and each reassigns `onload`/`onerror` on the first images, so only the last call's counter is ever reached; that is the single call modelled. Not modelled: while no card has been rendered yet (leading feeds without episodes), each of those calls finds no image and hides the loader at once, before any artwork has loaded.
- `setProgressBar` (the click-offset seek): floating-point arithmetic over element widths. Only the progress percentage is stated, over `real`.
- The assignment to `player.duration` in `loadPlayerState`: the property is read-only in browsers, so the session keeps its own duration.
- Playback.LoadPlayerState: records the snapshot's position as the session's. At page load the media element has no source, so the assigned `currentTime` becomes its default playback start position, which the element seeks to once the restored source's metadata arrives. That seek, and a page whose markup already gives the element a source (index.html is not part of this model), are not modelled.
- QueueStore.DropCards: compares each card's heading with the title as the raw string. The heading is read back through `innerText` after the card was built with `innerHTML`, so entity decoding, markup in the title and whitespace collapsing can make the two differ; that normalisation is not modelled.
- DurableStore.Put: `setItem` never fails here. In the browser it can throw (quota exceeded, storage disabled); `saveQueue` has then already pushed the episode onto `queueItems`, so the in-memory queue and the store disagree. That failure path is not modelled.
- ImageScheduler.Eager: the completion re-reads the container's images when it starts the lazy phase (public/script.js:57-59). With two searches rendered in quick succession, handlers of the earlier pass can hide the loader early and observe the later pass's cards. The model covers one render pass with a fixed image list.
- Render.RenderEpisodes and Render.RenderFeeds: each card is taken to hold one image, its artwork, so the scheduler's image list is the card list. The descriptions go into the cards through `innerHTML` (public/script.js:115, :150), and `handleImageLoad` and `lazyLoadImages` take every `img` in the container. So a description containing an `<img>` shifts every later card's artwork to a later position. `DeferredEpisodesKeepArtwork` holds only for containers without such images.
- `formatDate`: it depends on the locale (`toLocaleDateString`). The formatted date is an input of `LoadPodcast`.
- `setInterval` timing: replaced by the explicit `SnapshotTick` action.
- Fractional seconds and NaN: times are whole seconds (`Math.floor` is the identity). A duration the media does not know yet is the flag `durationKnown` being false, with the duration held at 0, which `formatTime` and the progress width treat the same way as NaN.
- `String.prototype.trim` in `searchPodcast`: `SubmitSearch` takes the query already trimmed, since the Unicode whitespace set is not modelled.
- Values in storage other than those the script writes, and JSON text itself: reads require the store to be well typed, and serialisation is the identity.
- The `display` expando assignments on the time elements in `loadPodcast`: they set an unused property and have no effect.
- The page's initial markup (index.html is not part of this model): `Playback.Initial` assumes the play icon, the label "Play" and empty texts.
- The search-history `change` listener and the input's `focus` clearing: they only re-enter `searchPodcast` or clear the input.
- public/service-worker.js: install, fetch and activate handlers that wrap the Cache Storage and fetch APIs with no logic of their own.

## Findings

| source | as written | input that shows it | evidently intended | confidence | as-written member | corrected member |
|---|---|---|---|---|---|---|
| public/script.js:300 | cards are deferred when `index > 20`, while `handleImageLoad(20)` loads images 0–19 eagerly and observes from image 20 on | 21 or more episodes: card 20 loads its artwork, is observed without a stash, and is switched to the placeholder when scrolled into view | defer exactly the observed cards (`index >= 20`; the rendered position for the filtered feeds) | high; not executed | `Render.TwentyFirstEpisodeLosesArtwork` | `Render.DeferredEpisodesKeepArtwork` |
| public/script.js:184 | `savedQueue.forEach` runs outside the `if (savedQueue)` check | a first visit (empty storage): `getItem('queue')` is null, the call throws, and the rest of start-up (service-worker registration) is skipped | iterate only over a parsed list | high; not executed | `QueueStore.FirstVisitHasNoQueue` | `QueueStore.LoadQueueGuarded` |
| public/script.js:43-46 | the eager handler stays attached when a broken image is given the placeholder, so the placeholder's own load decrements the counter again | limit 2, two images, the first broken: its error and the placeholder's load complete the phase while the second image is still loading | count each eager image once, for example by detaching the handler on its first event | medium; not executed | `ImageScheduler.PrematureCompletion` | `ImageScheduler.DetachedCompletesWhenAllSettled` |
