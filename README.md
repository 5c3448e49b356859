# VisionGuide AI announcement engine, modelled in Dafny

VisionGuide AI is a browser client for people who are visually impaired. It
sends camera frames to a remote vision model, which returns an overall hazard
risk, a list of guidance items and a hint of how many seconds not to repeat
them. The client decides what to say aloud. It remembers what it has recently
said, speaks at most two new hazard or navigation items, adds the safety
disclaimer once a minute, and keeps a short log on screen.

This project models that decision logic and proves properties of it:

- `wrappers.dfy`: `Option`, which stands for JavaScript's possibly-`undefined` values.
- `types.dfy`: the enums and records of `types.ts`.
- `seqs.dfy`: the array and string operations the client uses (`filter`, `findIndex`,
  `find`, `slice`, `join`, `includes`), with their properties.
- `memory.dfy`: the table of recently spoken `(message, timestamp)` entries. It covers
  the lookups, the refresh-or-insert step, eviction after 120 s, and the
  last-three context slice.
- `announce.dfy`: the choice of what to speak. It covers the repeat window, the
  dedup filter, the first-two selection, the disclaimer rule and the joined text.
- `logbook.dfy`: the newest-first log, capped at 20 entries.
- `app.dfy`: the class `Assistant`, which holds the client's mutable state (current
  risk, log, spoken memory). Its methods perform `processGuidance`, the memory
  update loop and one analysis round. It also contains the adaptive poll delay.

Times are integer milliseconds. The clock (`Date.now()`) is a parameter `now`.
Speech is an output: the list of items chosen and the text that would be
spoken. The memory's lookups follow JavaScript's `find` and return the *first*
matching entry. The memory starts empty and never holds two entries for the
same message (`Memory.Unique`, kept by `Assistant.Valid`). So the first match
is also the only one (`Announce.RecentlySpokenIff`).

The disclaimer test looks for the text "Use caution" in the *first* remembered
message that contains it. That message need not be the disclaimer, and this
works both ways. A hazard message that mentions "Use caution" postpones the
disclaimer for 60 s, even when the disclaimer was never spoken
(`Announce.MarkerEntryDefersDisclaimer`). And once such an earlier hazard entry
is more than 60 s old, the disclaimer is spoken again in every round, even
just after it was said, until that entry is evicted at 120 s
(`Announce.StaleMarkerEntryRepeatsDisclaimer`). For example, with memory
`[("Uneven ground. Use caution.", 0), (disclaimer, 61000)]`, the disclaimer is
chosen again at 62000. This follows from the code as written; nothing was
executed.

## Model

| member | source | states |
|---|---|---|
| Seqs.Map | App.tsx:99 | One image per element, in order (used for the messages of the spoken items and of the memory) |
| Seqs.Filter | App.tsx:78-84 | Result keeps exactly the elements that satisfy the predicate, and is no longer than the input |
| Seqs.FilterConcat | App.tsx:87-89 | Filtering distributes over concatenation, so kept elements stay in input order |
| Seqs.FirstIndex | App.tsx:104 | -1 exactly when no element matches; otherwise the index of a match with no match before it |
| Seqs.Find | App.tsx:92 | `None` exactly when nothing matches; otherwise an element of the input that matches and is the first to do so |
| Seqs.Take | App.tsx:89 | A prefix of the input of length min(n, length) |
| Seqs.Last | App.tsx:135 | The suffix of the input of length min(n, length) |
| Seqs.Contains | App.tsx:93 | `includes`: true whenever the needle is a prefix, and only when the needle is no longer than the text |
| Seqs.ContainsFrom | App.tsx:93 | A needle occurring at any offset makes `includes` true |
| Seqs.ContainsWitness | App.tsx:93 | `includes` is true only if the needle occurs at some offset |
| Seqs.Join | App.tsx:99 | Empty list gives ""; otherwise the text starts with the first part and has the parts' total length plus one separator between each pair of parts |
| Seqs.JoinSnoc | App.tsx:99 | Joining one more part appends the separator and that part |
| Announce.RepeatWindow | App.tsx:75 | Window is 5000 ms when the hint is missing or 0, otherwise hint × 1000 ms |
| Announce.RecentlySpoken | App.tsx:79-80 | Recently spoken only if some entry for the message is younger than the window; never when the memory has no entry for it |
| Announce.RecentlySpokenIff | App.tsx:79-80 | In a duplicate-free memory, an item counts as recently spoken exactly when some entry for its message has age (`now - timestamp`) strictly below the window |
| Announce.FreshGuidance | App.tsx:78-84 | An item survives the dedup filter exactly when it is in the guidance and not recently spoken |
| Announce.FreshGuidanceOrder | App.tsx:78-84 | The dedup filter keeps surviving items in their original order |
| Announce.NonInfo | App.tsx:88 | Keeps exactly the items whose type is not `info` |
| Announce.Candidates | App.tsx:87-88 | An item is a candidate exactly when it is a non-`info` guidance item that was not recently spoken |
| Announce.Disclaimer | App.tsx:92 | The disclaimer is the first `info` item of the unfiltered guidance; `None` when there is no such item |
| Announce.DisclaimerDue | App.tsx:93-94 | Due exactly when no remembered message contains "Use caution", or the first one that does is more than 60000 ms old |
| Announce.AppendsDisclaimer | App.tsx:94 | The disclaimer is appended exactly when the guidance has an `info` item and the disclaimer is due |
| Announce.ItemsToSpeak | App.tsx:86-96 | At most three items are chosen |
| Announce.ItemsToSpeakShape | App.tsx:87-96 | The chosen list starts with the first min(2, n) candidates in order, each a non-`info` guidance item that was not recently spoken. It has one more item, the disclaimer, exactly when the disclaimer rule holds |
| Announce.AtMostTwoNewItems | App.tsx:87-89 | The non-`info` items chosen are exactly the first two candidates, so at most two |
| Announce.DisclaimerRule | App.tsx:92-96 | An `info` item is chosen exactly when the disclaimer is appended. It then comes last and is the first `info` item of the unfiltered guidance |
| Announce.SpokenText | App.tsx:99 | The spoken text is the messages joined by ". ": empty for no items, otherwise starting with the first message, with the expected length |
| Announce.NoRepeatWithinWindow | App.tsx:75-113 | A non-`info` message spoken at t1 is not a candidate in the next analysis round, at any t2 still inside that result's repeat window. A speaking round in between evicts entries older than 120 s, so eviction caps how long suppression lasts |
| Announce.MarkerEntryDefersDisclaimer | App.tsx:93-94 | While the first remembered message containing "Use caution" is at most 60000 ms old, no `info` item is chosen, whatever that message is |
| Announce.StaleMarkerEntryRepeatsDisclaimer | App.tsx:92-95 | Once that first marker entry is more than 60000 ms old, the disclaimer is chosen (last), even if a later entry shows it was just said |
| Memory.IndexOf | App.tsx:104 | -1 exactly when no entry has the message; otherwise the first entry that does |
| Memory.Lookup | App.tsx:79 | `None` exactly when no entry has the message; otherwise the first entry of the table for that message |
| Memory.LookupUnique | App.tsx:79 | In a duplicate-free table, looking up an entry's message finds that entry |
| Memory.Touch | App.tsx:104-109 | One update step. Length grows by one exactly when the message was absent, and the new entry is appended last. Otherwise the existing entry is stamped `now` in place and the other entries are unchanged. The table stays duplicate-free |
| Memory.RecordAll | App.tsx:103-110 | The update loop over the spoken messages only refreshes or appends entries: old entries keep their position and message, and at most one entry is added per message |
| Memory.RecordAllSpec | App.tsx:103-110 | After the update loop, every spoken message has an entry stamped `now`. Old entries keep their position and are refreshed exactly when their message was spoken. Appended entries are spoken messages stamped `now`. No message appears twice |
| Memory.Cleanup | App.tsx:113 | Keeps exactly the entries younger than 120000 ms |
| Memory.FilterKeepsUnique | App.tsx:113 | Removing entries cannot create a duplicate message |
| Memory.CleanupUnique | App.tsx:113 | Eviction keeps the table duplicate-free |
| Memory.Remember | App.tsx:98-118 | When nothing is spoken the memory is left unchanged (no update, no cleanup) |
| Memory.RememberSpec | App.tsx:103-113 | After an announcement, each spoken message is in memory exactly once, stamped `now`. Every entry is younger than 120000 ms, and every entry is either an old one or a spoken message stamped `now`. Old entries for unspoken messages survive unchanged while young enough |
| Memory.RecentContext | App.tsx:135 | The context is the messages of the last min(3, length) entries, in table order |
| Logbook.AddLog | App.tsx:65-70 | The new entry comes first and is followed by a prefix of the old log; the length is min(old + 1, 20) |
| Logbook.AddAllKeepsNewest | App.tsx:66-69 | After any sequence of additions, the log holds the 20 most recent entries, newest first |
| App.NextInterval | App.tsx:148 | The poll delay is 500 ms under `HIGH` risk and 1000 ms otherwise, i.e. 2 and 1 frames per second |
| App.Assistant.constructor | App.tsx:13-21 | Starts at `LOW` risk with an empty log and an empty memory |
| App.Assistant.AddLog | App.tsx:65-70 | The log becomes `Logbook.AddLog` of the old log and the new entry; the memory invariant is kept |
| App.Assistant.RecordSpoken | App.tsx:103-110 | The in-place loop over the spoken items leaves the memory equal to `RecordAll` of the old memory and the spoken messages |
| App.Assistant.ProcessGuidance | App.tsx:72-119 | Adopts the result's risk and returns `ItemsToSpeak` and its joined text. The memory becomes `Remember` of the old memory. It logs "Spoken: " plus the text, or "No new significant hazards detected." |
| App.Assistant.RecentMessages | App.tsx:135 | Returns the recent context of the current memory |
| App.Assistant.AnalyzeRound | App.tsx:135-148 | Sends the context taken before the result is handled. A failed analysis only logs "Analysis failed or returned empty." at `LOW`. The next delay uses the risk held when the round started. After a result, the risk, the spoken items, the text, the memory and the log are those of `ProcessGuidance` |

## Left out

- Camera acquisition and track shutdown (App.tsx:40-63): browser media input/output.
- Speech synthesis (App.tsx:30-37) and the start/stop announcements (App.tsx:202-205, 243-246): platform text-to-speech. Only the text that would be spoken is modelled.
- Frame downscaling and JPEG encoding (App.tsx:129-133): canvas API, floating-point halving and lossy compression. `AnalyzeRound` starts once a frame has been captured.
- The timer loop (App.tsx:149-161), the `isActive`/`isAnalyzing` guards (App.tsx:122-124, 145) and the React effect lifecycle: asynchronous scheduling. Only the delay choice is modelled. It uses the risk held when the round started, because `setCurrentRisk` takes effect only in a later render.
- The log entry's `id` (`Math.random`) and `time` (`toLocaleTimeString`) (App.tsx:67): random and locale-dependent values. They are inputs to the methods.
- Rendering and risk colours (App.tsx:163-262): user interface.
- services/gemini.ts: the remote model call and `JSON.parse` of its reply. A parsed reply is a `VisionResponse`, and a failed call is `None`.
- constants.tsx: a version string and a comment listing expected model outputs; this code does not use it.
- `priority` and `confidence` of a guidance item: floating-point numbers the logic never reads, so they are not represented. The response `timestamp` is carried but unused, as in the source.
- Announce.RepeatWindow: the hint is an optional integer. Fractional seconds, `NaN` (also falsy in JavaScript) and non-numeric values are not modelled.
