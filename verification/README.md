# study-iq-watcher, modelled in Dafny

The watcher polls a video channel's feed. It looks for new entries whose text
contains a keyword and sends a chat notification for each match. A seen set
of entry ids, persisted in `seen.json`, stops an entry whose id an earlier,
successfully saved run recorded from being handled again
(`Watcher.NextRunSkipsProcessed`). It does not stop a repeated id within one
feed from being handled twice (`Watcher.RepeatedIdNotifiedTwice`), nor does
it survive a save that fails after the file was emptied
(`Watcher.TruncatedStoreForgets`). The repository is the single script
`check_videos.py`. This project models its decision logic:

- `text.dfy` (module `Text`): ASCII lower-casing and the substring test behind
  Python's `in`.
- `feed.dfy` (module `Feed`): the parsed `Entry` and the stable sort by
  published time that the fetcher applies. The date parser is abstracted as a
  total function `parse: string -> int`.
- `matcher.dfy` (module `Matcher`): the keyword setting and `video_matches`.
- `seen_store.dfy` (module `SeenStore`): loading and saving the seen set. The
  store is modelled as its contents: missing, malformed, or a list of ids.
- `watcher.dfy` (module `Watcher`): the loop in `main`, once as the fold
  `Process` and once as the loop `ProcessEntries` that computes the same
  thing. `RunOnce` is the whole invocation: load, fetch, sort, loop, save.
  The notifier is an oracle `send: nat -> Delivery`. The j-th notification
  attempt of a run gets the outcome `send(j)`. Every attempt goes into a log
  that records the entry's feed position, its id, the text sent and the
  outcome.

Behaviour of the code that the model keeps as written:

- The matcher lower-cases only the searched text. The keyword is lower-cased
  once, when the configuration is read. A keyword holding a capital letter
  therefore never matches (`Matcher.Matches`).
- The three fields are joined with single spaces before the search. A keyword
  can therefore match across the boundary between two fields
  (`Matcher.StraddlingMatch`).
- The skip test reads the seen set as it was loaded, not the one being
  built. An id that is new at load time and appears twice in one feed is
  handled, and possibly notified for, at both positions.
- The notification header always names "Ankit Agrawal", whatever keyword is
  configured.

## Model

| member | source | states |
|---|---|---|
| Text.Lower | check_videos.py:72 | lower-casing keeps the length, turns each ASCII capital into its small letter 32 code points up, keeps every other character, and leaves no capital behind |
| Text.Contains | check_videos.py:73 | the `in` test is true exactly when the pattern occurs at some position of the text |
| Text.CaseVariantLower | check_videos.py:72 | two strings that differ only in the case of letters lower-case to the same string |
| Text.UpperNeverInLowered | check_videos.py:72-73 | a pattern holding a capital letter never occurs in lower-cased text |
| Matcher.Keyword | check_videos.py:16 | the keyword is the setting, or "Ankit Agrawal" when unset, differing only in letter case and holding no capitals |
| Matcher.Matches | check_videos.py:71-76 | an entry matches exactly when the keyword occurs in the lower-cased title, description and thumbnail joined by spaces; a match implies the keyword has no capitals |
| Matcher.MatchesIgnoresCase | check_videos.py:72 | changing the letter case of the title, description or thumbnail never changes the match result |
| Matcher.FieldHitMatches | check_videos.py:72-74 | a keyword found, ignoring case, in any one of the three fields makes the entry match |
| Matcher.MissingThumbnailIsEmpty | check_videos.py:72 | a missing thumbnail counts as the empty string |
| Matcher.StraddlingMatch | check_videos.py:72-73 | a keyword `a + " " + b` matches when the title ends with `a` and the description starts with `b` |
| Matcher.StraddlingExample | check_videos.py:72-73 | an entry whose title and description each lack the default keyword still matches it across the joining space |
| Matcher.TitleExampleMatches | check_videos.py:72-74 | an entry titled "Ankit Agrawal Live" matches the default keyword |
| Feed.Insert | check_videos.py:68 | inserting into a sorted feed gives a sorted feed with exactly one more copy of the entry |
| Feed.SortByPublished | check_videos.py:68 | the sorted feed is in ascending published order and is a permutation of the input |
| Feed.InsertStable | check_videos.py:68 | insertion adds the entry to its own time group and keeps the order within every time group |
| Feed.PublishedAtSelects | check_videos.py:68 | the time group used to state stability holds only entries of that time, each as many times as the feed holds it |
| Feed.SortStable | check_videos.py:68 | the sort is stable: entries with equal published time keep their feed order |
| Feed.SortKeepsSorted | check_videos.py:68 | a feed already in order comes out unchanged |
| SeenStore.LoadSeen | check_videos.py:23-28 | loading yields the ids the store lists, or the empty set when the store is missing or malformed |
| SeenStore.SaveSeen | check_videos.py:30-32 | saving writes each id once, and loading the saved store gives back the same set |
| Watcher.Message | check_videos.py:90 | the notification text starts with the fixed header and contains the entry's title, link and published time |
| Watcher.Process | check_videos.py:81-98 | afterwards the seen set is the loaded set plus every fetched id; an entry gets an attempt exactly when it was new at load time and matches; each attempt carries the entry's id and text and the oracle's outcome; attempts follow feed order, at most one per position |
| Watcher.ProcessStep | check_videos.py:84-97 | handling one more entry preserves every promise of `Process` |
| Watcher.ProcessEntries | check_videos.py:81-98 | the loop as written computes exactly the fold `Process` |
| Watcher.RunOnce | check_videos.py:78-100 | a fetch failure aborts the run and leaves the store untouched; otherwise the attempts are those of the loop over the sorted feed with the configured keyword; a completed save writes the store, which then loads as the loaded set plus every fetched id; a failed open leaves the store as it was; a failed write leaves it unreadable, so it loads as the empty set |
| Watcher.TruncatedStoreForgets | check_videos.py:23-32 | after a write that failed on the emptied file, the next run notifies for every matching entry of its feed, seen before or not |
| Watcher.SortKeepsIds | check_videos.py:68 | sorting the feed keeps its set of ids |
| Watcher.SeenNeverNotified | check_videos.py:85-86 | no attempt is made for an id seen at load time |
| Watcher.NextRunSkipsProcessed | check_videos.py:85-97 | with the saved seen set, a later run never notifies for an id from an earlier feed, and re-running the same feed notifies for nothing |
| Watcher.DeliveryDoesNotMatter | check_videos.py:91-97 | whatever the delivery outcomes, the same ids are marked and the same attempts are made; only the recorded outcomes differ |
| Watcher.RepeatedIdNotifiedTwice | check_videos.py:85-97 | an id new at load time that appears at two matching positions of one feed gets two attempts |
| Watcher.TwoPositionsTwoAttempts | check_videos.py:85-97 | attempts at two positions holding the same id are two distinct attempts for that id |
| Watcher.EmptyFeed | check_videos.py:83-100 | an empty feed makes no attempt and leaves the seen set unchanged |
| Watcher.SingleEntryExample | check_videos.py:83-97 | a fresh run over one matching entry makes one attempt with its text and saves {"v1"}; with "v1" already seen it does nothing |

## Left out

- Configuration from environment variables and the exit when a required one is missing (check_videos.py:13-21): process set-up. Only the keyword's default and lower-casing (line 16) are modelled.
- The `ENABLE_OCR` flag (check_videos.py:18, 75): it is read but never used.
- The HTTP requests in `send_telegram` and `fetch_rss_entries` (check_videos.py:34-47): network I/O. Delivery is the oracle `send`, and the fetch result is an input `Fetch`, either entries or a `NetworkError`/`ParseError`.
- XML parsing (check_videos.py:48-66): a foreign library. Entries arrive parsed. A missing required element, which makes the source raise, is covered only as `FetchFailed(ParseError)`.
- Date parsing (check_videos.py:68): a foreign library. It is the total parameter `parse`. Unparseable dates, and naive and aware times compared together, raise in the source and are not modelled.
- Text.Lower: lower-cases ASCII letters only. Python's `str.lower` follows full Unicode rules, some of which change a string's length.
- SeenStore.LoadSeen: the JSON encoding is not modelled. `Malformed` stands for every content that does not read back as an array of ids, and loads as the empty set. Three readable contents fall under it although the source loads something from them: a JSON object (`set()` yields its keys), a top-level JSON string (`set()` yields its characters), and an array holding numbers, booleans or null (`set()` keeps those items, and the next save writes them back). An array holding a nested array or object makes `set()` raise `TypeError`, which check_videos.py:27 catches, so that case loads as the empty set as in the model.
- The `notified` list in `main` (check_videos.py:82, 98): it is filled but never read.
- `print` logging (check_videos.py:93, 95, 101): output only.
- Concurrent runs sharing `seen.json`: the program assumes one run at a time.
