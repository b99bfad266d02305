# Tweet sweeper, modelled in Dafny

`tweet-sweeper.js` is a one-shot batch script:

1. It exports an Engage database, keeping the rows that carry a Twitter handle.
2. It creates a private Twitter list and fills it with those handles.
3. It reads the list's statuses and splits each status text into words.
4. For every `#hashtag` word with a known hashtag, it adds the handle's recipients to a shoe-interest contact list (hiking, walking, beach or running).
5. It issues one `addContactToContactList` call per (recipient, contact list) pair.
6. It destroys the Twitter list and prints a final report.

Each step is a callback of the previous external call. An error in a stage (export, list creation, population, status read, destroy) is logged and stops the chain. An error from an `addContactToContactList` call is only logged, and the destroy is issued anyway.

The project models this core in several parts:

- **The recipient directory** (`Directory`). This is what `forEachCallback` builds: a flat handle list, handle → recipient ids, and recipient id → email.
- **The tokenizer** (`Tokenizer`). `text.match(/\S+/g)` plus the `#` test. A blank text makes `match` return `null`, so the following `forEach` throws. The model makes this an error result.
- **The classifier** (`Classifier`). The `switch` from hashtag to contact list id.
- **The aggregator** (`Aggregator`). `_processHashtag` and its guarded push into `additions`. Folded over all statuses, it gives `Sweep`.
- **The add calls** (`Applier`). The calls `_handleAdditions` issues, in the order `for...in` visits the keys. That order is left open.
- **The callback chain** (`Pipeline`). A state machine: given the outcome of every external call, `Chain` gives the stage where the run stops and the external calls it issued, in order.
- **The script state** (`Sweeper`). The script's module-level variables as the fields of a class. Its methods change them in place, the way the JavaScript functions do. Each method is proved against the matching function above. `RunScript` is the whole run from load time, and it is proved equal to `Chain`.

External services appear only through their outcomes, which are fields of `Pipeline.Environment`. Each external call is recorded as an `ExternalCall` value in the order it is issued.

## Model

| member | source | states |
|---|---|---|
| Classifier.ContactListIdForHashtag | tweet-sweeper.js:120-141 | a list id comes back exactly for the twelve listed hashtags; it is one of the four shoe lists, and the hashtag belongs to that list's case group |
| Classifier.GroupsDisjoint | tweet-sweeper.js:121-137 | each case group has three hashtags and no hashtag is in two groups |
| Classifier.TableShape | tweet-sweeper.js:121-137 | twelve recognised hashtags map onto four distinct contact list ids |
| Classifier.LookupInverse | tweet-sweeper.js:120-141 | the lookup gives list `l` if and only if the hashtag is one of `l`'s cases |
| Classifier.SameListIffSameGroup | tweet-sweeper.js:121-137 | two recognised hashtags give the same list if and only if they are in the same case group |
| Classifier.CaseSensitive | tweet-sweeper.js:121-139 | matching is exact: `Hiking`, `HIKE`, `#hike` and the empty word give no list |
| Tokenizer.Hashtags | tweet-sweeper.js:85 | tokenizing fails exactly when the text is empty or all whitespace (`match` returns null) |
| Tokenizer.TagsOf | tweet-sweeper.js:86-87 | there are never more hashtags than words |
| Tokenizer.WordsAreWords | tweet-sweeper.js:85 | every token is non-empty and contains no whitespace |
| Tokenizer.WordsEmptyIffBlank | tweet-sweeper.js:85 | there is no token if and only if the text is blank |
| Tokenizer.ScanLayout | tweet-sweeper.js:85 | scanning a layout of words from a word boundary gives back exactly those words |
| Tokenizer.WordsOfLayout | tweet-sweeper.js:85 | round trip: any text made of words, with any leading whitespace, any non-empty whitespace runs between words and any trailing whitespace, splits back into exactly those words |
| Tokenizer.TagsOfAppend | tweet-sweeper.js:85-88 | hashtags keep text order: the tags of two word runs are the tags of the first followed by those of the second |
| Tokenizer.TagsOfMember | tweet-sweeper.js:86-87 | `t` is passed on if and only if some word is `#` followed by `t` |
| Tokenizer.HashtagsOfLayout | tweet-sweeper.js:85-88 | for any text laid out from words, the hashtags are its `#` words with the `#` removed, in text order, repeats kept; a text without words throws |
| Tokenizer.WordsExample | tweet-sweeper.js:85 | `#hiking great day` splits into `#hiking`, `great`, `day` |
| Tokenizer.HashtagsExample | tweet-sweeper.js:85-88 | `#hiking great day` gives `hiking` |
| Tokenizer.HashtagsExampleRunning | tweet-sweeper.js:85-88 | `#running fast` gives `running` |
| Tokenizer.HashtagsExampleRepeated | tweet-sweeper.js:85-88 | a repeated hashtag is passed on twice |
| Tokenizer.WordsExampleSpacing | tweet-sweeper.js:85 | a leading newline, a double space and a trailing tab only separate words: `\n#hiking  #mountain\t` gives `#hiking`, `#mountain` |
| Tokenizer.HashtagsExampleSpacing | tweet-sweeper.js:85-88 | that text gives `hiking`, `mountain` |
| Tokenizer.BlankExample | tweet-sweeper.js:85 | a text of spaces, a tab and a newline is a tokenizer failure |
| Directory.AddRecordEffect | tweet-sweeper.js:27-36 | a row with a handle appends the handle, appends the recipient id to that handle's ids (creating the entry), and sets its email; nothing else changes |
| Directory.NoHandleNoChange | tweet-sweeper.js:28 | a row whose handle is missing or empty leaves the directory unchanged |
| Directory.ValidEmpty | tweet-sweeper.js:8-17 | the load-time directory is consistent |
| Directory.AddRecordValid | tweet-sweeper.js:27-36 | one callback keeps the directory consistent: every mapped handle has a non-empty id list, appears in the handle list, and its ids all have an email |
| Directory.BuildValid | tweet-sweeper.js:27-36 | the export of any row sequence yields a consistent directory |
| Directory.BuildHandles | tweet-sweeper.js:29 | the handle list is the handles of the rows that have one, in row order, duplicates kept |
| Directory.BuildRecipients | tweet-sweeper.js:30-33 | a handle's ids are the ids of the rows with that handle, in row order |
| Directory.BuildEmails | tweet-sweeper.js:34 | a recipient's email is that of the last row with a handle for that recipient |
| Directory.NoHandlesIffNoHandleRecords | tweet-sweeper.js:48 | the handle list is empty exactly when no row has a handle |
| Aggregator.AddListId | tweet-sweeper.js:110-114 | after the guarded push the entry contains the list id, keeps the old entry as a prefix, grows by at most one, and holds nothing new but the list id |
| Aggregator.GuardedPush | tweet-sweeper.js:110-114 | the three branches (new entry `[id]`, push when absent, otherwise nothing) are one `AddToEntry` step |
| Aggregator.AddListIdIdempotent | tweet-sweeper.js:112-113 | pushing a list id already present changes nothing |
| Aggregator.AddListIdDupFree | tweet-sweeper.js:112-113 | the guarded push keeps an entry free of duplicates |
| Aggregator.AddToAllClosedForm | tweet-sweeper.js:102-116 | after the loop over a handle's ids, each of them has the list id and every other entry is unchanged |
| Aggregator.AddToAllCovers | tweet-sweeper.js:102-116 | every recipient of the handle ends up with the list id |
| Aggregator.AddToAllGrows | tweet-sweeper.js:110-114 | entries only grow: old entries are prefixes of the new |
| Aggregator.AddToAllOthers | tweet-sweeper.js:102-116 | recipients not of the handle keep their entry, or stay absent |
| Aggregator.AddToAllDupFree | tweet-sweeper.js:110-114 | duplicate-free entries stay duplicate-free |
| Aggregator.AfterHashtagIdempotent | tweet-sweeper.js:97-118 | the same (handle, hashtag) twice has the effect of once |
| Aggregator.AfterHashtagNoEffect | tweet-sweeper.js:99-106 | an unknown handle or an unrecognised hashtag leaves `additions` unchanged |
| Aggregator.AfterHashtagWellFormed | tweet-sweeper.js:97-118 | `_processHashtag` keeps `additions` well formed (keys are recipients of known handles; entries are non-empty, duplicate-free and hold only shoe-list ids) and only grows its entries |
| Aggregator.AfterHashtagsWellFormed | tweet-sweeper.js:85-88 | so does a whole tweet's run of hashtags |
| Aggregator.SweepWellFormed | tweet-sweeper.js:83-90 | a sweep that does not throw leaves `additions` well formed and grown from where it started |
| Aggregator.AfterHashtagMember | tweet-sweeper.js:97-118 | after `_processHashtag`, list `l` is in a recipient's entry exactly when it was there before, or the handle lists the recipient and the hashtag maps to `l` |
| Aggregator.AfterHashtagsMember | tweet-sweeper.js:85-88 | after one tweet's hashtags, an entry holds exactly what it held plus the lists of those hashtags, for recipients of the author |
| Aggregator.SweepMember | tweet-sweeper.js:83-90 | after a completed sweep, list `l` is in recipient `id`'s entry exactly when it was there at the start, or some status carries a hashtag of `l` and was posted by a handle that lists `id` |
| Aggregator.SweepFailsIffBlank | tweet-sweeper.js:83-90 | the sweep throws if and only if some status text is blank |
| Aggregator.FirstHashtag | tweet-sweeper.js:102-116 | starting from empty additions, a recognised hashtag from a known handle gives each of the handle's recipients an entry holding just that list |
| Aggregator.SweepStep | tweet-sweeper.js:83-90 | a sweep whose first status is not blank applies that status's hashtags in order, then sweeps the rest |
| Aggregator.AfterOneHashtag | tweet-sweeper.js:85-88 | a tweet with one hashtag has the effect of `_processHashtag` on it |
| Applier.AddCallsOfShape | tweet-sweeper.js:149 | an entry issues one call per list id, for that recipient, in entry order |
| Applier.AddCallsOfDistinct | tweet-sweeper.js:149 | a duplicate-free entry issues no call twice |
| Applier.CallsForMember | tweet-sweeper.js:146-150 | a call is issued if and only if it is an add for a visited recipient and a list id of its entry |
| Applier.CallsAreThePairs | tweet-sweeper.js:146-150 | visiting every key, the calls issued are exactly the (recipient, list) pairs of `additions` |
| Applier.CallsForDistinct | tweet-sweeper.js:146-150 | with duplicate-free entries no call is issued twice |
| Applier.CallsForLength | tweet-sweeper.js:146-150 | the number of calls is the sum of the visited entries' lengths |
| Applier.OneCallPerPair | tweet-sweeper.js:146-150 | exactly one call per (recipient, list) pair: distinct, equal to the pairs as a set, and as many as the pairs |
| Pipeline.ExportFirst | tweet-sweeper.js:43-55 | every run starts with the export; it is the only call when the export fails or no row has a handle |
| Pipeline.CreateAndPopulateIssued | tweet-sweeper.js:57-72 | the list is created exactly when the export succeeds with a handle; it is populated with the exported handles exactly when creation also succeeds |
| Pipeline.ReadIssued | tweet-sweeper.js:77-79 | the statuses of list `id` are read exactly when `id` was created and populated |
| Pipeline.DestroyIssued | tweet-sweeper.js:143-173 | list `id` is destroyed exactly when it was created and the sweep ran without a throw |
| Pipeline.DestroyLast | tweet-sweeper.js:151 | when the list is destroyed, the destroy is the last call of the run |
| Pipeline.AddsBeforeDestroy | tweet-sweeper.js:143-161 | between the status read and the destroy come exactly the add calls: one per (recipient, list) pair of the swept additions, none twice |
| Pipeline.AddIssuedIffTweeted | tweet-sweeper.js:77-161 | end to end: the add call for (`id`, `l`) is issued exactly when the sweep ran to completion and some status carries a hashtag of `l` and was posted by an exported handle of `id` |
| Pipeline.AddedRecipientsHaveEmail | tweet-sweeper.js:146-147 | every recipient of the swept additions has an email in the export, so the lookup at line 147 finds one |
| Pipeline.ReportedIffDestroyed | tweet-sweeper.js:163-177 | the final report runs if and only if the destroy was issued and succeeded |
| Pipeline.LeakAfterCreate | tweet-sweeper.js:59-94 | a populate error, a read error or a throwing sweep leaves the created list without a destroy call |
| Pipeline.CreateFails | tweet-sweeper.js:59-62 | when creation fails, nothing is populated, read, added or destroyed |
| Scenarios.ScenarioTwoHandles | tweet-sweeper.js:83-116 | alice (recipient 1) tweeting `#hiking`, and bob (recipients 2, 3) tweeting `#running`, give `{1: [hiking], 2: [running], 3: [running]}` |
| Scenarios.ScenarioRepeatedHashtag | tweet-sweeper.js:110-114 | one status carrying the same hashtag twice adds the list once |
| Scenarios.ScenarioRepeatedStatus | tweet-sweeper.js:83-116 | bob posting `#hiking great day` in two statuses adds the hiking list once to each of his recipients |
| Scenarios.ScenarioUnknownHandle | tweet-sweeper.js:99-100 | a tweet from a handle the export did not see adds nothing |
| Sweeper.TweetSweeper.constructor | tweet-sweeper.js:8-21 | load-time state: empty collections, no list, nothing issued |
| Sweeper.TweetSweeper.ForEachCallback | tweet-sweeper.js:27-36 | the three collections change as `AddRecord` says |
| Sweeper.TweetSweeper.ProcessHashtag | tweet-sweeper.js:97-118 | warns exactly for an unknown handle; `additions` becomes `AfterHashtag` of the old value |
| Sweeper.TweetSweeper.ProcessTweet | tweet-sweeper.js:83-89 | throws exactly on a blank text, leaving `additions` as it was; otherwise it applies the text's hashtags in order |
| Sweeper.TweetSweeper.ExportEngageDatabase | tweet-sweeper.js:43-55 | the stage reached and all calls issued are those of `Chain`, and the directory is the export of the rows |
| Sweeper.TweetSweeper.CreateTwitterList | tweet-sweeper.js:57-75 | from a successful export, stage and calls are those of `Chain`; `twitterListId` is the created id |
| Sweeper.TweetSweeper.SweepTweets | tweet-sweeper.js:77-95 | from a populated list, stage and calls are those of `Chain`; past the sweep, `additions` is the sweep's result |
| Sweeper.TweetSweeper.HandleEntry | tweet-sweeper.js:149 | appends one add call per list id of the entry, in order |
| Sweeper.TweetSweeper.HandleEntries | tweet-sweeper.js:146-150 | visits every key once and appends the calls `CallsFor` gives for that order |
| Sweeper.TweetSweeper.HandleAdditions | tweet-sweeper.js:143-152 | from the swept state, stage and calls are those of `Chain` |
| Sweeper.TweetSweeper.DestroyTwitterList | tweet-sweeper.js:163-173 | appends the destroy of the current list; reports only when the destroy succeeds |
| Sweeper.RunScript | tweet-sweeper.js:40 | a whole run from load time stops at the stage, with the calls, that `Chain` gives |

## Left out

- `profile.js` is not part of this model. It only loads configuration.
- The Engage and Twitter clients, their request options and HTTP details are left out. Each call is an `ExternalCall` value, and its outcome is a field of `Environment`.
- `PopulateList` carries the handle sequence, not the comma-joined string sent as `screen_name`.
- Asynchrony is left out. The callbacks run one after another, as the chain orders them. The add calls of `_handleAddition` are fire-and-forget: the model issues them in order, and their outcomes, which are only logged, are left out.
- The export streams every row before its final callback. A failed export is modelled as all rows delivered followed by an error. The directory is never used after a failure.
- Console output is left out. The email lookups at lines 107 and 147 only feed log text, so their values are not modelled. `Pipeline.AddedRecipientsHaveEmail` shows that the lookup at line 147 always finds an address.
- JavaScript object quirks are left out. Keys are not coerced to strings, and handles such as `__proto__` or `constructor` get no special treatment. `!map[key]` is read as "key absent": every stored array is non-empty, so an existing key is never falsy.
- The visiting order of `for...in` at line 146 is not fixed. It is a ghost parameter that must enumerate every key once, and every property of the add calls holds for every such order.
- Strings are sequences of characters. UTF-16 surrogate pairs are not modelled. `\s` is modelled by the ECMAScript whitespace and line-terminator characters listed in `Tokenizer.IsWhitespace`.
- Sweeper.TweetSweeper.SweepTweets: after a throw it does not state the partially swept `additions`, because the chain ends there and that state is never read.
- The script creates a temporary private list, `amplify-demo` (line 59), and its only delete is `_destroyTwitterList`, which is reached only from `_handleAdditions` (line 151). A populate error (lines 66-67), a status-read error (lines 80-81) or a blank status (line 85) ends the run with the list still in place. The model keeps this behaviour, and `Pipeline.LeakAfterCreate` states it.
