# RansomLook ingestion bookkeeping, modelled in Dafny

RansomLook collects the leak-site posts of ransomware groups. Around its
scrapers sit a few small programs that decide what gets stored. This project
models them:

- **Timestamp** (`timestamp.dfy`): `normalize_date` from
  `tools/import_posts_from_api.py`. The four `strptime` layouts are modelled
  digit by digit, with the leniency `strptime` has: one- or two-digit month,
  day, hour, minute and second, and one to six digits of fraction. Dates are
  checked against the calendar. The result is rendered the way `isoformat`
  does it.
- **PostMerge** (`postmerge.dfy`): `dedupe_and_merge`, over a store
  `map<string, seq<Post>>`. Stored posts are re-normalised and regrouped.
  Incoming posts are admitted first-seen-wins by title. Every group's list is
  then stably sorted by `discovered`.
- **GroupRegistry** (`groupregistry.dfy`): `add_group` from
  `tools/import_new_groups.py`, as a class over one database's records, and the
  counting loop of that script's `main`.
- **Telegram** (`telegram.dfy`): from `tools/import_telegram_groups.py`:
  - `extract_channel_name`, with its three regular expressions and the
    `urlparse` fallback;
  - the line filter of `read_telegram_urls`;
  - the tally of `import_telegram_groups`.
- **Cli** (`cli.dfy`): from `bin/parse.py` and `bin/scrape.py`:
  - the group filter that `load_groups` builds;
  - the empty-set-means-all rule of `scrape.py`;
  - the parser-module selection of `parse.py`;
  - the loop of `parse.py` that keeps one parser's failure from stopping the others.
- **Extractors** (`extractors.dfy`): the two parsers
  `ransomlook/parsers/silentransomgroup.py` and
  `ransomlook/parsers/datavault.py`. The HTML they read is abstracted to the
  cells, strings and paragraphs their selectors pick out. What is modelled is
  what they decide once those are found:
  - which files count;
  - the label lookup;
  - the title filters;
  - the description;
  - the isolation of per-block and per-file errors.
- **Text**, **Lists** and **Wrappers** hold the Python string operations these
  programs use (`strip`, `split`, `splitlines`, `in`, `lower`, string
  ordering), list helpers (comprehension-style filtering, concatenation of
  parts, first-match search) and `Option`.

Loops in the source are Dafny methods with loop invariants, proved equal to a
specification function. The properties are proved as lemmas about that
function. `add_group` mutates a record it fetched and writes it back, so it is
a method of the class `GroupStore`, which holds the database's records.

## Model

| member | source | states |
|---|---|---|
| Timestamp.ParseRendered | tools/import_posts_from_api.py:44-56 | the first layout that parses a rendered timestamp reads back exactly the datetime it came from |
| Timestamp.ParseFirstIs | tools/import_posts_from_api.py:51-56 | when layout `k` is the first that parses, the loop returns what layout `k` read |
| Timestamp.ParseFirstNone | tools/import_posts_from_api.py:51-56 | the loop finds nothing exactly when no layout parses |
| Timestamp.ParseFirstSome | tools/import_posts_from_api.py:51-56 | whatever the loop returns was read by the first layout that parses |
| Timestamp.Normalize | tools/import_posts_from_api.py:40-64 | the result is the input itself or the rendering of some datetime |
| Timestamp.NormalizeFirst | tools/import_posts_from_api.py:44-64 | when layout `k` is the first to parse `s`, the result is the rendering of what it read |
| Timestamp.NormalizeResult | tools/import_posts_from_api.py:40-64 | the result is the input unchanged or a canonical rendering |
| Timestamp.NormalizeCanonical | tools/import_posts_from_api.py:62-64 | a canonical rendering is returned unchanged |
| Timestamp.NormalizeIdempotent | tools/import_posts_from_api.py:40-64 | normalising twice equals normalising once |
| Timestamp.NormalizeNonDate | tools/import_posts_from_api.py:57-61 | text that does not begin with a digit is returned as it is, when the fallback accepts only text that begins with a year |
| Timestamp.NormalizeT | tools/import_posts_from_api.py:47-49 | a `T` between date and time is read by the third or fourth layout and written back as a blank |
| Timestamp.NormalizeZeroMicros | tools/import_posts_from_api.py:62-64 | a fraction of six zero digits is read and then dropped from the rendering |
| Timestamp.NormalizeShortFields | tools/import_posts_from_api.py:44-56 | one-digit month, day, hour, minute and second are read and written back zero-padded |
| Timestamp.ExampleCanonical | tools/import_posts_from_api.py:40-64 | `"2024-03-01 12:00:00"` is returned unchanged |
| Timestamp.ExampleUnknown | tools/import_posts_from_api.py:57-61 | `"unknown"` and `""` are returned unchanged |
| Timestamp.StrptimeRendered | tools/import_posts_from_api.py:44-46 | each blank-separated layout reads a rendering back exactly when the two agree on whether there are microseconds |
| Timestamp.BlankRejectsT | tools/import_posts_from_api.py:44-46 | the blank-separated layouts reject a `T` after the date |
| Timestamp.ValuePad | tools/import_posts_from_api.py:62-64 | reading back a zero-padded number gives the number when it fits the width |
| PostMerge.DedupeAndMerge | tools/import_posts_from_api.py:82-114 | the method's result is the merged store |
| PostMerge.Regroup | tools/import_posts_from_api.py:86-90 | every stored post is filed, re-normalised, under its group |
| PostMerge.AdmitBatch | tools/import_posts_from_api.py:92-109 | the batch loop gives the store that the admission rules define |
| PostMerge.SortGroups | tools/import_posts_from_api.py:111-112 | every group's list is replaced by its stable sort |
| PostMerge.MergeKeepsExisting | tools/import_posts_from_api.py:87-90 | every stored post survives, duplicates included, with only `discovered` re-normalised |
| PostMerge.MergeFrom | tools/import_posts_from_api.py:87-109 | every merged post is a re-normalised stored post of its group or the record built from a kept incoming post of that group |
| PostMerge.MergeKeys | tools/import_posts_from_api.py:87-109 | a group is in the result exactly when it had a stored post or a kept incoming post names it |
| PostMerge.ConvertFields | tools/import_posts_from_api.py:93-105 | a kept post keeps its title; its description is a string, empty exactly when the incoming one is missing or falsy and otherwise the incoming one; `discovered` is the incoming value as text or a canonical timestamp, and normalising it again changes nothing; link, magnet and screen are present, and equal the incoming values when those were present |
| PostMerge.MergeUnique | tools/import_posts_from_api.py:106-109 | a group whose titles were unique still has unique titles |
| PostMerge.MergeNeverRevised | tools/import_posts_from_api.py:106-109 | a title the group already had is carried only by stored posts, so their `discovered` is never revised |
| PostMerge.MergeFirstSeen | tools/import_posts_from_api.py:106-109 | a title new to the group comes from the first kept incoming post carrying it, and that post is in the result |
| PostMerge.MergeHasTitles | tools/import_posts_from_api.py:104-109 | every kept incoming post finds its title in its group afterwards |
| PostMerge.MergeSorted | tools/import_posts_from_api.py:111-112 | every merged list is non-decreasing in `discovered` under string order |
| PostMerge.MergeStable | tools/import_posts_from_api.py:111-112 | posts with equal `discovered` keep collection order: stored posts first, then the batch in order |
| PostMerge.SortPermutation | tools/import_posts_from_api.py:111-112 | the sort only rearranges its input |
| PostMerge.SortSorted | tools/import_posts_from_api.py:111-112 | the sort puts posts in non-decreasing `discovered` order |
| PostMerge.SortStable | tools/import_posts_from_api.py:111-112 | the sort keeps posts with equal keys in their relative order |
| PostMerge.MergeIdempotent | tools/import_posts_from_api.py:87-112 | with an idempotent normaliser, merging the result again with the same batch changes nothing |
| PostMerge.MergeIdempotentDates | tools/import_posts_from_api.py:82-114 | with `normalize_date` as the normaliser, the merge is idempotent |
| PostMerge.DateNormalizerIdempotent | tools/import_posts_from_api.py:40-64 | `normalize_date` meets what the idempotence proof needs of the normaliser |
| GroupRegistry.GroupStore.AddGroup | tools/import_new_groups.py:74-108 | the store's new records and the outcome are those `add_group` defines: create, append a location, skip, or raise on an unreadable value |
| GroupRegistry.AddNew | tools/import_new_groups.py:96-108 | an unknown name gets the default record at `[url]` and the result is True |
| GroupRegistry.AddKnownUrl | tools/import_new_groups.py:79-87 | a location already registered gives False and no change |
| GroupRegistry.AddNewUrl | tools/import_new_groups.py:89-94 | a new location is appended last, the other fields are kept, and the result is True |
| GroupRegistry.AddFrame | tools/import_new_groups.py:76-108 | only the key `name` is written |
| GroupRegistry.AddLocations | tools/import_new_groups.py:84-94 | unless the stored value is unreadable, `url` is a location afterwards and no location is lost or reordered |
| GroupRegistry.AddChanges | tools/import_new_groups.py:79-108 | the store changes exactly when the result is True |
| GroupRegistry.AddIdempotent | tools/import_new_groups.py:78-108 | a second identical call returns False, or raises again, and changes nothing |
| GroupRegistry.ImportAllCounts | tools/import_new_groups.py:117-151 | `added + skipped + failed` equals the number of entries |
| GroupRegistry.ImportDown | tools/import_new_groups.py:134-148 | an entry whose database is unreachable is counted as failed and writes nothing |
| GroupRegistry.ImportAllFrame | tools/import_new_groups.py:122-148 | a database that no entry names is never written |
| GroupRegistry.ImportAllKeys | tools/import_new_groups.py:122-148 | keys are only added, and only the entries' names |
| GroupRegistry.ImportAllFresh | tools/import_new_groups.py:122-148 | entries with distinct names that no reachable database holds are all added |
| GroupRegistry.MainAddsAll | tools/import_new_groups.py:26-71 | on databases holding none of the five groups, the counts are five added, none skipped, none failed |
| GroupRegistry.ImportNewGroups | tools/import_new_groups.py:117-148 | the loop leaves every database and the counts as the per-entry rule defines |
| Telegram.UrlPath | tools/import_telegram_groups.py:61 | `urlparse(url).path`, or nothing when `urlparse` raises; a path holds no tab, line break, `?` or `#` |
| Telegram.PathOf | tools/import_telegram_groups.py:61-62 | the path is a prefix of what follows the network location and holds no `?` or `#` |
| Telegram.UrlPathIgnoresLeading | tools/import_telegram_groups.py:61 | leading control characters and spaces do not change the path |
| Telegram.SanitizedDropsUnsafe | tools/import_telegram_groups.py:61 | `urlsplit` deletes a tab, carriage return or line feed wherever it occurs |
| Telegram.UrlPathDropsUnsafe | tools/import_telegram_groups.py:61 | a tab, carriage return or line feed anywhere in the URL does not change the path |
| Telegram.SplitSchemeOf | tools/import_telegram_groups.py:61 | a scheme that starts with a letter and has only scheme characters is split off at its `:` and lower-cased |
| Telegram.SplitNetlocOf | tools/import_telegram_groups.py:61 | after `//`, the network location runs up to the first `/`, `?` or `#` |
| Telegram.UrlPathRejectsUnbalanced | tools/import_telegram_groups.py:61 | a network location with a `[` and no `]`, or the reverse, makes `urlparse` raise |
| Telegram.ChannelName | tools/import_telegram_groups.py:27-66 | no channel name contains `/`; there is no name when `urlparse` raises |
| Telegram.NameOf | tools/import_telegram_groups.py:39-66 | the name of a URL without trailing slashes contains no `/` |
| Telegram.NameOfJoinChat | tools/import_telegram_groups.py:39-52 | when the public pattern does not match, the first join-chat match gives the name |
| Telegram.NameOfInvite | tools/import_telegram_groups.py:39-58 | when neither the public nor the join-chat pattern matches, the first invite match gives the name |
| Telegram.NameOfPath | tools/import_telegram_groups.py:39-66 | when no pattern matches, the name comes from the URL path, or there is none when `urlparse` raises |
| Telegram.ChannelIgnoresSlashes | tools/import_telegram_groups.py:37 | trailing slashes never change the name |
| Telegram.ChannelPublic | tools/import_telegram_groups.py:40-46 | `…t.me/NAME` followed by any slashes is named NAME without one leading `@` |
| Telegram.PublicUnique | tools/import_telegram_groups.py:40 | the end-anchored public pattern can match at one place only |
| Telegram.ChannelJoinChat | tools/import_telegram_groups.py:37-52 | any text, then `t.me/joinchat/CODE`, then any further path and any slashes, is named `joinchat_` and the first ten characters of the code, when `t.me/` occurs nowhere else |
| Telegram.ChannelInvite | tools/import_telegram_groups.py:37-58 | any text, then `t.me/+CODE`, then a further path and any slashes, is named `invite_` and the first ten characters of the code, when `t.me/` occurs nowhere else |
| Telegram.ChannelBareInvite | tools/import_telegram_groups.py:37-46 | any text, then a bare `t.me/+CODE` and any slashes, is caught by the public pattern and named `+CODE`, not `invite_CODE` |
| Telegram.ChannelUnbalanced | tools/import_telegram_groups.py:61 | `http://[t.me/a/b` matches no pattern and gets no name: `urlparse` raises on its network location |
| Telegram.PathNameShape | tools/import_telegram_groups.py:61-66 | the fallback name has at most 50 characters and no `/`, or is `unknown_channel` when the path is only slashes |
| Telegram.SearchFirst | tools/import_telegram_groups.py:40-58 | `re.search` reports the leftmost match |
| Telegram.LooksTelegramContains | tools/import_telegram_groups.py:80 | the two prefix tests add nothing to the `t.me` containment test |
| Telegram.UrlsExactly | tools/import_telegram_groups.py:74-83 | the URLs are exactly the stripped lines that are non-empty, not comments and mention `t.me`, in order |
| Telegram.ReadTelegramUrls | tools/import_telegram_groups.py:69-91 | the loop collects exactly those URLs from the file's lines |
| Telegram.ImportKnown | tools/import_telegram_groups.py:130-136 | a URL already stored under its name is skipped without writing or asking |
| Telegram.ImportOverwrite | tools/import_telegram_groups.py:137-144 | a name stored with another link is overwritten only on a `y` or `Y` answer |
| Telegram.ImportAllNext | tools/import_telegram_groups.py:119-157 | one more URL is named and imported by the per-URL rule, or stops the run when it cannot be named |
| Telegram.ImportAllStopped | tools/import_telegram_groups.py:119-131 | once a URL that cannot be named or an unreadable record has stopped the run, later URLs change nothing |
| Telegram.ImportAllCounts | tools/import_telegram_groups.py:115-165 | a finished run counts every URL once: `imported + skipped + errors` is the number of URLs |
| Telegram.AllNamedEvery | tools/import_telegram_groups.py:119-127 | a dry run goes through exactly when every URL can be named |
| Telegram.ImportTelegramGroups | tools/import_telegram_groups.py:94-165 | a dry run writes and counts nothing, and finishes exactly when every URL can be named; otherwise the run is the loop over all URLs |
| Lists.AllOfEvery | tools/import_telegram_groups.py:119-127 | checking a growing prefix element by element is checking every element |
| Cli.NamedMembers | bin/parse.py:22-29 | the names are exactly the stripped forms of the non-blank pieces |
| Cli.AddLines | bin/parse.py:26-29 | the loop adds every stripped non-blank line to the set |
| Cli.ParseLoadGroups | bin/parse.py:20-30 | the result is the union of the `-g` names and the `-f` file's names, lines read in text mode |
| Cli.ScrapeLoadGroups | bin/scrape.py:10-19 | the result is the union of the `-g` names and the `-f` file's `splitlines()` names |
| Cli.GroupsTrimmed | bin/parse.py:20-30 | every group is non-empty with no whitespace at either end |
| Cli.OptionGroupsNoComma | bin/parse.py:22-23 | a group named by `-g` never contains `,` |
| Cli.OptionGroupsEmpty | bin/parse.py:22-23 | `-g` names no group exactly when it is absent or every piece is blank |
| Cli.GroupsEmpty | bin/parse.py:20-30 | the filter is empty exactly when every `-g` piece and every file line is blank |
| Cli.NamedRepeat | bin/parse.py:20-30 | repeating a block of lines adds no group |
| Cli.ScrapeFilterSelects | bin/scrape.py:28-29 | an empty set selects every group; otherwise exactly the named ones |
| Cli.ScrapeMain | bin/scrape.py:22-33 | the scraper runs on database 0 and then on database 3, with the same filter |
| Cli.BasenameSuffix | bin/parse.py:42 | a slash-free suffix of a path is a suffix of its base name, and the base name has no `/` |
| Cli.NameOfParserFile | bin/parse.py:42 | a `.py` path not ending in `__init__.py` is named by its base name without `.py`, never `__init__` |
| Cli.ParserNamesMembers | bin/parse.py:41-42 | the parser names are exactly the names of the regular files other than `__init__.py` |
| Cli.ParserNamesSound | bin/parse.py:41-42 | every parser name is a base name without `.py` and never `__init__` |
| Cli.SelectMembers | bin/parse.py:43-44 | a name is selected exactly when it is a parser name and the filter is empty or holds it |
| Cli.SelectAppend | bin/parse.py:43-44 | selection keeps the parsers' order |
| Cli.ContributionPrefix | bin/parse.py:50-56 | a parser stores a prefix of its entries, all of them when it does not fail |
| Cli.ParserLogAppend | bin/parse.py:46-56 | the log and the failures of two blocks of parsers are those of each block, one after the other |
| Cli.AppendAll | bin/parse.py:51-52 | entries are stored one by one until `appender` first raises |
| Cli.RunParsers | bin/parse.py:46-56 | every selected parser runs; the log and the failure list are what the per-parser rule defines |
| Cli.ParseMain | bin/parse.py:39-56 | the run covers the selected parsers of the found files under the loaded filter |
| Extractors.GetTextTrimmed | ransomlook/parsers/silentransomgroup.py:23-33 | text read with `get_text(strip=True)` has no whitespace at either end |
| Extractors.SilentBlocks | ransomlook/parsers/silentransomgroup.py:19-43 | the block loop appends exactly the entries that the per-block rule defines |
| Extractors.SilentMain | ransomlook/parsers/silentransomgroup.py:7-49 | `main` returns the entries that the per-file and per-block rules define, in order |
| Extractors.SilentBlockSound | ransomlook/parsers/silentransomgroup.py:20-41 | an entry from a block has a non-empty, trimmed title without `...`, and the page as slug |
| Extractors.SilentEntriesSound | ransomlook/parsers/silentransomgroup.py:11-41 | every entry has a non-empty, trimmed title without `...`, and a slug that names a file of the group |
| Extractors.SilentOrder | ransomlook/parsers/silentransomgroup.py:18-41 | entries come in file order, then in block order |
| Extractors.SilentIsolation | ransomlook/parsers/silentransomgroup.py:18-46 | a broken block or an unreadable file removes only its own entries |
| Extractors.SilentForeign | ransomlook/parsers/silentransomgroup.py:11-13 | a file without the `silentransomgroup-` prefix gives no entry |
| Extractors.ExtractTextFromBlock | ransomlook/parsers/datavault.py:6-13 | the value is the stripped second item of the first list with two items whose first item holds the label, or `''` |
| Extractors.LabelValueTrimmed | ransomlook/parsers/datavault.py:8-13 | the value is always stripped, and is `''` when no list qualifies |
| Extractors.DescriptionEmpty | ransomlook/parsers/datavault.py:38-40 | the description is empty exactly when every paragraph is blank |
| Extractors.DescriptionLines | ransomlook/parsers/datavault.py:40 | when no paragraph holds a newline, the description's lines are the stripped non-blank paragraphs, in order |
| Extractors.SplitJoin | ransomlook/parsers/datavault.py:40 | splitting joined pieces at a separator none of them holds gives the pieces back |
| Extractors.VaultVictims | ransomlook/parsers/datavault.py:31-49 | the victim loop appends exactly the entries that the per-block rule defines |
| Extractors.VaultMain | ransomlook/parsers/datavault.py:16-54 | `main` returns the entries that the per-file and per-block rules define, in order |
| Extractors.VaultVictimSound | ransomlook/parsers/datavault.py:33-47 | an entry from a `main_block` has a non-empty, stripped title |
| Extractors.VaultEntriesSound | ransomlook/parsers/datavault.py:21-47 | every entry has a non-empty, stripped title and a slug that names a file of the group |
| Extractors.VaultIsolation | ransomlook/parsers/datavault.py:32-51 | an unreadable file, a broken block or an untitled block removes only its own entries |
| Extractors.VaultOrder | ransomlook/parsers/datavault.py:20-47 | entries come in file order, then in page order |

## Left out

- Printing, Redis connections, `os.listdir`, reading files, `input()` and `sys.exit`: the store is a map, a directory listing is a sequence of files, a file is its text, and the operator's answers are a parameter.
- `datetime.fromisoformat` is a parameter of `normalize_date` returning a naive datetime or nothing. Its grammar, time zones and aware datetimes are not modelled. Some lemmas assume it accepts only text that begins with four digits.
- `strptime` and `\d` also accept non-ASCII decimal digits; the model reads ASCII digits only.
- PostMerge: only the post keys the merge reads or writes are modelled. The in-place update of a stored post's dictionary at line 89 is modelled as a new value. Aliasing between posts is not captured. So is the order of dictionary keys.
- Telegram.UrlPath: `urlparse` is modelled as far as it decides the path or raises: the stripping of leading control characters and spaces, the deletion of tabs, carriage returns and line feeds, the scheme, the network location, the `ValueError` for an unbalanced `[` or `]` in it, and the `;parameters` cut. The checks newer Python versions add are not modelled: the validation of a bracketed host as an IPv6 or IPvFuture address, and the NFKC check of a non-ASCII network location. A URL that makes `urlparse` raise stops the whole import, dry run included, as the call at line 121 is outside any `try`.
- Telegram.ChannelJoinChat, Telegram.ChannelInvite: stated for links in which `t.me/` occurs only once. With a second occurrence the name depends on which pattern matches first; `NameOfJoinChat`, `NameOfInvite` and `NameOfPath` state that rule for any text.
- `teladder` (`ransomlook.telegram`) is not part of this model. It is a parameter giving the new store and its result, or raising.
- `appender`, `statsgroup`, `run_data_viz` and `ransomlook.scraper` are not part of this model. The appender is a parameter saying whether a call completes. The scraper is recorded as the calls made to it.
- `importlib.import_module` failing for a listed file is not modelled; a module's `main()` is a parameter returning its entries or raising.
- The HTML is not parsed. A silentransomgroup page is its `.block_1` elements as their `td` cells (each with its `.string` and the strings of the next cell). A datavault page is its `main_block` elements as a title text and paragraph texts. An element whose handling raises is a distinct value.
- Extractors.Qualifies: `str.lower()` is modelled on ASCII letters only; non-ASCII case mappings are not modelled.
- Extractors.Labelled: `re.compile(key, re.IGNORECASE)` is modelled for keys of plain ASCII characters without regular-expression metacharacters, which the two keys are.
- `extract_text_from_block` is modelled on its own; `main` in `datavault.py` never calls it.
- The Slack tools, the other parser modules, the crypto importer and `bin/rf.py` and `bin/clear_screen_queue.py` are not part of this model.
