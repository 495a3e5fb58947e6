# hackernews-stories: the story extractor and the saved-story upsert

`hnstories.py` scrapes a Hacker News listing page. It can do this for the
"saved stories" page of a logged-in user. The scraper does four things:

- It turns the first link of each `td.title` cell into a story
  dictionary (`title`, `link`, `user`, `id`, `points`, `posted`) or into
  the "More" pagination marker (`get_story_info`, `get_stories`).
- It turns relative ages such as `3 hours ago` into a UTC calendar day
  (`parse_age`).
- It stores every story with `REPLACE INTO stories (...) VALUES (?, ...)`
  in an SQLite table whose `id` column has a unique index
  (`get_saved_stories`).
- It follows the `more` link to the next page.

This project models that core in Dafny and proves what each step
promises.

- `wrappers.dfy` (`Wrappers`): `Option` and `Result`.
- `text.dfy` (`Text`) covers the ASCII character classes `\d` and `\s`,
  maximal runs of them, literals at a position, and `str.strip()`.
- `patterns.dfy` (`Patterns`) writes the four precompiled regular
  expressions out as string functions. These are `more_link_re`,
  `meta_link_re`, `points_re` and `age_re`, with `re.match` and
  `re.search`. `more_link_re` is a predicate, and a lemma proves it
  equal to the plain shape of the hrefs it accepts. Each of the other
  three is specified by the shapes the pattern accepts, and its matcher
  is proved to return exactly the match Python's `re` would. The greedy
  runs never need to give characters back.
- `age.dfy` (`Age`) models `parse_age`. The clock is a parameter
  (`now`, whole seconds since 0001-01-01T00:00:00 UTC), and a day is a
  proleptic ordinal, as `date.toordinal()` numbers it. Both exceptions
  the code can raise are modelled: `OverflowError` before year 1, and
  Python 2 `strftime`'s `ValueError` before 1900.
- `stories.dfy` (`Stories`) models `get_story_info` and `get_stories`.
  - The parsed document is abstracted to a sequence of title cells. Each
    cell holds its links and the `subtext` cell its first link leads to.
  - The `type` key becomes a tag: `More(link)` or `Story(fields)`.
  - Methods with loops follow the code. Each is proved equal to a
    specification function, and lemmas state what that function means.
    Examples: the last matching link sets `user`, the page fails exactly
    when one cell fails, and `more` is the href of the last marker.
- `saved.dfy` (`Saved`) models the inner loop of `get_saved_stories`:
  - the column list and the `?` list of the statement, for any order
    `iteritems()` may visit the dictionary in;
  - the row that statement stores;
  - `REPLACE` on the unique `id` index, as a `StoryTable` class whose
    methods update the table in place;
  - the URL of the next page.

Three facts about the code shape the model:

- Points come from the LAST span that matches `points_re`, because each
  match overwrites `d['points']`.
- `parse_age` can raise: `OverflowError` when the subtraction goes
  before year 1, and `ValueError` from `strftime` for a day before 1900.
  Either exception aborts the whole page.
- `parse_age` subtracts the age from the current instant before it takes
  the date. A story posted "3 hours ago" is therefore dated the previous
  day whenever the clock reads before 03:00 UTC.

## Model

| member | source | states |
|---|---|---|
| Text.Strip | hnstories.py:59 | `strip()` removes a leading and a trailing run of whitespace and nothing else; the result neither starts nor ends with whitespace |
| Text.StripIdempotent | hnstories.py:62 | stripping the already stripped title again changes nothing, so `title.strip() == 'More'` tests the stripped title itself |
| Patterns.MoreLinkShape | hnstories.py:27 | `more_link_re.match` succeeds exactly when the href is `/x?fnid=` followed by a rest without newlines, with at most one final newline |
| Patterns.DotStarGroup | hnstories.py:28 | the `(.*)$` group has no newline and is the whole rest of the href, or the rest without a final newline |
| Patterns.MatchMetaLink | hnstories.py:28 | `meta_link_re.match` succeeds exactly when the href starts with `user?id=` or `item?id=` and the rest has no newline before its end; the href is the prefix of the kind it reports plus the captured value (plus a final newline) |
| Patterns.PointsShapeIsGreedy | hnstories.py:29 | any way `(\d+)\s+points?` can match puts the digits and the blanks exactly where the maximal runs end |
| Patterns.MatchPoints | hnstories.py:29 | `points_re.match` succeeds exactly when the text starts with digits, blanks and `point`, and then gives the value of exactly those digits; text that starts with a blank never matches |
| Patterns.UnitAt | hnstories.py:30 | the minute/hour/day alternative of `age_re` that matches at a position is the unit whose word is there |
| Patterns.AgeShapeIsGreedy | hnstories.py:30 | any way `age_re` can match at a position is the one the greedy left-to-right attempt finds |
| Patterns.MatchAgeAt | hnstories.py:30 | `age_re` matches at a position exactly when some shape of the pattern lies there, and its groups are that shape's count and unit |
| Patterns.SearchAgeFrom | hnstories.py:30 | the search from a position returns the leftmost later position where `age_re` matches, with its groups; nothing when no position matches |
| Patterns.SearchAge | hnstories.py:84 | `age_re.search` returns the leftmost match in the text, or nothing when `age_re` matches nowhere |
| Age.ParseAge | hnstories.py:36-47 | the day is that of `now` minus count times 60, 3600 or 86400 seconds (0 for any other unit), and never later than today. It fails exactly when that instant is before year 1, with `DateOutOfRange`, or its day precedes 1900-01-01, with `YearBefore1900`. For days it is exactly `count` days before today |
| Age.ParseAgeMonotone | hnstories.py:41-46 | a smaller count of the same unit never gives an earlier day and succeeds whenever the larger one does |
| Stories.LastSomeIsLastHit | hnstories.py:71-83 | a loop that overwrites a key on every hit leaves the value of the last hit, and nothing when no element hits |
| Stories.PostedEntryMeaning | hnstories.py:84-86 | `posted` is set exactly when the text holds an age phrase, to the day `parse_age` gives for the first one |
| Stories.MetaFieldsEntries | hnstories.py:69-86 | each key the `subtext` cell adds comes from its own loop: `user` and `id` from the links, `points` from the spans, `posted` from the age phrase |
| Stories.StoryMetadata | hnstories.py:68-86 | `user`/`id` is present exactly when some link is a user/item link, and then holds the value of the last such link; likewise `points` for the spans; `posted` is present exactly when the text has an age phrase and then holds the day `parse_age` gives for it |
| Stories.MarkerShape | hnstories.py:62 | a title link is the marker exactly when its stripped text is `More` and its href is `/x?fnid=` followed by one line |
| Stories.PostedEntry | hnstories.py:84-86 | the age step fails exactly when the first age phrase names a day `parse_age` cannot make, and then raises `parse_age`'s error; otherwise it sets at most `posted` |
| Stories.MetaFields | hnstories.py:69-86 | the `subtext` cell's fields are `user`, `id`, `points` and `posted` at most. The cell fails exactly when some link has no href, which raises `MissingHref`, or when the age step fails, which raises `parse_age`'s error |
| Stories.StoryInfoOf | hnstories.py:57-87 | the result is the marker exactly when the stripped title is `More` and the href matches `more_link_re`. A story keeps the stripped title and the href, has only `title` and `link` without a `subtext` cell, and otherwise has those plus the cell's metadata. The call fails exactly when a `More` title has no href or a non-marker's `subtext` cell fails, and it then raises that error; so a `More` link whose href is not a `/x?fnid=` link is an ordinary story |
| Stories.GetStoryInfo | hnstories.py:57-87 | the method returns what `StoryInfoOf` specifies |
| Stories.AddLinks | hnstories.py:71-79 | the loop over the `subtext` links raises on a missing href and otherwise sets `user`/`id` from the last link that names one |
| Stories.AddPoints | hnstories.py:80-83 | the loop over the spans sets `points` from the last span that matches `points_re` and leaves every other key alone |
| Stories.AddPosted | hnstories.py:84-86 | the age step adds `posted` from the first age phrase, or raises what `parse_age` raises |
| Stories.AddMetadata | hnstories.py:69-86 | the three steps together add exactly the cell's metadata fields, or raise the first error |
| Stories.GetStories | hnstories.py:90-107 | the loop over the title cells returns what `PageOf` specifies |
| Stories.PageOfKeepsError | hnstories.py:97-101 | an exception in some cell is the exception of the whole page |
| Stories.PageOfLinkedOnly | hnstories.py:97-100 | a title cell without a link contributes nothing |
| Stories.PageOfFirstLinkOnly | hnstories.py:98-101 | only the first link of a cell and its `subtext` cell decide what the cell yields |
| Stories.PageOfFails | hnstories.py:96-107 | the page fails exactly when some linked cell's `get_story_info` raises |
| Stories.PageOfMoreIsLastMarker | hnstories.py:102-103 | `more` is the href of the last marker cell |
| Stories.PageMore | hnstories.py:102-103 | `more` is absent exactly when no cell is a marker, and otherwise is the href of a marker cell that no later marker follows |
| Stories.PageItems | hnstories.py:104-106 | the items are the stories of the non-marker linked cells, one per cell, in page order, without the `type` key |
| Saved.ColumnName | hnstories.py:123 | every dictionary key names a column of `stories`, never `description` |
| Saved.BoundIsPositional | hnstories.py:151-152 | a column named once in the statement gets the parameter in the same position; a column not named gets NULL |
| Saved.PlaceholdersShape | hnstories.py:150 | `','.join(['?'] * n)` has length 2n-1, `?` at even and `,` at odd positions, and exactly n `?` |
| Saved.RowParams | hnstories.py:144-148 | the inner loop lists, position by position, the column and the value of each key in iteration order |
| Saved.RowStatement | hnstories.py:144-151 | the columns are distinct columns of `stories`, one per key with its value in the same position; the statement is `REPLACE INTO stories (<columns>) VALUES (<one ? per value>)`; and the row it stores is the dictionary's row whatever the iteration order |
| Saved.StatementRow | hnstories.py:146-152 | for any `iteritems()` order, the columns are distinct and the row the statement stores has each key in its column and NULL elsewhere |
| Saved.Upsert | hnstories.py:123-126 | `REPLACE` puts the new row, whole, under its id and leaves every other id alone; a row without an id is added; the unique index stays consistent |
| Saved.UpsertAllLastWins | hnstories.py:143-153 | after a page is saved, each id holds the row of the last story with that id, and ids that no story carries keep their rows |
| Saved.StoryTable.constructor | hnstories.py:119-128 | `init_db` gives an empty, consistent table |
| Saved.StoryTable.Replace | hnstories.py:151-152 | executing the statement updates the table as `Upsert` of the statement's row and keeps it consistent |
| Saved.SaveItems | hnstories.py:143-153 | saving the items one `REPLACE` at a time leaves the table `UpsertAll` describes |
| Saved.NextPageUrl | hnstories.py:155-159 | the run continues exactly when `more` is present and non-empty, with the site URL followed by `more` |
| Saved.NextPageFollowsMarker | hnstories.py:155-156 | the run continues exactly when the page has a marker cell, and then fetches a `/x?fnid=` URL |

## Left out

- HTML parsing is left out: html5lib, the sanitizer, lxml and the CSS and
  XPath selectors. A page is given as its title cells. Each cell holds
  its links, given as text content and optional `href`, and its
  `subtext` cell, given as link hrefs, span texts and text content.
- `get_document`, the HTTP session, `login` and its hidden `fnid` field
  are left out because they are I/O.
- The `while 1` fetch loop of `get_saved_stories`, `time.sleep`, `print`
  and `pprint` are left out. The model covers one page's inner loop and
  the next-page decision.
- SQLite itself is left out: connecting, `executescript`, `commit`,
  `close` and the indexes on `posted` and `points`, which do not change
  what a row holds.
- `Saved.SaveItems`: does not model the `OverflowError` sqlite3 raises when
  it binds a `points` value of 2^63 or more, such as the one a span reading
  `99999999999999999999 points` yields. Values are unbounded in the model,
  so such a page is saved as if SQLite accepted the value.
- `Saved.StoryTable.Replace`: binds any `points` value, without the 64-bit
  limit of SQLite's INTEGER binding described above.
- `datetime.utcnow()` is left out: the clock is the parameter `now`.
  Sub-second precision is dropped because it never changes the day.
- `strftime('%Y-%m-%d')` formatting is left out. `posted` is the day
  ordinal, not its `YYYY-MM-DD` text.
- `get_comments` and `fetch` are left out because they only raise
  `NotImplementedError`. The command-line entry point and `getpass` are
  left out too.
- `Strip`: strips ASCII whitespace only, while `unicode.strip()` also
  strips other Unicode spaces.
- Python 2's choice between byte strings and unicode strings, and the
  binding errors it can cause, are left out.
- Dictionary iteration order: `iteritems()` visits the keys in an unspecified
  order. The model takes any order as a parameter, so the proofs hold
  for all of them.
