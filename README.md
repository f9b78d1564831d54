# lightcast core, modelled in Dafny

lightcast is a small podcast client. Its core (`lightcast/core.py`) does four things:

- It reads an episode's duration (`"100"`, `"1:30:00"`) into seconds.
- It reads an RSS publication date (`"Mon, 21 Dec 2020 05:22:00 +0000"`) into a date-time with an offset.
- It turns each `<item>` of a parsed RSS feed into an `Episode`.
- It turns each entry of an iTunes search response into a `Podcast`. Before that, it builds the search URL from the user's query.

The model follows the code as a pure program: datatypes, functions and lemmas, one module per concern.

- `Results`: the `Option`/`Result` wrappers and the Python exception a call raises (`ValueError`, `IndexError`, `AttributeError`, `KeyError`, `TypeError`). Also the all-or-nothing list mapping that `[f(x) for x in xs]` is when `f` may raise.
- `Strings`: `str.strip(chars)` characterised by what it removes, and `str.split(sep)` with its inverse, `join`.
- `Decimal`: `int(text)` as CPython accepts it. That means surrounding whitespace, an optional sign, single underscores between digits, and the 4300-digit limit. `str(n)` is modelled as its inverse.
- `Duration`: `_parse_duration`.
- `PubDate`: `_parse_publication_date`, which is `datetime.strptime` with `"%a, %d %b %Y %H:%M:%S %z"`, following the regular expressions of CPython 3.12's `_strptime`. It also models the canonical RSS spelling of a timestamp and the round trip through the parser.
- `Xml`: the `minidom` tree the feed reader walks, and `getElementsByTagName`.
- `Episodes`: `Episode.from_xml`, the feed comprehension, `Episode.download`'s target path, and items and feeds as a publisher writes them.
- `Podcasts`: decoded JSON, `Podcast.from_dict`, the search-result comprehension, and responses as the service writes them.
- `Query`: the search URL, that is, the space-to-`+` replacement and `urllib.parse.quote` over UTF-8. Percent-decoding and UTF-8 decoding are modelled as their partners.

Some behaviours of the code a reader may not expect, all of which the model keeps:

- `strip("\n")` removes every newline at both ends of a field, leading ones included, and keeps the newlines inside it.
- A duration may be negative (`"-5"` is -5 seconds), and no field of `H:M:S` is range-checked.
- Every failure is a built-in Python exception (`ValueError`, `IndexError`, `AttributeError`, `KeyError`, `TypeError`); the model names the one raised.
- `id` is whatever JSON value `trackId` holds, never converted to an integer.
- An episode's title may be empty after stripping. An empty `<title/>` element is an `AttributeError`, but a title made of newlines reads as `""`.
- The date format is not an exact layout. `strptime` accepts one-digit days and hours, runs of whitespace, names in any ASCII case, and offsets with colons, seconds or `Z`. It refuses impossible calendar dates, offsets of a day or more, zone names such as `GMT`, and anything written after the offset.
- A space in the query reaches the service as `%2B`, a literal plus sign, because `quote` encodes the `+` that replaced it. A space and a `+` in the query are therefore indistinguishable.

## Model

| member | source | states |
|---|---|---|
| Results.MapAll | lightcast/core.py:70 | a list comprehension over a raising call succeeds iff every element does, then maps each element in order; otherwise it fails with the error of the first failing element |
| Results.MapAllIsComprehension | lightcast/core.py:70 | the mapping succeeds iff every element does, holds at position k what element k maps to, and otherwise carries the first failing element's error |
| Results.MapAllTo | lightcast/core.py:113 | when each element maps to its counterpart, the comprehension gives exactly that list |
| Results.FirstFailure | lightcast/core.py:70 | the first failing element: everything before it succeeds and it fails |
| Results.FirstFailureAt | lightcast/core.py:113 | an element that fails after only successes is the one whose error the comprehension raises |
| Strings.Lead | lightcast/core.py:56 | the newlines `strip` removes from the front: all skipped characters are stripped ones and the next is not |
| Strings.Trail | lightcast/core.py:56 | the newlines `strip` removes from the back, likewise |
| Strings.Strip | lightcast/core.py:56-59 | `strip(chars)` leaves a contiguous piece of the text, starting and ending outside `chars`, with only `chars` around it |
| Strings.StripUnique | lightcast/core.py:56-59 | that characterisation fixes the result: any two strings meeting it are equal |
| Strings.EmptyStripIffAll | lightcast/core.py:56 | stripping leaves nothing iff every character is stripped |
| Strings.StripIsLeadTrail | lightcast/core.py:56 | a non-empty stripped text starts where the leading run ends and ends where the trailing run starts |
| Strings.LeadAt | lightcast/core.py:56 | the leading run stops at the first character outside the set |
| Strings.LastNotIsTrail | lightcast/core.py:56 | the trailing run starts right after the last character outside the set |
| Strings.StripIdempotent | lightcast/core.py:56-59 | stripping twice is stripping once |
| Strings.StripSurrounded | lightcast/core.py:56-59 | a text with stripped characters only around it strips to itself, interior newlines kept |
| Strings.StripAbsorbs | lightcast/core.py:56-59 | extra stripped characters around a text do not change the result |
| Strings.StripShape | lightcast/core.py:56-59 | cutting the leading run and then the trailing run of the rest leaves exactly the stripped text |
| Strings.AbsorbAround | lightcast/core.py:56-59 | stripped characters added around a text are removed together with the text's own |
| Strings.AllConcat | lightcast/core.py:56 | two runs of stripped characters side by side are one run |
| Strings.JoinAll | lightcast/core.py:24 | joining parts with a separator brings in no character besides theirs and the separator |
| Strings.Split | lightcast/core.py:24 | `split(":")` gives one more piece than there are colons, no piece holds a colon, and joining the pieces with `:` gives the text back |
| Strings.CountZero | lightcast/core.py:23 | no colon is counted iff `":" in text` is false |
| Decimal.DigitChar | lightcast/core.py:27 | each digit value has a digit character that reads back as it |
| Decimal.ShowNat | lightcast/core.py:27 | `str(n)` of a natural number is a non-empty digit string |
| Decimal.ShowNatValue | lightcast/core.py:27 | the digits of `str(n)` have the value `n` |
| Decimal.RemoveUnderscores | lightcast/core.py:27 | removing the underscores of a grouped number leaves only digits, exactly one fewer character per underscore |
| Decimal.RemoveUnderscoresConcat | lightcast/core.py:27 | the digits of a concatenation are the digits of its parts, in order |
| Decimal.UnderscoreDropped | lightcast/core.py:27 | a separator between two digit groups is dropped and both groups are kept in order |
| Decimal.GroupedExample | lightcast/core.py:27 | `int("1_000")` is 1000 |
| Decimal.PlusExample | lightcast/core.py:27 | `int("+7")` is 7 |
| Decimal.DoubleUnderscoreExample | lightcast/core.py:27 | `int("1__0")` is a ValueError |
| Decimal.ParseInt | lightcast/core.py:24-27 | `int(text)` fails only with a ValueError about the text itself |
| Decimal.ParseDigits | lightcast/core.py:27 | a string of ASCII digits within the digit limit reads as its decimal value, leading zeros allowed |
| Decimal.ParseShowInt | lightcast/core.py:27 | `int(str(n)) == n` for every integer within the digit limit |
| Decimal.ParseIgnoresSurroundingSpace | lightcast/core.py:27 | whitespace around a number changes neither whether it reads nor what it reads as |
| Decimal.NoDigitNoNumber | lightcast/core.py:27 | a text without an ASCII digit (empty, blank, a lone sign) is a ValueError |
| Decimal.SignedDigits | lightcast/core.py:27 | an unsigned digit string is its own value |
| Decimal.SignedNegative | lightcast/core.py:27 | a leading `-` negates the value |
| Decimal.UnsignedDigits | lightcast/core.py:27 | digits without a sign or underscores, within the limit, read as their decimal value |
| Decimal.ParseNegative | lightcast/core.py:27 | `-` and digits within the limit read as the negated value |
| Decimal.StrippedNoDigit | lightcast/core.py:27 | stripping whitespace cannot bring a digit into a text that had none |
| Decimal.UnspacedStripsToItself | lightcast/core.py:27 | a text not starting or ending in whitespace is unchanged by the whitespace strip `int` does |
| Decimal.RemoveUnderscoresNoop | lightcast/core.py:27 | a digit string without underscores is unchanged by their removal |
| Decimal.ParseIntSpells | lightcast/core.py:27 | `int(text)` reads `v` exactly when the text is whitespace, an optional sign, digits with single underscores between them within the digit limit, and whitespace, with `v` the signed value of the digits; any other text is refused |
| Decimal.ParseIntSound | lightcast/core.py:27 | whatever `int` reads is laid out in that grammar and worth what it reads as |
| Decimal.ParseIntComplete | lightcast/core.py:27 | every text in that grammar reads as the signed value of its digits |
| Decimal.SignOf | lightcast/core.py:27 | a stripped number is its sign, if any, then grouped digits within the limit, worth their signed value |
| Decimal.SpaceAround | lightcast/core.py:27 | a text is the whitespace `int` strips, what remains, and whitespace again |
| Decimal.SignedEnds | lightcast/core.py:27 | a signed number neither starts nor ends with whitespace |
| Decimal.SignedValue | lightcast/core.py:27 | an optional sign and grouped digits within the limit read as their signed value |
| Decimal.ReadCharacters | lightcast/core.py:27 | every character of a text `int` reads is whitespace, a digit, `_` or a sign |
| Decimal.LayoutCharacters | lightcast/core.py:27 | a text in the grammar holds only whitespace, digits, `_` and signs |
| Decimal.ForeignCharRefused | lightcast/core.py:27 | a text holding any other character is a ValueError about itself |
| Decimal.TrailingLetterExample | lightcast/core.py:27 | `int("12a")` is a ValueError |
| Duration.UnpackThree | lightcast/core.py:24 | `h, m, s = map(int, fields)` succeeds only with exactly three fields, each read by `int`, and fails only with a ValueError |
| Duration.ParseDuration | lightcast/core.py:21-27 | a text without a colon is read exactly as `int` reads it; a colon text parses only with exactly two colons and only when `int` reads every field; every failure is a ValueError |
| Duration.SecondsForm | lightcast/core.py:26-27 | a digit text without a colon is that many seconds |
| Duration.ClockForm | lightcast/core.py:23-25 | `H:M:S` of digit fields is `h * 3600 + m * 60 + s`, whatever the fields' range |
| Duration.ClockFields | lightcast/core.py:23-24 | a text of three digit fields between two colons takes the colon branch and unpacks to the fields' values |
| Duration.DigitFields | lightcast/core.py:24 | three digit fields unpack to their decimal values, in order |
| Duration.ColonCase | lightcast/core.py:23-25 | once the three fields unpack, the result is their weighted sum |
| Duration.UnpackDigits | lightcast/core.py:24 | three readable fields unpack to their values in order |
| Duration.SplitClock | lightcast/core.py:24 | `H:M:S` splits into its three fields |
| Duration.SecondsRoundTrip | lightcast/core.py:21-27 | `str(n)` of any number of seconds (negative included) parses back to `n` |
| Duration.WrongFieldCount | lightcast/core.py:24 | a colon text without exactly three fields is an error |
| Duration.EmptyIsError | lightcast/core.py:27 | the empty text is a ValueError about itself |
| Duration.NoColonInDigits | lightcast/core.py:23 | a digit text takes the plain-integer branch |
| Duration.SplitNoSep | lightcast/core.py:24 | a text without a colon splits into itself alone |
| Duration.SplitAt | lightcast/core.py:24 | splitting cuts at the first colon and goes on with the rest |
| Duration.ForeignCharRefused | lightcast/core.py:21-27 | a duration holding anything but whitespace, digits, `_`, signs and colons is refused, with or without colons |
| Duration.FieldCharacters | lightcast/core.py:23-24 | a clock reading that parses holds only characters of its numbers and colons |
| Duration.NonNumericField | lightcast/core.py:24 | `"1:2:x"` is an error |
| PubDate.DaysInMonth | lightcast/core.py:18 | the calendar check's month length is 28 to 31 days |
| PubDate.IndexOf | lightcast/core.py:18 | a name is found at a position holding it, and not found only when absent |
| PubDate.ParsePubDate | lightcast/core.py:16-18 | a parsed date is a valid calendar date-time with an offset under a day; every failure is a ValueError about the text |
| PubDate.Pad2 | lightcast/core.py:17 | the two-digit fields of the format are two digits |
| PubDate.Pad4 | lightcast/core.py:17 | the `%Y` field is four digits |
| PubDate.OffsetMinutes | lightcast/core.py:17 | a whole-minute offset under a day is fewer than 1440 minutes, and exactly its size |
| PubDate.FormatPubDateEnds | lightcast/core.py:17 | the canonical spelling begins with the weekday's capital and ends with a digit of the offset |
| PubDate.ParseFormat | lightcast/core.py:16-18 | every valid timestamp with a whole-minute offset, written in the format, parses back to itself |
| PubDate.ZoneOfMinutes | lightcast/core.py:17 | the sign, hours and minutes written for `%z` give the offset back |
| PubDate.ParseScanned | lightcast/core.py:18 | once the text matches the format, the parse succeeds iff the fields form a valid date-time |
| PubDate.ScanText | lightcast/core.py:17 | the format's layout reads back field by field |
| PubDate.ScanDateText | lightcast/core.py:17 | `%a, %d %b %Y` reads back as its weekday, day, month and year |
| PubDate.ScanDayMonthYearText | lightcast/core.py:17 | `%d %b %Y` reads back as its day, month and year |
| PubDate.SpacedDayStep | lightcast/core.py:17 | ` %d` written with two digits reads back as the day |
| PubDate.SpacedMonthStep | lightcast/core.py:17 | ` %b` written as the month's abbreviation reads back as the month |
| PubDate.SpacedYearStep | lightcast/core.py:17 | ` %Y` written with four digits reads back as the year |
| PubDate.Pad2Step | lightcast/core.py:17 | a two-digit field followed by a non-digit reads as its value |
| PubDate.Pad4Step | lightcast/core.py:17 | a four-digit field followed by a non-digit reads as its value |
| PubDate.SexagesimalStep | lightcast/core.py:17 | two digits below 60 in an offset read as that many minutes |
| PubDate.SpaceStep | lightcast/core.py:17 | a space in the format consumes one blank of the text and no more before a non-blank |
| PubDate.LiteralStep | lightcast/core.py:17 | a literal character of the format consumes itself |
| PubDate.ScanClockText | lightcast/core.py:17 | `%H:%M:%S` reads back as its hour, minute and second |
| PubDate.ScanZoneText | lightcast/core.py:17 | `%z` written as `±HHMM` reads back as its offset |
| PubDate.OffsetStep | lightcast/core.py:17 | `±HHMM` with minutes below 60 is that signed number of minutes |
| PubDate.NameStep | lightcast/core.py:17 | each weekday and month abbreviation reads as its own position |
| PubDate.DistinctIndexOf | lightcast/core.py:17 | in a list of distinct names, each name is found at its own position |
| PubDate.Pad2Value | lightcast/core.py:17 | two padded digits have the value they pad |
| PubDate.Pad4Value | lightcast/core.py:17 | four padded digits have the value they pad |
| PubDate.PrefixDigits | lightcast/core.py:17 | a number field stops at the first non-digit |
| PubDate.FeedExample | lightcast/core.py:16-18 | `"Mon, 21 Dec 2020 05:22:00 +0000"` parses to 2020-12-21 05:22:00 UTC |
| PubDate.WeekdayUnchecked | lightcast/core.py:18 | the weekday is read but never checked against the date |
| PubDate.NoFebruary30 | lightcast/core.py:18 | `"Sun, 30 Feb 2020 00:00:00 +0000"` is refused although every field has the right shape |
| PubDate.FullDayOffsetRefused | lightcast/core.py:18 | an offset of `+2400` is well-formed but refused |
| PubDate.OffsetColonOptional | lightcast/core.py:17 | `%z` reads `±HH:MM` and `±HHMM` alike |
| PubDate.ZuluOffset | lightcast/core.py:17 | `%z` reads `Z` as UTC and refuses `z` |
| PubDate.ParsePubDateSpells | lightcast/core.py:16-18 | a text parses to `t` exactly when it is cut into the pieces of the format, each spelling its field of `t`, with nothing before or after, and `t` is a valid date-time |
| PubDate.ParseSpells | lightcast/core.py:16-18 | whatever parses is in the layout with the fields it parsed to |
| PubDate.SpelledParses | lightcast/core.py:16-18 | every text in the layout with valid fields parses to those fields |
| PubDate.ScanSplit | lightcast/core.py:17 | a parsed text divides into its date, its clock and its zone, in that order |
| PubDate.DatePieces | lightcast/core.py:17 | `%a, %d %b %Y` consumed a weekday name, a comma, and blank-separated day, month name and four-digit year |
| PubDate.DayMonthYearPieces | lightcast/core.py:17 | ` %d %b %Y` consumed blank-separated day, month name and year |
| PubDate.ClockPieces | lightcast/core.py:17 | ` %H:%M:%S` consumed a blank and three colon-separated numbers of one or two digits |
| PubDate.ColonNumberPiece | lightcast/core.py:17 | `:%M` and `:%S` consumed a colon and one or two digits |
| PubDate.ZonePieces | lightcast/core.py:17 | ` %z` consumed a blank and the rest of the text as an offset |
| PubDate.SpacesPiece | lightcast/core.py:17 | a format space consumed a non-empty whitespace run |
| PubDate.NumberPiece | lightcast/core.py:17 | a numeric directive consumed digits worth the value it read |
| PubDate.NamePiece | lightcast/core.py:17 | a name directive consumed three letters spelling the name it found |
| PubDate.SpacedNumberPiece | lightcast/core.py:17 | a space and a number consumed whitespace, then digits worth the value |
| PubDate.SpacedNamePiece | lightcast/core.py:17 | a space and a name consumed whitespace, then three letters spelling the name |
| PubDate.DateReads | lightcast/core.py:17 | pieces in the date layout read back as weekday, day, month and year |
| PubDate.ClockReads | lightcast/core.py:17 | pieces in the clock layout read back as hour, minute and second |
| PubDate.ColonDigitsStep | lightcast/core.py:17 | a colon and one or two digits read as their value |
| PubDate.SpacedNumberStep | lightcast/core.py:17 | a whitespace run and a number before whitespace read as the number |
| PubDate.BlankStep | lightcast/core.py:17 | a format space consumes the whole whitespace run |
| PubDate.DigitsStep | lightcast/core.py:17 | a numeric directive consumes the whole digit run |
| PubDate.SpelledNameStep | lightcast/core.py:17 | a name in any ASCII case reads as its own position |
| PubDate.MonthInitial | lightcast/core.py:17 | a month name never starts with whitespace |
| PubDate.OffsetShape | lightcast/core.py:17 | what `%z` reads is `Z`, or starts with a sign and ends with a digit |
| PubDate.OffsetSecondsEnd | lightcast/core.py:17 | the optional seconds of an offset end with a digit |
| PubDate.TextEnd | lightcast/core.py:17 | a text in the layout ends with the last character of its offset |
| PubDate.ParsedEnd | lightcast/core.py:16-18 | a parsed text ends with a digit or `Z` |
| PubDate.SpelledEnd | lightcast/core.py:17 | a text in the layout ends with a digit or `Z` |
| PubDate.UnzonedEndRefused | lightcast/core.py:16-18 | a text ending in anything but a digit or `Z` is a ValueError about itself |
| PubDate.NamedZoneRefused | lightcast/core.py:16-18 | a date with the zone written `GMT` or `UTC` is refused |
| PubDate.TrailingDataRefused | lightcast/core.py:16-18 | text after a canonical date starting with anything but `0`-`5` or `:` is a ValueError |
| PubDate.OffsetTrailing | lightcast/core.py:17 | `%z` refuses `±HHMM` followed by such text |
| Xml.ElementsByTagName | lightcast/core.py:56-59 | `getElementsByTagName` returns only elements matching the name (`*` matches all) |
| Xml.FoundIffWithin | lightcast/core.py:69 | an element is found iff it matches and lies within the searched subtree |
| Xml.WithinCons | lightcast/core.py:69 | a node lies within a forest iff it is, or lies within, its first tree, or lies within the rest |
| Xml.SearchConcat | lightcast/core.py:69 | the results are in document order: a forest's parts are searched one after the other |
| Xml.FirstChildFirst | lightcast/core.py:56-59 | `[0]` of the search is the first matching element in document order |
| Xml.NoneFound | lightcast/core.py:56-59 | nodes holding no element of the name contribute nothing |
| Xml.NoElementsNoneFound | lightcast/core.py:56-59 | character data alone holds no element |
| Xml.UnmatchedElement | lightcast/core.py:69 | an element that does not match contributes only what its children hold |
| Episodes.StripNewlines | lightcast/core.py:56-59 | a field stripped of newlines neither starts nor ends with one |
| Episodes.FirstValue | lightcast/core.py:56 | the value read is the `nodeValue` of the first child of the first element found; no element found is an IndexError, and an empty first element or one starting with an element is an AttributeError |
| Episodes.FirstAttribute | lightcast/core.py:57 | the value read is the attribute of the first element found; no element found is an IndexError, and a first element without the attribute is a KeyError |
| Episodes.FromXml | lightcast/core.py:54-60 | a success read all four fields, and its title and URL are their stripped texts; its date and duration are what the stripped texts parse to; a failure is the error of the first step that fails, in the order title, URL, date, date parse, duration, duration parse; a decoded date is valid and a title has no newline at either end |
| Episodes.FeedEpisodes | lightcast/core.py:66-70 | a feed succeeds exactly when every `<item>` decodes, and then episode k is what item k decodes to, in document order; otherwise it fails with the error of the first item that fails |
| Episodes.DownloadPath | lightcast/core.py:62-63 | the download goes to the given path unless it is missing or empty, otherwise to the title plus `.mp3` |
| Episodes.ItemFields | lightcast/core.py:56-59 | each field of a written item is read as its own text, and an empty one is an AttributeError |
| Episodes.ItemSearch | lightcast/core.py:56-59 | in a written item, each of the four tags finds exactly its own field |
| Episodes.FieldValue | lightcast/core.py:56 | a single field found for a tag reads as its text, or is an AttributeError when empty |
| Episodes.EnclosureValue | lightcast/core.py:57 | a single enclosure found reads as its `url` |
| Episodes.DateReadBack | lightcast/core.py:58 | a date written canonically survives the newline strip and parses back to itself |
| Episodes.DurationReadBack | lightcast/core.py:59 | a duration written as `str(n)` survives the newline strip and parses back to `n` |
| Episodes.FromItem | lightcast/core.py:54-60 | an item decodes iff its stripped date and duration parse, to the stripped title and URL and the parsed date and duration |
| Episodes.ReadWritten | lightcast/core.py:54-60 | every writable episode, written as an item, decodes back to itself |
| Episodes.NewlinesIgnored | lightcast/core.py:56-59 | newlines around any of the four texts make no difference |
| Episodes.SameFields | lightcast/core.py:54-60 | two items whose four fields strip to the same texts decode alike |
| Episodes.ReadFields | lightcast/core.py:54-60 | once all four fields are read, only their stripped texts matter |
| Episodes.MissingEnclosure | lightcast/core.py:57 | an item without an enclosure fails with IndexError and never yields a partial episode |
| Episodes.EnclosureWithoutUrl | lightcast/core.py:57 | an enclosure without a `url` attribute is a KeyError |
| Episodes.MissingDate | lightcast/core.py:56-58 | any item whose title and URL read but that has no `<pubDate>` fails with IndexError |
| Episodes.MissingDuration | lightcast/core.py:56-59 | any item whose first three fields read but that has no `<itunes:duration>` fails with IndexError |
| Episodes.MissingTagFails | lightcast/core.py:54-60 | an item lacking any one of the four tags never decodes |
| Episodes.TitleFirst | lightcast/core.py:56 | a leading non-empty `<title>` is the title read, whatever follows |
| Episodes.TitleHoldsNoTag | lightcast/core.py:57-59 | the searches for the other tags pass over a `<title>` field |
| Episodes.NoEnclosure | lightcast/core.py:56-57 | once the title is read, no enclosure is an IndexError |
| Episodes.UrlMissing | lightcast/core.py:56-57 | once the title is read, a first enclosure without `url` is a KeyError |
| Episodes.EmptyTitle | lightcast/core.py:56 | an empty `<title/>` is an AttributeError |
| Episodes.FlatSearch | lightcast/core.py:56-59 | among text-only sibling elements, the one with the name is the whole search result |
| Episodes.NoNewlineEnds | lightcast/core.py:56-59 | a text without newlines at its ends strips to itself |
| Episodes.ShowIntEnds | lightcast/core.py:59 | `str(n)` neither starts nor ends with a newline |
| Episodes.ItemsForCons | lightcast/core.py:69 | writing a list is writing its first episode, then the rest |
| Episodes.ItemHoldsNoItem | lightcast/core.py:69 | a written item is found once, as itself, and nothing inside it is found as an item |
| Episodes.ReadFeed | lightcast/core.py:66-70 | a feed of writable episodes reads back as exactly those episodes, in order |
| Episodes.FeedItems | lightcast/core.py:69 | the items found in a feed document are the channel's items, in order |
| Episodes.ChannelItems | lightcast/core.py:69 | the channel wrapper and its title hold no item |
| Episodes.ReadItems | lightcast/core.py:70 | the comprehension over written items gives the episodes back |
| Episodes.EachItemRead | lightcast/core.py:70 | each written item decodes to its own episode |
| Episodes.ItemsFound | lightcast/core.py:69 | nothing inside an item is taken for another item |
| Podcasts.FromDict | lightcast/core.py:88-93 | decoding succeeds iff the value is an object with `trackId` and `trackName`; the fields are copied verbatim and `feedUrl` defaults to `""`; a non-object is a TypeError, a missing `trackId` is KeyError("trackId") first, then a missing `trackName` KeyError("trackName") |
| Podcasts.PodcastsOf | lightcast/core.py:113 | an array maps entry by entry: success iff every entry decodes, podcast k from entry k, else the first failing entry's error; only an empty object or string also iterates to no podcasts |
| Podcasts.SearchResults | lightcast/core.py:112-113 | a response that is not an object is a TypeError, one without `results` a KeyError, and otherwise the podcasts are exactly what its `results` iterate to |
| Podcasts.FromToDict | lightcast/core.py:88-93 | a search entry written for a podcast decodes back to it |
| Podcasts.ExtraMembersIgnored | lightcast/core.py:88-93 | members besides the three read do not matter |
| Podcasts.MissingFeedUrl | lightcast/core.py:92 | an entry without `feedUrl` gets the empty URL |
| Podcasts.ReadResponse | lightcast/core.py:112-113 | a response reads back as the podcasts it lists, in order (an empty list as no podcasts) |
| Podcasts.MalformedEntryFails | lightcast/core.py:113 | one malformed entry fails the whole search with its own error |
| Query.Utf8Char | lightcast/core.py:104 | a character encodes as one to four UTF-8 bytes, one exactly for ASCII |
| Query.QuoteByte | lightcast/core.py:104 | a safe byte is kept and any other becomes `%XX` |
| Query.Quote | lightcast/core.py:104 | `quote` writes only safe ASCII, `%` and hex digits, and percent-decodes back to the UTF-8 bytes of its input |
| Query.ReplaceSpaces | lightcast/core.py:103 | every space becomes `+` and every other character is kept in place |
| Query.NormalizeQuery | lightcast/core.py:103-104 | the term holds only safe ASCII, `%` and hex digits, and the service decodes it to the query with spaces turned into `+` |
| Query.SearchUrl | lightcast/core.py:105 | the URL is the fixed prefix, the term and `&entity=podcast`, and the term holds no `&`, `#`, `=`, `?`, `+` or space |
| Query.TermHasNoDelimiter | lightcast/core.py:104-105 | the quoted term holds no `&`, `#`, `=`, `?`, `+` or space |
| Query.UnquoteNormalized | lightcast/core.py:103-105 | the service decodes the term to the query with spaces turned into `+` |
| Query.DecodeEncode | lightcast/core.py:104 | UTF-8 decoding undoes the encoding |
| Query.Utf8FirstChar | lightcast/core.py:104 | the first code point decoded is the first one encoded |
| Query.Utf8Two | lightcast/core.py:104 | a two-byte UTF-8 sequence decodes to its character |
| Query.Utf8Three | lightcast/core.py:104 | a three-byte UTF-8 sequence decodes to its character |
| Query.Utf8Four | lightcast/core.py:104 | a four-byte UTF-8 sequence decodes to its character |
| Query.QuotedChars | lightcast/core.py:104 | percent-encoding writes only safe ASCII, `%` and hex digits |
| Query.DecodeQuoted | lightcast/core.py:104 | percent-decoding undoes percent-encoding |
| Query.DecodeByte | lightcast/core.py:104 | one encoded byte in front of decodable text decodes to that byte in front |
| Query.DecodeEscape | lightcast/core.py:104 | `%` and two hex digits decode to the byte they spell |
| Query.QuoteConcat | lightcast/core.py:104 | quoting works character by character |
| Query.EncodeConcat | lightcast/core.py:104 | UTF-8 encoding works character by character |
| Query.QuoteBytesConcat | lightcast/core.py:104 | percent-encoding works byte by byte |
| Query.ReplaceConcat | lightcast/core.py:103 | replacing spaces works character by character |
| Query.SpaceIsEncodedPlus | lightcast/core.py:103-104 | each space of the query becomes `%2B` in the term |
| Query.SpaceReplaced | lightcast/core.py:103 | a space between two texts becomes `+` between their replacements |
| Query.PlusQuoted | lightcast/core.py:104 | `quote("+")` is `%2B` |
| Query.SpaceAndPlusCollide | lightcast/core.py:103-104 | a query with a space and the same query with a `+` give the same term |
| Query.SafeTextUnchanged | lightcast/core.py:104 | text of safe ASCII characters is its own encoding |
| Query.AccentExample | lightcast/core.py:104 | a non-ASCII character becomes the `%XX` of each UTF-8 byte (`é` is `%C3%A9`) |

## Left out

- Network and file I/O are not modelled. This covers `urlopen` in `get_episodes_from_feed_url` and `search_podcasts`, and `urlretrieve` in `download_episode`. The model starts from the parsed document or the decoded response.
- `minidom.parseString` and `json.loads` on raw bytes are not modelled. Their results are the `Xml.Node` tree and the `Podcasts.Json` value.
- The `IOError` handler in `search_podcasts` (a printed message and `sys.exit(0)`) is not modelled, since it is I/O and process exit.
- `Podcast.episodes` is not modelled. It only fetches `feed_url` and then does what `Episodes.FeedEpisodes` models.
- `__str__` and `__repr__` are not modelled; they are presentation only.
- `lightcast/cli.py` is not part of this model.
- `Decimal.ParseInt`: non-ASCII decimal digits (Arabic-Indic, full-width and the like), which `int` accepts, are rejected here. The Unicode digit tables are not modelled.
- `PubDate.ParsePubDate`: non-ASCII digits matched by the `\d` of `_strptime` are rejected here, for the same reason. Names are compared in ASCII case only, under the C locale's English names.
- `PubDate.ParsePubDate`: follows CPython 3.12's `_strptime`. Other Python versions differ in small ways, such as `%z` with seconds or `Z`.
- `PubDate.ParsePubDate`: the result is the parsed fields, not a `datetime` object. Date arithmetic, `tzinfo` objects and microseconds of the seconds field are not modelled; a fractional offset is kept in microseconds.
- `Query.Quote`: strings with lone surrogates cannot occur, since a Dafny `char` is a Unicode scalar value. `quote` would raise on them.
- `Query.Unquote`: models only what `unquote` does to ASCII text, which is all `quote` writes.
- `Podcasts.Json`: JSON numbers are integers. Floats are not modelled, since the code only copies them.
- `Xml.Node`: CDATA sections are text nodes and processing instructions are folded into comments. Entity references, namespaces and other node kinds are not modelled.
