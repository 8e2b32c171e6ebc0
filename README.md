# iCloudPhotoBackupAgent in Dafny

This is a model of the part of iCloudPhotoBackupAgent that decides *which*
media items of an iCloud Photos library are listed, described or
downloaded, and *what* ends up in the download directory. It also proves
properties of that model. The model covers:

- the date texts the tool accepts. `parse_date` first tries `%Y-%m-%d` and
  then `%Y-%m-%d %H:%M:%S`. The model follows `datetime.strptime` closely:
  - `%Y` takes exactly four digits;
  - the other fields take one or two digits, and `%d` also takes a
    space-padded day;
  - the space in the format stands for any run of whitespace;
  - leftover text is an error;
  - the calendar checks of `datetime`, including seconds 60 and 61, which
    the pattern admits and `datetime` then rejects;
- how the command line (main.py) turns the end text into the end of the
  window. A date-only end becomes 23:59:59 of the *following* day;
- the date filter `get_photos_by_date_range`. The window is closed at both
  ends, and a progress line is printed every 100 items;
- the listing and info records of `get_photos_list` and `get_photos_info`;
- the two download loops, `download_photos_by_date` and `download_photos`,
  over a `Folder` object whose `files` map the loops update in place.

Modules:

- `Calendar`: proleptic Gregorian dates with CPython's ordinals, the
  ordering `datetime` uses, and `timedelta(days=1)`.
- `TimeText`: the `strftime` renderings and the two `strptime` calls.
  `ParseDate` is the composition of the two calls. `Layout` and `Render`
  enumerate every spelling `parse_date` accepts.
- `PhotoManager`: the functions of iCloudPhotoManager.py that work on the
  library and the download directory.
- `CommandLine`: main.py's window resolution, as written (`ResolveWindow`)
  and with the corrected end-of-day rule (`ResolveWindowCorrected`).

The outside world is passed in as parameters:

- the library is a sequence of `MediaItem` values;
- the number typed at the prompt of `download_photos_by_date` is `requested`;
- each download attempt's outcome is an oracle `fetch(k)` for attempt `k`.
  An attempt either completes with bytes, or fails after `open(..., 'wb')`
  has created or truncated the file, or fails to open the file.

What the code does, stated plainly, where a reader might expect otherwise:

- Creation times are compared as they come, field by field. No time zone
  conversion is done anywhere.
- The window includes both of its ends (`start_date <= created <= end_date`,
  iCloudPhotoManager.py:105).
- The comment at main.py:36 speaks of the last moment of the given end day,
  but main.py:38 moves a date-only end to 23:59:59 of the day *after* it.
  For items created at 10:00 on 2024-01-01, 01-02 and 01-03, start
  `2024-01-01` and end `2024-01-02` therefore select all three items
  (`CommandLine.TwoDayTextWindow`, `CommandLine.ThreeDaySelection`).
- `download_photos_by_date` collects all matching items before it
  downloads any.
- A failed download is reported and skipped, but the file it opened stays
  behind, empty.
- `download_photos` is different: its first failure ends the whole loop.

## Model

| member | source | states |
|---|---|---|
| Calendar.AddOneDay | main.py:38 | adding one day fails exactly on 9999-12-31, and otherwise keeps the time of day |
| Calendar.AddOneDayOrdinal | main.py:38 | the day added is the next calendar day: the ordinal grows by one and the instant by 86400 seconds |
| Calendar.OrdinalMonotone | main.py:38 | ordinals order dates: one date is before another exactly when its ordinal is smaller, and equal ordinals mean equal dates |
| Calendar.BeforeIsTimeline | iCloudPhotoManager.py:105 | the field-by-field comparison of datetimes is the order of seconds on the time line, and equality matches as well |
| TimeText.LeadingSpaces | iCloudPhotoManager.py:189 | the whitespace the format's space matches is the longest run of whitespace at the front |
| TimeText.ParseDateAccepts | iCloudPhotoManager.py:183-193 | parse_date yields an instant exactly for the texts that spell it in an accepted layout; every other text is rejected |
| TimeText.StrptimeDateShape | iCloudPhotoManager.py:186 | any text the date-only format accepts is a date-only layout of the midnight it returns |
| TimeText.StrptimeDateTimeShape | iCloudPhotoManager.py:189 | any text the date-and-time format accepts is a layout with a time of the instant it returns |
| TimeText.ParseDateShape | iCloudPhotoManager.py:183-193 | any text parse_date accepts is the rendering of its result in some accepted layout |
| TimeText.RenderParses | iCloudPhotoManager.py:183-193 | every accepted layout of an instant parses back to that instant, and the first format succeeds exactly for the date-only layouts |
| TimeText.ParseDateOnlyText | iCloudPhotoManager.py:186 | `YYYY-MM-DD` gives that date at midnight |
| TimeText.TimestampRoundTrip | iCloudPhotoManager.py:183-193 | parse_date reads back the `%Y-%m-%d %H:%M:%S` text written at iCloudPhotoManager.py:64 and :130 |
| TimeText.FilePrefixInjective | iCloudPhotoManager.py:168-170 | the `%Y%m%d_%H%M%S_` prefix is 16 characters, and prefix plus filename determines both the instant and the filename |
| PhotoManager.DecimalRoundTrip | iCloudPhotoManager.py:65 | the decimal text of a number reads back as that number |
| PhotoManager.DimensionsRoundTrip | iCloudPhotoManager.py:131 | `{width}x{height}` reads back as the width and height, and the no-dimensions marker reads as nothing |
| PhotoManager.LimitedCountVisits | iCloudPhotoManager.py:57-59 | stepping the `count >= limit` guard item by item from zero visits `min(n, max(limit, 0))` items |
| PhotoManager.ListPhotos | iCloudPhotoManager.py:46-74 | one record per item for the first `limit` items, in library order; if one of them lacks an attribute, the empty list |
| PhotoManager.FilterByDate | iCloudPhotoManager.py:76-113 | the items in the closed window, in library order, and a progress line with `processed` = 100, 200, ... for every hundredth item examined |
| PhotoManager.SelectedExactly | iCloudPhotoManager.py:96-106 | the filter keeps exactly the items in the window: an increasing list of positions, each listed iff its item is in the window |
| PhotoManager.BoundariesSelected | iCloudPhotoManager.py:105 | items created exactly at the start or at the end are kept |
| PhotoManager.PhotosInfo | iCloudPhotoManager.py:115-137 | one info record per item, in order |
| PhotoManager.DescribeFaithful | iCloudPhotoManager.py:124-135 | an info record's time text parses back to the creation instant, its dimensions read back or are the marker exactly when an attribute is absent, and it says video exactly for type "movie" |
| PhotoManager.ListEntryAgreesWithDescribe | iCloudPhotoManager.py:62-67 | a listing record carries the same filename, time text, dimensions and size as the info record, and its time text parses back |
| PhotoManager.FirstFailure | iCloudPhotoManager.py:211-225 | the first failing attempt: all earlier attempts complete, and that one does not |
| PhotoManager.Folder.MakeDirs | iCloudPhotoManager.py:156-157 | afterwards the directory exists, and no file changes |
| PhotoManager.Folder.Save | iCloudPhotoManager.py:173-174 | in an existing directory, the file holds the downloaded bytes, or is empty if the download failed after the open; if the open failed, nothing changes |
| PhotoManager.SliceLengthKeeps | iCloudPhotoManager.py:166 | the indices Python's `filtered[:n]` keeps (below `n`, or below `len + n` for a negative `n`) are exactly the first `SliceLength` ones, and there are that many |
| PhotoManager.DownloadByDate | iCloudPhotoManager.py:139-181 | nothing changes when no item is in the window; otherwise the directory exists, the files are the first `min(n, len)` items written in order under their prefixed names, and the count is the attempts that completed |
| PhotoManager.SaveBatch | iCloudPhotoManager.py:165-179 | the files become the batch written in order under prefixed names, with failures skipped, and the count is the attempts that completed |
| PhotoManager.DownloadAll | iCloudPhotoManager.py:195-225 | the directory exists, and the first `limit` items are written under their bare names until the first failure, which ends the loop; the count is the items before it |
| PhotoManager.StoreAllFrame | iCloudPhotoManager.py:166-181 | a name no attempt writes keeps its file, or its absence |
| PhotoManager.StoreAllLastWins | iCloudPhotoManager.py:166-181 | a name holds what its last opening attempt wrote |
| PhotoManager.CountsAddUp | iCloudPhotoManager.py:165-181 | completed plus failed attempts is the number of attempts |
| PhotoManager.PrefixedNamesCollide | iCloudPhotoManager.py:168-170 | two items get the same download name exactly when they share their creation second and their filename |
| CommandLine.EndOfFollowingDay | main.py:38 | the expanded end is at 23:59:59, and is missing exactly when the date is 9999-12-31 (an `OverflowError`) |
| CommandLine.EndOfFollowingDayMeaning | main.py:38 | the expanded end is on the next calendar date, one second before that date ends, and after the given instant |
| CommandLine.ExpandedEndSelects | main.py:37-38 | with the expanded end, the window takes an item iff it is not before the start and its date is at most one day after the given date |
| CommandLine.EndBoundAsWrittenMeaning | main.py:37-38 | as written, an end text containing a space is kept, and any other end text is expanded; a plain `YYYY-MM-DD` end has no space |
| CommandLine.EndBoundFollowsFormat | main.py:36-38 | the corrected rule expands every date-only layout and keeps every layout with a time |
| CommandLine.EndBoundsAgree | main.py:37 | both rules give the same end for every text without a space-padded day whose separator contains a space |
| CommandLine.SpacePaddedDayNotExpanded | main.py:37 | `2024-01- 5` is date-only, but as written it keeps its midnight end and drops an item from noon that day |
| CommandLine.TabSeparatedTimeDiscarded | main.py:37 | `2024-01-05\t10:30:00` has a time, but as written it is replaced by 2024-01-06 23:59:59 |
| CommandLine.ResolveWindow | main.py:30-38 | as written: the window starts at the parsed start, and its end is the parsed end, expanded when the end text has no space; an unparsable text is an error, and so is an expanded end on 9999-12-31, exactly then; any other pair of parsable texts gives a window |
| CommandLine.DateOnlyEndWindow | main.py:30-38 | as written, for an end text without a space, the window takes an item iff it is not before the start and is dated no later than the day after the end date |
| CommandLine.SpacedEndWindow | main.py:30-38 | as written, for an end text with a space, the window ends at exactly the instant the text names |
| CommandLine.ResolveWindowCorrected | main.py:30-38 | the same window with the corrected rule: the end is expanded exactly when the date-only format read it; an error or overflow exactly as above, and a window for every other pair of parsable texts |
| CommandLine.DateOnlyEndWindowCorrected | main.py:30-38 | with the corrected rule, for every date-only end text, the window takes an item iff it is not before the start and is dated no later than the day after the end date |
| CommandLine.TwoDayTextWindow | main.py:30-38 | start `2024-01-01` and end `2024-01-02` give the window from 2024-01-01 00:00:00 to 2024-01-03 23:59:59, under both rules |
| CommandLine.ThreeDaySelection | iCloudPhotoManager.py:96-106 | items created at 10:00 on 2024-01-01, 01-02 and 01-03 are all in that window |

## Left out

- authenticate_icloud (iCloudPhotoManager.py:6-33): the login, two-factor dialogue and exits are interactive calls into pyicloud.
- get_photos_count (iCloudPhotoManager.py:35-44): only a `len` of the library behind pyicloud; no property to state.
- pyicloud itself: the library is a sequence given as a parameter, and each download's bytes or failure come from the `fetch` oracle.
- File-system paths: the download directory is one `Folder` whose files are keyed by filename. `os.path.join` with the directory path is not modelled, and neither are filenames containing a path separator.
- Partial writes: a transfer either writes all its bytes or none (an empty file after a failed download).
- `input()` in download_photos_by_date becomes the parameter `requested`; a non-integer answer makes `int()` raise an uncaught `ValueError`, which is not modelled.
- Printed output: only the `processed` values of the progress lines are kept. The counts and per-item messages are not.
- PhotoManager.ListPhotos: `size_kb` is a float, `round(size / 1024, 2)`. The model keeps the size in bytes.
- PhotoManager.PhotosInfo: same as above for `size_kb`.
- Time zones: main.py:38 attaches UTC to the expanded end, and pyicloud's creation times carry a zone. Comparing an aware with a naive datetime raises `TypeError`, which iCloudPhotoManager.py:111-113 swallows and which would return the empty list. The model compares plain field tuples, so all instants are treated as being in one zone.
- PhotoManager.FilterByDate: an error while enumerating the library, caught at iCloudPhotoManager.py:111-113, is not modelled.
- PhotoManager.DownloadAll: likewise for the catch at iCloudPhotoManager.py:224-225.
- PhotoManager.ListPhotos: a missing attribute is the only failure modelled at iCloudPhotoManager.py:72-74.
- An attribute that is present but `None` (the text `NonexNone`) is treated like an absent one.
- `strptime`'s `\d` also matches non-ASCII decimal digits; the model accepts ASCII digits only.
- TimeText.Timestamp: writes `%Y` as four digits. The C library's `strftime` may print fewer digits for years below 1000.
- TimeText.FilePrefix: writes `%Y` as four digits for the same reason, so the 16 characters of TimeText.FilePrefixInjective hold only under that reading.
- PhotoManager.DownloadByDate: takes both window ends as instants. The defaults `start_date=None, end_date=None` of iCloudPhotoManager.py:139 are not modelled. Without them, the comparison at iCloudPhotoManager.py:105 raises `TypeError` on the first item, the handler at :111-113 returns `[]`, and the function returns at :151-153 having done nothing.
- Microseconds are not modelled: both formats read none, and the library's times are taken to whole seconds.
- iCloudPhotoManager.py uses `datetime` (line 186) and `os` (lines 156-157, 170) without importing them at module level. As written, those calls raise `NameError`. The model assumes the names resolve.
- main.py:28 and main.py:43 pass arguments that the definitions of `authenticate_icloud` and `get_photos_by_date_range` do not accept. The model follows the definitions.
- main.py:2-25 and 69-78 (argparse and the pyicloud import check), and the commented-out code at main.py:49-67, are not modelled.
- `sys.exit(1)` in parse_date becomes the `InvalidDate` outcome of CommandLine.ResolveWindow; the `OverflowError` of main.py:38 becomes `EndOutOfRange`.

## Findings

| source | as written | input that shows it | evidently intended | confidence | as-written member | corrected member |
|---|---|---|---|---|---|---|
| main.py:37 | the end text counts as date-only when it contains no space character | `2024-01- 5` is read by the date-only format (a space-padded day) but keeps its midnight end; `2024-01-05\t10:30:00` is read by the date-and-time format but loses its time | expand the end exactly when the date-only format read the text | medium, not executed | CommandLine.EndBoundAsWritten with CommandLine.SpacePaddedDayNotExpanded and CommandLine.TabSeparatedTimeDiscarded; CommandLine.ResolveWindow with CommandLine.DateOnlyEndWindow | CommandLine.EndBound with CommandLine.EndBoundFollowsFormat and CommandLine.EndBoundsAgree; CommandLine.ResolveWindowCorrected with CommandLine.DateOnlyEndWindowCorrected |
