/**
 * The photo-library operations of the tool: listing with a limit, the
 * creation-date filter with its progress heartbeat, the per-item info
 * records, and the two exports into a download directory.
 *
 * The remote library is the sequence of items its iteration yields. The
 * bytes of the k-th download attempt of a run come from an oracle `fetch`,
 * which also says whether the destination file could be opened. The
 * download directory is a `Folder` object whose file map the exports update.
 */
module PhotoManager {
  import opened Wrappers
  import opened Calendar
  import opened TimeText

  type Bytes = seq<bv8>

  /** One media item; `None` marks an attribute the item does not have. */
  datatype MediaItem = MediaItem(
    filename: string,
    created: Instant,
    itemType: string,
    width: Option<nat>,
    height: Option<nat>,
    size: Option<nat>)

  const VideoLabel := "비디오"
  const PhotoLabel := "사진"
  const NoDimensions := "정보 없음"

  /** A record of get_photos_list (the size is kept in bytes). */
  datatype Listing = Listing(filename: string, created: string, dimensions: string, sizeBytes: nat)

  /** A record of get_photos_info (the size is kept in bytes). */
  datatype Info = Info(filename: string, created: string, dimensions: string, sizeBytes: nat, kind: string)

  // ---------------------------------------------------------------------
  // Decimal text of the dimensions, `f"{width}x{height}"`

  predicate AllDigits(s: string) {
    forall i :: 0 <= i < |s| ==> IsDigit(s[i])
  }

  /** `str(n)` for a natural number. */
  function DecimalText(n: nat): string
    decreases n
  {
    if n < 10 then [DigitChar(n)] else DecimalText(n / 10) + [DigitChar(n % 10)]
  }

  /** `int(s)` for a non-empty string of ASCII digits; the empty string gives 0. */
  function DecimalValue(s: string): nat
    requires AllDigits(s)
  {
    if s == [] then 0 else 10 * DecimalValue(s[..|s| - 1]) + DigitValue(s[|s| - 1])
  }

  lemma {:induction false} DecimalRoundTrip(n: nat)
    ensures |DecimalText(n)| >= 1 && AllDigits(DecimalText(n))
    ensures DecimalValue(DecimalText(n)) == n
    decreases n
  {
    if n >= 10 {
      DecimalRoundTrip(n / 10);
      var s := DecimalText(n);
      assert s[..|s| - 1] == DecimalText(n / 10);
    }
  }

  function Dimensions(w: nat, h: nat): string {
    DecimalText(w) + "x" + DecimalText(h)
  }

  /** The position of the first 'x' in `s`, or `|s|` if there is none. */
  function IndexOfX(s: string): (k: nat)
    ensures k <= |s|
    ensures forall i :: 0 <= i < k ==> s[i] != 'x'
    ensures k < |s| ==> s[k] == 'x'
  {
    if s == [] then 0 else if s[0] == 'x' then 0 else 1 + IndexOfX(s[1..])
  }

  /** Reads a "WxH" text back into its two numbers. */
  function ParseDimensions(s: string): Option<(nat, nat)> {
    var k := IndexOfX(s);
    if 0 < k < |s| - 1 && AllDigits(s[..k]) && AllDigits(s[k + 1..]) then
      Some((DecimalValue(s[..k]), DecimalValue(s[k + 1..])))
    else None
  }

  /** The dimensions text is unambiguous: it reads back as the two numbers, and never looks like the no-dimensions marker. */
  lemma DimensionsRoundTrip(w: nat, h: nat)
    ensures ParseDimensions(Dimensions(w, h)) == Some((w, h))
    ensures ParseDimensions(NoDimensions) == None
  {
    DecimalRoundTrip(w);
    DecimalRoundTrip(h);
    var a, b := DecimalText(w), DecimalText(h);
    var s := Dimensions(w, h);
    assert s[|a|] == 'x';
    assert forall i :: 0 <= i < |a| ==> s[i] == a[i];
    assert IndexOfX(s) == |a|;
    assert s[..|a|] == a;
    assert s[|a| + 1..] == b;
    assert IndexOfX(NoDimensions) == |NoDimensions|;
  }

  // ---------------------------------------------------------------------
  // get_photos_list

  /** The record get_photos_list builds for one item; `None` where reading an attribute raises. */
  function ListEntry(p: MediaItem): Option<Listing> {
    if p.width.Some? && p.height.Some? && p.size.Some? then
      Some(Listing(p.filename, Timestamp(p.created), Dimensions(p.width.value, p.height.value), p.size.value))
    else None
  }

  /** How many of `n` items a loop guarded by `if count >= limit: break` visits. */
  function LimitedCount(n: nat, limit: int): (k: nat)
    ensures k <= n && k <= (if limit < 0 then 0 else limit)
    ensures k == n || k == (if limit < 0 then 0 else limit)
  {
    if limit <= 0 then 0 else if limit < n then limit else n
  }

  /**
   * How many of `n` remaining items the loop visits when `count` items have
   * been visited already: it stops when the items run out or at the first
   * item it meets with `count >= limit`.
   */
  function Visits(n: nat, limit: int, count: nat): nat
    decreases n
  {
    if n == 0 || count >= limit then 0 else 1 + Visits(n - 1, limit, count + 1)
  }

  /** Stepping the guard item by item from a count of zero visits `LimitedCount` items. */
  lemma LimitedCountVisits(n: nat, limit: int)
    ensures Visits(n, limit, 0) == LimitedCount(n, limit)
  {
    VisitsFrom(n, limit, 0);
  }

  lemma {:induction false} VisitsFrom(n: nat, limit: int, count: nat)
    ensures Visits(n, limit, count) == LimitedCount(n, limit - count)
    decreases n
  {
    if n > 0 && count < limit {
      VisitsFrom(n - 1, limit, count + 1);
    }
  }

  /**
   * get_photos_list: one record for each of the first `limit` items, in
   * library order; if an item lacks an attribute the error is caught and
   * the result is empty.
   */
  method ListPhotos(library: seq<MediaItem>, limit: int) returns (listing: seq<Listing>)
    ensures var k := LimitedCount(|library|, limit);
      if forall i :: 0 <= i < k ==> ListEntry(library[i]).Some? then
        |listing| == k && forall i :: 0 <= i < k ==> Some(listing[i]) == ListEntry(library[i])
      else listing == []
  {
    listing := [];
    var count := 0;
    var i := 0;
    while i < |library|
      invariant i <= LimitedCount(|library|, limit)
      invariant count == i == |listing|
      invariant forall j :: 0 <= j < i ==> Some(listing[j]) == ListEntry(library[j])
    {
      if count >= limit {
        break;
      }
      var entry := ListEntry(library[i]);
      if entry.None? {
        listing := [];
        return;
      }
      listing := listing + [entry.value];
      count := count + 1;
      i := i + 1;
    }
  }

  // ---------------------------------------------------------------------
  // get_photos_by_date_range

  /** `start_date <= photo.created <= end_date`: closed at both ends. */
  predicate InWindow(p: MediaItem, start: Instant, end: Instant) {
    NotAfter(start, p.created) && NotAfter(p.created, end)
  }

  /** The items of `library` in the window, in library order. */
  function Selected(library: seq<MediaItem>, start: Instant, end: Instant): seq<MediaItem>
    decreases |library|
  {
    if library == [] then []
    else
      var last := library[|library| - 1];
      Selected(library[..|library| - 1], start, end) + (if InWindow(last, start, end) then [last] else [])
  }

  /**
   * get_photos_by_date_range: the items in the window, and the `processed`
   * value of every progress line, printed after each hundredth item
   * examined whether or not it matched.
   */
  method FilterByDate(library: seq<MediaItem>, start: Instant, end: Instant)
    returns (filtered: seq<MediaItem>, heartbeats: seq<nat>)
    ensures filtered == Selected(library, start, end)
    ensures |heartbeats| == |library| / 100
    ensures forall j :: 0 <= j < |heartbeats| ==> heartbeats[j] == 100 * (j + 1)
  {
    filtered, heartbeats := [], [];
    var processed := 0;
    while processed < |library|
      invariant processed <= |library|
      invariant filtered == Selected(library[..processed], start, end)
      invariant |heartbeats| == processed / 100
      invariant forall j :: 0 <= j < |heartbeats| ==> heartbeats[j] == 100 * (j + 1)
    {
      var photo := library[processed];
      assert library[..processed + 1][..processed] == library[..processed];
      processed := processed + 1;
      if processed % 100 == 0 {
        heartbeats := heartbeats + [processed];
      }
      if InWindow(photo, start, end) {
        filtered := filtered + [photo];
      }
    }
    assert library[..processed] == library;
  }

  /**
   * The filter keeps exactly the items in the window, in library order:
   * `idx` lists the positions it kept, increasing, and a position is listed
   * if and only if its item is in the window.
   */
  lemma {:induction false} SelectedExactly(library: seq<MediaItem>, start: Instant, end: Instant) returns (idx: seq<nat>)
    ensures |idx| == |Selected(library, start, end)|
    ensures forall j :: 0 <= j < |idx| ==> idx[j] < |library| && Selected(library, start, end)[j] == library[idx[j]]
    ensures forall j, k :: 0 <= j < k < |idx| ==> idx[j] < idx[k]
    ensures forall i :: 0 <= i < |library| ==> (InWindow(library[i], start, end) <==> i in idx)
    decreases |library|
  {
    if library == [] {
      idx := [];
    } else {
      var n := |library| - 1;
      var front := library[..n];
      var idx0 := SelectedExactly(front, start, end);
      var sel0 := Selected(front, start, end);
      assert forall i :: 0 <= i < n ==> front[i] == library[i];
      if InWindow(library[n], start, end) {
        idx := idx0 + [n];
        assert Selected(library, start, end) == sel0 + [library[n]];
        assert forall i :: 0 <= i < |library| ==> (i in idx <==> i in idx0 || i == n);
      } else {
        idx := idx0;
        assert Selected(library, start, end) == sel0;
      }
    }
  }

  /** Both boundary instants are selected. */
  lemma BoundariesSelected(library: seq<MediaItem>, start: Instant, end: Instant, i: nat)
    requires i < |library| && NotAfter(start, end)
    requires library[i].created == start || library[i].created == end
    ensures library[i] in Selected(library, start, end)
  {
    var idx := SelectedExactly(library, start, end);
    var j :| 0 <= j < |idx| && idx[j] == i;
    assert Selected(library, start, end)[j] == library[i];
  }

  // ---------------------------------------------------------------------
  // get_photos_info

  /** The record get_photos_info builds for one item. */
  function Describe(p: MediaItem): Info {
    Info(p.filename, Timestamp(p.created), DimensionsField(p), if p.size.Some? then p.size.value else 0, KindLabel(p))
  }

  /** The `dimensions` entry: `{width}x{height}`, or the marker when either attribute is missing. */
  function DimensionsField(p: MediaItem): string {
    if p.width.Some? && p.height.Some? then Dimensions(p.width.value, p.height.value) else NoDimensions
  }

  /** The `type` entry. */
  function KindLabel(p: MediaItem): string {
    if p.itemType == "movie" then VideoLabel else PhotoLabel
  }

  /** get_photos_info: one record per item, in order. */
  method PhotosInfo(photos: seq<MediaItem>) returns (infos: seq<Info>)
    ensures |infos| == |photos|
    ensures forall i :: 0 <= i < |photos| ==> infos[i] == Describe(photos[i])
  {
    infos := [];
    var i := 0;
    while i < |photos|
      invariant i <= |photos| && |infos| == i
      invariant forall j :: 0 <= j < i ==> infos[j] == Describe(photos[j])
    {
      infos := infos + [Describe(photos[i])];
      i := i + 1;
    }
  }

  /**
   * An info record keeps what it describes: its creation text parses back
   * to the item's instant, its dimensions text reads back as the item's
   * width and height or is the no-dimensions marker exactly when one is
   * absent, and it says "video" exactly for items of type "movie".
   */
  lemma DescribeFaithful(p: MediaItem)
    ensures ParseDate(Describe(p).created) == Some(p.created)
    ensures p.width.Some? && p.height.Some? ==>
      ParseDimensions(Describe(p).dimensions) == Some((p.width.value, p.height.value))
    ensures Describe(p).dimensions == NoDimensions <==> !(p.width.Some? && p.height.Some?)
    ensures Describe(p).kind == VideoLabel <==> p.itemType == "movie"
  {
    TimestampRoundTrip(p.created);
    if p.width.Some? && p.height.Some? {
      DimensionsRoundTrip(p.width.value, p.height.value);
    }
    assert VideoLabel != PhotoLabel;
  }

  /** A listing record keeps the same information as the info record of the same item. */
  lemma ListEntryAgreesWithDescribe(p: MediaItem)
    requires ListEntry(p).Some?
    ensures var l, d := ListEntry(p).value, Describe(p);
      l.filename == d.filename && l.created == d.created && l.dimensions == d.dimensions && l.sizeBytes == d.sizeBytes
    ensures ParseDate(ListEntry(p).value.created) == Some(p.created)
  {
    TimestampRoundTrip(p.created);
  }

  // ---------------------------------------------------------------------
  // Downloads

  /**
   * What one `with open(path, 'wb') as f: f.write(photo.download().raw.read())`
   * does: the bytes are written, or the file was opened (created or
   * truncated) and the download then raised, or the open itself raised.
   */
  datatype Transfer = Complete(data: Bytes) | FailedAfterOpen | FailedToOpen

  /** The contents a transfer leaves at its path, when it opened the file. */
  function Written(t: Transfer): Bytes
    requires !t.FailedToOpen?
  {
    if t.Complete? then t.data else []
  }

  /** The directory after one transfer to `name`. */
  function Store(files: map<string, Bytes>, name: string, t: Transfer): map<string, Bytes> {
    if t.FailedToOpen? then files else files[name := Written(t)]
  }

  /** The directory after attempt k = 0, 1, ... writes to `names[k]` with transfer `fetch(k)`. */
  function StoreAll(files: map<string, Bytes>, names: seq<string>, fetch: nat -> Transfer): map<string, Bytes>
    decreases |names|
  {
    if names == [] then files
    else Store(StoreAll(files, names[..|names| - 1], fetch), names[|names| - 1], fetch(|names| - 1))
  }

  /** How many of the first `n` attempts completed. */
  function CompletedCount(fetch: nat -> Transfer, n: nat): nat {
    if n == 0 then 0 else CompletedCount(fetch, n - 1) + (if fetch(n - 1).Complete? then 1 else 0)
  }

  /** How many of the first `n` attempts failed. */
  function FailedCount(fetch: nat -> Transfer, n: nat): nat {
    if n == 0 then 0 else FailedCount(fetch, n - 1) + (if fetch(n - 1).Complete? then 0 else 1)
  }

  /** The first attempt that fails among the first `n`, or `n` if none does. */
  function FirstFailure(fetch: nat -> Transfer, n: nat): (k: nat)
    ensures k <= n
    ensures forall j :: 0 <= j < k ==> fetch(j).Complete?
    ensures k < n ==> !fetch(k).Complete?
  {
    if n == 0 then 0
    else
      var k := FirstFailure(fetch, n - 1);
      if k < n - 1 || !fetch(n - 1).Complete? then k else n
  }

  /** The download directory: whether it exists, and the files in it by name. */
  class Folder {
    var present: bool
    var files: map<string, Bytes>

    constructor (present: bool, files: map<string, Bytes>)
      ensures this.present == present && this.files == files
    {
      this.present := present;
      this.files := files;
    }

    /** `if not os.path.exists(dir): os.makedirs(dir)` */
    method MakeDirs()
      modifies this
      ensures present && files == old(files)
    {
      if !present {
        present := true;
      }
    }

    /** One attempt to write `name` into the existing directory. */
    method Save(name: string, t: Transfer)
      requires present
      modifies this
      ensures present == old(present)
      ensures files == Store(old(files), name, t)
    {
      if !t.FailedToOpen? {
        files := files[name := Written(t)];
      }
    }
  }

  /** The name download_photos_by_date gives an item: its creation time as `YYYYMMDD_HHMMSS_`, then its filename. */
  function PrefixedName(p: MediaItem): string {
    FilePrefix(p.created) + p.filename
  }

  function PrefixedNames(items: seq<MediaItem>): seq<string> {
    seq(|items|, i requires 0 <= i < |items| => PrefixedName(items[i]))
  }

  function BareNames(items: seq<MediaItem>): seq<string> {
    seq(|items|, i requires 0 <= i < |items| => items[i].filename)
  }

  /** One more attempt on a prefix of the names. */
  lemma StoreAllStep(files: map<string, Bytes>, names: seq<string>, fetch: nat -> Transfer, i: nat)
    requires i < |names|
    ensures StoreAll(files, names[..i + 1], fetch) == Store(StoreAll(files, names[..i], fetch), names[i], fetch(i))
  {
    assert names[..i + 1][..i] == names[..i];
  }

  /** The length of `s[:stop]` in Python for a list of length `n`: a negative stop counts from the end. */
  function SliceLength(n: nat, stop: int): (k: nat)
    ensures k <= n
  {
    if stop >= 0 then (if stop < n then stop else n) else if n + stop < 0 then 0 else n + stop
  }

  /**
   * Python's rule for `s[:stop]` on a list of length `n`: the item at index
   * `i` (also addressable as `i - n`) is kept when its index is below `stop`,
   * read as a position from the end when `stop` is negative.
   */
  predicate SliceKeeps(n: nat, stop: int, i: nat) {
    if stop >= 0 then i < stop else i - n < stop
  }

  /** How many of the indices below `m` Python's `[:stop]` keeps. */
  function KeptCount(n: nat, stop: int, m: nat): nat {
    if m == 0 then 0 else KeptCount(n, stop, m - 1) + (if SliceKeeps(n, stop, m - 1) then 1 else 0)
  }

  /** The kept indices are exactly the first `SliceLength` ones, and there are `SliceLength` of them. */
  lemma SliceLengthKeeps(n: nat, stop: int)
    ensures forall i: nat :: i < n ==> (SliceKeeps(n, stop, i) <==> i < SliceLength(n, stop))
    ensures KeptCount(n, stop, n) == SliceLength(n, stop)
  {
    KeptCountPrefix(n, stop, n);
  }

  lemma {:induction false} KeptCountPrefix(n: nat, stop: int, m: nat)
    requires m <= n
    ensures KeptCount(n, stop, m) == if m < SliceLength(n, stop) then m else SliceLength(n, stop)
  {
    if m > 0 {
      KeptCountPrefix(n, stop, m - 1);
    }
  }

  /**
   * download_photos_by_date: nothing happens when no item is in the window;
   * otherwise the directory is created and the items of
   * `filtered[:min(requested, len(filtered))]` are saved one by one under
   * their prefixed names, a failure being reported and skipped. The result
   * is the number of items saved.
   */
  method DownloadByDate(library: seq<MediaItem>, dir: Folder, start: Instant, end: Instant,
                        requested: int, fetch: nat -> Transfer) returns (downloaded: nat)
    modifies dir
    ensures var filtered := Selected(library, start, end);
      if filtered == [] then
        downloaded == 0 && dir.present == old(dir.present) && dir.files == old(dir.files)
      else
        var batch := filtered[..SliceLength(|filtered|, if requested < |filtered| then requested else |filtered|)];
        dir.present && downloaded == CompletedCount(fetch, |batch|) &&
        dir.files == StoreAll(old(dir.files), PrefixedNames(batch), fetch)
  {
    var filtered, _ := FilterByDate(library, start, end);
    if filtered == [] {
      return 0;
    }
    dir.MakeDirs();
    var downloadCount := if requested < |filtered| then requested else |filtered|;
    downloaded := SaveBatch(dir, filtered[..SliceLength(|filtered|, downloadCount)], fetch);
  }

  /**
   * The loop of download_photos_by_date: each item is saved under its
   * prefixed name in turn, a failure being reported and skipped; the result
   * counts the items saved.
   */
  method SaveBatch(dir: Folder, batch: seq<MediaItem>, fetch: nat -> Transfer) returns (count: nat)
    requires dir.present
    modifies dir
    ensures dir.present == old(dir.present)
    ensures count == CompletedCount(fetch, |batch|)
    ensures dir.files == StoreAll(old(dir.files), PrefixedNames(batch), fetch)
  {
    ghost var names := PrefixedNames(batch);
    count := 0;
    for i := 0 to |batch|
      invariant dir.present == old(dir.present)
      invariant count == CompletedCount(fetch, i)
      invariant dir.files == StoreAll(old(dir.files), names[..i], fetch)
    {
      var photo := batch[i];
      var name := PrefixedName(photo);
      var t := fetch(i);
      StoreAllStep(old(dir.files), names, fetch, i);
      assert CompletedCount(fetch, i + 1) == count + (if t.Complete? then 1 else 0);
      dir.Save(name, t);
      if t.Complete? {
        count := count + 1;
      }
    }
    assert names[..|batch|] == names;
  }

  /**
   * download_photos: the directory is created and the first `limit` items
   * are saved under their bare filenames; the first failure ends the whole
   * loop (the exception is caught outside it). `aborted` tells whether that
   * happened, and `downloaded` counts the items saved.
   */
  method DownloadAll(library: seq<MediaItem>, dir: Folder, limit: int, fetch: nat -> Transfer)
    returns (downloaded: nat, aborted: bool)
    modifies dir
    ensures var n := LimitedCount(|library|, limit);
      var k := FirstFailure(fetch, n);
      dir.present && downloaded == k && aborted == (k < n) &&
      dir.files == StoreAll(old(dir.files), BareNames(library[..if k < n then k + 1 else n]), fetch)
  {
    dir.MakeDirs();
    ghost var n := LimitedCount(|library|, limit);
    ghost var names := BareNames(library[..n]);
    var count := 0;
    var i := 0;
    while i < |library|
      invariant i <= n && count == i
      invariant forall j :: 0 <= j < i ==> fetch(j).Complete?
      invariant dir.present
      invariant dir.files == StoreAll(old(dir.files), BareNames(library[..i]), fetch)
    {
      if count >= limit {
        break;
      }
      var t := fetch(i);
      assert BareNames(library[..i + 1])[..i] == BareNames(library[..i]);
      dir.Save(library[i].filename, t);
      if !t.Complete? {
        assert FirstFailure(fetch, n) == i;
        return count, true;
      }
      count := count + 1;
      i := i + 1;
    }
    assert FirstFailure(fetch, n) == n;
    return count, false;
  }

  // ---------------------------------------------------------------------
  // What the exports leave in the directory

  /** A name no attempt writes keeps its entry, or its absence. */
  lemma {:induction false} StoreAllFrame(files: map<string, Bytes>, names: seq<string>, fetch: nat -> Transfer, name: string)
    requires name !in names
    ensures name in StoreAll(files, names, fetch) <==> name in files
    ensures name in files ==> StoreAll(files, names, fetch)[name] == files[name]
    decreases |names|
  {
    if names != [] {
      StoreAllFrame(files, names[..|names| - 1], fetch, name);
    }
  }

  /**
   * Last write wins: after attempt j on a name that no later attempt
   * reopens, the entry holds what attempt j wrote, whatever failed before
   * or after it.
   */
  lemma {:induction false} StoreAllLastWins(files: map<string, Bytes>, names: seq<string>, fetch: nat -> Transfer, j: nat)
    requires j < |names| && !fetch(j).FailedToOpen?
    requires forall k :: j < k < |names| && names[k] == names[j] ==> fetch(k).FailedToOpen?
    ensures names[j] in StoreAll(files, names, fetch)
    ensures StoreAll(files, names, fetch)[names[j]] == Written(fetch(j))
    decreases |names|
  {
    var n := |names| - 1;
    if j < n {
      StoreAllLastWins(files, names[..n], fetch, j);
    }
  }

  /** Every attempt either completes or fails: the count reported is attempts minus failures. */
  lemma {:induction false} CountsAddUp(fetch: nat -> Transfer, n: nat)
    ensures CompletedCount(fetch, n) + FailedCount(fetch, n) == n
  {
    if n > 0 {
      CountsAddUp(fetch, n - 1);
    }
  }

  /** Two exported items collide only when they share both their creation second and their filename. */
  lemma PrefixedNamesCollide(p: MediaItem, q: MediaItem)
    ensures PrefixedName(p) == PrefixedName(q) <==> p.created == q.created && p.filename == q.filename
  {
    FilePrefixInjective(p.created, q.created, p.filename, q.filename);
  }
}
