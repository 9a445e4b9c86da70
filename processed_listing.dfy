/**
 * The processed-file listing endpoint (src/backend/get_processed_pdfs.py):
 * it lists the caller's objects in the processed bucket, groups them by the
 * day encoded in their keys, and returns the days newest first with each
 * day's files newest first. The object listing arrives as its pages, and the
 * presigner is a parameter.
 */
module ProcessedListing {
  import opened Options
  import opened Text
  import opened Numerals
  import opened Ordering
  import opened ApiRequests
  import opened Processor

  const Unknown := "unknown"

  /**
   * _key_to_date: `YYYY-MM-DD` from the second to fourth `/`-separated
   * segments when they have lengths 4, 2 and 2, otherwise "unknown". A
   * date always has length 10 with '-' at positions 4 and 7, so it is never
   * mistaken for "unknown".
   */
  function KeyToDate(key: string): (r: string)
    ensures r == Unknown || (|r| == 10 && r[4] == '-' && r[7] == '-' && '/' !in r)
    ensures var p := Split(key, '/');
      r != Unknown <==> |p| >= 4 && |p[1]| == 4 && |p[2]| == 2 && |p[3]| == 2
    ensures var p := Split(key, '/');
      r != Unknown ==> r[..4] == p[1] && r[5..7] == p[2] && r[8..] == p[3]
  {
    var parts := Split(key, '/');
    if |parts| >= 4 && |parts[1]| == 4 && |parts[2]| == 2 && |parts[3]| == 2 then
      parts[1] + "-" + parts[2] + "-" + parts[3]
    else Unknown
  }

  /**
   * The segments are taken by length alone: any four-, two- and
   * two-character segments after the first make a date, digits or not.
   */
  lemma KeyToDateByLength(user: string, y: string, m: string, d: string, rest: string)
    requires '/' !in user && '/' !in y && '/' !in m
    requires |y| == 4 && |m| == 2 && |d| == 2 && '/' !in d
    ensures KeyToDate(user + "/" + y + "/" + m + "/" + d + "/" + rest) == y + "-" + m + "-" + d
  {
    var key := user + "/" + y + "/" + m + "/" + d + "/" + rest;
    var tail := d + ['/'] + rest;
    assert key == user + ['/'] + (y + ['/'] + (m + ['/'] + tail));
    SplitThree(user, y, m, tail, '/');
    SplitCons(d, '/', rest);
  }

  /** A key with fewer than three '/' is never dated; here, one without any. */
  lemma KeyWithoutSlashIsUnknown(key: string)
    requires '/' !in key
    ensures KeyToDate(key) == Unknown
  {
    SplitNoSep(key, '/');
  }

  /**
   * The round trip with the processor: for a user id without '/' and a
   * four-digit year, the date read back from a processed key is the day it
   * was written on.
   */
  lemma ProcessedKeyDate(userId: string, now: UtcDate, fileId: string)
    requires '/' !in userId && ValidDate(now) && 1000 <= now.year
    ensures KeyToDate(ProcessedKey(userId, now, fileId)) ==
      NatToString(now.year) + "-" + Pad2(now.month) + "-" + Pad2(now.day)
  {
    ProcessedKeySegments(userId, now, fileId);
    ProcessedKeyDateSegments(now);
  }

  /** One entry of a listing page. */
  datatype S3Object = S3Object(key: Option<string>, lastModified: Option<string>, size: Option<int>)

  /** One listed file; `lastModified` is already in its ISO form. */
  datatype ProcessedFile = ProcessedFile(key: string, name: string, url: string, lastModified: Option<string>, size: Option<int>)

  datatype DateGroup = DateGroup(date: string, files: seq<ProcessedFile>)

  /** The handler's responses. */
  datatype ListingResponse =
    | NotConfigured                       // 500
    | Preflight                           // 200 with an empty body
    | Unauthorized                        // 401
    | Listing(dates: seq<DateGroup>)      // 200

  /** Empty keys and folder markers are skipped. */
  predicate Kept(o: S3Object)
  {
    o.key.Some? && o.key.value != "" && !EndsWith(o.key.value, "/")
  }

  /** The entry for a kept object; `presign(key, name)` is its download URL. */
  function FileOf(o: S3Object, presign: (string, string) -> string): ProcessedFile
    requires Kept(o)
  {
    var name := LastPart(o.key.value, '/');
    ProcessedFile(o.key.value, name, presign(o.key.value, name), o.lastModified, o.size)
  }

  /** The day a file is grouped under. */
  function FileDate(f: ProcessedFile): string
  {
    KeyToDate(f.key)
  }

  /** `f.get('lastModified') or ''` */
  function ModifiedKey(f: ProcessedFile): string
  {
    f.lastModified.GetOr("")
  }

  /** All pages' objects, in listing order. */
  function Flatten(pages: seq<seq<S3Object>>): seq<S3Object>
  {
    if pages == [] then [] else Flatten(pages[..|pages| - 1]) + pages[|pages| - 1]
  }

  /** The entries of the kept objects, in listing order. */
  function KeptFiles(objs: seq<S3Object>, presign: (string, string) -> string): (r: seq<ProcessedFile>)
    ensures |r| <= |objs|
    ensures forall o :: o in objs && Kept(o) ==> FileOf(o, presign) in r
  {
    if objs == [] then []
    else
      var o := objs[|objs| - 1];
      KeptFiles(objs[..|objs| - 1], presign) + (if Kept(o) then [FileOf(o, presign)] else [])
  }

  /** The days of `files`, each once, in order of first appearance (the order the grouping map gains its keys). */
  function DatesOf(files: seq<ProcessedFile>): seq<string>
  {
    if files == [] then []
    else
      var pre := DatesOf(files[..|files| - 1]);
      var d := FileDate(files[|files| - 1]);
      if d in pre then pre else pre + [d]
  }

  /** The days listed are exactly the days of the files. */
  lemma {:induction false} DatesOfMembers(files: seq<ProcessedFile>)
    ensures forall i :: 0 <= i < |files| ==> FileDate(files[i]) in DatesOf(files)
    ensures forall d :: d in DatesOf(files) ==> exists f :: f in files && FileDate(f) == d
  {
    if files != [] {
      var init := files[..|files| - 1];
      var last := files[|files| - 1];
      DatesOfMembers(init);
      assert files == init + [last];
      forall d | d in DatesOf(files) ensures exists f :: f in files && FileDate(f) == d {
        if d in DatesOf(init) {
          var f :| f in init && FileDate(f) == d;
          assert f in files;
        } else {
          assert FileDate(last) == d;
        }
      }
    }
  }

  lemma {:induction false} DatesOfDistinct(files: seq<ProcessedFile>)
    ensures forall i, j :: 0 <= i < j < |DatesOf(files)| ==> DatesOf(files)[i] != DatesOf(files)[j]
  {
    if files != [] {
      DatesOfDistinct(files[..|files| - 1]);
    }
  }

  /** The listing's dates: every day of `files`, newest first. */
  function SortedDates(files: seq<ProcessedFile>): seq<string>
  {
    SortDesc(DatesOf(files), SelfKey)
  }

  /** One day's group: the files of that day, newest first. */
  function GroupOn(files: seq<ProcessedFile>, d: string): DateGroup
  {
    DateGroup(d, SortDesc(WithKey(files, FileDate, d), ModifiedKey))
  }

  /** The groups of `files` for the days `dates`, in that order. */
  function GroupsFor(files: seq<ProcessedFile>, dates: seq<string>): (r: seq<DateGroup>)
    ensures |r| == |dates|
    ensures forall i :: 0 <= i < |dates| ==> r[i] == GroupOn(files, dates[i])
  {
    if dates == [] then []
    else GroupsFor(files, dates[..|dates| - 1]) + [GroupOn(files, dates[|dates| - 1])]
  }

  /** The response body the handler builds from the kept files. */
  function GroupByDate(files: seq<ProcessedFile>): seq<DateGroup>
  {
    GroupsFor(files, SortedDates(files))
  }

  /**
   * handler: 500 when the bucket is not configured, then 200 for a
   * preflight, then 401 without a caller, otherwise the caller's files
   * grouped by date. `listPages(prefix)` is the paginated listing of the
   * bucket under a prefix, the caller's being `<user>/`.
   */
  method ListProcessedPdfs(bucket: string, event: ApiEvent, listPages: string -> seq<seq<S3Object>>, presign: (string, string) -> string)
    returns (resp: ListingResponse)
    ensures bucket == "" ==> resp == NotConfigured
    ensures bucket != "" && IsPreflight(event) ==> resp == Preflight
    ensures bucket != "" && !IsPreflight(event) && AuthenticatedUser(event).None? ==> resp == Unauthorized
    ensures bucket != "" && !IsPreflight(event) && AuthenticatedUser(event).Some? ==>
      resp == Listing(GroupByDate(KeptFiles(Flatten(listPages(AuthenticatedUser(event).value + "/")), presign)))
  {
    if bucket == "" {
      return NotConfigured;
    }
    if IsPreflight(event) {
      return Preflight;
    }
    var user := AuthenticatedUser(event);
    if user.None? {
      return Unauthorized;
    }
    var pages := listPages(user.value + "/");
    var grouped: map<string, seq<ProcessedFile>> := map[];
    var order: seq<string> := [];
    ghost var seen: seq<ProcessedFile> := [];
    for p := 0 to |pages|
      invariant seen == KeptFiles(Flatten(pages[..p]), presign)
      invariant GroupedAs(grouped, order, seen)
    {
      var objs := pages[p];
      assert Flatten(pages[..p + 1]) == Flatten(pages[..p]) + objs by {
        assert pages[..p + 1][..p] == pages[..p];
      }
      assert Flatten(pages[..p]) + objs[..0] == Flatten(pages[..p]);
      for j := 0 to |objs|
        invariant seen == KeptFiles(Flatten(pages[..p]) + objs[..j], presign)
        invariant GroupedAs(grouped, order, seen)
      {
        var o := objs[j];
        KeptFilesStep(Flatten(pages[..p]), objs, j, presign);
        if Kept(o) {
          var f := FileOf(o, presign);
          grouped, order := AppendToGroup(grouped, order, seen, f);
          seen := seen + [f];
        }
      }
      assert objs[..|objs|] == objs;
    }
    assert pages[..|pages|] == pages;
    var groups := BuildDates(grouped, order, seen);
    resp := Listing(groups);
  }

  /** The grouping map and its key order hold exactly the files seen so far, by date. */
  ghost predicate GroupedAs(grouped: map<string, seq<ProcessedFile>>, order: seq<string>, seen: seq<ProcessedFile>)
  {
    order == DatesOf(seen) &&
    (forall d :: d in grouped <==> d in order) &&
    (forall d :: d in grouped ==> grouped[d] == WithKey(seen, FileDate, d))
  }

  lemma KeptFilesStep(prefix: seq<S3Object>, objs: seq<S3Object>, j: nat, presign: (string, string) -> string)
    requires j < |objs|
    ensures KeptFiles(prefix + objs[..j + 1], presign) ==
      KeptFiles(prefix + objs[..j], presign) + (if Kept(objs[j]) then [FileOf(objs[j], presign)] else [])
  {
    var s := prefix + objs[..j + 1];
    assert s[..|s| - 1] == prefix + objs[..j];
  }

  /** `grouped.setdefault(date, []).append(f)`, with the first appearance of a date recorded in `order`. */
  method AppendToGroup(grouped: map<string, seq<ProcessedFile>>, order: seq<string>, ghost seen: seq<ProcessedFile>, f: ProcessedFile)
    returns (grouped': map<string, seq<ProcessedFile>>, order': seq<string>)
    requires GroupedAs(grouped, order, seen)
    ensures GroupedAs(grouped', order', seen + [f])
  {
    var date := KeyToDate(f.key);
    ghost var seen' := seen + [f];
    assert seen'[..|seen'| - 1] == seen;
    if date in grouped {
      grouped' := grouped[date := grouped[date] + [f]];
      order' := order;
    } else {
      DatesOfMembers(seen);
      WithKeyNone(seen, FileDate, date);
      grouped' := grouped[date := [f]];
      order' := order + [date];
    }
    assert order' == DatesOf(seen');
    forall d | d in grouped' ensures grouped'[d] == WithKey(seen', FileDate, d) {
      WithKeyAppend(seen, f, FileDate, d);
    }
  }

  /** The `dates` loop: the dates newest first, each with its files newest first. */
  method BuildDates(grouped: map<string, seq<ProcessedFile>>, order: seq<string>, ghost seen: seq<ProcessedFile>)
    returns (groups: seq<DateGroup>)
    requires GroupedAs(grouped, order, seen)
    ensures groups == GroupByDate(seen)
  {
    var dates := SortDesc(order, SelfKey);
    groups := [];
    for i := 0 to |dates|
      invariant groups == GroupsFor(seen, dates[..i])
    {
      assert dates[i] in multiset(order);
      assert dates[i] in order;
      var group := DateGroup(dates[i], SortDesc(grouped[dates[i]], ModifiedKey));
      assert group == GroupOn(seen, dates[i]);
      assert dates[..i + 1][..i] == dates[..i];
      groups := groups + [group];
    }
    assert dates[..|dates|] == dates;
    assert dates == SortedDates(seen);
  }

  /** The dates of a listing are distinct and strictly descending. */
  lemma DatesStrictlyDescending(files: seq<ProcessedFile>)
    ensures var g := GroupByDate(files);
      forall i, j :: 0 <= i < j < |g| ==> LexLt(g[j].date, g[i].date)
  {
    var dates := SortedDates(files);
    DatesOfDistinct(files);
    SortDescStrict(DatesOf(files));
    var g := GroupByDate(files);
    assert dates == SortDesc(DatesOf(files), SelfKey);
    forall i, j | 0 <= i < j < |g| ensures LexLt(g[j].date, g[i].date) {
      assert g[i].date == dates[i] && g[j].date == dates[j];
      assert LexLt(dates[j], dates[i]);
    }
  }

  /** Within a date, files are newest first, and files with equal timestamps keep their listing order. */
  lemma FilesNewestFirst(files: seq<ProcessedFile>, i: nat, stamp: string)
    requires i < |GroupByDate(files)|
    ensures var g := GroupByDate(files)[i];
      SortedDesc(g.files, ModifiedKey) &&
      WithKey(g.files, ModifiedKey, stamp) == WithKey(WithKey(files, FileDate, g.date), ModifiedKey, stamp)
  {
    var d := SortedDates(files)[i];
    SortDescSorted(WithKey(files, FileDate, d), ModifiedKey);
    SortDescStable(WithKey(files, FileDate, d), ModifiedKey, stamp);
  }

  /**
   * Every kept file is listed under its own date, and a group holds only
   * files of its date, so each file lands in exactly one group.
   */
  lemma EachFileInItsGroup(files: seq<ProcessedFile>, f: ProcessedFile)
    requires f in files
    ensures var g := GroupByDate(files);
      exists i :: 0 <= i < |g| && g[i].date == FileDate(f) && f in g[i].files
  {
    var dates := SortedDates(files);
    var d := FileDate(f);
    DatesOfMembers(files);
    assert d in DatesOf(files);
    assert d in multiset(dates);
    var i :| 0 <= i < |dates| && dates[i] == d;
    WithKeyMembers(files, FileDate, d);
    assert f in multiset(SortDesc(WithKey(files, FileDate, d), ModifiedKey));
    assert GroupByDate(files)[i] == GroupOn(files, d);
  }

  lemma GroupHoldsOnlyItsDate(files: seq<ProcessedFile>, i: nat, f: ProcessedFile)
    requires i < |GroupByDate(files)| && f in GroupByDate(files)[i].files
    ensures FileDate(f) == GroupByDate(files)[i].date && f in files
  {
    var dates := SortedDates(files);
    assert GroupByDate(files)[i] == GroupOn(files, dates[i]);
    var w := WithKey(files, FileDate, dates[i]);
    assert f in multiset(SortDesc(w, ModifiedKey));
    WithKeyMembers(files, FileDate, dates[i]);
  }

  /** Only kept objects are listed, and a file's name is its key's last segment. */
  lemma KeptFilesShape(objs: seq<S3Object>, presign: (string, string) -> string, f: ProcessedFile)
    requires f in KeptFiles(objs, presign)
    ensures f.key != "" && !EndsWith(f.key, "/")
    ensures f.name == LastPart(f.key, '/') && EndsWith(f.key, f.name) && '/' !in f.name
    ensures exists o :: o in objs && Kept(o) && o.key == Some(f.key)
  {
    if objs != [] {
      var o := objs[|objs| - 1];
      if f in KeptFiles(objs[..|objs| - 1], presign) {
        KeptFilesShape(objs[..|objs| - 1], presign, f);
        var o' :| o' in objs[..|objs| - 1] && Kept(o') && o'.key == Some(f.key);
        assert o' in objs;
      } else {
        assert f == FileOf(o, presign);
        LastPartShape(f.key, '/');
      }
    }
  }
}
