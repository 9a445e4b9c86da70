/**
 * The caller's PDF list endpoint (src/backend/get_user_pdfs.py): it queries
 * the PDFs table for the caller's items, turns each item into a list entry
 * with a presigned download URL for its processed copy, and returns the
 * entries newest upload first. The query result and the presigner are
 * parameters; `convert_decimal`, which the handler applies to the query
 * result, is modelled on a JSON-like value type.
 */
module UserPdfs {
  import opened Options
  import opened Text
  import opened Ordering
  import opened ApiRequests

  // ---------------------------------------------------------------- convert_decimal

  /**
   * A value as DynamoDB's resource API hands it over: numbers arrive as
   * Decimals, here `coefficient × 10^exponent`; `Float` is what the
   * conversion makes of a Decimal with a fractional part. `Set` is a
   * DynamoDB string, number or binary set, which arrives as a Python set;
   * its elements are listed in some order.
   */
  datatype Value =
    | Null
    | Bool(b: bool)
    | Str(s: string)
    | Int(i: int)
    | Float(coefficient: int, exponent: int)
    | Decimal(coefficient: int, exponent: int)
    | List(items: seq<Value>)
    | Dict(entries: seq<(string, Value)>)   // in insertion order
    | Set(elements: seq<Value>)

  function Pow10(n: nat): (p: nat)
    ensures p >= 1
  {
    if n == 0 then 1 else 10 * Pow10(n - 1)
  }

  /** `obj % 1 == 0`: the Decimal denotes a whole number. */
  predicate IsIntegral(coefficient: int, exponent: int)
  {
    exponent >= 0 || coefficient % Pow10(-exponent) == 0
  }

  /** `int(obj)` for an integral Decimal. */
  function IntegralValue(coefficient: int, exponent: int): int
    requires IsIntegral(coefficient, exponent)
  {
    if exponent >= 0 then coefficient * Pow10(exponent) else coefficient / Pow10(-exponent)
  }

  /** The integral value times the scale gives back the coefficient. */
  lemma IntegralValueExact(coefficient: int, exponent: int)
    requires exponent < 0 && IsIntegral(coefficient, exponent)
    ensures IntegralValue(coefficient, exponent) * Pow10(-exponent) == coefficient
  {
  }

  /**
   * No Decimal anywhere inside the value outside a set: the conversion
   * does not enter sets, so a number set keeps its Decimals.
   */
  predicate DecimalFree(v: Value)
  {
    match v
    case Decimal(_, _) => false
    case List(items) => forall i :: 0 <= i < |items| ==> DecimalFree(items[i])
    case Dict(entries) => forall i :: 0 <= i < |entries| ==> DecimalFree(entries[i].1)
    case _ => true
  }

  /** The keys of a dictionary's entries, in order. */
  function KeysInOrder(entries: seq<(string, Value)>): (ks: seq<string>)
    ensures |ks| == |entries|
    ensures forall i :: 0 <= i < |entries| ==> ks[i] == entries[i].0
  {
    seq(|entries|, i requires 0 <= i < |entries| => entries[i].0)
  }

  /**
   * convert_decimal: whole-number Decimals become ints and the others
   * floats, lists and dictionaries are converted element by element, and
   * every other value, a set included, is returned as it is. The result
   * holds no Decimal outside a set,
   * lists keep their lengths and dictionaries their keys, and each element
   * or entry value is the conversion of the one in the same place.
   */
  function ConvertDecimal(v: Value): (r: Value)
    ensures DecimalFree(r)
    ensures v.List? <==> r.List?
    ensures v.List? ==> |r.items| == |v.items|
    ensures v.List? ==> forall i :: 0 <= i < |v.items| ==> r.items[i] == ConvertDecimal(v.items[i])
    ensures v.Dict? <==> r.Dict?
    ensures v.Dict? ==> KeysInOrder(r.entries) == KeysInOrder(v.entries)
    ensures v.Dict? ==> forall i :: 0 <= i < |v.entries| ==> r.entries[i].1 == ConvertDecimal(v.entries[i].1)
    ensures v.Decimal? && IsIntegral(v.coefficient, v.exponent) ==> r == Int(IntegralValue(v.coefficient, v.exponent))
    ensures v.Decimal? && !IsIntegral(v.coefficient, v.exponent) ==> r == Float(v.coefficient, v.exponent)
    ensures !v.Decimal? && !v.List? && !v.Dict? ==> r == v
  {
    match v
    case Decimal(c, e) => if IsIntegral(c, e) then Int(IntegralValue(c, e)) else Float(c, e)
    case List(items) =>
      List(seq(|items|, i requires 0 <= i < |items| => ConvertDecimal(items[i])))
    case Dict(entries) =>
      Dict(seq(|entries|, i requires 0 <= i < |entries| => (entries[i].0, ConvertDecimal(entries[i].1))))
    case _ => v
  }

  /** A value without Decimals is returned unchanged. */
  lemma {:induction false} ConvertDecimalFixpoint(v: Value)
    requires DecimalFree(v)
    ensures ConvertDecimal(v) == v
  {
    match v
    case List(items) =>
      forall i | 0 <= i < |items| ensures ConvertDecimal(items[i]) == items[i] {
        ConvertDecimalFixpoint(items[i]);
      }
    case Dict(entries) =>
      forall i | 0 <= i < |entries| ensures ConvertDecimal(entries[i].1) == entries[i].1 {
        ConvertDecimalFixpoint(entries[i].1);
      }
    case _ =>
  }

  /** Converting twice is converting once. */
  lemma ConvertDecimalIdempotent(v: Value)
    ensures ConvertDecimal(ConvertDecimal(v)) == ConvertDecimal(v)
  {
    ConvertDecimalFixpoint(ConvertDecimal(v));
  }

  /** DynamoDB's `Decimal('3')` and `Decimal('3.0')` both come out as the int 3, and `Decimal('2.5')` does not. */
  lemma WholeDecimalsBecomeInts()
    ensures ConvertDecimal(Decimal(3, 0)) == Int(3)
    ensures ConvertDecimal(Decimal(30, -1)) == Int(3)
    ensures ConvertDecimal(Decimal(-120, -1)) == Int(-12)
    ensures ConvertDecimal(Decimal(25, -1)) == Float(25, -1)
  {
    assert Pow10(1) == 10;
  }

  /** A number set is returned as it is, its Decimals included. */
  lemma NumberSetKeepsDecimals()
    ensures ConvertDecimal(Set([Decimal(3, 0), Decimal(25, -1)])) == Set([Decimal(3, 0), Decimal(25, -1)])
    ensures ConvertDecimal(List([Set([Decimal(3, 0)])])) == List([Set([Decimal(3, 0)])])
  {
    var l := List([Set([Decimal(3, 0)])]);
    assert ConvertDecimal(l).items[0] == ConvertDecimal(Set([Decimal(3, 0)]));
  }

  // ---------------------------------------------------------------- S3 URIs

  const S3Scheme := "s3://"

  /**
   * The bucket and key a `processed_s3_uri` names: for `s3://bucket/key` the
   * text up to the first '/' after the scheme and the rest (which may hold
   * more '/'); for any other text the configured bucket and the whole text.
   * None when an `s3://` URI has no '/' after the bucket, where the
   * two-way unpacking of the split raises.
   */
  function ResolveUri(uri: string, configuredBucket: string): (r: Option<(string, string)>)
    ensures !StartsWith(uri, S3Scheme) ==> r == Some((configuredBucket, uri))
    ensures StartsWith(uri, S3Scheme) ==> (r.None? <==> '/' !in uri[|S3Scheme|..])
    ensures StartsWith(uri, S3Scheme) && r.Some? ==>
      '/' !in r.value.0 && uri == S3Scheme + r.value.0 + "/" + r.value.1
  {
    if !StartsWith(uri, S3Scheme) then Some((configuredBucket, uri))
    else
      var rest := uri[|S3Scheme|..];
      match IndexOf(rest, '/')
      case None => None
      case Some(i) =>
        assert uri == S3Scheme + rest[..i] + "/" + rest[i + 1..] by {
          assert uri == uri[..|S3Scheme|] + rest;
          Around(rest, i);
        }
        Some((rest[..i], rest[i + 1..]))
  }

  /** `s3://b/k` resolves to bucket `b` and key `k`, whatever '/' the key holds. */
  lemma ResolveS3Uri(b: string, k: string, configuredBucket: string)
    requires '/' !in b
    ensures ResolveUri(S3Scheme + b + "/" + k, configuredBucket) == Some((b, k))
  {
    var uri := S3Scheme + b + "/" + k;
    assert uri[..|S3Scheme|] == S3Scheme;
    var rest := uri[|S3Scheme|..];
    assert rest == b + ['/'] + k;
    IndexOfCons(b, '/', k);
    assert rest[..|b|] == b;
    assert rest[|b| + 1..] == k;
  }

  /** An `s3://` URI naming only a bucket does not resolve. */
  lemma BucketOnlyUriFails(b: string, configuredBucket: string)
    requires '/' !in b
    ensures ResolveUri(S3Scheme + b, configuredBucket).None?
  {
    var uri := S3Scheme + b;
    assert uri[..|S3Scheme|] == S3Scheme;
    assert uri[|S3Scheme|..] == b;
  }

  // ---------------------------------------------------------------- the handler

  /** The attributes of a PDFs-table item that the handler reads; None for a missing attribute. */
  datatype PdfItem = PdfItem(
    pdfId: Option<string>,
    filename: Option<string>,
    status: Option<string>,
    uploadedAt: Option<string>,
    processedAt: Option<string>,
    processedS3Uri: Option<string>)

  /** One entry of the response's `files` list. */
  datatype FileEntry = FileEntry(
    pdfId: Option<string>,
    name: Option<string>,
    status: string,
    uploadedAt: Option<string>,
    processedAt: Option<string>,
    url: Option<string>)

  /**
   * generate_presigned_url for `get_object` on a bucket and key, with the
   * item's filename as the download name; None when the call raises (the
   * SDK rejects an empty key or an invalid bucket name, for instance).
   */
  type Presign = (string, string, Option<string>) -> Option<string>

  /** The handler's responses. */
  datatype UserPdfsResponse =
    | NotConfigured                  // 500
    | Preflight                      // 200 with an empty body
    | Unauthorized                   // 401
    | QueryFailed                    // 500
    | Files(files: seq<FileEntry>)   // 200

  /**
   * The download URL of an item: none without a processed URI, when the URI
   * does not resolve or when the presigner raises; otherwise the presigned
   * URL for the bucket and key the URI names.
   */
  function UrlOf(item: PdfItem, configuredBucket: string, presign: Presign): (url: Option<string>)
    ensures url.Some? ==> item.processedS3Uri.Some? && item.processedS3Uri.value != "" &&
                          ResolveUri(item.processedS3Uri.value, configuredBucket).Some?
    ensures item.processedS3Uri.Some? && item.processedS3Uri.value != "" &&
            ResolveUri(item.processedS3Uri.value, configuredBucket).Some? ==>
      var loc := ResolveUri(item.processedS3Uri.value, configuredBucket).value;
      url == presign(loc.0, loc.1, item.filename)
  {
    if item.processedS3Uri.None? || item.processedS3Uri.value == "" then None
    else
      match ResolveUri(item.processedS3Uri.value, configuredBucket)
      case None => None
      case Some(loc) => presign(loc.0, loc.1, item.filename)
  }

  /** The entry for an item: its fields under their response names, a missing status read as "unknown". */
  function EntryOf(item: PdfItem, configuredBucket: string, presign: Presign): (e: FileEntry)
    ensures e.status == item.status.GetOr("unknown")
    ensures e.pdfId == item.pdfId && e.name == item.filename
    ensures e.uploadedAt == item.uploadedAt && e.processedAt == item.processedAt
  {
    FileEntry(item.pdfId, item.filename, item.status.GetOr("unknown"), item.uploadedAt, item.processedAt,
              UrlOf(item, configuredBucket, presign))
  }

  /** The entries of `items`, in query order. */
  function EntriesOf(items: seq<PdfItem>, configuredBucket: string, presign: Presign): (es: seq<FileEntry>)
    ensures |es| == |items|
    ensures forall i :: 0 <= i < |items| ==> es[i] == EntryOf(items[i], configuredBucket, presign)
  {
    seq(|items|, i requires 0 <= i < |items| => EntryOf(items[i], configuredBucket, presign))
  }

  /** `f.get('uploadedAt') or ''` */
  function UploadedKey(e: FileEntry): string
  {
    e.uploadedAt.GetOr("")
  }

  /** The response body's file list: one entry per item, newest upload first. */
  function SortedEntries(items: seq<PdfItem>, configuredBucket: string, presign: Presign): seq<FileEntry>
  {
    SortDesc(EntriesOf(items, configuredBucket, presign), UploadedKey)
  }

  /**
   * handler: 500 when the processed bucket is not configured, then 200 for
   * a preflight, then 401 without a caller, then 500 when the query fails;
   * otherwise one entry per item the query returned, newest upload first.
   * `query(user)` is the table query for the caller's items, None when it raises.
   */
  method ListUserPdfs(bucket: string, event: ApiEvent, query: string -> Option<seq<PdfItem>>, presign: Presign)
    returns (resp: UserPdfsResponse)
    ensures bucket == "" ==> resp == NotConfigured
    ensures bucket != "" && IsPreflight(event) ==> resp == Preflight
    ensures bucket != "" && !IsPreflight(event) && AuthenticatedUser(event).None? ==> resp == Unauthorized
    ensures bucket != "" && !IsPreflight(event) && AuthenticatedUser(event).Some? ==>
      var q := query(AuthenticatedUser(event).value);
      resp == if q.None? then QueryFailed else Files(SortedEntries(q.value, bucket, presign))
  {
    if bucket == "" {
      return NotConfigured;
    }
    if IsPreflight(event) {
      return Preflight;
    }
    var user := AuthenticatedUser(event);
    if user.None? {
      return Unauthorized;
    }
    var q := query(user.value);
    if q.None? {
      return QueryFailed;
    }
    var items := q.value;
    var files: seq<FileEntry> := [];
    var n := 0;
    while n < |items|
      invariant 0 <= n <= |items|
      invariant files == EntriesOf(items[..n], bucket, presign)
    {
      var item := items[n];
      var url: Option<string> := None;
      if item.processedS3Uri.Some? && item.processedS3Uri.value != "" {
        var loc := ResolveUri(item.processedS3Uri.value, bucket);
        if loc.Some? {
          url := presign(loc.value.0, loc.value.1, item.filename);
        }
      }
      files := files + [FileEntry(item.pdfId, item.filename, item.status.GetOr("unknown"),
                                  item.uploadedAt, item.processedAt, url)];
      n := n + 1;
    }
    assert items[..n] == items;
    resp := Files(SortDesc(files, UploadedKey));
  }

  /**
   * The listing has exactly one entry per item (the same entries, reordered),
   * in non-increasing upload-time order, and entries with the same upload
   * time keep their query order.
   */
  lemma ListingIsSortedPermutation(items: seq<PdfItem>, configuredBucket: string, presign: Presign, stamp: string)
    ensures var es, r := EntriesOf(items, configuredBucket, presign), SortedEntries(items, configuredBucket, presign);
      |r| == |items| && multiset(r) == multiset(es) &&
      SortedDesc(r, UploadedKey) &&
      WithKey(r, UploadedKey, stamp) == WithKey(es, UploadedKey, stamp)
  {
    var es := EntriesOf(items, configuredBucket, presign);
    SortDescSorted(es, UploadedKey);
    SortDescStable(es, UploadedKey, stamp);
  }

  /** An item whose processed URI is `s3://b/k` is offered for download from bucket `b` under key `k`. */
  lemma S3UriUrl(item: PdfItem, b: string, k: string, configuredBucket: string, presign: Presign)
    requires '/' !in b && item.processedS3Uri == Some(S3Scheme + b + "/" + k)
    ensures EntryOf(item, configuredBucket, presign).url == presign(b, k, item.filename)
  {
    ResolveS3Uri(b, k, configuredBucket);
  }

  /** An item whose processed URI is not an `s3://` URI is offered from the configured bucket, the URI being the key. */
  lemma PlainKeyUrl(item: PdfItem, configuredBucket: string, presign: Presign)
    requires item.processedS3Uri.Some? && item.processedS3Uri.value != ""
    requires !StartsWith(item.processedS3Uri.value, S3Scheme)
    ensures EntryOf(item, configuredBucket, presign).url ==
      presign(configuredBucket, item.processedS3Uri.value, item.filename)
  {
  }

  /** An item whose URI names only a bucket is still listed, without a URL. */
  lemma BucketOnlyItemListed(items: seq<PdfItem>, j: nat, b: string, configuredBucket: string, presign: Presign)
    requires j < |items| && '/' !in b && items[j].processedS3Uri == Some(S3Scheme + b)
    ensures var e := EntryOf(items[j], configuredBucket, presign);
      e.url.None? && e in SortedEntries(items, configuredBucket, presign)
  {
    BucketOnlyUriFails(b, configuredBucket);
    var es := EntriesOf(items, configuredBucket, presign);
    assert es[j] in multiset(es);
  }

  /**
   * An item whose presigned URL cannot be made (here `s3://b/`, whose key is
   * empty) is still listed, without a URL, when the presigner raises.
   */
  lemma FailedPresignItemListed(items: seq<PdfItem>, j: nat, b: string, configuredBucket: string, presign: Presign)
    requires j < |items| && '/' !in b && items[j].processedS3Uri == Some(S3Scheme + b + "/")
    requires presign(b, "", items[j].filename).None?
    ensures var e := EntryOf(items[j], configuredBucket, presign);
      e.url.None? && e.status == items[j].status.GetOr("unknown") &&
      e in SortedEntries(items, configuredBucket, presign)
  {
    ResolveS3Uri(b, "", configuredBucket);
    assert S3Scheme + b + "/" + "" == S3Scheme + b + "/";
    var es := EntriesOf(items, configuredBucket, presign);
    assert es[j] in multiset(es);
  }
}
