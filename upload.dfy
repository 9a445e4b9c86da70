/**
 * The upload endpoint (src/backend/upload.py): it authenticates the caller,
 * checks the caller's quota, and hands out a presigned S3 PUT URL for a key
 * under `uploads/<user>/<file id>/`, counting the upload against the quota.
 * The presigner, the clock and the fresh file id are parameters.
 */
module Upload {
  import opened Options
  import opened Text
  import opened QuotaTable

  /** The quota summary check_quota returns and the response bodies carry. */
  datatype QuotaInfo = QuotaInfo(uploadCount: int, uploadLimit: int, remaining: int, subscriptionTier: string)

  function Max(a: int, b: int): int { if a < b then b else a }

  /**
   * check_quota's summary of an item: a missing count reads as 0, a missing
   * limit as 10, a missing tier as "free"; what remains is never negative and
   * is positive exactly when the count is below the limit.
   */
  function QuotaInfoOf(q: QuotaRecord): (info: QuotaInfo)
    ensures info.uploadCount == q.uploadCount.GetOr(0)
    ensures info.uploadLimit == q.uploadLimit.GetOr(FreeUploadLimit)
    ensures info.subscriptionTier == q.subscriptionTier.GetOr("free")
    ensures info.remaining >= 0
    ensures info.remaining > 0 <==> info.uploadCount < info.uploadLimit
    ensures info.remaining > 0 ==> info.uploadCount + info.remaining == info.uploadLimit
  {
    var count := q.uploadCount.GetOr(0);
    var limit := q.uploadLimit.GetOr(FreeUploadLimit);
    QuotaInfo(count, limit, Max(0, limit - count), q.subscriptionTier.GetOr("free"))
  }

  /** The summary the granted response reports: one more upload used, one fewer remaining. */
  function AfterUpload(info: QuotaInfo): QuotaInfo
  {
    info.(uploadCount := info.uploadCount + 1, remaining := info.remaining - 1)
  }

  /** A claim counts only when present and non-empty. */
  function Claim(claims: map<string, string>, name: string): Option<string>
  {
    if name in claims && claims[name] != "" then Some(claims[name]) else None
  }

  /**
   * The caller: the `sub` claim, else the `cognito:username` claim; None when
   * neither is present and non-empty.
   */
  function UploadUser(claims: map<string, string>): (r: Option<string>)
    ensures r.Some? ==> r.value != ""
    ensures r.None? <==> Claim(claims, "sub").None? && Claim(claims, "cognito:username").None?
    ensures Claim(claims, "sub").Some? ==> r == Claim(claims, "sub")
    ensures Claim(claims, "sub").None? ==> r == Claim(claims, "cognito:username")
  {
    if Claim(claims, "sub").Some? then Claim(claims, "sub") else Claim(claims, "cognito:username")
  }

  /**
   * A field of the JSON request body: missing, `null`, a string, or any
   * other JSON value, carried with the text Python's `str` gives it.
   */
  datatype BodyField = Absent | JsonNull | Text(s: string) | NonString(rendered: string)

  /** The fields of the request body the handler reads. */
  datatype UploadBody = UploadBody(filename: BodyField, contentType: BodyField)

  const DefaultFilename := "document.pdf"
  const DefaultContentType := "application/pdf"

  /**
   * The filename as the key's f-string renders it: `.get` supplies the
   * default only for a missing key, so `null` becomes "None" and any other
   * value its `str`.
   */
  function FilenameText(f: BodyField): (name: string)
    ensures f.Absent? ==> name == DefaultFilename
    ensures f.JsonNull? ==> name == "None"
    ensures f.Text? ==> name == f.s
    ensures f.NonString? ==> name == f.rendered
  {
    match f
    case Absent => DefaultFilename
    case JsonNull => "None"
    case Text(s) => s
    case NonString(r) => r
  }

  /**
   * The content type the presigner is given; None when it is not a string,
   * where the SDK's parameter validation raises before anything is counted.
   */
  function ContentTypeText(f: BodyField): (ct: Option<string>)
    ensures ct.None? <==> f.JsonNull? || f.NonString?
    ensures f.Absent? ==> ct == Some(DefaultContentType)
    ensures f.Text? ==> ct == Some(f.s)
  {
    match f
    case Absent => Some(DefaultContentType)
    case Text(s) => Some(s)
    case _ => None
  }

  /** The S3 key an upload is written to. */
  function UploadKey(userId: string, fileId: string, filename: string): (key: string)
    ensures StartsWith(key, "uploads/")
    ensures EndsWith(key, "/" + filename)
  {
    var key := "uploads/" + userId + "/" + fileId + "/" + filename;
    assert key == "uploads/" + (userId + "/" + fileId) + "/" + filename;
    assert key[..|"uploads/"|] == "uploads/";
    assert key[|key| - |"/" + filename|..] == "/" + filename;
    key
  }

  /** When neither the user id nor the file id contains '/', the key's segments give them back. */
  lemma UploadKeySegments(userId: string, fileId: string, filename: string)
    requires '/' !in userId && '/' !in fileId
    ensures Split(UploadKey(userId, fileId, filename), '/') == ["uploads", userId, fileId] + Split(filename, '/')
  {
    var key := "uploads" + ['/'] + (userId + ['/'] + (fileId + ['/'] + filename));
    assert "uploads/" == "uploads" + ['/'];
    assert UploadKey(userId, fileId, filename) == key;
    SplitThree("uploads", userId, fileId, filename, '/');
  }

  /** The handler's responses. */
  datatype UploadResponse =
    | Unauthenticated                                   // 401
    | QuotaExceeded(quota: QuotaInfo)                   // 403
    | UploadGranted(uploadUrl: string, fileId: string, key: string, quota: QuotaInfo)  // 200
    | ServerError                                       // 500

  function StatusCode(r: UploadResponse): int
  {
    match r
    case Unauthenticated => 401
    case QuotaExceeded(_) => 403
    case UploadGranted(_, _, _, _) => 200
    case ServerError => 500
  }

  /**
   * check_quota: reads (or creates) the caller's item and says whether one
   * more upload is allowed.
   */
  method CheckQuota(table: Table, userId: string, now: string, newUserQuota: int) returns (allowed: bool, info: QuotaInfo)
    modifies table
    ensures table.items == GetOrCreate(old(table.items), userId, now, newUserQuota)
    ensures info == QuotaInfoOf(table.items[userId])
    ensures allowed <==> info.remaining > 0
  {
    var q := table.GetUserQuota(userId, now, newUserQuota);
    info := QuotaInfoOf(q);
    allowed := info.remaining > 0;
  }

  /**
   * handler. `body` is the parsed request body, None when it does not parse
   * as a JSON object; `presign(key, contentType)` is the presigned PUT URL.
   * An unauthenticated call touches no table; a call over quota may create
   * the caller's item but counts nothing; a granted upload is counted once.
   */
  method UploadHandler(table: Table, claims: map<string, string>, body: Option<UploadBody>,
                       fileId: string, now: string, newUserQuota: int,
                       presign: (string, string) -> string)
    returns (resp: UploadResponse)
    modifies table
    ensures UploadUser(claims).None? ==> resp == Unauthenticated && table.items == old(table.items)
    ensures UploadUser(claims).Some? ==>
      var user := UploadUser(claims).value;
      var created := GetOrCreate(old(table.items), user, now, newUserQuota);
      var info := QuotaInfoOf(created[user]);
      if info.remaining <= 0 then
        resp == QuotaExceeded(info) && table.items == created
      else if body.None? || ContentTypeText(body.value.contentType).None? then
        resp == ServerError && table.items == created
      else
        var key := UploadKey(user, fileId, FilenameText(body.value.filename));
        var url := presign(key, ContentTypeText(body.value.contentType).value);
        match Incremented(created, user, now)
        case None => resp == ServerError && table.items == created
        case Some(counted) => resp == UploadGranted(url, fileId, key, AfterUpload(info)) && table.items == counted
    ensures resp.UploadGranted? ==> resp.quota.remaining >= 0 && resp.quota.uploadCount <= resp.quota.uploadLimit
  {
    var user := UploadUser(claims);
    if user.None? {
      return Unauthenticated;
    }
    var allowed, info := CheckQuota(table, user.value, now, newUserQuota);
    if !allowed {
      return QuotaExceeded(info);
    }
    if body.None? {
      return ServerError;
    }
    var filename := FilenameText(body.value.filename);
    var key := UploadKey(user.value, fileId, filename);
    var contentType := ContentTypeText(body.value.contentType);
    if contentType.None? {
      return ServerError;
    }
    var url := presign(key, contentType.value);
    var ok := table.IncrementUploadCount(user.value, now);
    if !ok {
      return ServerError;
    }
    resp := UploadGranted(url, fileId, key, AfterUpload(info));
  }

  /**
   * On a table whose items all carry counters, an allowed upload with a
   * parseable body is always granted, and the caller's stored count then
   * equals the count the response reports.
   */
  lemma AllowedUploadIsGranted(items: map<string, QuotaRecord>, user: string, now: string, newUserQuota: int)
    requires HasCounters(items)
    requires QuotaInfoOf(GetOrCreate(items, user, now, newUserQuota)[user]).remaining > 0
    ensures var created := GetOrCreate(items, user, now, newUserQuota);
      Incremented(created, user, now).Some? &&
      Incremented(created, user, now).value[user].uploadCount == Some(AfterUpload(QuotaInfoOf(created[user])).uploadCount)
  {
    IncrementAfterGetOrCreate(items, user, now, newUserQuota);
  }

  /** Summaries taken before and after a counted upload differ by exactly one upload. */
  lemma CountedUploadUsesOne(q: QuotaRecord, now: string)
    requires q.uploadCount.Some? && QuotaInfoOf(q).remaining > 0
    ensures var q' := q.(uploadCount := Some(q.uploadCount.value + 1), updatedAt := Some(now));
      QuotaInfoOf(q') == AfterUpload(QuotaInfoOf(q))
  {
  }

  /** A `null` filename is not replaced by the default: the key ends in `/None`. */
  lemma NullFilenameKey(userId: string, fileId: string)
    ensures EndsWith(UploadKey(userId, fileId, FilenameText(JsonNull)), "/None")
    ensures !EndsWith(UploadKey(userId, fileId, FilenameText(JsonNull)), "/" + DefaultFilename)
  {
    var key := UploadKey(userId, fileId, "None");
    assert key[|key| - 1] == 'e' by {
      assert key[|key| - |"/None"|..] == "/None";
    }
  }

  /** A caller whose count has reached the limit is refused until the limit or the count changes. */
  lemma FullQuotaRefused(q: QuotaRecord)
    requires q.uploadCount.Some? && q.uploadLimit.Some? && q.uploadCount.value >= q.uploadLimit.value
    ensures QuotaInfoOf(q).remaining == 0
  {
  }
}
