/**
 * The PDF processor (src/data/processor.py): on an upload event it reads the
 * uploaded object and writes a copy into the processed bucket under a key
 * that records the owner and the UTC day of processing. The S3 traffic is
 * returned as the list of calls the handler makes, in order.
 */
module Processor {
  import opened Text
  import opened Numerals

  /** A UTC calendar day as Python's datetime carries it. */
  datatype UtcDate = UtcDate(year: nat, month: nat, day: nat)

  predicate ValidDate(d: UtcDate)
  {
    1 <= d.year <= 9999 && 1 <= d.month <= 12 && 1 <= d.day <= 31
  }

  const ProcessedSuffix := "_processed.pdf"

  /** The processed file's key: `<user>/<year>/<MM>/<DD>/<file id>_processed.pdf`. */
  function ProcessedKey(userId: string, now: UtcDate, fileId: string): string
  {
    userId + "/" + NatToString(now.year) + "/" + Pad2(now.month) + "/" + Pad2(now.day) + "/" + fileId + ProcessedSuffix
  }

  /**
   * For a user id without '/', the key's first four segments are the user,
   * the year without padding, and the month and day padded to two digits;
   * the rest is the file name.
   */
  lemma ProcessedKeySegments(userId: string, now: UtcDate, fileId: string)
    requires '/' !in userId
    ensures var parts := Split(ProcessedKey(userId, now, fileId), '/');
      parts == [userId, NatToString(now.year), Pad2(now.month), Pad2(now.day)] + Split(fileId + ProcessedSuffix, '/')
  {
    var y, m, d := NatToString(now.year), Pad2(now.month), Pad2(now.day);
    var rest := fileId + ProcessedSuffix;
    var tail := d + ['/'] + rest;
    var key := ProcessedKey(userId, now, fileId);
    KeyRegroup(userId, y, m, d, fileId, ProcessedSuffix);
    assert key == userId + ['/'] + (y + ['/'] + (m + ['/'] + tail));
    assert '/' !in y && '/' !in m && '/' !in d;
    SplitThree(userId, y, m, tail, '/');
    SplitCons(d, '/', rest);
    FourSegments(userId, y, m, d, Split(rest, '/'), Split(key, '/'));
  }

  lemma FourSegments(a: string, b: string, c: string, d: string, tail: seq<string>, whole: seq<string>)
    requires whole == [a, b, c] + ([d] + tail)
    ensures whole == [a, b, c, d] + tail
  {
  }

  lemma KeyRegroup(u: string, y: string, m: string, d: string, f: string, suffix: string)
    ensures u + "/" + y + "/" + m + "/" + d + "/" + f + suffix ==
      u + ['/'] + (y + ['/'] + (m + ['/'] + (d + ['/'] + (f + suffix))))
  {
  }

  /** On a valid date the month and day segments are two digits that spell the month and day. */
  lemma ProcessedKeyDateSegments(now: UtcDate)
    requires ValidDate(now)
    ensures |Pad2(now.month)| == 2 && DigitsValue(Pad2(now.month)) == now.month
    ensures |Pad2(now.day)| == 2 && DigitsValue(Pad2(now.day)) == now.day
    ensures 1000 <= now.year ==> |NatToString(now.year)| == 4 && DigitsValue(NatToString(now.year)) == now.year
  {
    if 1000 <= now.year {
      NatToStringFourDigits(now.year);
      NatToStringValue(now.year);
    }
  }

  /** The S3 calls the handler makes. */
  datatype S3Call =
    | GetObject(bucket: string, key: string)
    | PutObject(bucket: string, key: string, sourceBucket: string, sourceKey: string, contentType: string)  // body: the bytes read from the source

  /** The handler's outcome: the calls made and the key written, or the first required field the event lacks. */
  datatype ProcessorResult = Processed(calls: seq<S3Call>, processedKey: string) | MissingField(field: string)

  /**
   * handler on the event's `detail`. It reads `key`, `userId`, `fileId` in
   * that order, failing on the first one missing before touching S3; it
   * then copies the object and reports the key it wrote to.
   */
  function ProcessPdf(pdfBucket: string, processedBucket: string, detail: map<string, string>, now: UtcDate): (r: ProcessorResult)
    ensures r.MissingField? <==> !("key" in detail && "userId" in detail && "fileId" in detail)
    ensures r.MissingField? ==>
      r.field == (if "key" !in detail then "key" else if "userId" !in detail then "userId" else "fileId")
    ensures r.Processed? ==>
      |r.calls| == 2 && r.calls[0] == GetObject(pdfBucket, detail["key"]) &&
      r.calls[1].PutObject? && r.calls[1].bucket == processedBucket && r.calls[1].key == r.processedKey &&
      r.calls[1].sourceBucket == pdfBucket && r.calls[1].sourceKey == detail["key"] &&
      r.calls[1].contentType == "application/pdf"
    ensures r.Processed? ==> r.processedKey == ProcessedKey(detail["userId"], now, detail["fileId"])
  {
    if "key" !in detail then MissingField("key")
    else if "userId" !in detail then MissingField("userId")
    else if "fileId" !in detail then MissingField("fileId")
    else
      var key := detail["key"];
      var processedKey := ProcessedKey(detail["userId"], now, detail["fileId"]);
      Processed([GetObject(pdfBucket, key), PutObject(processedBucket, processedKey, pdfBucket, key, "application/pdf")], processedKey)
  }

  /** The processed key depends only on the user, the day and the file id, never on the source key or the file name. */
  lemma ProcessedKeyIgnoresSource(pdfBucket: string, processedBucket: string, d1: map<string, string>, d2: map<string, string>, now: UtcDate)
    requires "key" in d1 && "key" in d2
    requires "userId" in d1 && "userId" in d2 && d1["userId"] == d2["userId"]
    requires "fileId" in d1 && "fileId" in d2 && d1["fileId"] == d2["fileId"]
    ensures ProcessPdf(pdfBucket, processedBucket, d1, now).processedKey == ProcessPdf(pdfBucket, processedBucket, d2, now).processedKey
  {
  }

  /** Two files of one user processed on one day land in distinct keys exactly when their ids differ. */
  lemma ProcessedKeyInjective(userId: string, now: UtcDate, f1: string, f2: string)
    requires ProcessedKey(userId, now, f1) == ProcessedKey(userId, now, f2)
    ensures f1 == f2
  {
    var p := userId + "/" + NatToString(now.year) + "/" + Pad2(now.month) + "/" + Pad2(now.day) + "/";
    assert ProcessedKey(userId, now, f1) == p + (f1 + ProcessedSuffix);
    assert ProcessedKey(userId, now, f2) == p + (f2 + ProcessedSuffix);
    assert f1 + ProcessedSuffix == ProcessedKey(userId, now, f1)[|p|..];
    assert f2 + ProcessedSuffix == ProcessedKey(userId, now, f2)[|p|..];
    assert f1 == (f1 + ProcessedSuffix)[..|f1|];
    assert f2 == (f2 + ProcessedSuffix)[..|f2|];
  }
}
