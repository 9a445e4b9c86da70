/**
 * The user-quota DynamoDB table shared by the upload handler
 * (src/backend/upload.py) and the Stripe webhook (src/backend/stripe_handler.py).
 * It is keyed by `userId`; every other attribute of an item may be missing.
 * The table is a class whose one field, `items`, is the map from user id to
 * record; its methods are the reads and writes the two handlers issue.
 */
module QuotaTable {
  import opened Options

  /** An attribute that may be missing, stored as NULL, or hold a value. */
  datatype Nullable<T> = Absent | Null | Present(value: T)

  /** The attributes of one item other than its key `userId`. */
  datatype QuotaRecord = QuotaRecord(
    uploadCount: Option<int>,
    uploadLimit: Option<int>,
    periodStart: Option<string>,
    subscriptionTier: Option<string>,
    subscriptionExpiry: Nullable<string>,
    createdAt: Option<string>,
    updatedAt: Option<string>,
    subscriptionId: Nullable<string>)

  /** The limit of the free tier, written when a subscription ends and assumed when an item has none. */
  const FreeUploadLimit: int := 10

  /** An item that holds nothing but its key, as an update creates on a missing key. */
  const EmptyRecord := QuotaRecord(None, None, None, None, Absent, None, None, Absent)

  /** The item get_user_quota writes for a user seen for the first time. */
  function NewUserRecord(now: string, newUserQuota: int): (r: QuotaRecord)
    ensures r.uploadCount == Some(0) && r.uploadLimit == Some(newUserQuota)
    ensures r.subscriptionTier == Some("free") && r.subscriptionId == Absent && r.subscriptionExpiry == Null
    ensures r.periodStart == r.createdAt == r.updatedAt == Some(now)
  {
    QuotaRecord(Some(0), Some(newUserQuota), Some(now), Some("free"), Null, Some(now), Some(now), Absent)
  }

  /** The table after get_user_quota: unchanged when the user has an item, otherwise with a new-user item. */
  function GetOrCreate(items: map<string, QuotaRecord>, userId: string, now: string, newUserQuota: int): map<string, QuotaRecord>
  {
    if userId in items then items else items[userId := NewUserRecord(now, newUserQuota)]
  }

  /**
   * The table after `SET uploadCount = uploadCount + 1, updatedAt = now`, or
   * None when the update fails because the item has no uploadCount to add to.
   */
  function Incremented(items: map<string, QuotaRecord>, userId: string, now: string): Option<map<string, QuotaRecord>>
  {
    if userId in items && items[userId].uploadCount.Some? then
      Some(items[userId := items[userId].(uploadCount := Some(items[userId].uploadCount.value + 1), updatedAt := Some(now))])
    else None
  }

  /**
   * The table after update_user_quota's `SET uploadLimit, uploadCount = 0,
   * subscriptionId`; the update creates the item when the user has none.
   */
  function Subscribed(items: map<string, QuotaRecord>, userId: string, newLimit: int, subscriptionId: string): map<string, QuotaRecord>
  {
    var base := if userId in items then items[userId] else EmptyRecord;
    items[userId := base.(uploadLimit := Some(newLimit), uploadCount := Some(0), subscriptionId := Present(subscriptionId))]
  }

  /** The users a scan with `subscriptionId = :sid` returns. */
  function Subscribers(items: map<string, QuotaRecord>, subscriptionId: string): set<string>
  {
    set u | u in items && items[u].subscriptionId == Present(subscriptionId)
  }

  /** A record after the invoice-paid update `SET uploadCount = 0, uploadLimit = limit`. */
  function ResetRecord(r: QuotaRecord, newLimit: int): QuotaRecord
  {
    r.(uploadCount := Some(0), uploadLimit := Some(newLimit))
  }

  /** A record after the cancellation update `SET uploadLimit = 10, subscriptionId = NULL`. */
  function RevertRecord(r: QuotaRecord): QuotaRecord
  {
    r.(uploadLimit := Some(FreeUploadLimit), subscriptionId := Null)
  }

  /** The table after every subscriber of `subscriptionId` has been reset to `newLimit`. */
  function ResetAll(items: map<string, QuotaRecord>, subscriptionId: string, newLimit: int): map<string, QuotaRecord>
  {
    map u | u in items :: if u in Subscribers(items, subscriptionId) then ResetRecord(items[u], newLimit) else items[u]
  }

  /** The table after every subscriber of `subscriptionId` has been moved back to the free limit. */
  function RevertAll(items: map<string, QuotaRecord>, subscriptionId: string): map<string, QuotaRecord>
  {
    map u | u in items :: if u in Subscribers(items, subscriptionId) then RevertRecord(items[u]) else items[u]
  }

  /** Every item carries both counters; each write below keeps this. */
  ghost predicate HasCounters(items: map<string, QuotaRecord>)
  {
    forall u :: u in items ==> items[u].uploadCount.Some? && items[u].uploadLimit.Some?
  }

  class Table {
    var items: map<string, QuotaRecord>

    constructor (initial: map<string, QuotaRecord>)
      ensures items == initial
    {
      items := initial;
    }

    /** get_user_quota: the user's item, created with the new-user quota when missing. */
    method GetUserQuota(userId: string, now: string, newUserQuota: int) returns (q: QuotaRecord)
      modifies this
      ensures items == GetOrCreate(old(items), userId, now, newUserQuota)
      ensures q == items[userId]
      ensures userId in old(items) ==> q == old(items)[userId]
      ensures userId !in old(items) ==> q == NewUserRecord(now, newUserQuota)
      ensures HasCounters(old(items)) ==> HasCounters(items)
    {
      if userId in items {
        q := items[userId];
      } else {
        q := NewUserRecord(now, newUserQuota);
        items := items[userId := q];
      }
    }

    /**
     * increment_upload_count: adds one to the user's uploadCount and stamps
     * updatedAt; fails, changing nothing, when there is no uploadCount.
     */
    method IncrementUploadCount(userId: string, now: string) returns (ok: bool)
      modifies this
      ensures ok <==> Incremented(old(items), userId, now).Some?
      ensures items == Incremented(old(items), userId, now).GetOr(old(items))
      ensures ok ==> items[userId].uploadCount == Some(old(items)[userId].uploadCount.value + 1)
      ensures ok ==> forall u :: u != userId ==> (u in items <==> u in old(items)) && (u in items ==> items[u] == old(items)[u])
      ensures HasCounters(old(items)) ==> HasCounters(items)
    {
      if userId in items && items[userId].uploadCount.Some? {
        var r := items[userId];
        items := items[userId := r.(uploadCount := Some(r.uploadCount.value + 1), updatedAt := Some(now))];
        ok := true;
      } else {
        ok := false;
      }
    }

    /** update_user_quota: the user gets `newLimit`, a zero count and the subscription id. */
    method UpdateUserQuota(userId: string, newLimit: int, subscriptionId: string)
      modifies this
      ensures items == Subscribed(old(items), userId, newLimit, subscriptionId)
      ensures items[userId].uploadLimit == Some(newLimit) && items[userId].uploadCount == Some(0)
      ensures items[userId].subscriptionId == Present(subscriptionId)
      ensures forall u :: u != userId ==> (u in items <==> u in old(items)) && (u in items ==> items[u] == old(items)[u])
      ensures HasCounters(old(items)) ==> HasCounters(items)
    {
      var base := if userId in items then items[userId] else EmptyRecord;
      items := items[userId := base.(uploadLimit := Some(newLimit), uploadCount := Some(0), subscriptionId := Present(subscriptionId))];
    }

    /**
     * handle_invoice_paid's scan and update loop: every item whose
     * subscriptionId is `subscriptionId` gets a zero count and `newLimit`.
     */
    method ResetSubscribers(subscriptionId: string, newLimit: int)
      modifies this
      ensures items == ResetAll(old(items), subscriptionId, newLimit)
      ensures HasCounters(old(items)) ==> HasCounters(items)
    {
      var pending := Subscribers(items, subscriptionId);
      ghost var before := items;
      while pending != {}
        invariant pending <= Subscribers(before, subscriptionId)
        invariant items.Keys == before.Keys
        invariant forall u :: u in items ==>
          items[u] == if u in Subscribers(before, subscriptionId) - pending then ResetRecord(before[u], newLimit) else before[u]
        decreases pending
      {
        var u :| u in pending;
        items := items[u := ResetRecord(items[u], newLimit)];
        pending := pending - {u};
      }
    }

    /**
     * handle_subscription_deleted's scan and update loop: every item whose
     * subscriptionId is `subscriptionId` goes back to the free limit and loses
     * its subscription id; its count is kept.
     */
    method RevertSubscribers(subscriptionId: string)
      modifies this
      ensures items == RevertAll(old(items), subscriptionId)
      ensures HasCounters(old(items)) ==> HasCounters(items)
    {
      var pending := Subscribers(items, subscriptionId);
      ghost var before := items;
      while pending != {}
        invariant pending <= Subscribers(before, subscriptionId)
        invariant items.Keys == before.Keys
        invariant forall u :: u in items ==>
          items[u] == if u in Subscribers(before, subscriptionId) - pending then RevertRecord(before[u]) else before[u]
        decreases pending
      {
        var u :| u in pending;
        items := items[u := RevertRecord(items[u])];
        pending := pending - {u};
      }
    }
  }

  /** After get_user_quota on a table whose items all carry counters, the increment cannot fail. */
  lemma IncrementAfterGetOrCreate(items: map<string, QuotaRecord>, userId: string, now: string, newUserQuota: int)
    requires HasCounters(items)
    ensures Incremented(GetOrCreate(items, userId, now, newUserQuota), userId, now).Some?
  {
  }

  /**
   * Invoice paid: each subscriber gets count 0 and the new limit with every
   * other attribute kept; every other item is untouched; no item appears or
   * disappears.
   */
  lemma ResetAllFrame(items: map<string, QuotaRecord>, subscriptionId: string, newLimit: int, u: string)
    requires u in items
    ensures ResetAll(items, subscriptionId, newLimit).Keys == items.Keys
    ensures var r, s := items[u], ResetAll(items, subscriptionId, newLimit)[u];
      if r.subscriptionId == Present(subscriptionId) then
        s == r.(uploadCount := Some(0), uploadLimit := Some(newLimit))
      else s == r
  {
  }

  /**
   * Subscription deleted: each subscriber gets the free limit and a NULL
   * subscription id, and keeps its count; every other item is untouched.
   */
  lemma RevertAllFrame(items: map<string, QuotaRecord>, subscriptionId: string, u: string)
    requires u in items
    ensures RevertAll(items, subscriptionId).Keys == items.Keys
    ensures var r, s := items[u], RevertAll(items, subscriptionId)[u];
      if r.subscriptionId == Present(subscriptionId) then
        s == r.(uploadLimit := Some(FreeUploadLimit), subscriptionId := Null)
      else s == r
  {
  }
}
