/**
 * The cron endpoint `GET /api/cron/cleanup?key=…`: with the right secret it
 * deletes every view record older than one day and reports how many it
 * deleted. Its cutoff is the one `incrementView` uses, so it only ever
 * removes records the dedup check would ignore anyway.
 */
module Cleanup {
  import opened Wrappers
  import opened Store
  import opened ViewCounter

  /** The JSON responses: `401 Unauthorized` or `{ success, deletedCount }`. */
  datatype Response = Unauthorized401 | Swept(deletedCount: nat)

  datatype SweepResult = SweepResult(store: Store, response: Response)

  /** The JavaScript values the key check compares. */
  datatype JsValue = JsNull | JsUndefined | JsString(text: string)

  /** `searchParams.get("key")`: `null` when the parameter is absent. */
  function QueryParam(key: Option<string>): JsValue {
    if key.Some? then JsString(key.value) else JsNull
  }

  /** `process.env.CRON_SECRET`: `undefined` when the variable is unset. */
  function EnvVar(secret: Option<string>): JsValue {
    if secret.Some? then JsString(secret.value) else JsUndefined
  }

  /** `key !== process.env.CRON_SECRET` is false. Strict equality of these
      values is structural, and `null !== undefined`, so an unset secret
      refuses every request, one without a key included. */
  function Authorized(key: Option<string>, secret: Option<string>): (r: bool)
    ensures r <==> QueryParam(key) == EnvVar(secret)
    ensures secret.None? ==> !r
    ensures r ==> key == secret
  {
    secret.Some? && key == secret
  }

  predicate Expired(v: ViewRecord, now: int) {
    v.viewedAt < Cutoff(now)
  }

  /** The endpoint called with query `key` at time `now`. */
  function Sweep(s: Store, key: Option<string>, secret: Option<string>, now: int): (r: SweepResult)
    ensures !Authorized(key, secret) ==> r == SweepResult(s, Unauthorized401)
    ensures Authorized(key, secret) ==>
      && r.response.Swept?
      && r.store == s.(viewRecords := r.store.viewRecords)
      && (forall v :: v in r.store.viewRecords <==> v in s.viewRecords && !Expired(v, now))
      && r.response.deletedCount == |s.viewRecords| - |r.store.viewRecords|
  {
    if !Authorized(key, secret) then
      SweepResult(s, Unauthorized401)
    else
      var kept := set v | v in s.viewRecords && !Expired(v, now);
      var gone := set v | v in s.viewRecords && Expired(v, now);
      assert s.viewRecords == kept + gone && kept * gone == {};
      SweepResult(s.(viewRecords := kept), Swept(|gone|))
  }

  /** A sweep and a view at the same instant: the view behaves exactly as it
      would have without the sweep, because nothing the dedup check reads
      was deleted. */
  lemma SweepKeepsDedup(s: Store, key: Option<string>, secret: Option<string>, now: int,
                        slug: Slug, forwardedFor: Option<string>)
    ensures var swept := Sweep(s, key, secret, now).store;
            var ip := ClientIp(forwardedFor);
            && (SeenSince(swept.viewRecords, slug, ip, Cutoff(now)) <==> SeenSince(s.viewRecords, slug, ip, Cutoff(now)))
            && IncrementView(swept, slug, forwardedFor, now).postStats == IncrementView(s, slug, forwardedFor, now).postStats
  {
    var swept := Sweep(s, key, secret, now).store;
    var ip := ClientIp(forwardedFor);
    if SeenSince(s.viewRecords, slug, ip, Cutoff(now)) {
      var w :| w in s.viewRecords && w.slug == slug && w.ip == ip && w.viewedAt >= Cutoff(now);
      assert w in swept.viewRecords;
    }
  }

  /** A second sweep at the same instant finds nothing more to delete. */
  lemma SweepIdempotent(s: Store, key: Option<string>, secret: Option<string>, now: int)
    requires Authorized(key, secret)
    ensures var once := Sweep(s, key, secret, now);
            var twice := Sweep(once.store, key, secret, now);
            twice.store == once.store && twice.response == Swept(0)
  {
    var once := Sweep(s, key, secret, now).store;
    var twice := Sweep(once, key, secret, now).store;
    assert twice.viewRecords == once.viewRecords;
  }

  /** Deleting records keeps the counted views spaced more than a window apart. */
  lemma SweepKeepsSpaced(s: Store, key: Option<string>, secret: Option<string>, now: int)
    requires Spaced(s.viewRecords)
    ensures Spaced(Sweep(s, key, secret, now).store.viewRecords)
  {
  }

  lemma SweepValid(s: Store, key: Option<string>, secret: Option<string>, now: int)
    requires Valid(s)
    ensures Valid(Sweep(s, key, secret, now).store)
  {
  }
}
