/**
 * `incrementView`: counts at most one view per (post, client address) in
 * any rolling 24-hour window. A view is counted, and a `ViewRecord` kept for
 * it, only when no record for the same post and address is at most a day old.
 */
module ViewCounter {
  import opened Wrappers
  import opened Text
  import opened Store

  /** The dedup window, `24 * 60 * 60 * 1000` milliseconds. */
  const DayMs: int := 24 * 60 * 60 * 1000

  /** `new Date(now - DayMs)`: records viewed at or after this instant are still fresh. */
  function Cutoff(now: int): int {
    now - DayMs
  }

  /** The dedup key taken from the `x-forwarded-for` header: its first
      comma-separated field, or "unknown" when the header is absent or empty. */
  function ClientIp(forwardedFor: Option<string>): (ip: string)
    ensures forwardedFor.None? || forwardedFor.value == [] ==> ip == "unknown"
    ensures forwardedFor.Some? && forwardedFor.value != [] ==>
      && |ip| <= |forwardedFor.value| && ip == forwardedFor.value[..|ip|]
      && ',' !in ip
      && (|ip| < |forwardedFor.value| ==> forwardedFor.value[|ip|] == ',')
  {
    if forwardedFor.Some? && forwardedFor.value != [] then FirstField(forwardedFor.value, ',')
    else "unknown"
  }

  /** Some record of a view of `slug` from `ip` is not older than `cutoff`. */
  predicate SeenSince(records: set<ViewRecord>, slug: Slug, ip: string, cutoff: int) {
    exists r | r in records :: r.slug == slug && r.ip == ip && r.viewedAt >= cutoff
  }

  /** `incrementView(slug)` at time `now` with the given `x-forwarded-for` header. */
  function IncrementView(s: Store, slug: Slug, forwardedFor: Option<string>, now: int): (r: Store)
    ensures SeenSince(s.viewRecords, slug, ClientIp(forwardedFor), Cutoff(now)) ==> r == s
    ensures !SeenSince(s.viewRecords, slug, ClientIp(forwardedFor), Cutoff(now)) ==>
      && r.viewRecords == s.viewRecords + {ViewRecord(slug, ClientIp(forwardedFor), now)}
      && |r.viewRecords| == |s.viewRecords| + 1
      && ViewsOf(r, slug) == ViewsOf(s, slug) + 1
      && r.postStats.Keys == s.postStats.Keys + {slug}
      && r == s.(postStats := r.postStats, viewRecords := r.viewRecords)
    ensures forall sl | sl != slug :: ViewsOf(r, sl) == ViewsOf(s, sl)
    ensures ViewsOf(r, slug) >= ViewsOf(s, slug)
  {
    var ip := ClientIp(forwardedFor);
    if SeenSince(s.viewRecords, slug, ip, Cutoff(now)) then
      s
    else
      s.(postStats := s.postStats[slug := ViewsOf(s, slug) + 1],
         viewRecords := s.viewRecords + {ViewRecord(slug, ip, now)})
  }

  /** Two views from the same address within one window count at most once;
      at the same instant the second is a no-op. */
  lemma DedupWithinWindow(s: Store, slug: Slug, forwardedFor: Option<string>, t1: int, t2: int)
    requires t1 <= t2 <= t1 + DayMs
    ensures var s1 := IncrementView(s, slug, forwardedFor, t1);
            var s2 := IncrementView(s1, slug, forwardedFor, t2);
            && ViewsOf(s2, slug) <= ViewsOf(s, slug) + 1
            && (s1 != s ==> s2 == s1)
            && (t1 == t2 ==> s2 == s1)
  {
    var ip := ClientIp(forwardedFor);
    var s1 := IncrementView(s, slug, forwardedFor, t1);
    if !SeenSince(s.viewRecords, slug, ip, Cutoff(t1)) {
      assert ViewRecord(slug, ip, t1) in s1.viewRecords;
      assert SeenSince(s1.viewRecords, slug, ip, Cutoff(t2));
    }
  }

  /** Records of counted views from one address of one post lie more than a
      window apart: no window holds two counted views. */
  ghost predicate Spaced(records: set<ViewRecord>) {
    forall a, b | a in records && b in records && a != b && a.slug == b.slug && a.ip == b.ip ::
      a.viewedAt < b.viewedAt - DayMs || b.viewedAt < a.viewedAt - DayMs
  }

  /** Counting a view keeps the records spaced, whatever the clock says. */
  lemma IncrementViewKeepsSpaced(s: Store, slug: Slug, forwardedFor: Option<string>, now: int)
    requires Spaced(s.viewRecords)
    ensures Spaced(IncrementView(s, slug, forwardedFor, now).viewRecords)
  {
    var ip := ClientIp(forwardedFor);
    var n := ViewRecord(slug, ip, now);
    var r := IncrementView(s, slug, forwardedFor, now);
    if !SeenSince(s.viewRecords, slug, ip, Cutoff(now)) {
      forall a, b | a in r.viewRecords && b in r.viewRecords && a != b && a.slug == b.slug && a.ip == b.ip
        ensures a.viewedAt < b.viewedAt - DayMs || b.viewedAt < a.viewedAt - DayMs
      {
        if a == n {
          assert b in s.viewRecords;
        } else if b == n {
          assert a in s.viewRecords;
        }
      }
    }
  }

  lemma IncrementViewValid(s: Store, slug: Slug, forwardedFor: Option<string>, now: int)
    requires Valid(s)
    ensures Valid(IncrementView(s, slug, forwardedFor, now))
  {
  }
}
