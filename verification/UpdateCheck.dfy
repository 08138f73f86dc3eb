/**
 * The conditional-request cache of the update check: `check_at_with`, `cache_is_usable`, `refresh`,
 * `retry_delay` and `classify_release` of `src/update_check.rs`.
 *
 * Releases are compared by a number that stands for the order of their versions. What the upstream
 * answers is passed in; it is looked at only if a request is made. Durations and instants are nanoseconds.
 */
module UpdateCheck {
  import opened Common

  const NS_PER_SEC: nat := 1_000_000_000

  datatype Release = Release(version: int, details: string)

  datatype Status = UpToDate(current: int, latest: int) | UpdateAvailable(current: int, latest: int, details: string)

  function Classify(current: int, release: Release): Status {
    if release.version <= current then UpToDate(current, release.version)
    else UpdateAvailable(current, release.version, release.details)
  }

  datatype Config = Config(current: int, successTtl: nat, failureBackoff: nat, maxFailureBackoff: nat)

  datatype Cache = Cache(
    release: Option<Release>, etag: Option<string>, validatedAt: Option<nat>, backoffUntil: Option<nat>)

  const EMPTY_CACHE := Cache(None, None, None, None)

  /** `release` is `None` for a body that does not parse or does not pass validation. */
  datatype Response =
    | SendFailed
    | NotModified
    | HttpError(retryAfterSecs: Option<nat>, rateLimitReset: Option<int>)
    | Fetched(etag: Option<string>, release: Option<Release>)

  datatype Answer =
    | Cached(status: Status)
    | Refreshed(status: Status)
    | InBackoff
    | Failed
    | NoRelease   // "usable cache did not contain a release"

  function Elapsed(now: nat, t: nat): nat {
    if now >= t then now - t else 0
  }

  predicate Usable(cache: Cache, now: nat, cfg: Config) {
    cache.validatedAt.Some? && Elapsed(now, cache.validatedAt.value) < cfg.successTtl
  }

  predicate BackingOff(cache: Cache, now: nat) {
    cache.backoffUntil.Some? && now < cache.backoffUntil.value
  }

  /** Whether the check goes to the upstream. */
  predicate Requests(cache: Cache, now: nat, force: bool, cfg: Config) {
    (force || !Usable(cache, now, cfg)) && !BackingOff(cache, now)
  }

  /** The later of the two hints of an error response; a reset in the past is no hint. */
  function RetryDelay(r: Response, unixNow: int): Option<nat>
    requires r.HttpError?
  {
    var reset := if r.rateLimitReset.Some? && r.rateLimitReset.value >= unixNow
        then Some(r.rateLimitReset.value - unixNow) else None;
    if r.retryAfterSecs.None? then reset
    else if reset.None? then r.retryAfterSecs
    else Some(Max(r.retryAfterSecs.value, reset.value))
  }

  /** How long to leave the upstream alone after a failure. */
  function Backoff(hintSecs: Option<nat>, cfg: Config): nat {
    Min(if hintSecs.Some? then Max(hintSecs.value * NS_PER_SEC, cfg.failureBackoff) else cfg.failureBackoff,
        cfg.maxFailureBackoff)
  }

  function Check(cache: Cache, cfg: Config, now: nat, unixNow: int, force: bool, response: Response): (Cache, Answer) {
    if !force && Usable(cache, now, cfg) then
      (cache, if cache.release.Some? then Cached(Classify(cfg.current, cache.release.value)) else NoRelease)
    else if BackingOff(cache, now) then (cache, InBackoff)
    else
      match response
      case NotModified =>
        if cache.release.Some? then
          (cache.(validatedAt := Some(now), backoffUntil := None),
              Refreshed(Classify(cfg.current, cache.release.value)))
        else (cache.(backoffUntil := Some(now + Backoff(None, cfg))), Failed)
      case Fetched(etag, Some(release)) =>
        (Cache(Some(release), etag, Some(now), None), Refreshed(Classify(cfg.current, release)))
      case Fetched(_, None) => (cache.(backoffUntil := Some(now + Backoff(None, cfg))), Failed)
      case SendFailed => (cache.(backoffUntil := Some(now + Backoff(None, cfg))), Failed)
      case HttpError(_, _) => (cache.(backoffUntil := Some(now + Backoff(RetryDelay(response, unixNow), cfg))), Failed)
  }

  class UpdateChecker {
    const cfg: Config
    var cache: Cache

    constructor (cfg: Config)
      ensures this.cfg == cfg && cache == EMPTY_CACHE
    {
      this.cfg := cfg;
      cache := EMPTY_CACHE;
    }

    /** The answer of a successful refresh, or the retry hint of a failed one. */
    method Refresh(now: nat, unixNow: int, response: Response) returns (status: Option<Status>, hint: Option<nat>)
      modifies this`cache
      ensures status.Some? <==>
                (response == NotModified && old(cache).release.Some?) || (response.Fetched? && response.release.Some?)
      ensures status.Some? ==> cache.release.Some? && status.value == Classify(cfg.current, cache.release.value)
      ensures status.Some? ==> cache.validatedAt == Some(now) && cache.backoffUntil == None
      ensures response == NotModified ==> cache.release == old(cache).release && cache.etag == old(cache).etag
      ensures status.Some? && response.Fetched? ==> cache.release == response.release && cache.etag == response.etag
      ensures status.None? ==> cache == old(cache)
      ensures status.None? ==> hint == if response.HttpError? then RetryDelay(response, unixNow) else None
    {
      status, hint := None, None;
      match response {
        case NotModified =>
          if cache.release.None? {
            return;
          }
          cache := cache.(validatedAt := Some(now));
          cache := cache.(backoffUntil := None);
          status := Some(Classify(cfg.current, cache.release.value));
        case HttpError(_, _) =>
          hint := RetryDelay(response, unixNow);
        case SendFailed =>
        case Fetched(etag, release) =>
          if release.None? {
            return;
          }
          cache := cache.(validatedAt := Some(now));
          cache := cache.(release := release);
          cache := cache.(etag := etag);
          cache := cache.(backoffUntil := None);
          status := Some(Classify(cfg.current, cache.release.value));
      }
    }

    method CheckAtWith(now: nat, unixNow: int, force: bool, response: Response) returns (answer: Answer)
      modifies this`cache
      ensures (cache, answer) == Check(old(cache), cfg, now, unixNow, force, response)
    {
      if !force && Usable(cache, now, cfg) {
        return if cache.release.Some? then Cached(Classify(cfg.current, cache.release.value)) else NoRelease;
      }
      if BackingOff(cache, now) {
        return InBackoff;
      }
      var status, hint := Refresh(now, unixNow, response);
      if status.Some? {
        answer := Refreshed(status.value);
      } else {
        cache := cache.(backoffUntil := Some(now + Backoff(hint, cfg)));
        answer := Failed;
      }
    }
  }

  // ---- runs against an upstream ----

  /** What the upstream publishes at the time of a check. */
  datatype Published = Published(release: Release, etag: Option<string>)

  datatype Event = Event(now: nat, unixNow: int, force: bool, upstream: Published, response: Response)

  function CacheAt(events: seq<Event>, n: nat, cfg: Config): Cache
    requires n <= |events|
  {
    if n == 0 then EMPTY_CACHE
    else
      var e := events[n - 1];
      Check(CacheAt(events, n - 1, cfg), cfg, e.now, e.unixNow, e.force, e.response).0
  }

  function AnswerAt(events: seq<Event>, n: nat, cfg: Config): Answer
    requires n < |events|
  {
    var e := events[n];
    Check(CacheAt(events, n, cfg), cfg, e.now, e.unixNow, e.force, e.response).1
  }

  predicate RequestsAt(events: seq<Event>, n: nat, cfg: Config)
    requires n < |events|
  {
    Requests(CacheAt(events, n, cfg), events[n].now, events[n].force, cfg)
  }

  /**
   * Section 13.1.2 of RFC 9110: "not modified" only for the entity tag that was sent, if it is current;
   * a successful answer carries what is published.
   */
  predicate Honours(sent: Option<string>, upstream: Published, response: Response) {
    && (response.NotModified? ==> sent.Some? && sent == upstream.etag)
    && (response.Fetched? ==>
        response.etag == upstream.etag && (response.release.Some? ==> response.release.value == upstream.release))
  }

  ghost predicate HonestUpstream(events: seq<Event>, cfg: Config) {
    && (forall i :: 0 <= i < |events| && RequestsAt(events, i, cfg) ==>
          Honours(CacheAt(events, i, cfg).etag, events[i].upstream, events[i].response))
    && (forall i, j :: 0 <= i < |events| && 0 <= j < |events| ==> TagsAgree(events[i].upstream, events[j].upstream))
  }

  /** An entity tag identifies a release. */
  predicate TagsAgree(a: Published, b: Published) {
    a.etag.Some? && a.etag == b.etag ==> a.release == b.release
  }

  /** The stored entity tag came with the stored release, and the release was current when it was validated. */
  ghost predicate Grounded(events: seq<Event>, n: nat, cache: Cache)
    requires n <= |events|
  {
    && (cache.etag.Some? || cache.validatedAt.Some? ==> cache.release.Some?)
    && (cache.etag.Some? ==>
          exists i :: 0 <= i < n && events[i].upstream == Published(cache.release.value, cache.etag))
    && (cache.validatedAt.Some? ==>
          exists i :: 0 <= i < n && events[i].now == cache.validatedAt.value
              && events[i].upstream.release == cache.release.value)
  }

  lemma {:induction false} CacheGrounded(events: seq<Event>, n: nat, cfg: Config)
    requires n <= |events| && HonestUpstream(events, cfg)
    ensures Grounded(events, n, CacheAt(events, n, cfg))
  {
    hide Grounded, HonestUpstream, Check;
    if n == 0 {
      assert Grounded(events, 0, EMPTY_CACHE) by { NothingCached(events); }
    } else {
      CacheGrounded(events, n - 1, cfg);
      CheckGrounded(events, n - 1, cfg);
    }
  }

  lemma NothingCached(events: seq<Event>)
    ensures Grounded(events, 0, EMPTY_CACHE)
  {
  }

  lemma CheckGrounded(events: seq<Event>, m: nat, cfg: Config)
    requires m < |events| && HonestUpstream(events, cfg) && Grounded(events, m, CacheAt(events, m, cfg))
    ensures Grounded(events, m + 1, CacheAt(events, m + 1, cfg))
  {
    hide Grounded, Usable, BackingOff, Backoff, RetryDelay, Classify;
    var cache, after, e := CacheAt(events, m, cfg), CacheAt(events, m + 1, cfg), events[m];
    if AnswerAt(events, m, cfg).Refreshed? {
      assert RequestsAt(events, m, cfg);
      if e.response.NotModified? {
        TagIsCurrent(events, m, cfg);
        Revalidated(events, m, cache, after);
      } else {
        assert e.response.etag == e.upstream.etag && e.response.release.value == e.upstream.release;
        Replaced(events, m, after);
      }
    } else {
      SameGrounds(events, m, cache, after);
    }
  }

  /** When a request is answered "not modified", the cached release is the one published now. */
  lemma TagIsCurrent(events: seq<Event>, m: nat, cfg: Config)
    requires m < |events| && HonestUpstream(events, cfg) && Grounded(events, m, CacheAt(events, m, cfg))
    requires RequestsAt(events, m, cfg) && events[m].response.NotModified?
    ensures CacheAt(events, m, cfg).release == Some(events[m].upstream.release)
    ensures CacheAt(events, m, cfg).etag == events[m].upstream.etag
  {
    hide Requests, CacheAt;
    var cache := CacheAt(events, m, cfg);
    assert Honours(cache.etag, events[m].upstream, events[m].response);
    var i :| 0 <= i < m && events[i].upstream == Published(cache.release.value, cache.etag);
    assert TagsAgree(events[i].upstream, events[m].upstream);
  }

  lemma Revalidated(events: seq<Event>, m: nat, cache: Cache, after: Cache)
    requires m < |events| && Grounded(events, m, cache)
    requires after.release == cache.release == Some(events[m].upstream.release) && after.etag == cache.etag
    requires after.validatedAt == Some(events[m].now)
    ensures Grounded(events, m + 1, after)
  {
  }

  lemma Replaced(events: seq<Event>, m: nat, after: Cache)
    requires m < |events| && after.validatedAt == Some(events[m].now)
    requires after.release == Some(events[m].upstream.release) && after.etag == events[m].upstream.etag
    ensures Grounded(events, m + 1, after)
  {
    assert events[m].upstream == Published(after.release.value, after.etag);
  }

  lemma SameGrounds(events: seq<Event>, m: nat, cache: Cache, after: Cache)
    requires m < |events| && Grounded(events, m, cache)
    requires after.release == cache.release && after.etag == cache.etag && after.validatedAt == cache.validatedAt
    ensures Grounded(events, m + 1, after)
  {
  }

  /** What a status says about a release: an update exactly if the release is newer than the program. */
  predicate Reports(status: Status, current: int, release: Release) {
    && status.current == current && status.latest == release.version
    && (status.UpdateAvailable? <==> release.version > current)
    && (status.UpdateAvailable? ==> status.details == release.details)
  }

  /** A refreshed answer reports the release the upstream publishes now. */
  lemma RefreshedIsCurrent(events: seq<Event>, n: nat, cfg: Config)
    requires n < |events| && HonestUpstream(events, cfg) && AnswerAt(events, n, cfg).Refreshed?
    ensures Reports(AnswerAt(events, n, cfg).status, cfg.current, events[n].upstream.release)
  {
    hide Usable, BackingOff, Backoff, RetryDelay;
    CacheGrounded(events, n, cfg);
    assert RequestsAt(events, n, cfg);
    if events[n].response.NotModified? {
      TagIsCurrent(events, n, cfg);
    }
  }

  /** A cached answer reports a release the upstream published less than the TTL ago. */
  lemma CachedIsRecent(events: seq<Event>, n: nat, cfg: Config)
    requires n < |events| && HonestUpstream(events, cfg) && AnswerAt(events, n, cfg).Cached?
    ensures exists i :: 0 <= i < n && Elapsed(events[n].now, events[i].now) < cfg.successTtl
                        && Reports(AnswerAt(events, n, cfg).status, cfg.current, events[i].upstream.release)
  {
    hide BackingOff, Backoff, RetryDelay;
    CacheGrounded(events, n, cfg);
  }

  /** The complaint about a usable cache without a release is unreachable, and so is "304 without a cached release". */
  lemma CacheNeverEmpty(events: seq<Event>, n: nat, cfg: Config)
    requires n < |events| && HonestUpstream(events, cfg)
    ensures AnswerAt(events, n, cfg) != NoRelease
    ensures RequestsAt(events, n, cfg) && events[n].response.NotModified? ==> AnswerAt(events, n, cfg).Refreshed?
  {
    hide Backoff, RetryDelay, Classify;
    CacheGrounded(events, n, cfg);
    assert RequestsAt(events, n, cfg) ==> Honours(CacheAt(events, n, cfg).etag, events[n].upstream, events[n].response);
  }

  lemma {:induction false} QuietKeepsCache(events: seq<Event>, i: nat, n: nat, cfg: Config)
    requires i <= n <= |events|
    requires forall j :: i <= j < n ==> !RequestsAt(events, j, cfg)
    ensures CacheAt(events, n, cfg) == CacheAt(events, i, cfg)
    decreases n
  {
    hide Backoff, RetryDelay;
    if i < n {
      QuietKeepsCache(events, i, n - 1, cfg);
      assert !RequestsAt(events, n - 1, cfg);
    }
  }

  /** After a failure the upstream is left alone, whether or not a check is forced. No honesty is needed for this. */
  lemma FailureBacksOff(events: seq<Event>, i: nat, n: nat, cfg: Config)
    requires i < n < |events| && AnswerAt(events, i, cfg) == Failed && RequestsAt(events, n, cfg)
    requires forall j :: i < j < n ==> !RequestsAt(events, j, cfg)
    ensures events[n].now >= events[i].now + Min(cfg.failureBackoff, cfg.maxFailureBackoff)
  {
    hide Usable, RetryDelay;
    QuietKeepsCache(events, i + 1, n, cfg);
    assert CacheAt(events, i + 1, cfg).backoffUntil.Some?;
  }

  // ---- when the upstream is asked ----

  /** Check `i` is the last before `n` that was answered from the upstream. */
  ghost predicate LastRefresh(events: seq<Event>, n: nat, cfg: Config, i: int)
    requires n <= |events|
  {
    0 <= i < n && AnswerAt(events, i, cfg).Refreshed? && forall j :: i < j < n ==> !AnswerAt(events, j, cfg).Refreshed?
  }

  /** Check `i` is the last before `n` that asked the upstream. */
  ghost predicate LastRequest(events: seq<Event>, n: nat, cfg: Config, i: int)
    requires n <= |events|
  {
    0 <= i < n && RequestsAt(events, i, cfg) && forall j :: i < j < n ==> !RequestsAt(events, j, cfg)
  }

  /** How long the upstream is left alone after a response that failed. */
  function Wait(e: Event, cfg: Config): nat {
    Backoff(if e.response.HttpError? then RetryDelay(e.response, e.unixNow) else None, cfg)
  }

  /** At least what every hint of the response asks for, up to the limit; and no longer than there is a reason for. */
  lemma WaitIs(e: Event, cfg: Config)
    ensures var w := Wait(e, cfg); var limit := cfg.maxFailureBackoff;
            var after := if e.response.HttpError? then e.response.retryAfterSecs else None;
            var reset := if e.response.HttpError? then e.response.rateLimitReset else None;
            && Min(cfg.failureBackoff, limit) <= w <= limit
            && (after.Some? ==> w >= Min(after.value * NS_PER_SEC, limit))
            && (reset.Some? && reset.value >= e.unixNow ==> w >= Min((reset.value - e.unixNow) * NS_PER_SEC, limit))
            && (|| w == limit || w == cfg.failureBackoff
                || (after.Some? && w == after.value * NS_PER_SEC)
                || (reset.Some? && reset.value >= e.unixNow && w == (reset.value - e.unixNow) * NS_PER_SEC))
  {
  }

  /** The cache was validated by the last refresh. */
  ghost predicate RefreshKnown(events: seq<Event>, n: nat, cfg: Config)
    requires n <= |events|
  {
    var cache := CacheAt(events, n, cfg);
    && (cache.validatedAt.Some? ==> cache.release.Some?)
    && (cache.validatedAt.Some? ==>
          exists i :: LastRefresh(events, n, cfg, i) && cache.validatedAt.value == events[i].now)
    && (cache.validatedAt.None? ==> forall i :: 0 <= i < n ==> !AnswerAt(events, i, cfg).Refreshed?)
  }

  /** The backoff is that of the last request, if it failed. */
  ghost predicate RequestKnown(events: seq<Event>, n: nat, cfg: Config)
    requires n <= |events|
  {
    var cache := CacheAt(events, n, cfg);
    && (cache.backoffUntil.Some? ==>
          exists i :: LastRequest(events, n, cfg, i) && AnswerAt(events, i, cfg) == Failed
                      && cache.backoffUntil.value == events[i].now + Wait(events[i], cfg))
    && (cache.backoffUntil.None? ==>
          forall i :: LastRequest(events, n, cfg, i) ==> AnswerAt(events, i, cfg).Refreshed?)
  }

  lemma {:induction false} TimesKnown(events: seq<Event>, n: nat, cfg: Config)
    requires n <= |events|
    ensures RefreshKnown(events, n, cfg) && RequestKnown(events, n, cfg)
  {
    hide RefreshKnown, RequestKnown, Check;
    if n == 0 {
      assert RefreshKnown(events, 0, cfg) && RequestKnown(events, 0, cfg) by { NoTimesYet(events, cfg); }
    } else {
      TimesKnown(events, n - 1, cfg);
      RefreshNext(events, n - 1, n, cfg);
      RequestNext(events, n - 1, n, cfg);
    }
  }

  lemma NoTimesYet(events: seq<Event>, cfg: Config)
    ensures RefreshKnown(events, 0, cfg) && RequestKnown(events, 0, cfg)
  {
  }

  /** What one check does to the times. */
  lemma OneCheck(events: seq<Event>, m: nat, cfg: Config)
    requires m < |events| && (CacheAt(events, m, cfg).validatedAt.Some? ==> CacheAt(events, m, cfg).release.Some?)
    ensures var before, after, answer := CacheAt(events, m, cfg), CacheAt(events, m + 1, cfg), AnswerAt(events, m, cfg);
            && (after.validatedAt.Some? ==> after.release.Some?)
            && (answer.Refreshed? ==>
                  RequestsAt(events, m, cfg) && after.validatedAt == Some(events[m].now) && after.backoffUntil == None)
            && (answer == Failed ==>
                  RequestsAt(events, m, cfg) && after.validatedAt == before.validatedAt
                  && after.backoffUntil == Some(events[m].now + Wait(events[m], cfg)))
            && (RequestsAt(events, m, cfg) ==> answer.Refreshed? || answer == Failed)
            && (!RequestsAt(events, m, cfg) ==> after == before)
  {
    hide Backoff, RetryDelay, Classify;
  }

  lemma RefreshNext(events: seq<Event>, m: nat, n: nat, cfg: Config)
    requires n == m + 1 <= |events| && RefreshKnown(events, m, cfg)
    ensures RefreshKnown(events, n, cfg)
  {
    hide CacheAt, AnswerAt, RequestsAt, Wait;
    OneCheck(events, m, cfg);
    if AnswerAt(events, m, cfg).Refreshed? {
      assert LastRefresh(events, n, cfg, m);
    } else {
      RefreshStays(events, m, n, cfg);
      hide LastRefresh;
    }
  }

  lemma RequestNext(events: seq<Event>, m: nat, n: nat, cfg: Config)
    requires n == m + 1 <= |events| && RequestKnown(events, m, cfg) && RefreshKnown(events, m, cfg)
    ensures RequestKnown(events, n, cfg)
  {
    hide CacheAt, AnswerAt, RequestsAt, Wait, RequestKnown;
    OneCheck(events, m, cfg);
    if RequestsAt(events, m, cfg) {
      RequestNow(events, m, n, cfg);
    } else {
      RequestKept(events, m, n, cfg);
    }
  }

  lemma RequestNow(events: seq<Event>, m: nat, n: nat, cfg: Config)
    requires n == m + 1 <= |events| && RequestsAt(events, m, cfg)
    requires var answer, after := AnswerAt(events, m, cfg), CacheAt(events, n, cfg);
             || (answer.Refreshed? && after.backoffUntil == None)
             || (answer == Failed && after.backoffUntil == Some(events[m].now + Wait(events[m], cfg)))
    ensures RequestKnown(events, n, cfg)
  {
    hide CacheAt, AnswerAt, RequestsAt, Wait;
    assert LastRequest(events, n, cfg, m);
    LastRequestUnique(events, n, cfg);
  }

  lemma RequestKept(events: seq<Event>, m: nat, n: nat, cfg: Config)
    requires n == m + 1 <= |events| && !RequestsAt(events, m, cfg) && RequestKnown(events, m, cfg)
    requires CacheAt(events, n, cfg) == CacheAt(events, m, cfg)
    ensures RequestKnown(events, n, cfg)
  {
    hide CacheAt, AnswerAt, Wait;
    RequestStays(events, m, n, cfg);
    hide LastRequest, RequestsAt;
  }

  lemma RefreshStays(events: seq<Event>, m: nat, n: nat, cfg: Config)
    requires n == m + 1 <= |events| && !AnswerAt(events, m, cfg).Refreshed?
    ensures forall i :: LastRefresh(events, m, cfg, i) <==> LastRefresh(events, n, cfg, i)
  {
    hide AnswerAt;
  }

  lemma RequestStays(events: seq<Event>, m: nat, n: nat, cfg: Config)
    requires n == m + 1 <= |events| && !RequestsAt(events, m, cfg)
    ensures forall i :: LastRequest(events, m, cfg, i) <==> LastRequest(events, n, cfg, i)
  {
    hide RequestsAt;
  }

  lemma LastRefreshUnique(events: seq<Event>, n: nat, cfg: Config)
    requires n <= |events|
    ensures forall i, j :: LastRefresh(events, n, cfg, i) && LastRefresh(events, n, cfg, j) ==> i == j
  {
    hide AnswerAt;
  }

  lemma LastRequestUnique(events: seq<Event>, n: nat, cfg: Config)
    requires n <= |events|
    ensures forall i, j :: LastRequest(events, n, cfg, i) && LastRequest(events, n, cfg, j) ==> i == j
  {
    hide RequestsAt;
  }

  /** The cache answers exactly if the check is not forced and the last refresh is less than the TTL ago. */
  lemma CachedIff(events: seq<Event>, n: nat, cfg: Config)
    requires n < |events|
    ensures AnswerAt(events, n, cfg).Cached? <==>
            !events[n].force
            && exists i :: LastRefresh(events, n, cfg, i) && Elapsed(events[n].now, events[i].now) < cfg.successTtl
  {
    TimesKnown(events, n, cfg);
    CachedAnswer(events, n, cfg);
    UsableKnown(events, n, cfg);
  }

  lemma UsableKnown(events: seq<Event>, n: nat, cfg: Config)
    requires n < |events| && RefreshKnown(events, n, cfg)
    ensures Usable(CacheAt(events, n, cfg), events[n].now, cfg) <==>
            exists i :: LastRefresh(events, n, cfg, i) && Elapsed(events[n].now, events[i].now) < cfg.successTtl
  {
    hide CacheAt, AnswerAt;
    LastRefreshUnique(events, n, cfg);
  }

  lemma CachedAnswer(events: seq<Event>, n: nat, cfg: Config)
    requires n < |events| && (CacheAt(events, n, cfg).validatedAt.Some? ==> CacheAt(events, n, cfg).release.Some?)
    ensures AnswerAt(events, n, cfg).Cached? <==>
            !events[n].force && Usable(CacheAt(events, n, cfg), events[n].now, cfg)
    ensures AnswerAt(events, n, cfg) == InBackoff <==>
            !AnswerAt(events, n, cfg).Cached? && BackingOff(CacheAt(events, n, cfg), events[n].now)
  {
    hide CacheAt, Backoff, RetryDelay, Classify;
  }

  /**
   * The upstream is left alone exactly if the cache does not answer and the last request failed, less than
   * its wait ago.
   */
  lemma InBackoffIff(events: seq<Event>, n: nat, cfg: Config)
    requires n < |events|
    ensures AnswerAt(events, n, cfg) == InBackoff <==>
            && !AnswerAt(events, n, cfg).Cached?
            && exists i :: LastRequest(events, n, cfg, i) && AnswerAt(events, i, cfg) == Failed
                           && events[n].now < events[i].now + Wait(events[i], cfg)
  {
    hide AnswerAt, CacheAt, BackingOff, LastRequest, Wait;
    TimesKnown(events, n, cfg);
    CachedAnswer(events, n, cfg);
    BackoffKnown(events, n, cfg);
  }

  lemma BackoffKnown(events: seq<Event>, n: nat, cfg: Config)
    requires n < |events| && RequestKnown(events, n, cfg)
    ensures BackingOff(CacheAt(events, n, cfg), events[n].now) <==>
            exists i :: LastRequest(events, n, cfg, i) && AnswerAt(events, i, cfg) == Failed
                        && events[n].now < events[i].now + Wait(events[i], cfg)
  {
    hide CacheAt, AnswerAt, RequestsAt, Wait;
    LastRequestUnique(events, n, cfg);
  }
}
