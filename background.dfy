/** background.js: the service worker keeps its own copy of the retry loop
    (module imports are not available to it), and answers storage messages.

    Its `getFriendlyErrorMessage` (background.js:22-30) is the same function as
    the utility's and is `Retry.FriendlyMessage` here; its `addHistoryRecord`
    (background.js:109-134) repeats the list logic of the utility and is
    `Storage.AddHistoryRecord` here. What differs is modelled below. */
module Background {
  import opened Wrappers
  import opened Retry
  import opened JsText
  import Storage

  /** The wait after a network error here: base * 2^attempt + jitter, with no
      30000 ms ceiling. */
  function NetworkWait(attempt: nat, baseDelayMs: nat, jitter: nat): (w: int)
    ensures baseDelayMs * Pow2(attempt) <= w
    ensures jitter < JitterRangeMs ==> w < baseDelayMs * Pow2(attempt) + JitterRangeMs
    ensures baseDelayMs * Pow2(attempt) > MaxDelayMs ==> w > MaxDelayMs
  {
    ExponentialDelay(attempt, baseDelayMs) + jitter
  }

  /** `baseDelayMs * Math.pow(2, attempt)`. */
  function ExponentialDelay(attempt: nat, baseDelayMs: nat): nat {
    baseDelayMs * Pow2(attempt)
  }

  /** The wait after failed attempt `attempt`. For a Response the jitter is
      drawn first and the Retry-After check comes after it, which amounts to
      the utility's `calculateBackoff`. */
  function WaitAfter(o: Outcome, attempt: nat, baseDelayMs: nat, jitter: nat): int
    requires jitter < JitterRangeMs
  {
    match o
    case Response(_, retryAfter) => CalculateBackoff(attempt, baseDelayMs, retryAfter, jitter)
    case NetworkError(_) => NetworkWait(attempt, baseDelayMs, jitter)
  }

  /** Both copies wait alike after a Response, and alike after a network error
      while the exponential delay stays under the ceiling; above it, this copy
      waits longer than 30000 ms where the utility waits exactly 30000 ms. */
  lemma NetworkWaitsCompared(o: Outcome, attempt: nat, baseDelayMs: nat, jitter: nat)
    requires jitter < JitterRangeMs
    ensures o.Response? ==> WaitAfter(o, attempt, baseDelayMs, jitter) == Retry.WaitAfter(o, attempt, baseDelayMs, jitter)
    ensures o.NetworkError? && baseDelayMs * Pow2(attempt) + jitter <= MaxDelayMs ==>
              WaitAfter(o, attempt, baseDelayMs, jitter) == Retry.WaitAfter(o, attempt, baseDelayMs, jitter)
    ensures o.NetworkError? && baseDelayMs * Pow2(attempt) + jitter > MaxDelayMs ==>
              WaitAfter(o, attempt, baseDelayMs, jitter) > Retry.WaitAfter(o, attempt, baseDelayMs, jitter) == MaxDelayMs
  {
  }

  /** With the default base of one second, the sixth attempt's network-error
      wait already passes the ceiling. */
  lemma SixthNetworkWaitPassesCeiling(jitter: nat)
    requires jitter < JitterRangeMs
    ensures NetworkWait(5, 1000, jitter) > MaxDelayMs
  {
    assert Pow2(5) == 32;
  }

  /** The configuration object of this copy: it has no `onRetry`. */
  function Settings(maxRetries: nat, baseDelayMs: nat, retryOnStatus: seq<int>): Config {
    Config(maxRetries, baseDelayMs, retryOnStatus, false)
  }

  /** background.js `fetchWithRetry(url, options, config)`; there is no
      `onRetry` here. */
  method FetchWithRetry(outcomes: seq<Outcome>, maxRetries: nat, baseDelayMs: nat, retryOnStatus: seq<int>, jitter: seq<nat>)
    returns (result: FetchResult, calls: nat, waits: seq<int>)
    requires |outcomes| > maxRetries && |jitter| > maxRetries && JitterInRange(jitter)
    ensures 1 <= calls <= maxRetries + 1
    ensures forall k :: 0 <= k < calls - 1 ==> !Accepted(outcomes[k], Settings(maxRetries, baseDelayMs, retryOnStatus))
    ensures result.Returned? <==> Accepted(outcomes[calls - 1], Settings(maxRetries, baseDelayMs, retryOnStatus))
    ensures result.Returned? ==> result.response == outcomes[calls - 1]
    ensures !result.Returned? ==> calls == maxRetries + 1 && result == Exhausted(outcomes[maxRetries])
    ensures |waits| == calls - 1
    ensures forall k :: 0 <= k < |waits| ==> waits[k] == WaitAfter(outcomes[k], k, baseDelayMs, jitter[k])
  {
    var cfg := Settings(maxRetries, baseDelayMs, retryOnStatus);
    var lastError: Outcome := outcomes[0];
    var attempt := 0;
    calls, waits := 0, [];
    while attempt <= maxRetries
      invariant attempt <= maxRetries + 1 && calls == attempt
      invariant forall k :: 0 <= k < attempt ==> !Accepted(outcomes[k], cfg)
      invariant attempt > 0 ==> lastError == outcomes[attempt - 1]
      invariant |waits| == Min(attempt, maxRetries)
      invariant forall k :: 0 <= k < |waits| ==> waits[k] == WaitAfter(outcomes[k], k, baseDelayMs, jitter[k])
    {
      var outcome := outcomes[attempt];
      calls := calls + 1;
      // Only a response can be returned; a network error goes straight to the
      // catch branch.
      if Accepted(outcome, cfg) {
        result := Returned(outcome);
        return;
      }
      assert !Accepted(outcomes[attempt], cfg);
      lastError := outcome;
      if attempt < maxRetries {
        var wait := Delay(outcome, attempt, baseDelayMs, jitter[attempt]);
        waits := waits + [wait];
      }
      attempt := attempt + 1;
    }
    result := Exhausted(lastError);
  }

  /** The delay computed in either branch of a failed attempt: capped and
      overridden by `Retry-After` after a response, uncapped after a network
      error. */
  method Delay(outcome: Outcome, attempt: nat, baseDelayMs: nat, jitter: nat) returns (wait: int)
    requires jitter < JitterRangeMs
    ensures wait == WaitAfter(outcome, attempt, baseDelayMs, jitter)
  {
    var exponentialDelay := ExponentialDelay(attempt, baseDelayMs);
    if outcome.Response? {
      wait := Min(exponentialDelay + jitter, MaxDelayMs);
      var hint := HintSeconds(outcome.retryAfter);
      if hint.Some? {
        wait := hint.value * 1000;
      }
    } else {
      wait := exponentialDelay + jitter;
    }
  }

  /** The `saveSettings` message: `{ ...DEFAULT_SETTINGS, ...stored, ...message.settings }`
      is written back. It stores what the utility's `saveSettings` stores. */
  function SaveSettings(stored: Option<Storage.Obj>, settings: Storage.Obj): (r: Storage.Obj)
    ensures r == Storage.SaveSettings(stored, settings)
  {
    Storage.DefaultSettings() + stored.GetOr(map[]) + settings
  }

  /** The `getDownloadedIds` message: the galleryIds of the stored history in
      history order (`undefined` for an entry without one), empty when nothing
      is stored. */
  function DownloadedIds(stored: Option<seq<Storage.Obj>>): (ids: seq<Option<Storage.Value>>)
    ensures var h := stored.GetOr([]);
            |ids| == |h| && forall i :: 0 <= i < |h| ==> ids[i] == Storage.GalleryId(h[i])
  {
    IdsOf(stored.GetOr([]))
  }

  function IdsOf(history: seq<Storage.Obj>): (ids: seq<Option<Storage.Value>>)
    ensures |ids| == |history| && forall i :: 0 <= i < |history| ==> ids[i] == Storage.GalleryId(history[i])
  {
    if history == [] then [] else [Storage.GalleryId(history[0])] + IdsOf(history[1..])
  }

  /** Every id in the list is one the utility's `isDownloaded` reports. */
  lemma DownloadedIdsAreDownloaded(stored: Option<seq<Storage.Obj>>, id: Storage.Value)
    requires Some(id) in DownloadedIds(stored)
    ensures Storage.IsDownloaded(stored.GetOr([]), id)
  {
    var ids := DownloadedIds(stored);
    var i :| 0 <= i < |ids| && ids[i] == Some(id);
    assert Storage.GalleryId(stored.GetOr([])[i]) == Some(id);
  }
}
