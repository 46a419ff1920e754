/** utils/retry.js: `fetch` with automatic retries, exponential backoff with
    jitter, the server's Retry-After hint, and friendly error messages.

    `fetch` is an oracle: the k-th call (k counted from 0) observes
    `outcomes[k]`, either a Response or a thrown network error. `Math.random()`
    is an oracle too: the jitter drawn after attempt k is `jitter[k]`, an
    integer in [0, 500). `await delay(ms)` appends `ms` to a trace of waits, and
    each `onRetry` call appends a notice. */
module Retry {
  import opened Wrappers
  import opened JsText

  /** The ceiling of the exponential branch (30 seconds). */
  const MaxDelayMs := 30000
  /** Jitter is drawn from [0, JitterRangeMs). */
  const JitterRangeMs := 500

  /** What one call to `fetch` produces: a Response, whose `Retry-After`
      header is `None` when absent, or a thrown network error with its message
      (the empty string stands for a missing or empty message). */
  datatype Outcome =
    | Response(status: nat, retryAfter: Option<string>)
    | NetworkError(message: string)
  {
    /** `response.ok`: the status is in the range 200-299. */
    predicate Ok()
      requires Response?
    {
      200 <= status <= 299
    }
  }

  /** The `config` argument: `onRetry` is present or not (`notify`). */
  datatype Config = Config(maxRetries: nat, baseDelayMs: nat, retryOnStatus: seq<int>, notify: bool)

  /** The defaults the destructuring assignment supplies. */
  const DefaultConfig := Config(3, 1000, [429, 500, 502, 503], false)

  /** The object handed to `onRetry`. */
  datatype RetryNotice = RetryNotice(attempt: nat, maxRetries: nat, status: nat, delayMs: int, message: string)

  /** How `fetchWithRetry` ends: it returns a Response, throws a new Error
      built from the last Response, or rethrows the last network error. */
  datatype FetchResult =
    | Returned(response: Outcome)
    | HttpFailure(message: string)
    | NetworkFailure(message: string)

  const RateLimitedMessage := "請求過於頻繁，請稍後再試"
  const NetworkDownMessage := "網路連線失敗，請檢查網路"
  const UnknownErrorMessage := "未知錯誤"

  /** `ERROR_MESSAGES[status]`: the table knows seven statuses, and none of
      its texts is empty, so `||` never falls back for a known status. */
  function ErrorMessage(status: int): (m: Option<string>)
    ensures m.Some? <==> status in {0, 403, 404, 429, 500, 502, 503}
    ensures m.Some? ==> m.value != ""
  {
    if status == 429 then Some(RateLimitedMessage)
    else if status == 403 then Some("存取被拒絕，請確認登入狀態")
    else if status == 404 then Some("資源不存在")
    else if status == 500 then Some("伺服器錯誤")
    else if status == 502 then Some("伺服器暫時無法連線")
    else if status == 503 then Some("服務暫時不可用")
    else if status == 0 then Some(NetworkDownMessage)
    else None
  }

  /** `getFriendlyErrorMessage`. */
  function FriendlyMessage(e: Outcome): (m: string)
    ensures m != ""
    ensures e.Response? && ErrorMessage(e.status).Some? ==> m == ErrorMessage(e.status).value
    ensures e.Response? && ErrorMessage(e.status).None? ==> m == "HTTP 錯誤 " + NatToString(e.status)
    ensures e == NetworkError("") ==> m == UnknownErrorMessage
  {
    match e
    case Response(status, _) =>
      ErrorMessage(status).GetOr("HTTP 錯誤 " + NatToString(status))
    case NetworkError(msg) =>
      if Contains(msg, "Failed to fetch") || Contains(msg, "NetworkError") then NetworkDownMessage
      else if msg == "" then UnknownErrorMessage
      else msg
  }

  /** A status the table does not know is rendered so that the status can be
      read back from the message. */
  lemma UnmappedStatusIsRecoverable(status: nat)
    requires ErrorMessage(status).None?
    ensures var m := FriendlyMessage(Response(status, None));
            |m| > 8 && m[..8] == "HTTP 錯誤 " && ParseInt(m[8..]) == Some(status)
  {
    var m := FriendlyMessage(Response(status, None));
    assert m[8..] == NatToString(status) + [];
    ParseIntReadsDigitPrefix(status, []);
  }

  /** A network error's message is kept unless it is a browser connectivity
      failure (mapped to the status-0 text) or empty. */
  lemma NetworkMessageKept(msg: string)
    requires msg != "" && !Contains(msg, "Failed to fetch") && !Contains(msg, "NetworkError")
    ensures FriendlyMessage(NetworkError(msg)) == msg
  {
  }

  /** A network error whose message names a browser connectivity failure
      anywhere in it is reported with the status-0 text. */
  lemma ConnectivityFailureMapped(a: string, key: string, b: string)
    requires key == "Failed to fetch" || key == "NetworkError"
    ensures FriendlyMessage(NetworkError(a + key + b)) == NetworkDownMessage
  {
    ContainsInfix(a, key, b);
  }

  function Pow2(n: nat): (p: nat)
    ensures p >= 1
  {
    if n == 0 then 1 else 2 * Pow2(n - 1)
  }

  /** The server's hint in whole seconds: the header is present, non-empty
      (an empty string is falsy) and `parseInt` gives a number. */
  function HintSeconds(retryAfter: Option<string>): Option<int> {
    match retryAfter
    case Some(h) => if h == "" then None else ParseInt(h)
    case None => None
  }

  /** `calculateBackoff(attempt, baseDelayMs, response)`; `retryAfter` is the
      Retry-After header of the response, `None` when there is no response or
      no header. */
  function CalculateBackoff(attempt: nat, baseDelayMs: nat, retryAfter: Option<string>, jitter: nat): (delay: int)
    requires jitter < JitterRangeMs
    ensures HintSeconds(retryAfter).Some? ==> delay == HintSeconds(retryAfter).value * 1000
    ensures HintSeconds(retryAfter).None? ==>
              Min(baseDelayMs * Pow2(attempt), MaxDelayMs) <= delay <= MaxDelayMs
  {
    match HintSeconds(retryAfter)
    case Some(seconds) => seconds * 1000
    case None => Min(baseDelayMs * Pow2(attempt) + jitter, MaxDelayMs)
  }

  /** Without a usable hint the delay lies in
      [min(base * 2^attempt, 30000), base * 2^attempt + 500). */
  lemma BackoffWithinJitterWindow(attempt: nat, baseDelayMs: nat, jitter: nat)
    requires jitter < JitterRangeMs
    ensures var d := CalculateBackoff(attempt, baseDelayMs, None, jitter);
            Min(baseDelayMs * Pow2(attempt), MaxDelayMs) <= d < baseDelayMs * Pow2(attempt) + JitterRangeMs
  {
  }

  /** A header of whole seconds, optionally followed by text that does not
      start with a digit (`"5"`, `"120"`, `"5abc"`), forces seconds * 1000 ms
      whatever the attempt and the jitter. */
  lemma RetryAfterSeconds(seconds: nat, rest: string, attempt: nat, baseDelayMs: nat, jitter: nat)
    requires jitter < JitterRangeMs
    requires rest == [] || !IsDigit(rest[0])
    ensures CalculateBackoff(attempt, baseDelayMs, Some(NatToString(seconds) + rest), jitter) == seconds * 1000
  {
    ParseIntReadsDigitPrefix(seconds, rest);
  }

  /** A negative header value gives a negative delay: `"-5"` is -5000 ms. */
  lemma RetryAfterNegative(seconds: nat, attempt: nat, baseDelayMs: nat, jitter: nat)
    requires jitter < JitterRangeMs
    ensures CalculateBackoff(attempt, baseDelayMs, Some("-" + NatToString(seconds)), jitter) == -(seconds * 1000)
  {
    var s := "-" + NatToString(seconds);
    assert s[0] == '-' && s[1..] == NatToString(seconds);
    ParseIntNegative(s, seconds);
  }

  /** The HTTP-date form of the header is NaN to `parseInt` and falls back to
      the exponential branch. */
  lemma RetryAfterDateFallsBack(attempt: nat, baseDelayMs: nat, jitter: nat)
    requires jitter < JitterRangeMs
    ensures CalculateBackoff(attempt, baseDelayMs, Some("Wed, 21 Oct 2015 07:28:00 GMT"), jitter)
            == Min(baseDelayMs * Pow2(attempt) + jitter, MaxDelayMs)
  {
    ParseIntRejectsNonNumeric("Wed, 21 Oct 2015 07:28:00 GMT");
  }

  /** The first response that is ok or whose status is not retryable ends the
      loop. */
  predicate Accepted(o: Outcome, cfg: Config) {
    o.Response? && (o.Ok() || o.status !in cfg.retryOnStatus)
  }

  /** The header `calculateBackoff` sees: a network error has no response. */
  function RetryAfterOf(o: Outcome): Option<string> {
    if o.Response? then o.retryAfter else None
  }

  /** The status handed to `onRetry`: 0 for a network error. */
  function StatusOf(o: Outcome): nat {
    if o.Response? then o.status else 0
  }

  /** The wait after failed attempt `attempt` whose outcome was `o`. */
  function WaitAfter(o: Outcome, attempt: nat, baseDelayMs: nat, jitter: nat): int
    requires jitter < JitterRangeMs
  {
    CalculateBackoff(attempt, baseDelayMs, RetryAfterOf(o), jitter)
  }

  /** What is thrown once every attempt has failed and `o` was the last failure. */
  function Exhausted(o: Outcome): FetchResult {
    match o
    case Response(status, _) => HttpFailure("HTTP " + NatToString(status) + ": " + FriendlyMessage(o))
    case NetworkError(msg) => NetworkFailure(msg)
  }

  /** The `onRetry` call after failed attempt `attempt`: the attempt number
      counted from 1, the retry limit, the status (0 for a network error), the
      delay and the friendly message. */
  function NoticeFor(o: Outcome, attempt: nat, cfg: Config, delayMs: int): RetryNotice {
    RetryNotice(attempt + 1, cfg.maxRetries, StatusOf(o), delayMs, FriendlyMessage(o))
  }

  /** Every notice is the `onRetry` call of its attempt with that attempt's wait. */
  predicate Notified(notices: seq<RetryNotice>, outcomes: seq<Outcome>, waits: seq<int>, cfg: Config) {
    |notices| <= |waits| && |notices| <= |outcomes| &&
    forall k :: 0 <= k < |notices| ==> notices[k] == NoticeFor(outcomes[k], k, cfg, waits[k])
  }

  lemma NotifiedStep(notices: seq<RetryNotice>, outcomes: seq<Outcome>, waits: seq<int>, cfg: Config, w: int)
    requires Notified(notices, outcomes, waits, cfg) && |notices| == |waits| < |outcomes|
    ensures Notified(notices + [NoticeFor(outcomes[|waits|], |waits|, cfg, w)], outcomes, waits + [w], cfg)
  {
    var notices', waits' := notices + [NoticeFor(outcomes[|waits|], |waits|, cfg, w)], waits + [w];
    forall k | 0 <= k < |notices'|
      ensures notices'[k] == NoticeFor(outcomes[k], k, cfg, waits'[k])
    {
      if k < |notices| {
        assert notices'[k] == notices[k] && waits'[k] == waits[k];
      }
    }
  }

  /** None of the first `count` outcomes ends the loop. */
  predicate AllRetried(outcomes: seq<Outcome>, cfg: Config, count: nat) {
    count <= |outcomes| && forall k :: 0 <= k < count ==> !Accepted(outcomes[k], cfg)
  }

  lemma AllRetriedStep(outcomes: seq<Outcome>, cfg: Config, count: nat)
    requires AllRetried(outcomes, cfg, count) && count < |outcomes| && !Accepted(outcomes[count], cfg)
    ensures AllRetried(outcomes, cfg, count + 1)
  {
    forall k | 0 <= k < count + 1
      ensures !Accepted(outcomes[k], cfg)
    {
    }
  }

  /** Every wait is the backoff after its own attempt. */
  predicate Waited(waits: seq<int>, outcomes: seq<Outcome>, cfg: Config, jitter: seq<nat>)
    requires JitterInRange(jitter)
  {
    |waits| <= |outcomes| && |waits| <= |jitter| &&
    forall k :: 0 <= k < |waits| ==> waits[k] == WaitAfter(outcomes[k], k, cfg.baseDelayMs, jitter[k])
  }

  lemma WaitedStep(waits: seq<int>, outcomes: seq<Outcome>, cfg: Config, jitter: seq<nat>)
    requires JitterInRange(jitter) && Waited(waits, outcomes, cfg, jitter)
    requires |waits| < |outcomes| && |waits| < |jitter|
    ensures Waited(waits + [WaitAfter(outcomes[|waits|], |waits|, cfg.baseDelayMs, jitter[|waits|])], outcomes, cfg, jitter)
  {
    var k0 := |waits|;
    var waits' := waits + [WaitAfter(outcomes[k0], k0, cfg.baseDelayMs, jitter[k0])];
    forall k | 0 <= k < |waits'|
      ensures waits'[k] == WaitAfter(outcomes[k], k, cfg.baseDelayMs, jitter[k])
    {
      if k < k0 {
        assert waits'[k] == waits[k];
      }
    }
  }

  predicate JitterInRange(jitter: seq<nat>) {
    forall k :: 0 <= k < |jitter| ==> jitter[k] < JitterRangeMs
  }

  /** `fetchWithRetry(url, options, config)`. The oracles must cover every
      attempt the loop can make. */
  method FetchWithRetry(outcomes: seq<Outcome>, cfg: Config, jitter: seq<nat>)
    returns (result: FetchResult, calls: nat, waits: seq<int>, notices: seq<RetryNotice>)
    requires |outcomes| > cfg.maxRetries && |jitter| > cfg.maxRetries && JitterInRange(jitter)
    ensures 1 <= calls <= cfg.maxRetries + 1
    ensures AllRetried(outcomes, cfg, calls - 1)
    ensures result.Returned? <==> Accepted(outcomes[calls - 1], cfg)
    ensures result.Returned? ==> result.response == outcomes[calls - 1]
    ensures !result.Returned? ==> calls == cfg.maxRetries + 1 && result == Exhausted(outcomes[cfg.maxRetries])
    ensures |waits| == calls - 1
    ensures Waited(waits, outcomes, cfg, jitter)
    ensures !cfg.notify ==> notices == []
    ensures cfg.notify ==> |notices| == |waits|
    ensures cfg.notify ==> Notified(notices, outcomes, waits, cfg)
  {
    var lastError: Outcome := outcomes[0];
    var attempt := 0;
    calls, waits, notices := 0, [], [];
    while attempt <= cfg.maxRetries
      invariant attempt <= cfg.maxRetries + 1 && calls == attempt
      invariant AllRetried(outcomes, cfg, attempt)
      invariant attempt > 0 ==> lastError == outcomes[attempt - 1]
      invariant |waits| == Min(attempt, cfg.maxRetries)
      invariant Waited(waits, outcomes, cfg, jitter)
      invariant !cfg.notify ==> notices == []
      invariant cfg.notify ==> |notices| == |waits|
      invariant cfg.notify ==> Notified(notices, outcomes, waits, cfg)
    {
      var outcome := outcomes[attempt];
      calls := calls + 1;
      if Accepted(outcome, cfg) {
        result := Returned(outcome);
        return;
      }
      AllRetriedStep(outcomes, cfg, attempt);
      lastError := outcome;
      if attempt < cfg.maxRetries {
        ghost var before, noticed := waits, notices;
        waits, notices := WaitAndNotify(outcome, attempt, cfg, jitter[attempt], waits, notices);
        WaitedStep(before, outcomes, cfg, jitter);
        if cfg.notify {
          NotifiedStep(noticed, outcomes, before, cfg, waits[|before|]);
        }
      }
      attempt := attempt + 1;
    }
    result := Exhausted(lastError);
  }

  /** The retry branch of one failed attempt: compute the delay, report it to
      `onRetry` when one is given, and wait. */
  method WaitAndNotify(outcome: Outcome, attempt: nat, cfg: Config, jitter: nat, waits: seq<int>, notices: seq<RetryNotice>)
    returns (waits': seq<int>, notices': seq<RetryNotice>)
    requires jitter < JitterRangeMs
    ensures waits' == waits + [WaitAfter(outcome, attempt, cfg.baseDelayMs, jitter)]
    ensures !cfg.notify ==> notices' == notices
    ensures cfg.notify ==> notices' == notices + [NoticeFor(outcome, attempt, cfg, waits'[|waits|])]
  {
    var delayMs := CalculateBackoff(attempt, cfg.baseDelayMs, RetryAfterOf(outcome), jitter);
    notices' := notices;
    if cfg.notify {
      notices' := notices + [NoticeFor(outcome, attempt, cfg, delayMs)];
    }
    waits' := waits + [delayMs];
  }

  /** With the default configuration, three 503s and then a 200 end in the
      200 after exactly four calls and three waits. */
  method ThreeUnavailableThenOk(jitter: seq<nat>) returns (result: FetchResult, calls: nat, waits: seq<int>)
    requires |jitter| == 4 && JitterInRange(jitter)
    ensures calls == 4 && |waits| == 3
    ensures result == Returned(Response(200, None))
    ensures 1000 <= waits[0] < 1500 && 2000 <= waits[1] < 2500 && 4000 <= waits[2] < 4500
  {
    var outcomes := [Response(503, None), Response(503, None), Response(503, None), Response(200, None)];
    var notices;
    result, calls, waits, notices := FetchWithRetry(outcomes, DefaultConfig, jitter);
    assert !Accepted(outcomes[0], DefaultConfig) && !Accepted(outcomes[1], DefaultConfig);
    assert !Accepted(outcomes[2], DefaultConfig) && Accepted(outcomes[3], DefaultConfig);
  }

  /** With the default configuration, 429 on every call is given up after the
      fourth call with the rate-limit message. */
  method AlwaysRateLimited(jitter: seq<nat>) returns (result: FetchResult, calls: nat)
    requires |jitter| >= 5 && JitterInRange(jitter)
    ensures calls == 4
    ensures result == HttpFailure("HTTP 429: " + RateLimitedMessage)
  {
    var outcomes := seq(5, _ => Response(429, None));
    var waits, notices;
    result, calls, waits, notices := FetchWithRetry(outcomes, DefaultConfig, jitter);
    assert outcomes[3] == Response(429, None);
    assert FriendlyMessage(Response(429, None)) == RateLimitedMessage;
    assert NatToString(429) == "429";
  }
}
