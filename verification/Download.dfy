/** Downloading: URL predicates, exponential-backoff retry, and the multi-URL fallback downloader. */
module Download {
  import opened Wrappers
  import Cooldown

  type Blob = seq<int>

  datatype Error = TimedOut | NotReachable | InvalidFile | Other(code: nat)

  // ---------------------------------------------------------------- retry

  /** fwupd_client_download_error_is_fatal() */
  predicate IsFatal(e: Error) {
    !e.TimedOut?
  }

  /** An attempt that is worth repeating: it timed out, and nothing else. */
  predicate Transient(r: Result<Blob, Error>) {
    r == Err(TimedOut)
  }

  const FirstDelayMs := 2500

  /** One more than the largest unsigned long. */
  const UlongRange := 0x1_0000_0000_0000_0000

  /** Unsigned long multiplication. */
  function UlongMul(a: nat, b: nat): nat {
    a * b % UlongRange
  }

  /** `delay_ms` in the i-th iteration. */
  ghost function DelayMs(i: nat): nat {
    if i == 0 then FirstDelayMs else UlongMul(DelayMs(i - 1), 2)
  }

  /** `n` is the first attempt that succeeds or fails for good, or `retries` if none does sooner. */
  ghost predicate StopsAt(attempt: nat -> Result<Blob, Error>, retries: nat, n: nat) {
    && n <= retries
    && (forall m: nat :: m < n ==> Transient(attempt(m)))
    && (n == retries || !Transient(attempt(n)))
  }

  /** What g_usleep() is given over `n` failed attempts. */
  ghost function Sleeps(n: nat): seq<nat> {
    if n == 0 then [] else Sleeps(n - 1) + [UlongMul(DelayMs(n - 1), 1000)]
  }

  /** The attempt loop; `attempt(i)` is whatever the i-th download attempt yields. */
  method RetryLoop(attempt: nat -> Result<Blob, Error>, retries: nat)
    returns (r: Result<Blob, Error>, attempts: nat, sleeps: seq<nat>)
    ensures attempts > 0 && StopsAt(attempt, retries, attempts - 1) && r == attempt(attempts - 1)
    ensures sleeps == Sleeps(attempts - 1)
  {
    var i, delayMs := 0, FirstDelayMs;
    attempts, sleeps := 0, [];
    while true
      invariant i <= retries && attempts == i
      invariant delayMs == DelayMs(i) && sleeps == Sleeps(i)
      invariant forall m: nat :: m < i ==> Transient(attempt(m))
      decreases retries - i
    {
      r := attempt(i);
      attempts := attempts + 1;
      if r.Ok? || i >= retries || IsFatal(r.error) {
        return;
      }
      sleeps := sleeps + [UlongMul(delayMs, 1000)];
      i, delayMs := i + 1, UlongMul(delayMs, 2);
    }
  }

  /** The loop stops at one place only. */
  lemma StopsOnce(attempt: nat -> Result<Blob, Error>, retries: nat, n: nat, n': nat)
    requires StopsAt(attempt, retries, n) && StopsAt(attempt, retries, n')
    ensures n == n'
  {
    assert n < n' ==> Transient(attempt(n));
    assert n' < n ==> Transient(attempt(n'));
  }

  ghost function FirstStop(attempt: nat -> Result<Blob, Error>, retries: nat, from: nat): nat
    decreases retries - from
  {
    if from >= retries || !Transient(attempt(from)) then from else FirstStop(attempt, retries, from + 1)
  }

  lemma {:induction false} FirstStopMeaning(attempt: nat -> Result<Blob, Error>, retries: nat, from: nat)
    requires from <= retries && forall m: nat :: m < from ==> Transient(attempt(m))
    ensures StopsAt(attempt, retries, FirstStop(attempt, retries, from))
    decreases retries - from
  {
    if from < retries && Transient(attempt(from)) { FirstStopMeaning(attempt, retries, from + 1); }
  }

  ghost function Pow2(n: nat): nat {
    if n == 0 then 1 else 2 * Pow2(n - 1)
  }

  ghost function Sum(xs: seq<nat>): nat {
    if xs == [] then 0 else Sum(xs[..|xs| - 1]) + xs[|xs| - 1]
  }

  lemma Pow2Of42()
    ensures Pow2(42) == 0x400_0000_0000
  {
    assert Pow2(6) == 64;
    assert Pow2(12) == 4096;
    assert Pow2(18) == 0x4_0000;
    assert Pow2(24) == 0x100_0000;
    assert Pow2(30) == 0x4000_0000;
    assert Pow2(36) == 0x10_0000_0000;
  }

  lemma {:induction false} Pow2Monotone(a: nat, b: nat)
    requires a <= b
    ensures 0 < Pow2(a) <= Pow2(b)
    decreases b
  {
    if a < b { Pow2Monotone(a, b - 1); } else if a > 0 { Pow2Monotone(a - 1, a - 1); }
  }

  lemma WrapAtMost(x: nat)
    ensures x % UlongRange <= x && (x < UlongRange ==> x % UlongRange == x)
  {
  }

  lemma {:induction false} DelayBound(i: nat)
    ensures DelayMs(i) <= FirstDelayMs * Pow2(i)
    ensures i <= 42 ==> DelayMs(i) == FirstDelayMs * Pow2(i)
  {
    if i > 0 {
      DelayBound(i - 1);
      WrapAtMost(DelayMs(i - 1) * 2);
      if i <= 42 { Pow2Of42(); Pow2Monotone(i, 42); }
    }
  }

  /** One argument of g_usleep() against the intended value. */
  lemma SleepBound(i: nat)
    ensures UlongMul(DelayMs(i), 1000) <= 2500000 * Pow2(i)
    ensures UlongMul(DelayMs(i), 1000) == 2500000 * Pow2(i) <==> i <= 42
  {
    DelayBound(i);
    Pow2Of42();
    WrapAtMost(DelayMs(i) * 1000);
    Pow2Monotone(if i <= 42 then i else 43, if i <= 42 then 42 else i);
    assert Pow2(43) == 2 * Pow2(42);
  }

  /** Over n retries the loop sleeps 2500 * (2^n - 1) milliseconds in total, and no multiplication
      wraps, exactly when n is at most 43. */
  lemma {:induction false} TotalSleep(n: nat)
    ensures Sum(Sleeps(n)) <= 2500000 * (Pow2(n) - 1)
    ensures Sum(Sleeps(n)) == 2500000 * (Pow2(n) - 1) <==> n <= 43
  {
    if n > 0 {
      TotalSleep(n - 1);
      SleepBound(n - 1);
      assert Sleeps(n)[..|Sleeps(n)| - 1] == Sleeps(n - 1);
    }
  }

  predicate HasPrefix(s: string, prefix: string) {
    prefix <= s
  }

  /** fwupd_client_download_http_retry(): one network test, one cooldown registration, then the loop.
      `network` is the error of the reachability test, if any, and `now` the clock reading. */
  method HttpRetry(items: Cooldown.DownloadItems, retries: nat, url: string, now: int, network: Option<Error>,
                   attempt: nat -> Result<Blob, Error>)
    returns (r: Result<Blob, Error>, attempts: nat, sleeps: seq<nat>)
    requires items.Valid()
    modifies items
    ensures items.Valid()
    ensures var unreachable := !HasPrefix(url, "file://") && network.Some?;
            var refused := Cooldown.Refused(old(items.Entries()), url, now);
            && (unreachable ==> r == Err(network.value))
            && (!unreachable && refused ==> r == Err(NotReachable))
            && (if unreachable || refused
                then attempts == 0 && sleeps == [] && items.Entries() == old(items.Entries())
                else && attempts > 0 && StopsAt(attempt, retries, attempts - 1) && r == attempt(attempts - 1)
                     && sleeps == Sleeps(attempts - 1)
                     && items.Entries() == old(items.Entries()) + [Cooldown.Entry(url, now)])
  {
    if !HasPrefix(url, "file://") && network.Some? {
      return Err(network.value), 0, [];
    }
    var added := items.Add(url, now);
    if added.Err? {
      return Err(NotReachable), 0, [];
    }
    r, attempts, sleeps := RetryLoop(attempt, retries);
  }

  // ---------------------------------------------------------------- URLs

  /** What curl makes of a string: not a URL, or a URL with or without a host. */
  datatype Parsed = NotUrl | Url(host: Option<string>)

  type Curl = string -> Parsed

  /** fwupd_client_is_url_http() */
  predicate IsHttp(curl: Curl, url: string) {
    curl(url).Url?
  }

  /** fwupd_client_is_url_ipfs() */
  predicate IsIpfs(url: string) {
    HasPrefix(url, "ipfs://") || HasPrefix(url, "ipns://")
  }

  /** fwupd_client_is_localhost() */
  predicate IsLocalhost(curl: Curl, url: string) {
    && curl(url).Url? && curl(url).host.Some?
    && curl(url).host.value in ["localhost", "127.0.0.1", "::1", "[::1]"]
  }

  /** fwupd_client_is_url_p2p() */
  predicate IsP2p(curl: Curl, url: string) {
    IsIpfs(url) || IsLocalhost(curl, url)
  }

  // ---------------------------------------------------------------- filter

  predicate Allowed(curl: Curl, onlyP2p: bool, url: string) {
    !onlyP2p || IsP2p(curl, url)
  }

  /** With only peer-to-peer allowed, a URL may be tried exactly when it has one of the two IPFS schemes or
      curl finds a name of this host in it. */
  lemma AllowedIff(curl: Curl, onlyP2p: bool, url: string)
    ensures Allowed(curl, onlyP2p, url) <==>
        || !onlyP2p
        || (exists rest :: url == "ipfs://" + rest || url == "ipns://" + rest)
        || (exists host :: curl(url) == Url(Some(host)) && host in {"localhost", "127.0.0.1", "::1", "[::1]"})
  {
    if IsIpfs(url) { assert url == "ipfs://" + url[7..] || url == "ipns://" + url[7..]; }
  }

  /** The allowed locations, in their old order. */
  ghost function Filtered(curl: Curl, onlyP2p: bool, locations: seq<string>): seq<string> {
    if locations == [] then []
    else
      var rest := Filtered(curl, onlyP2p, locations[..|locations| - 1]);
      var last := locations[|locations| - 1];
      if Allowed(curl, onlyP2p, last) then rest + [last] else rest
  }

  lemma {:induction false} FilteredMember(curl: Curl, onlyP2p: bool, locations: seq<string>)
    ensures forall u :: u in Filtered(curl, onlyP2p, locations) <==> u in locations && Allowed(curl, onlyP2p, u)
    ensures !onlyP2p ==> Filtered(curl, onlyP2p, locations) == locations
    decreases |locations|
  {
    if locations != [] {
      var n := |locations| - 1;
      FilteredMember(curl, onlyP2p, locations[..n]);
      assert locations == locations[..n] + [locations[n]];
    }
  }

  lemma {:induction false} FilteredConcat(curl: Curl, onlyP2p: bool, a: seq<string>, b: seq<string>)
    ensures Filtered(curl, onlyP2p, a + b) == Filtered(curl, onlyP2p, a) + Filtered(curl, onlyP2p, b)
    decreases |b|
  {
    if b == [] {
      assert a + b == a;
    } else {
      assert (a + b)[..|a + b| - 1] == a + b[..|b| - 1];
      FilteredConcat(curl, onlyP2p, a, b[..|b| - 1]);
    }
  }

  lemma FilteredOne(curl: Curl, onlyP2p: bool, url: string)
    ensures Filtered(curl, onlyP2p, [url]) == if Allowed(curl, onlyP2p, url) then [url] else []
  {
    assert [url][..0] == [];
  }

  /** fwupd_client_filter_locations() */
  method FilterLocations(curl: Curl, onlyP2p: bool, locations: seq<string>) returns (r: Result<seq<string>, Error>)
    ensures r.Ok? <==> exists u :: u in locations && Allowed(curl, onlyP2p, u)
    ensures r.Ok? ==> r.value == Filtered(curl, onlyP2p, locations) && r.value != []
    ensures r.Err? ==> r.error == InvalidFile && Filtered(curl, onlyP2p, locations) == []
  {
    var uris := [];
    for i := 0 to |locations|
      invariant uris == Filtered(curl, onlyP2p, locations[..i])
    {
      assert locations[..i + 1][..i] == locations[..i];
      if onlyP2p && !IsP2p(curl, locations[i]) {
        continue;
      }
      uris := uris + [locations[i]];
    }
    assert locations[..|locations|] == locations;
    FilteredMember(curl, onlyP2p, locations);
    if uris == [] {
      return Err(InvalidFile);
    }
    assert uris[0] in uris;
    return Ok(uris);
  }

  // ---------------------------------------------------------------- fallback

  /** What trying one URL comes to. */
  datatype Fetch = ProxyFailed(error: Error) | Fetched(blob: Blob) | Missed(error: Error)

  /** How a task was completed; a null blob is `Returned(None)`. */
  datatype Completion = Returned(blob: Option<Blob>) | Failed(error: Error)

  /** The environment of a download: for the i-th URL, whether a proxy can be set, the clock and the
      reachability test, what other threads do to the cooldown list until its turn, what each HTTP
      attempt yields, and what IPFS yields. */
  datatype Network = Network(
    proxy: nat -> Option<Error>, clock: nat -> int, reach: nat -> Option<Error>, others: nat -> seq<Cooldown.Op>,
    attempt: nat -> nat -> Result<Blob, Error>, retries: nat, ipfs: nat -> Result<Blob, Error>)

  ghost predicate Unreachable(net: Network, url: string, i: nat) {
    !HasPrefix(url, "file://") && net.reach(i).Some?
  }

  /** The i-th URL is downloaded by HTTP and so enters the cooldown list. */
  ghost predicate Registers(net: Network, curl: Curl, es: seq<Cooldown.Entry>, url: string, i: nat) {
    && net.proxy(i).None? && IsHttp(curl, url)
    && !Unreachable(net, url, i) && !Cooldown.Refused(es, url, net.clock(i))
  }

  /** The cooldown list when it is the turn of the n-th URL. */
  ghost function ListAt(net: Network, curl: Curl, es: seq<Cooldown.Entry>, urls: seq<string>, n: nat)
    : seq<Cooldown.Entry>
    requires n <= |urls|
    decreases n, 1
  {
    Cooldown.RunFrom(ListAfter(net, curl, es, urls, n), net.others(n))
  }

  /** The cooldown list once the first n URLs were tried. */
  ghost function ListAfter(net: Network, curl: Curl, es: seq<Cooldown.Entry>, urls: seq<string>, n: nat)
    : seq<Cooldown.Entry>
    requires n <= |urls|
    decreases n, 0
  {
    if n == 0 then es
    else
      var before := ListAt(net, curl, es, urls, n - 1);
      if Registers(net, curl, before, urls[n - 1], n - 1)
      then before + [Cooldown.Entry(urls[n - 1], net.clock(n - 1))] else before
  }

  ghost function HttpFetch(net: Network, es: seq<Cooldown.Entry>, url: string, i: nat): Result<Blob, Error> {
    if Unreachable(net, url, i) then Err(net.reach(i).value)
    else if Cooldown.Refused(es, url, net.clock(i)) then Err(NotReachable)
    else net.attempt(i)(FirstStop(net.attempt(i), net.retries, 0))
  }

  ghost function FetchOf(net: Network, curl: Curl, es: seq<Cooldown.Entry>, url: string, i: nat): Fetch {
    if net.proxy(i).Some? then ProxyFailed(net.proxy(i).value)
    else
      var r := if IsHttp(curl, url) then HttpFetch(net, es, url, i)
               else if IsIpfs(url) then net.ipfs(i)
               else Err(InvalidFile);
      match r
      case Ok(blob) => Fetched(blob)
      case Err(e) => Missed(e)
  }

  /** What trying the i-th URL comes to after the ones before it. */
  ghost function FetchAt(net: Network, curl: Curl, es: seq<Cooldown.Entry>, urls: seq<string>, i: nat): Fetch
    requires i < |urls|
  {
    FetchOf(net, curl, ListAt(net, curl, es, urls, i), urls[i], i)
  }

  /** The first `tried` URLs were tried and all but the last of them missed; `c` is what the last one
      decided. */
  ghost predicate Decided(net: Network, curl: Curl, es: seq<Cooldown.Entry>, urls: seq<string>, tried: nat, c: Completion) {
    && tried <= |urls|
    && (forall i :: 0 <= i < tried - 1 ==> FetchAt(net, curl, es, urls, i).Missed?)
    && (urls != [] ==> tried > 0)
    && if urls == [] then c == Returned(None)
       else match FetchAt(net, curl, es, urls, tried - 1)
            case Fetched(blob) => c == Returned(Some(blob))
            case ProxyFailed(e) => c == Failed(e)
            case Missed(e) => c == Failed(e) && tried == |urls|
  }

  /** The critical sections of other threads. */
  method Interfere(items: Cooldown.DownloadItems, ops: seq<Cooldown.Op>)
    requires items.Valid()
    modifies items
    ensures items.Valid() && items.Entries() == Cooldown.RunFrom(old(items.Entries()), ops)
  {
    for i := 0 to |ops|
      invariant items.Valid() && items.Entries() == Cooldown.RunFrom(old(items.Entries()), ops[..i])
    {
      assert ops[..i + 1][..i] == ops[..i];
      match ops[i]
      case Add(uri, now, _) => var _ := items.Add(uri, now);
      case Prune(now, _) => items.Prune(now);
    }
    assert ops[..|ops|] == ops;
  }

  /** One turn of the loop, up to its error. */
  method TryUrl(items: Cooldown.DownloadItems, net: Network, curl: Curl, url: string, i: nat)
    returns (r: Result<Blob, Error>)
    requires items.Valid() && net.proxy(i).None?
    modifies items
    ensures items.Valid()
    ensures FetchOf(net, curl, old(items.Entries()), url, i) == if r.Ok? then Fetched(r.value) else Missed(r.error)
    ensures items.Entries() == old(items.Entries())
      + if Registers(net, curl, old(items.Entries()), url, i) then [Cooldown.Entry(url, net.clock(i))] else []
  {
    if IsHttp(curl, url) {
      var attempts, sleeps;
      r, attempts, sleeps := HttpRetry(items, net.retries, url, net.clock(i), net.reach(i), net.attempt(i));
      if attempts > 0 {
        FirstStopMeaning(net.attempt(i), net.retries, 0);
        StopsOnce(net.attempt(i), net.retries, attempts - 1, FirstStop(net.attempt(i), net.retries, 0));
      }
    } else if IsIpfs(url) {
      r := net.ipfs(i);
    } else {
      r := Err(InvalidFile);
    }
  }

  /** fwupd_client_download_bytes_thread_cb(); `completions` are the g_task_return calls. */
  method DownloadBytesThread(items: Cooldown.DownloadItems, net: Network, curl: Curl, urls: seq<string>)
    returns (completions: seq<Completion>, attempted: seq<string>)
    requires items.Valid()
    modifies items
    ensures items.Valid() && |completions| == 1
    ensures attempted <= urls && Decided(net, curl, old(items.Entries()), urls, |attempted|, completions[0])
    ensures items.Entries() == ListAfter(net, curl, old(items.Entries()), urls, |attempted|)
  {
    ghost var es := items.Entries();
    var blob: Option<Blob> := None;
    completions, attempted := [], [];
    var i := 0;
    while i < |urls|
      invariant 0 <= i <= |urls| && attempted == urls[..i] && completions == [] && blob.None?
      invariant items.Valid() && items.Entries() == ListAfter(net, curl, es, urls, i)
      invariant forall j :: 0 <= j < i ==> FetchAt(net, curl, es, urls, j).Missed?
      invariant i == |urls| ==> urls == []
    {
      var url := urls[i];
      attempted := attempted + [url];
      assert ListAt(net, curl, es, urls, i) == Cooldown.RunFrom(items.Entries(), net.others(i));
      if net.proxy(i).Some? {
        Interfere(items, net.others(i));
        completions := completions + [Failed(net.proxy(i).value)];
        return;
      }
      Interfere(items, net.others(i));
      var r := TryUrl(items, net, curl, url, i);
      if r.Ok? {
        blob := Some(r.value);
        break;
      }
      if i == |urls| - 1 {
        completions := completions + [Failed(r.error)];
        return;
      }
      i := i + 1;
    }
    completions := completions + [Returned(blob)];
  }

  /** What trying one URL comes to: a proxy that cannot be set is the end of it; an HTTP URL that can be reached
      and is not in its cooldown comes to its first attempt that does not time out, or to the last one;
      any other IPFS URL comes to what IPFS says. */
  lemma FetchMeaning(net: Network, curl: Curl, es: seq<Cooldown.Entry>, url: string, i: nat, n: nat)
    requires StopsAt(net.attempt(i), net.retries, n)
    ensures FetchOf(net, curl, es, url, i) ==
        if net.proxy(i).Some? then ProxyFailed(net.proxy(i).value)
        else if !IsHttp(curl, url) then (if IsIpfs(url) then Outcome(net.ipfs(i)) else Missed(InvalidFile))
        else if !("file://" <= url) && net.reach(i).Some? then Missed(net.reach(i).value)
        else if Cooldown.Refused(es, url, net.clock(i)) then Missed(NotReachable)
        else Outcome(net.attempt(i)(n))
  {
    FirstStopMeaning(net.attempt(i), net.retries, 0);
    StopsOnce(net.attempt(i), net.retries, n, FirstStop(net.attempt(i), net.retries, 0));
  }

  ghost function Outcome(r: Result<Blob, Error>): Fetch {
    if r.Ok? then Fetched(r.value) else Missed(r.error)
  }

  /** A proxy that cannot be set ends the whole download, whatever URLs are left. */
  lemma ProxyEnds(net: Network, curl: Curl, es: seq<Cooldown.Entry>, urls: seq<string>, tried: nat, c: Completion, i: nat)
    requires Decided(net, curl, es, urls, tried, c) && i < tried && net.proxy(i).Some?
    ensures tried == i + 1 && c == Failed(net.proxy(i).value)
  {
    assert FetchAt(net, curl, es, urls, i) == ProxyFailed(net.proxy(i).value);
  }

  /** The first URL that neither misses nor is the last one settles the outcome. */
  lemma DecidedOnce(net: Network, curl: Curl, es: seq<Cooldown.Entry>, urls: seq<string>,
                    tried: nat, c: Completion, tried': nat, c': Completion)
    requires Decided(net, curl, es, urls, tried, c) && Decided(net, curl, es, urls, tried', c')
    ensures urls != [] ==> tried == tried'
    ensures c == c'
  {
  }

  /** A blob comes from the first URL that delivers one, and with at least one URL the GTask never
      completes with a null blob. */
  lemma FirstSuccessWins(net: Network, curl: Curl, es: seq<Cooldown.Entry>, urls: seq<string>, tried: nat, c: Completion)
    requires Decided(net, curl, es, urls, tried, c)
    ensures c == Returned(None) <==> urls == []
    ensures c.Returned? && urls != [] ==>
      && FetchAt(net, curl, es, urls, tried - 1) == Fetched(c.blob.value)
      && forall i :: 0 <= i < tried - 1 ==> !FetchAt(net, curl, es, urls, i).Fetched?
  {
  }

  /** The other threads got the lock before 1500 ms had passed since `time`. */
  ghost predicate Within1500(ops: seq<Cooldown.Op>, time: int) {
    forall i :: 0 <= i < |ops| ==>
      ops[i].sampled <= ops[i].locked && Cooldown.ElapsedMs(ops[i].locked, time) < Cooldown.UriDelta
  }

  lemma {:induction false} SurvivesOthers(es: seq<Cooldown.Entry>, ops: seq<Cooldown.Op>, uri: string, time: int)
    requires Cooldown.First(es, uri) == Some(time) && Within1500(ops, time)
    ensures Cooldown.First(Cooldown.RunFrom(es, ops), uri) == Some(time)
    decreases |ops|
  {
    if ops != [] {
      SurvivesOthers(es, ops[..|ops| - 1], uri, time);
      Cooldown.EntrySurvives(Cooldown.RunFrom(es, ops[..|ops| - 1]), ops[|ops| - 1], uri, time);
    }
  }

  /** The k-th URL is registered, with no older entry. */
  ghost predicate NewlyListed(net: Network, curl: Curl, es: seq<Cooldown.Entry>, urls: seq<string>, k: nat)
    requires k < |urls|
  {
    var before := ListAt(net, curl, es, urls, k);
    Registers(net, curl, before, urls[k], k) && Cooldown.First(before, urls[k]).None?
  }

  lemma {:induction false} StaysListed(net: Network, curl: Curl, es: seq<Cooldown.Entry>, urls: seq<string>, k: nat, n: nat)
    requires k < n <= |urls| && NewlyListed(net, curl, es, urls, k)
    requires forall i :: k < i <= n ==> Within1500(net.others(i), net.clock(k))
    ensures Cooldown.First(ListAt(net, curl, es, urls, n), urls[k]) == Some(net.clock(k))
    decreases n
  {
    var before := ListAt(net, curl, es, urls, n - 1);
    Cooldown.FirstAppend(before, Cooldown.Entry(urls[n - 1], net.clock(n - 1)), urls[k]);
    if k < n - 1 { StaysListed(net, curl, es, urls, k, n - 1); }
    SurvivesOthers(ListAfter(net, curl, es, urls, n), net.others(n), urls[k], net.clock(k));
  }

  /** A URL that a list names twice is not downloaded twice within the cooldown: with a new entry of its
      own less than 1500 ms ago, and whatever other threads did to the list in that time, the second try
      misses without an attempt. */
  lemma RepeatedUrlMisses(net: Network, curl: Curl, es: seq<Cooldown.Entry>, urls: seq<string>, k: nat, n: nat)
    requires k < n < |urls| && urls[n] == urls[k] && net.proxy(n).None? && NewlyListed(net, curl, es, urls, k)
    requires forall i :: k < i <= n ==> Within1500(net.others(i), net.clock(k))
    requires Cooldown.ElapsedMs(net.clock(n), net.clock(k)) < Cooldown.UriDelta
    ensures FetchAt(net, curl, es, urls, n)
         == Missed(if Unreachable(net, urls[n], n) then net.reach(n).value else NotReachable)
    ensures ListAfter(net, curl, es, urls, n + 1) == ListAt(net, curl, es, urls, n)
  {
    StaysListed(net, curl, es, urls, k, n);
  }

  /** fwupd_client_download_bytes2_async() up to the completion of its task; `curlNew` is the error of
      setting up curl, if any. */
  method DownloadBytes2(items: Cooldown.DownloadItems, now: int, curlNew: Option<Error>, net: Network, curl: Curl,
                        onlyP2p: bool, urls: seq<string>)
    returns (completions: seq<Completion>, attempted: seq<string>)
    requires items.Valid()
    modifies items
    ensures items.Valid()
    ensures |completions| == 1 && completions[0] != Returned(None)
    ensures attempted <= Filtered(curl, onlyP2p, urls)
    ensures forall u | u in attempted :: u in urls && Allowed(curl, onlyP2p, u)
    ensures var uris := Filtered(curl, onlyP2p, urls);
            if curlNew.Some? then
              completions[0] == Failed(curlNew.value) && attempted == [] && items.Entries() == old(items.Entries())
            else if uris == [] then
              completions[0] == Failed(InvalidFile) && attempted == [] && items.Entries() == old(items.Entries())
            else
              var es := Cooldown.Kept(old(items.Entries()), now);
              && Decided(net, curl, es, uris, |attempted|, completions[0])
              && items.Entries() == ListAfter(net, curl, es, uris, |attempted|)
  {
    FilteredMember(curl, onlyP2p, urls);
    if curlNew.Some? {
      return [Failed(curlNew.value)], [];
    }
    var filtered := FilterLocations(curl, onlyP2p, urls);
    if filtered.Err? {
      return [Failed(filtered.error)], [];
    }
    items.Prune(now);
    ghost var es := items.Entries();
    completions, attempted := DownloadBytesThread(items, net, curl, filtered.value);
    FirstSuccessWins(net, curl, es, filtered.value, |attempted|, completions[0]);
    forall u | u in attempted ensures u in filtered.value {
      var i :| 0 <= i < |attempted| && attempted[i] == u;
      assert filtered.value[i] == u;
    }
  }
}
