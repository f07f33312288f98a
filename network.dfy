/** HTTP helpers (utils/network.py): the configured site, the user-agent
    choice and make_request's retry loop with domain rotation.

    The answers of the site are a script: the k-th request made gets the
    k-th reply, and every request past the end of the script raises. The
    random choice of a user agent is an index parameter; the random sleeps,
    the SSL adapter and the session headers are not modelled. */
module Network {
  import opened Strings

  /** BASE_DOMAINS, BASE_URL and USER_AGENTS of the configuration. */
  const BaseDomains: seq<string> := ["yhdm.one"]
  const BaseUrl: string := "https://" + BaseDomains[0]
  const UserAgents: seq<string> := [
    "Mozilla/5.0 (Windows NT 10.0; Win64; x64) AppleWebKit/537.36 (KHTML, like Gecko) Chrome/91.0.4472.124 Safari/537.36",
    "Mozilla/5.0 (Windows NT 10.0; Win64; x64) AppleWebKit/537.36 (KHTML, like Gecko) Chrome/92.0.4515.107 Safari/537.36",
    "Mozilla/5.0 (Macintosh; Intel Mac OS X 10_15_7) AppleWebKit/605.1.15 (KHTML, like Gecko) Version/14.1.1 Safari/605.1.15",
    "Mozilla/5.0 (X11; Linux x86_64) AppleWebKit/537.36 (KHTML, like Gecko) Chrome/92.0.4515.107 Safari/537.36",
    "Mozilla/5.0 (Windows NT 10.0; Win64; x64; rv:90.0) Gecko/20100101 Firefox/90.0"
  ]

  /** get_random_ua, with the random pick as an index. */
  function RandomUa(pick: nat): (ua: string)
    requires pick < |UserAgents|
    ensures ua in UserAgents
  {
    UserAgents[pick]
  }

  /** get_domain: the base URL without its https:// prefix. */
  function Domain(baseUrl: string): string {
    Replace(baseUrl, "https://", "")
  }

  /** get_base_url: the configured base URL, https:// followed by the
      first configured domain, which get_domain gives back. */
  function BaseUrlOf(): (u: string)
    ensures u == "https://yhdm.one" && u == "https://" + BaseDomains[0]
    ensures Domain(u) == BaseDomains[0]
  {
    ConfiguredDomain();
    BaseUrl
  }

  /** A base URL built from a domain gives that domain back, provided the
      domain does not itself hold https://. */
  lemma DomainOfBaseUrl(d: string)
    requires !Contains(d, "https://")
    ensures Domain("https://" + d) == d
  {
    var s := "https://" + d;
    assert s[..|"https://"|] == "https://";
    assert s[|"https://"|..] == d;
  }

  /** So the configured domain is yhdm.one. */
  lemma ConfiguredDomain()
    ensures Domain(BaseUrl) == "yhdm.one"
  {
    var d := "yhdm.one";
    assert d[1..] == "hdm.one";
    assert IndexOf(d[1..], "https://") == None;
    assert d[..8] != "https://" by { assert d[0] != 'h'; }
    DomainOfBaseUrl(d);
  }

  /** The URL requested for a path on a domain: a / is inserted when the path
      lacks one. */
  function OnDomain(domain: string, url: string): (full: string)
    ensures StartsWith(full, "https://" + domain + "/")
  {
    var path := if StartsWith(url, "/") then url else "/" + url;
    assert path[..1] == "/";
    var full := "https://" + domain + path;
    assert full[..|"https://" + domain + "/"|] == "https://" + domain + "/";
    full
  }

  /** A relative path gets its / exactly once. */
  lemma OnDomainSlash(domain: string, url: string)
    ensures !StartsWith(url, "/") ==> OnDomain(domain, url) == "https://" + domain + "/" + url
    ensures StartsWith(url, "/") ==> OnDomain(domain, url) == "https://" + domain + url
    ensures OnDomain(domain, url) == OnDomain(domain, "/" + url) || StartsWith(url, "/")
  {
  }

  /** The first domain of the list not tried yet. */
  function NextUntried(domains: seq<string>, tried: seq<string>): (r: Option<string>)
    ensures r.Some? ==> r.value in domains && r.value !in tried
    ensures r.None? <==> forall d :: d in domains ==> d in tried
    decreases |domains|
  {
    if |domains| == 0 then None
    else if domains[0] !in tried then Some(domains[0])
    else NextUntried(domains[1..], tried)
  }

  /** The domains switched to after k attempts past the retry count: each
      step takes the next one not tried yet, and nothing more once none is
      left. */
  function Rotation(domains: seq<string>, k: nat): (r: seq<string>)
    ensures |r| <= k
  {
    if k == 0 then []
    else
      var prev := Rotation(domains, k - 1);
      match NextUntried(domains, prev)
      case None => prev
      case Some(d) => prev + [d]
  }

  /** The rotation never tries a domain twice, only takes listed domains,
      and once it stops every domain has been tried. */
  lemma {:induction false} RotationDistinct(domains: seq<string>, k: nat)
    ensures forall i, j :: 0 <= i < j < |Rotation(domains, k)| ==> Rotation(domains, k)[i] != Rotation(domains, k)[j]
    ensures forall d :: d in Rotation(domains, k) ==> d in domains
    ensures |Rotation(domains, k)| < k ==> forall d :: d in domains ==> d in Rotation(domains, k)
  {
    if k > 0 {
      RotationDistinct(domains, k - 1);
    }
  }

  /** Once no domain is left the rotation stays where it is. */
  lemma {:induction false} RotationStops(domains: seq<string>, k: nat, m: nat)
    requires k <= m
    requires NextUntried(domains, Rotation(domains, k)).None?
    ensures Rotation(domains, m) == Rotation(domains, k)
    decreases m - k
  {
    if k < m {
      RotationStops(domains, k, m - 1);
    }
  }

  function Repeat(s: string, n: nat): (r: seq<string>)
    ensures |r| == n && forall i :: 0 <= i < n ==> r[i] == s
  {
    seq(n, _ => s)
  }

  function OnEach(domains: seq<string>, url: string): (r: seq<string>)
    ensures |r| == |domains| && forall i :: 0 <= i < |r| ==> r[i] == OnDomain(domains[i], url)
  {
    seq(|domains|, i requires 0 <= i < |domains| => OnDomain(domains[i], url))
  }

  /** The URLs make_request asks for when no answer ends it: an absolute URL
      2*retry times; a relative one on the primary domain retry times, then
      once on each rotated domain (or on the primary domain again retry
      times when no domains are configured). */
  function Plan(url: string, retry: int, domains: seq<string>, primary: string): (p: seq<string>)
    ensures retry <= 0 ==> p == []
  {
    if retry <= 0 then []
    else if StartsWith(url, "http") then Repeat(url, 2 * retry)
    else if |domains| == 0 then Repeat(OnDomain(primary, url), 2 * retry)
    else Repeat(OnDomain(primary, url), retry) + OnEach(Rotation(domains, retry), url)
  }

  /** At most 2*retry attempts are made. */
  lemma PlanBound(url: string, retry: int, domains: seq<string>, primary: string)
    ensures |Plan(url, retry, domains, primary)| <= if retry <= 0 then 0 else 2 * retry
  {
  }

  /** With the configured single domain, a relative request is tried retry
      times, then once more after the switch to that same domain, and then
      the loop gives up. */
  lemma ConfiguredPlan(url: string, retry: int)
    requires retry > 0 && !StartsWith(url, "http")
    ensures Plan(url, retry, BaseDomains, Domain(BaseUrl)) == Repeat(OnDomain("yhdm.one", url), retry + 1)
  {
    ConfiguredDomain();
    assert Rotation(BaseDomains, 1) == ["yhdm.one"];
    assert NextUntried(BaseDomains, Rotation(BaseDomains, 1)).None?;
    RotationStops(BaseDomains, 1, retry);
  }

  datatype Reply = Got(status: int, body: string) | Raised

  /** make_request's answer: the status code and the response, if kept. */
  datatype Answer = Answer(statusCode: int, response: Option<string>)

  function ReplyAt(replies: seq<Reply>, k: nat): Reply {
    if k < |replies| then replies[k] else Raised
  }

  /** A reply that ends the loop: 404 or 200. */
  predicate Final(r: Reply) {
    r.Got? && (r.status == 404 || r.status == 200)
  }

  /** The loop state of make_request before attempt `attempt`: the domains
      tried so far are the rotation's, and the URL is the primary domain's (or
      the absolute URL itself) until the rotation starts. */
  ghost predicate Targeting(url: string, retry: int, domains: seq<string>, primary: string, attempt: nat,
                            tried: seq<string>, full: string) {
    var relative := !StartsWith(url, "http");
    (retry > 0 && relative && |domains| > 0 && attempt >= retry ==>
       tried == Rotation(domains, attempt - retry) && |tried| == attempt - retry) &&
    (retry > 0 && relative && |domains| > 0 && attempt < retry ==> tried == []) &&
    (relative && (|domains| == 0 || attempt < retry) ==> full == OnDomain(primary, url)) &&
    (!relative ==> full == url)
  }

  /** The head of make_request's loop body: past the retry count a relative
      URL switches to the next domain not tried yet, and the loop stops when
      none is left. The URL then requested is the plan's, and the plan ends
      exactly where the loop stops. */
  method NextTarget(url: string, retry: int, domains: seq<string>, primary: string, attempt: nat,
                    tried: seq<string>, full: string)
    returns (stop: bool, tried': seq<string>, full': string)
    requires retry > 0 && attempt < 2 * retry
    requires Targeting(url, retry, domains, primary, attempt, tried, full)
    ensures stop ==> |Plan(url, retry, domains, primary)| == attempt
    ensures !stop ==>
              attempt < |Plan(url, retry, domains, primary)| && Plan(url, retry, domains, primary)[attempt] == full' &&
              Targeting(url, retry, domains, primary, attempt + 1, tried', full')
  {
    stop, tried', full' := false, tried, full;
    if attempt >= retry && !StartsWith(url, "http") {
      if |domains| > 0 {
        var next := NextUntried(domains, tried);
        if next.None? {
          RotationStops(domains, attempt - retry, retry);
          return true, tried, full;
        }
        tried' := tried + [next.value];
        full' := OnDomain(next.value, url);
      }
    }
    PlanAt(url, retry, domains, primary, attempt);
  }

  /** make_request. Each attempt past the retry count, for a relative URL,
      first switches to the next configured domain not tried yet, and the
      loop ends when none is left. A 404 answers {404, None} and a 200
      answers {200, response} at once; any other status or an exception
      moves on to the next attempt; when the attempts run out the answer is
      {-1, None}. The URLs requested are the plan's, in order, up to the
      first reply that ends the loop. */
  method MakeRequest(url: string, retry: int, domains: seq<string>, primary: string, replies: seq<Reply>)
    returns (answer: Answer, requested: seq<string>)
    ensures var plan := Plan(url, retry, domains, primary);
            |requested| <= |plan| && requested == plan[..|requested|]
    ensures answer.statusCode == -1 <==>
              |requested| == |Plan(url, retry, domains, primary)| &&
              forall k :: 0 <= k < |requested| ==> !Final(ReplyAt(replies, k))
    ensures answer.statusCode == -1 ==> answer.response.None?
    ensures answer.statusCode != -1 ==>
              |requested| > 0 && Final(ReplyAt(replies, |requested| - 1)) &&
              (forall k :: 0 <= k < |requested| - 1 ==> !Final(ReplyAt(replies, k))) &&
              answer.statusCode == ReplyAt(replies, |requested| - 1).status &&
              answer.response == (if answer.statusCode == 200 then Some(ReplyAt(replies, |requested| - 1).body) else None)
  {
    var relative := !StartsWith(url, "http");
    var full := if relative then OnDomain(primary, url) else url;
    var tried: seq<string> := [];
    requested := [];
    ghost var plan := Plan(url, retry, domains, primary);
    var attempt := 0;
    while attempt < retry * 2
      invariant 0 <= attempt && (retry > 0 ==> attempt <= 2 * retry)
      invariant |requested| == attempt && attempt <= |plan| && requested == plan[..attempt]
      invariant forall k :: 0 <= k < attempt ==> !Final(ReplyAt(replies, k))
      invariant Targeting(url, retry, domains, primary, attempt, tried, full)
    {
      var stop;
      stop, tried, full := NextTarget(url, retry, domains, primary, attempt, tried, full);
      if stop {
        break;
      }
      PrefixSnoc(plan, attempt);
      requested := requested + [full];
      var reply := ReplyAt(replies, attempt);
      if reply.Got? && reply.status == 404 {
        return Answer(404, None), requested;
      }
      if reply.Got? && reply.status == 200 {
        return Answer(200, Some(reply.body)), requested;
      }
      attempt := attempt + 1;
    }
    answer := Answer(-1, None);
  }

  /** The attempt-th URL of the plan; past the retry count a relative URL
      with configured domains takes the domain the rotation has just added. */
  lemma PlanAt(url: string, retry: int, domains: seq<string>, primary: string, attempt: nat)
    requires retry > 0 && attempt < 2 * retry
    requires !StartsWith(url, "http") && |domains| > 0 && attempt >= retry ==>
               |Rotation(domains, attempt - retry + 1)| == attempt - retry + 1
    ensures attempt < |Plan(url, retry, domains, primary)|
    ensures var plan := Plan(url, retry, domains, primary);
            (StartsWith(url, "http") ==> plan[attempt] == url) &&
            (!StartsWith(url, "http") && (|domains| == 0 || attempt < retry) ==> plan[attempt] == OnDomain(primary, url)) &&
            (!StartsWith(url, "http") && |domains| > 0 && attempt >= retry ==>
              plan[attempt] == OnDomain(Rotation(domains, attempt - retry + 1)[attempt - retry], url))
  {
    var plan := Plan(url, retry, domains, primary);
    if StartsWith(url, "http") {
      assert plan == Repeat(url, 2 * retry);
    } else if |domains| == 0 {
      assert plan == Repeat(OnDomain(primary, url), 2 * retry);
    } else {
      var rot := Rotation(domains, retry);
      assert plan == Repeat(OnDomain(primary, url), retry) + OnEach(rot, url);
      if attempt >= retry {
        var k := attempt - retry;
        RotationPrefix(domains, k + 1, retry);
        assert rot[k] == Rotation(domains, k + 1)[k];
        assert plan[attempt] == OnEach(rot, url)[k];
      }
    }
  }

  lemma PrefixSnoc<T>(s: seq<T>, n: nat)
    requires n < |s|
    ensures s[..n + 1] == s[..n] + [s[n]]
  {
  }

  /** A longer rotation extends a shorter one. */
  lemma {:induction false} RotationPrefix(domains: seq<string>, k: nat, m: nat)
    requires k <= m
    ensures |Rotation(domains, k)| <= |Rotation(domains, m)|
    ensures Rotation(domains, k) == Rotation(domains, m)[..|Rotation(domains, k)|]
    decreases m - k
  {
    if k < m {
      RotationPrefix(domains, k, m - 1);
    }
  }
}
