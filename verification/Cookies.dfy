/**
  The indexed cookie jar (`_cookies.py`) beside the jar it extends, which scans every stored domain on each request
  and every stored cookie on each expiry sweep.
 */
module Cookies {
  import opened Lists

  type Time = real

  datatype Cookie = Cookie(domain: string, path: string, name: string, value: string, expires: Option<Time>)

  /** Cookies by domain; inside a domain no two share a path and a name. */
  type Store = map<string, seq<Cookie>>

  const MAX_HOST_LENGTH := 255

  // ---- the scanning jar ----------------------------------------------------

  predicate SameKey(a: Cookie, b: Cookie) { a.path == b.path && a.name == b.name }

  /** The list with `c` in the place of the cookie of the same key, or at the end. */
  function Put(cs: seq<Cookie>, c: Cookie): seq<Cookie> {
    if cs == [] then [c]
    else if SameKey(cs[0], c) then [c] + cs[1..]
    else [cs[0]] + Put(cs[1..], c)
  }

  function SetCookie(s: Store, c: Cookie): Store {
    s[c.domain := Put(if c.domain in s then s[c.domain] else [], c)]
  }

  predicate IsExpired(c: Cookie, now: Time) { c.expires.Some? && c.expires.value <= now }

  function Fresh(cs: seq<Cookie>, now: Time): seq<Cookie> {
    if cs == [] then []
    else (if IsExpired(cs[0], now) then [] else [cs[0]]) + Fresh(cs[1..], now)
  }

  /** The sweep of every stored cookie. */
  function Sweep(s: Store, now: Time): Store {
    map d | d in s :: Fresh(s[d], now)
  }

  /** Clearing everything, one domain, one path of a domain, or one cookie. */
  datatype Target = All | Domain(domain: string) | Path(domain: string, path: string)
    | One(domain: string, path: string, name: string)

  predicate Targets(t: Target, c: Cookie) {
    match t
    case All => true
    case Domain(d) => c.domain == d
    case Path(d, p) => c.domain == d && c.path == p
    case One(d, p, n) => c.domain == d && c.path == p && c.name == n
  }

  function Cleared(cs: seq<Cookie>, t: Target): seq<Cookie> {
    if cs == [] then []
    else (if Targets(t, cs[0]) then [] else [cs[0]]) + Cleared(cs[1..], t)
  }

  function Clear(s: Store, t: Target): Store {
    map d | d in s :: Cleared(s[d], t)
  }

  // ---- matching domains ----------------------------------------------------

  predicate EndsWith(s: string, suffix: string) {
    |suffix| <= |s| && s[|s| - |suffix|..] == suffix
  }

  function Dotted(host: string): string {
    if host != [] && host[0] == '.' then host else "." + host
  }

  function DottedDomain(domain: string): string {
    if domain == "" then "" else Dotted(domain)
  }

  /** The suffix test of the default policy for one request host. */
  predicate SuffixMatch(domain: string, host: string) {
    EndsWith(Dotted(host), DottedDomain(domain))
  }

  /** The default policy's liberal domain check. */
  predicate DomainMatches(domain: string, hosts: seq<string>) {
    exists h :: h in hosts && SuffixMatch(domain, h)
  }

  /** A suffix that starts at a dot, with or without the dot, passes the test, and only such suffixes pass. */
  lemma SuffixesAtDots(domain: string, host: string)
    ensures SuffixMatch(domain, host) <==>
      domain == "" || exists i :: 0 <= i < |Dotted(host)| && DotAt(Dotted(host), i, domain)
  {
    var d := Dotted(host);
    if domain != "" && SuffixMatch(domain, host) {
      var i := |d| - |Dotted(domain)|;
      assert d[i] == d[i..][0] == '.';
      if domain[0] != '.' {
        assert d[i + 1..] == d[i..][1..] == domain;
      }
      assert DotAt(d, i, domain);
    }
    if i :| 0 <= i < |d| && DotAt(d, i, domain) {
      DotPasses(d, i, domain);
    }
  }

  lemma DotPasses(d: string, i: nat, domain: string)
    requires i < |d| && DotAt(d, i, domain)
    ensures EndsWith(d, DottedDomain(domain))
  {
    assert d[i..] == "." + d[i + 1..];
  }

  predicate DotAt(dotted: string, i: nat, domain: string)
    requires i < |dotted|
  {
    dotted[i] == '.' && (domain == dotted[i..] || domain == dotted[i + 1..])
  }

  /** Appends a key to a dict, which keeps the place of a key it already has. */
  function AddKey(ds: seq<string>, d: string): (r: seq<string>)
    requires Distinct(ds)
    ensures Distinct(r) && forall x :: x in r <==> x in ds || x == d
  {
    if d in ds then ds else ds + [d]
  }

  /** How specific a suffix is: the labels it covers, and the form with a leading dot before the one without. */
  function Specificity(d: string): nat {
    if d == "" then 0 else if d[0] == '.' then 2 * |d| - 1 else 2 * |d| + 2
  }

  /** From position `from` on, each domain is more specific than those before, and none beyond `bound`. */
  ghost predicate Increasing(ds: seq<string>, from: nat, bound: nat) {
    && (forall i, j :: from <= i < j < |ds| ==> Specificity(ds[i]) < Specificity(ds[j]))
    && (forall i :: from <= i < |ds| ==> Specificity(ds[i]) <= bound)
  }

  lemma AddIncreasing(ds: seq<string>, from: nat, d: string, bound: nat, bound': nat)
    requires Distinct(ds) && from <= |ds| && Increasing(ds, from, bound) && bound <= bound'
    requires d in ds || bound < Specificity(d) <= bound'
    ensures Increasing(AddKey(ds, d), from, bound')
  {
  }

  /** The suffixes that start at a dot, with and without it, from the end of the host to its beginning. */
  method AddSuffixes(ds: seq<string>, host: string) returns (domains: seq<string>)
    requires Distinct(ds) && "" in ds
    ensures Distinct(domains) && ds <= domains
    ensures forall d :: d in domains <==> d in ds || SuffixMatch(d, host)
    ensures Increasing(domains, |ds|, 2 * |Dotted(host)|)
  {
    domains := ds;
    var dotted := Dotted(host);
    for index := |dotted| downto 0
      invariant Distinct(domains) && ds <= domains
      invariant forall d :: d in domains <==> d in ds || exists i :: index <= i < |dotted| && DotAt(dotted, i, d)
      invariant Increasing(domains, |ds|, 2 * (|dotted| - index))
    {
      ghost var last := domains;
      if dotted[index] == '.' {
        SuffixesIncrease(domains, |ds|, dotted, index);
        domains := AddKey(AddKey(domains, dotted[index..]), dotted[index + 1..]);
      }
      forall d ensures d in domains <==> d in ds || exists i :: index <= i < |dotted| && DotAt(dotted, i, d) {
        assert d in domains <==> d in last || DotAt(dotted, index, d);
      }
    }
    forall d ensures d in domains <==> d in ds || SuffixMatch(d, host) {
      SuffixesAtDots(d, host);
    }
  }

  lemma SuffixesIncrease(ds: seq<string>, from: nat, dotted: string, index: nat)
    requires Distinct(ds) && "" in ds && from <= |ds| && index < |dotted| && dotted[index] == '.'
    requires forall i, d :: index < i < |dotted| && DotAt(dotted, i, d) ==> d in ds
    requires Increasing(ds, from, 2 * (|dotted| - index - 1))
    ensures Increasing(AddKey(AddKey(ds, dotted[index..]), dotted[index + 1..]), from, 2 * (|dotted| - index))
  {
    var size := |dotted| - index;
    var more, rest := AddKey(ds, dotted[index..]), dotted[index + 1..];
    AddIncreasing(ds, from, dotted[index..], 2 * size - 2, 2 * size - 1);
    if rest != "" && rest[0] == '.' {
      assert DotAt(dotted, index + 1, rest);
    }
    AddIncreasing(more, from, rest, 2 * size - 1, 2 * size);
  }

  /** `a` comes before `b`: it matches an earlier host, or the same first host less specifically. */
  ghost predicate Precedes(a: string, b: string, hosts: seq<string>, k: nat)
    requires k <= |hosts|
  {
    exists h: nat :: h < k && SuffixMatch(a, hosts[h]) && MatchedFrom(b, hosts, h)
                     && (SuffixMatch(b, hosts[h]) ==> Specificity(a) < Specificity(b))
  }

  ghost predicate MatchedFrom(b: string, hosts: seq<string>, h: nat)
    requires h <= |hosts|
  {
    forall g: nat :: g < h ==> !SuffixMatch(b, hosts[g])
  }

  /**
    `_matching_domains`: every domain the suffix test accepts for one of the hosts, each once, and no other; host by
    host, and for each host the least specific first.
   */
  method MatchingDomains(hosts: seq<string>) returns (domains: seq<string>)
    requires hosts != []
    ensures Distinct(domains)
    ensures forall d :: d in domains <==> DomainMatches(d, hosts)
    ensures forall i, j :: 0 <= i < j < |domains| ==> Precedes(domains[i], domains[j], hosts, |hosts|)
  {
    domains := [""];
    for k := 0 to |hosts|
      invariant Distinct(domains) && "" in domains && (k == 0 ==> domains == [""])
      invariant forall d :: d in domains <==> d == "" || DomainMatches(d, hosts[..k])
      invariant forall i, j :: 0 <= i < j < |domains| ==> Precedes(domains[i], domains[j], hosts, k)
    {
      ghost var before := domains;
      domains := AddSuffixes(domains, hosts[k]);
      forall d ensures d in domains <==> d == "" || DomainMatches(d, hosts[..k + 1]) {
        OneMoreHost(d, hosts, k);
      }
      forall i, j | 0 <= i < j < |domains| ensures Precedes(domains[i], domains[j], hosts, k + 1) {
        if j < |before| {
          assert Precedes(domains[i], domains[j], hosts, k);
        } else {
          NewSuffix(before, domains, hosts, k, i, j);
        }
      }
    }
    assert hosts[..|hosts|] == hosts;
    assert DomainMatches("", hosts) by { assert hosts[0] in hosts && SuffixMatch("", hosts[0]); }
  }

  /** A domain new with host `k` comes after all others so far. */
  lemma NewSuffix(before: seq<string>, domains: seq<string>, hosts: seq<string>, k: nat, i: nat, j: nat)
    requires k < |hosts| && before <= domains && i < j < |domains| && |before| <= j && Distinct(domains)
    requires forall d :: d in before <==> d == "" || DomainMatches(d, hosts[..k])
    requires forall d :: d in domains ==> d in before || SuffixMatch(d, hosts[k])
    requires Increasing(domains, |before|, 2 * |Dotted(hosts[k])|)
    ensures Precedes(domains[i], domains[j], hosts, k + 1)
  {
    var a, b := domains[i], domains[j];
    assert b !in before;
    forall g: nat | g < k ensures !SuffixMatch(b, hosts[g]) {
      assert hosts[g] in hosts[..k];
    }
    if i >= |before| {
      assert a !in before && SuffixMatch(a, hosts[k]);
    } else if a == "" {
      assert SuffixMatch(a, hosts[0]);
    } else {
      assert a in before;
      var host :| host in hosts[..k] && SuffixMatch(a, host);
      var h: nat :| h < k && hosts[h] == host;
      assert MatchedFrom(b, hosts, h);
    }
  }

  lemma OneMoreHost(d: string, hosts: seq<string>, k: nat)
    requires k < |hosts|
    ensures DomainMatches(d, hosts[..k + 1]) <==> DomainMatches(d, hosts[..k]) || SuffixMatch(d, hosts[k])
  {
    assert hosts[..k + 1] == hosts[..k] + [hosts[k]];
    if SuffixMatch(d, hosts[k]) {
      assert hosts[k] in hosts[..k + 1];
    }
  }

  // ---- answering a request -------------------------------------------------

  /** What the policy and the request decide: the domain check, and the check of each cookie of an accepted domain. */
  datatype Query = Query(hosts: seq<string>, defaultMatching: bool, domainOk: string -> bool, cookieOk: Cookie -> bool)
  {
    /** `domain_return_ok`: the default policy is the suffix test and a block list, another policy is its own. */
    predicate AcceptsDomain(d: string) {
      (defaultMatching ==> DomainMatches(d, hosts)) && domainOk(d)
    }
  }

  function Allowed(cs: seq<Cookie>, q: Query): seq<Cookie> {
    if cs == [] then []
    else (if q.cookieOk(cs[0]) then [cs[0]] else []) + Allowed(cs[1..], q)
  }

  /** `_cookies_for_domain`. */
  function ForDomain(s: Store, d: string, q: Query): seq<Cookie>
    requires d in s
  {
    if q.AcceptsDomain(d) then Allowed(s[d], q) else []
  }

  /** How often `c` is sent: as often as its own domain sends it. */
  function Times(s: Store, q: Query, c: Cookie): nat {
    if c.domain in s then multiset(ForDomain(s, c.domain, q))[c] else 0
  }

  /** Every cookie is stored under its own domain. */
  ghost predicate Filed(s: Store) {
    forall d, i :: d in s && 0 <= i < |s[d]| ==> s[d][i].domain == d
  }

  /** `r` is the answer to the request, up to order. */
  ghost predicate Answers(s: Store, q: Query, r: seq<Cookie>) {
    forall c: Cookie :: multiset(r)[c] == Times(s, q, c)
  }

  lemma {:induction false} AllowedFrom(cs: seq<Cookie>, q: Query, c: Cookie)
    ensures c in Allowed(cs, q) ==> c in cs
  {
    if cs != [] {
      AllowedFrom(cs[1..], q, c);
    }
  }

  /** Cookies of other domains do not come from `d`. */
  lemma FromOwnDomain(s: Store, d: string, q: Query, c: Cookie)
    requires Filed(s) && d in s && c.domain != d
    ensures multiset(ForDomain(s, d, q))[c] == 0
  {
    AllowedFrom(s[d], q, c);
  }

  /** Collecting over a list of distinct domains, skipping those that are not stored. */
  ghost predicate CollectedFrom(s: Store, q: Query, domains: seq<string>, r: seq<Cookie>) {
    forall c: Cookie :: multiset(r)[c] == if c.domain in domains then Times(s, q, c) else 0
  }

  lemma Collect(s: Store, q: Query, domains: seq<string>, d: string, r: seq<Cookie>)
    requires Filed(s) && d !in domains && CollectedFrom(s, q, domains, r)
    ensures CollectedFrom(s, q, domains + [d], if d in s then r + ForDomain(s, d, q) else r)
  {
    var r' := if d in s then r + ForDomain(s, d, q) else r;
    forall c: Cookie ensures multiset(r')[c] == if c.domain in domains + [d] then Times(s, q, c) else 0 {
      if d in s && c.domain != d {
        FromOwnDomain(s, d, q, c);
      }
    }
  }

  /** The scan of every stored domain, in any order the dict may have. */
  method ScanForRequest(s: Store, q: Query) returns (cookies: seq<Cookie>)
    requires Filed(s)
    ensures Answers(s, q, cookies)
  {
    cookies := [];
    var keys := s.Keys;
    ghost var done: seq<string> := [];
    while keys != {}
      invariant keys <= s.Keys && Distinct(done)
      invariant forall d :: d in done <==> d in s && d !in keys
      invariant CollectedFrom(s, q, done, cookies)
      decreases keys
    {
      var d :| d in keys;
      Collect(s, q, done, d, cookies);
      cookies := cookies + ForDomain(s, d, q);
      keys := keys - {d};
      done := done + [d];
    }
  }

  // ---- the indexed jar -----------------------------------------------------

  /** A lower bound on the expiry times, with `None` for infinity. */
  function Earliest(a: Option<Time>, b: Option<Time>): Option<Time> {
    if a.None? then b else if b.None? || a.value <= b.value then a else b
  }

  ghost predicate Below(bound: Option<Time>, c: Cookie) {
    c.expires.Some? ==> bound.Some? && bound.value <= c.expires.value
  }

  ghost predicate BelowAll(bound: Option<Time>, s: Store) {
    forall d, i :: d in s && 0 <= i < |s[d]| ==> Below(bound, s[d][i])
  }

  /** The bound is the expiry of some stored cookie. */
  ghost predicate Attained(bound: Option<Time>, s: Store) {
    bound.Some? ==> exists d, i :: d in s && 0 <= i < |s[d]| && s[d][i].expires == bound
  }

  lemma {:induction false} PutMembers(cs: seq<Cookie>, c: Cookie)
    ensures forall i :: 0 <= i < |Put(cs, c)| ==> Put(cs, c)[i] == c || Put(cs, c)[i] in cs
    ensures c in Put(cs, c)
  {
    if cs != [] && !SameKey(cs[0], c) {
      PutMembers(cs[1..], c);
      assert Put(cs, c)[1..] == Put(cs[1..], c);
    }
  }

  lemma {:induction false} FreshMembers(cs: seq<Cookie>, now: Time)
    ensures forall i :: 0 <= i < |Fresh(cs, now)| ==> Fresh(cs, now)[i] in cs && !IsExpired(Fresh(cs, now)[i], now)
  {
    if cs != [] {
      FreshMembers(cs[1..], now);
    }
  }

  lemma {:induction false} ClearedMembers(cs: seq<Cookie>, t: Target)
    ensures forall i :: 0 <= i < |Cleared(cs, t)| ==> Cleared(cs, t)[i] in cs
  {
    if cs != [] {
      ClearedMembers(cs[1..], t);
    }
  }

  lemma {:induction false} NothingExpired(cs: seq<Cookie>, now: Time)
    requires forall i :: 0 <= i < |cs| ==> !IsExpired(cs[i], now)
    ensures Fresh(cs, now) == cs
  {
    if cs != [] {
      NothingExpired(cs[1..], now);
    }
  }

  /** A sweep before the earliest known expiry would remove nothing. */
  lemma SkippedSweep(s: Store, bound: Option<Time>, now: Time)
    requires BelowAll(bound, s) && (bound.None? || now < bound.value)
    ensures Sweep(s, now) == s
  {
    forall d | d in s ensures Fresh(s[d], now) == s[d] {
      NothingExpired(s[d], now);
    }
  }

  class IndexedCookieJar {
    var cookies: Store
    var nextExpiry: Option<Time>

    ghost predicate Valid()
      reads this
    {
      Filed(cookies) && BelowAll(nextExpiry, cookies)
    }

    constructor ()
      ensures Valid() && cookies == map[]
    {
      cookies, nextExpiry := map[], None;
    }

    method Set(c: Cookie)
      requires Valid()
      modifies this
      ensures Valid() && cookies == SetCookie(old(cookies), c)
    {
      PutMembers(if c.domain in cookies then cookies[c.domain] else [], c);
      cookies := SetCookie(cookies, c);
      if c.expires.Some? {
        nextExpiry := Earliest(nextExpiry, c.expires);
      }
    }

    /** Inherited clearing leaves the bound alone: it stays a lower bound. */
    method ClearCookies(t: Target)
      requires Valid()
      modifies this`cookies
      ensures Valid() && cookies == Clear(old(cookies), t)
    {
      forall d | d in cookies {
        ClearedMembers(cookies[d], t);
      }
      cookies := Clear(cookies, t);
    }

    /** The sweep, made or skipped, is the full sweep at the time the clock showed when it was decided or made. */
    method ClearExpiredCookies(now: Time, later: Time)
      requires Valid()
      modifies this
      ensures Valid() && cookies
        == Sweep(old(cookies), if old(nextExpiry).None? || now < old(nextExpiry).value then now else later)
      ensures if old(nextExpiry).None? || now < old(nextExpiry).value then nextExpiry == old(nextExpiry)
              else Attained(nextExpiry, cookies)
    {
      if nextExpiry.None? || now < nextExpiry.value {
        SkippedSweep(cookies, nextExpiry, now);
        return;
      }
      forall d | d in cookies {
        FreshMembers(cookies[d], later);
      }
      cookies := Sweep(cookies, later);
      nextExpiry := EarliestExpiry();
    }

    /** The earliest stored expiry, infinity if there is none. */
    method EarliestExpiry() returns (bound: Option<Time>)
      ensures BelowAll(bound, cookies) && Attained(bound, cookies)
    {
      bound := None;
      var keys := cookies.Keys;
      while keys != {}
        invariant keys <= cookies.Keys && Attained(bound, cookies)
        invariant forall d, i :: d in cookies && d !in keys && 0 <= i < |cookies[d]| ==> Below(bound, cookies[d][i])
        decreases keys
      {
        var d :| d in keys;
        for j := 0 to |cookies[d]|
          invariant forall e, i :: e in cookies && e !in keys && 0 <= i < |cookies[e]| ==> Below(bound, cookies[e][i])
          invariant forall i :: 0 <= i < j ==> Below(bound, cookies[d][i])
          invariant Attained(bound, cookies)
        {
          bound := Earliest(bound, cookies[d][j].expires);
        }
        keys := keys - {d};
      }
    }

    /** Looking up only the matching domains gives what the scan of all of them gives, up to order. */
    method CookiesForRequest(q: Query) returns (r: seq<Cookie>)
      requires Valid() && |q.hosts| == 2
      ensures Answers(cookies, q, r)
    {
      if !q.defaultMatching || |q.hosts[0]| > MAX_HOST_LENGTH || |q.hosts[1]| > MAX_HOST_LENGTH {
        r := ScanForRequest(cookies, q);
        return;
      }
      r := [];
      var domains := MatchingDomains(q.hosts);
      for k := 0 to |domains|
        invariant CollectedFrom(cookies, q, domains[..k], r)
      {
        var d := domains[k];
        assert domains[..k + 1] == domains[..k] + [d];
        Collect(cookies, q, domains[..k], d, r);
        if d in cookies {
          r := r + ForDomain(cookies, d, q);
        }
      }
      assert domains[..|domains|] == domains;
      forall c: Cookie ensures multiset(r)[c] == Times(cookies, q, c) {
        if c.domain !in domains && c.domain in cookies {
          assert !q.AcceptsDomain(c.domain);
        }
      }
    }
  }

  // ---- runs of both jars ---------------------------------------------------

  datatype Op = SetOp(cookie: Cookie) | ClearOp(target: Target) | ExpireOp(now: Time) | RequestOp(query: Query)

  function NaiveStep(s: Store, op: Op): Store {
    match op
    case SetOp(c) => SetCookie(s, c)
    case ClearOp(t) => Clear(s, t)
    case ExpireOp(now) => Sweep(s, now)
    case RequestOp(_) => s
  }

  function NaiveRun(ops: seq<Op>): Store {
    if ops == [] then map[] else NaiveStep(NaiveRun(ops[..|ops| - 1]), ops[|ops| - 1])
  }

  method Perform(jar: IndexedCookieJar, op: Op) returns (answer: seq<Cookie>)
    requires jar.Valid() && (op.RequestOp? ==> |op.query.hosts| == 2)
    modifies jar
    ensures jar.Valid() && jar.cookies == NaiveStep(old(jar.cookies), op)
    ensures op.RequestOp? ==> Answers(old(jar.cookies), op.query, answer)
  {
    answer := [];
    match op
    case SetOp(c) => jar.Set(c);
    case ClearOp(t) => jar.ClearCookies(t);
    case ExpireOp(now) => jar.ClearExpiredCookies(now, now);
    case RequestOp(q) => answer := jar.CookiesForRequest(q);
  }

  /**
    Any sequence of operations leaves the indexed jar with exactly the cookies of the jar that scans everything, and
    every request on the way gets the cookies that jar would give it.
   */
  method IndexedRun(ops: seq<Op>) returns (jar: IndexedCookieJar, answers: seq<seq<Cookie>>)
    requires forall k :: 0 <= k < |ops| && ops[k].RequestOp? ==> |ops[k].query.hosts| == 2
    ensures fresh(jar) && jar.Valid() && jar.cookies == NaiveRun(ops)
    ensures |answers| == |ops|
    ensures forall k :: 0 <= k < |ops| && ops[k].RequestOp? ==> Answers(NaiveRun(ops[..k]), ops[k].query, answers[k])
  {
    jar := new IndexedCookieJar();
    answers := [];
    for k := 0 to |ops|
      invariant fresh(jar) && jar.Valid() && jar.cookies == NaiveRun(ops[..k]) && |answers| == k
      invariant forall j :: 0 <= j < k && ops[j].RequestOp? ==> Answers(NaiveRun(ops[..j]), ops[j].query, answers[j])
    {
      assert ops[..k + 1][..k] == ops[..k];
      var answer := Perform(jar, ops[k]);
      answers := answers + [answer];
    }
    assert ops[..|ops|] == ops;
  }
}
