/** The client's cookie jar (client/cookiejar.go, client/cookie.go): a lookup that visits only
    the buckets of the host and of its parent domains finds exactly what a full scan finds. */
module ClientCookieJar {

  import opened Sequences
  import opened Text
  import opened Wrappers

  type Time = int

  datatype Cookie = Cookie(name: string, value: string, domain: string, path: string,
                           expires: Option<Time>, maxAge: int, secure: bool)

  datatype Url = Url(scheme: string, host: string, path: string)

  type Buckets = map<string, seq<Cookie>>

  // ----- One cookie against one URL -----

  predicate IsExpired(c: Cookie, now: Time) {
    c.maxAge < 0 || (c.expires.Some? && now > c.expires.value)
  }

  function HostOf(host: string): string {
    var colon := LastIndex(host, ':');
    ToLower(if colon >= 0 then host[..colon] else host)
  }

  predicate MatchesDomain(c: Cookie, host: string) {
    var h, d := HostOf(host), ToLower(c.domain);
    h == d || ("." <= d && (h == d[1..] || HasSuffix(h, d)))
  }

  predicate MatchesPath(c: Cookie, urlPath: string) {
    var p := if urlPath == "" then "/" else urlPath;
    || c.path == "" || c.path == "/"
    || (c.path <= p && (|p| == |c.path| || p[|c.path|] == '/' || c.path[|c.path| - 1] == '/'))
  }

  predicate Matches(c: Cookie, u: Url) {
    MatchesDomain(c, u.host) && MatchesPath(c, u.path) && (c.secure ==> u.scheme == "https")
  }

  predicate Sent(c: Cookie, u: Url, now: Time) {
    !IsExpired(c, now) && Matches(c, u)
  }

  // ----- What it takes to be sent -----

  /** The URL's host without its port and in lower case. */
  lemma HostOfUrl(name: string, port: string)
    requires ':' !in port
    ensures HostOf(name + ":" + port) == ToLower(name)
    ensures ':' !in name ==> HostOf(name) == ToLower(name)
  {
    var host := name + ":" + port;
    assert host[|name|] == ':' && host[..|name|] == name;
    assert forall i :: |name| < i < |host| ==> host[i] == port[i - |name| - 1];
    assert LastIndex(host, ':') == |name|;
  }

  /** The host is the cookie's domain, or that begins with a dot and is the host with a dot in
      front or the end of the host. */
  ghost predicate HostAllowed(host: string, domain: string) {
    host == domain || "." + host == domain || ("." <= domain && exists front: string :: host == front + domain)
  }

  /** The cookie's path is empty or the root, or the request's path continues it at a slash. */
  ghost predicate PathAllowed(path: string, cookiePath: string) {
    || cookiePath == "" || cookiePath == "/" || path == cookiePath
    || exists rest: string :: rest != "" && path == cookiePath + rest && (rest[0] == '/' || cookiePath[|cookiePath| - 1] == '/')
  }

  ghost predicate Allowed(c: Cookie, u: Url, now: Time) {
    && c.maxAge >= 0 && (c.expires.Some? ==> now <= c.expires.value)
    && (c.secure ==> u.scheme == "https")
    && HostAllowed(HostOf(u.host), ToLower(c.domain))
    && PathAllowed(if u.path == "" then "/" else u.path, c.path)
  }

  lemma DomainIsAllowed(c: Cookie, host: string)
    ensures MatchesDomain(c, host) <==> HostAllowed(HostOf(host), ToLower(c.domain))
  {
    var h, d := HostOf(host), ToLower(c.domain);
    if "." <= d && HasSuffix(h, d) { assert h == h[..|h| - |d|] + d; }
    if "." <= d && h == d[1..] { assert "." + h == d; }
    assert "." + h == d ==> "." <= d && h == d[1..];
    forall front: string | h == front + d ensures HasSuffix(h, d) {
      assert h[|h| - |d|..] == d;
    }
  }

  lemma PathIsAllowed(c: Cookie, urlPath: string)
    ensures MatchesPath(c, urlPath) <==> PathAllowed(if urlPath == "" then "/" else urlPath, c.path)
  {
    var p := if urlPath == "" then "/" else urlPath;
    if c.path <= p && c.path != "" {
      var rest := p[|c.path|..];
      assert p == c.path + rest;
      assert rest != "" ==> rest[0] == p[|c.path|];
    }
  }

  /** The code's tests admit exactly the cookies that may be sent. */
  lemma SentIsAllowed(c: Cookie, u: Url, now: Time)
    ensures Sent(c, u, now) <==> Allowed(c, u, now)
  {
    DomainIsAllowed(c, u.host);
    PathIsAllowed(c, u.path);
    hide HostOf, HostAllowed, PathAllowed, MatchesDomain, MatchesPath;
  }

  // ----- The reference: a scan of every bucket -----

  function Select(cookies: seq<Cookie>, u: Url, now: Time): seq<Cookie> {
    if cookies == [] then [] else
      var last := cookies[|cookies| - 1];
      Select(cookies[..|cookies| - 1], u, now) + if Sent(last, u, now) then [last] else []
  }

  function BucketOf(jar: Buckets, key: string): seq<Cookie> {
    if key in jar then jar[key] else []
  }

  /** The cookies for `u` in the buckets `keys`, in that order. */
  function Scan(jar: Buckets, keys: seq<string>, u: Url, now: Time): seq<Cookie> {
    if keys == [] then [] else
      Scan(jar, keys[..|keys| - 1], u, now) + Select(BucketOf(jar, keys[|keys| - 1]), u, now)
  }

  lemma {:induction false} SelectMembers(cookies: seq<Cookie>, u: Url, now: Time)
    ensures forall c :: c in Select(cookies, u, now) <==> c in cookies && Sent(c, u, now)
  {
    if cookies != [] {
      SelectMembers(cookies[..|cookies| - 1], u, now);
      hide Sent;
      assert cookies == cookies[..|cookies| - 1] + [cookies[|cookies| - 1]];
    }
  }

  lemma {:induction false} ScanMembers(jar: Buckets, keys: seq<string>, u: Url, now: Time)
    ensures forall c :: c in Scan(jar, keys, u, now) <==> (exists k :: k in keys && c in BucketOf(jar, k)) && Sent(c, u, now)
  {
    if keys != [] {
      var init, last := keys[..|keys| - 1], keys[|keys| - 1];
      ScanMembers(jar, init, u, now);
      SelectMembers(BucketOf(jar, last), u, now);
      hide Sent, BucketOf, Select;
      assert keys == init + [last];
    }
  }

  /** Every bucket, each once, in some order. */
  ghost predicate Enumerates(keys: seq<string>, jar: Buckets) {
    Distinct(keys) && forall k :: k in keys <==> k in jar
  }

  // ----- Filing -----

  function DomainKey(domain: string): string {
    var d := ToLower(domain);
    if "." <= d then d[1..] else d
  }

  ghost predicate Filed(jar: Buckets) {
    forall k :: k in jar ==> forall c :: c in jar[k] ==> DomainKey(c.domain) == k
  }

  predicate SameSlot(a: Cookie, b: Cookie) {
    a.name == b.name && a.path == b.path
  }

  predicate NoTwins(cookies: seq<Cookie>) {
    forall i, j :: 0 <= i < j < |cookies| ==> !SameSlot(cookies[i], cookies[j])
  }

  /** The jar's invariant: every cookie lies in its own bucket, and no bucket holds two
      cookies of the same name and path. */
  ghost predicate Good(jar: Buckets) {
    Filed(jar) && forall k :: k in jar ==> NoTwins(jar[k])
  }

  // ----- Parent domains: splitting and joining at dots -----

  /** What follows each dot, longest first. */
  function AfterDots(s: string): seq<string>
    decreases |s|
  {
    var i := FirstIndex(s, '.');
    if i == |s| then [] else [s[i + 1..]] + AfterDots(s[i + 1..])
  }

  lemma {:induction false} AsManyPartsAsDots(s: string)
    ensures |Split(s, '.')| == |AfterDots(s)| + 1
    decreases |s|
  {
    var dot := FirstIndex(s, '.');
    if dot < |s| { AsManyPartsAsDots(s[dot + 1..]); }
  }

  lemma {:induction false} ParentsAreAfterDots(s: string, i: nat)
    requires 1 <= i < |Split(s, '.')|
    ensures i <= |AfterDots(s)| && Join(Split(s, '.')[i..], '.') == AfterDots(s)[i - 1]
    decreases |s|
  {
    hide Join;
    AsManyPartsAsDots(s);
    var dot := FirstIndex(s, '.');
    var rest := s[dot + 1..];
    assert Split(s, '.') == [s[..dot]] + Split(rest, '.');
    assert AfterDots(s) == [rest] + AfterDots(rest);
    hide Split, AfterDots;
    assert Split(s, '.')[i..] == Split(rest, '.')[i - 1..];
    if i == 1 {
      JoinUndoesSplit(rest, '.');
      assert Split(rest, '.')[0..] == Split(rest, '.');
    } else {
      ParentsAreAfterDots(rest, i - 1);
    }
  }

  lemma {:induction false} AfterDotsAreShorter(s: string)
    ensures forall t :: t in AfterDots(s) ==> |t| < |s|
    ensures Distinct(AfterDots(s))
    decreases |s|
  {
    var dot := FirstIndex(s, '.');
    if dot < |s| {
      AfterDotsAreShorter(s[dot + 1..]);
    }
  }

  /** Nothing after a dot is missed. */
  lemma {:induction false} AfterEveryDot(s: string, i: nat)
    requires i < |s| && s[i] == '.'
    ensures s[i + 1..] in AfterDots(s)
    decreases |s|
  {
    var dot := FirstIndex(s, '.');
    if i > dot {
      var rest := s[dot + 1..];
      AfterEveryDot(rest, i - dot - 1);
      assert rest[i - dot..] == s[i + 1..];
    }
  }

  /** Candidate bucket keys for a host: itself, then every parent domain. */
  function Candidates(host: string): seq<string> {
    [host] + AfterDots(host)
  }

  lemma CandidatesAreDistinct(host: string)
    ensures Distinct(Candidates(host))
  {
    AfterDotsAreShorter(host);
    assert forall i :: 0 <= i < |AfterDots(host)| ==> AfterDots(host)[i] in AfterDots(host);
  }

  /** A cookie that matches a host is filed under one of the host's candidates. */
  lemma MatchIsCandidate(c: Cookie, host: string)
    requires MatchesDomain(c, host)
    ensures DomainKey(c.domain) in Candidates(HostOf(host))
  {
    var h, d := HostOf(host), ToLower(c.domain);
    if "." <= d && h != d[1..] {
      var i := |h| - |d|;
      assert h[i..] == d;
      assert h[i] == d[0] == '.' && h[i + 1..] == d[1..];
      AfterEveryDot(h, i);
    }
  }

  // ----- The index lookup finds what the scan finds -----

  function Present(jar: Buckets, names: seq<string>): seq<string> {
    if names == [] then [] else
      var last := names[|names| - 1];
      Present(jar, names[..|names| - 1]) + if last in jar then [last] else []
  }

  lemma PresentSnoc(jar: Buckets, names: seq<string>, name: string)
    ensures Present(jar, names + [name]) == Present(jar, names) + if name in jar then [name] else []
    ensures Present(jar, []) == []
  {
    assert (names + [name])[..|names|] == names;
  }

  lemma {:induction false} PresentScansAlike(jar: Buckets, names: seq<string>, u: Url, now: Time)
    ensures Scan(jar, Present(jar, names), u, now) == Scan(jar, names, u, now)
  {
    if names != [] {
      PresentScansAlike(jar, names[..|names| - 1], u, now);
      var last := names[|names| - 1];
      if last in jar {
        assert Present(jar, names)[..|Present(jar, names)| - 1] == Present(jar, names[..|names| - 1]);
      } else {
        assert Present(jar, names) == Present(jar, names[..|names| - 1]);
        assert Select(BucketOf(jar, last), u, now) == [];
      }
    }
  }

  lemma {:induction false} NothingSelected(cookies: seq<Cookie>, u: Url, now: Time)
    requires forall c :: c in cookies ==> !Matches(c, u)
    ensures Select(cookies, u, now) == []
  {
    if cookies != [] { NothingSelected(cookies[..|cookies| - 1], u, now); }
  }

  lemma {:induction false} ScanConcat(jar: Buckets, a: seq<string>, b: seq<string>, u: Url, now: Time)
    ensures Scan(jar, a + b, u, now) == Scan(jar, a, u, now) + Scan(jar, b, u, now)
  {
    if b == [] {
      assert a + b == a;
    } else {
      assert (a + b)[..|a + b| - 1] == a + b[..|b| - 1];
      ScanConcat(jar, a, b[..|b| - 1], u, now);
    }
  }

  lemma {:induction false} NothingScanned(jar: Buckets, keys: seq<string>, u: Url, now: Time)
    requires forall k :: k in keys ==> Select(BucketOf(jar, k), u, now) == []
    ensures Scan(jar, keys, u, now) == []
  {
    if keys != [] { NothingScanned(jar, keys[..|keys| - 1], u, now); }
  }

  function Without<T>(keys: seq<T>, i: nat): seq<T>
    requires i < |keys|
  {
    keys[..i] + keys[i + 1..]
  }

  lemma ScanWithout(jar: Buckets, keys: seq<string>, i: nat, u: Url, now: Time)
    requires i < |keys|
    ensures multiset(Scan(jar, keys, u, now))
         == multiset(Scan(jar, Without(keys, i), u, now)) + multiset(Select(BucketOf(jar, keys[i]), u, now))
  {
    var a, k, b := keys[..i], keys[i], keys[i + 1..];
    assert keys == (a + [k]) + b;
    ScanConcat(jar, a + [k], b, u, now);
    ScanConcat(jar, a, b, u, now);
    assert (a + [k])[..i] == a;
  }

  lemma ScanSnoc(jar: Buckets, init: seq<string>, k: string, u: Url, now: Time)
    ensures Scan(jar, init + [k], u, now) == Scan(jar, init, u, now) + Select(BucketOf(jar, k), u, now)
  {
    assert (init + [k])[..|init|] == init;
  }

  lemma WithoutKeepsOthers(keys: seq<string>, i: nat)
    requires i < |keys| && Distinct(keys)
    ensures Distinct(Without(keys, i))
    ensures forall k :: k in Without(keys, i) <==> k in keys && k != keys[i]
  {}

  /** Two duplicate-free key lists that agree on every non-empty selection scan the same cookies. */
  lemma {:induction false} ScansAgree(jar: Buckets, a: seq<string>, b: seq<string>, u: Url, now: Time)
    requires Distinct(a) && Distinct(b)
    requires forall k :: Select(BucketOf(jar, k), u, now) != [] ==> (k in a <==> k in b)
    ensures multiset(Scan(jar, a, u, now)) == multiset(Scan(jar, b, u, now))
    decreases |a|
  {
    if a == [] {
      NothingScanned(jar, b, u, now);
      return;
    }
    var k, init := a[|a| - 1], a[..|a| - 1];
    assert a == init + [k] && k !in init;
    if Select(BucketOf(jar, k), u, now) == [] {
      ScanSnoc(jar, init, k, u, now);
      hide Select, Scan;
      ScansAgree(jar, init, b, u, now);
    } else {
      var i :| 0 <= i < |b| && b[i] == k;
      WithoutKeepsOthers(b, i);
      ScanSnoc(jar, init, k, u, now);
      hide Select, Distinct, Scan, Without;
      ScansAgree(jar, init, Without(b, i), u, now);
      ScanWithout(jar, b, i, u, now);
    }
  }

  /** The index is exact: for every host, visiting the candidates yields the cookies of a
      full scan, each as often as the scan does. */
  lemma IndexIsExact(jar: Buckets, keys: seq<string>, u: Url, now: Time)
    requires Filed(jar) && Enumerates(keys, jar)
    ensures multiset(Scan(jar, Present(jar, Candidates(HostOf(u.host))), u, now)) == multiset(Scan(jar, keys, u, now))
  {
    var candidates := Candidates(HostOf(u.host));
    PresentScansAlike(jar, candidates, u, now);
    CandidatesAreDistinct(HostOf(u.host));
    forall k | Select(BucketOf(jar, k), u, now) != []
      ensures k in candidates && k in keys
    {
      if forall c :: c in BucketOf(jar, k) ==> !Matches(c, u) {
        NothingSelected(BucketOf(jar, k), u, now);
      } else {
        var c :| c in BucketOf(jar, k) && Matches(c, u);
        MatchIsCandidate(c, u.host);
      }
    }
    ScansAgree(jar, candidates, keys, u, now);
  }

  lemma EveryEnumeration(todo: set<string>) returns (keys: seq<string>)
    ensures Distinct(keys) && forall k :: k in keys <==> k in todo
  {
    if todo == {} { return []; }
    var k :| k in todo;
    keys := EveryEnumeration(todo - {k});
    DistinctSnoc(keys, k);
    keys := keys + [k];
  }

  /** What is scanned by some enumeration is exactly what is stored and may be sent. */
  lemma LookupMembers(jar: Buckets, scanned: seq<Cookie>, u: Url, now: Time)
    requires forall keys :: Enumerates(keys, jar) ==> multiset(scanned) == multiset(Scan(jar, keys, u, now))
    ensures forall c :: c in scanned <==> Allowed(c, u, now) && exists k :: k in jar && c in jar[k]
  {
    var keys := EveryEnumeration(jar.Keys);
    assert Enumerates(keys, jar);
    SameMembers(scanned, Scan(jar, keys, u, now));
    ScanMembers(jar, keys, u, now);
    forall c ensures Sent(c, u, now) <==> Allowed(c, u, now) { SentIsAllowed(c, u, now); }
    hide Sent, Allowed, Scan;
  }

  // ----- Setting and expiring cookies -----

  function Others(cookies: seq<Cookie>, c: Cookie): seq<Cookie> {
    if cookies == [] then [] else
      var last := cookies[|cookies| - 1];
      Others(cookies[..|cookies| - 1], c) + if SameSlot(last, c) then [] else [last]
  }

  function Store(jar: Buckets, c: Cookie, now: Time): Buckets {
    if c.name == "" then jar else
      var key := DomainKey(c.domain);
      jar[key := Others(BucketOf(jar, key), c) + if IsExpired(c, now) then [] else [c]]
  }

  function StoreAll(jar: Buckets, cookies: seq<Option<Cookie>>, now: Time): Buckets {
    if cookies == [] then jar else
      var before, last := StoreAll(jar, cookies[..|cookies| - 1], now), cookies[|cookies| - 1];
      if last.None? then before else Store(before, last.value, now)
  }

  predicate Kept(c: Cookie, now: Time) {
    c.maxAge >= 0 && (c.expires.None? || now < c.expires.value)
  }

  function Keep(cookies: seq<Cookie>, now: Time): seq<Cookie> {
    if cookies == [] then [] else
      var last := cookies[|cookies| - 1];
      Keep(cookies[..|cookies| - 1], now) + if Kept(last, now) then [last] else []
  }

  function Expire(jar: Buckets, now: Time): Buckets {
    map k | k in jar && Keep(jar[k], now) != [] :: Keep(jar[k], now)
  }

  lemma {:induction false} OthersMembers(cookies: seq<Cookie>, c: Cookie)
    ensures forall d :: d in Others(cookies, c) <==> d in cookies && !SameSlot(d, c)
    ensures NoTwins(cookies) ==> NoTwins(Others(cookies, c))
  {
    if cookies != [] {
      var init, last := cookies[..|cookies| - 1], cookies[|cookies| - 1];
      OthersMembers(init, c);
      assert cookies == init + [last];
      if NoTwins(cookies) {
        assert forall d :: d in init ==> !SameSlot(d, last);
        assert forall i :: 0 <= i < |Others(init, c)| ==> Others(init, c)[i] in init;
      }
    }
  }

  lemma {:induction false} KeepMembers(cookies: seq<Cookie>, now: Time)
    ensures forall d :: d in Keep(cookies, now) <==> d in cookies && Kept(d, now)
    ensures NoTwins(cookies) ==> NoTwins(Keep(cookies, now))
  {
    if cookies != [] {
      var init, last := cookies[..|cookies| - 1], cookies[|cookies| - 1];
      KeepMembers(init, now);
      assert cookies == init + [last];
      if NoTwins(cookies) {
        assert forall d :: d in init ==> !SameSlot(d, last);
        assert forall i :: 0 <= i < |Keep(init, now)| ==> Keep(init, now)[i] in init;
      }
    }
  }

  lemma StoreIsGood(jar: Buckets, c: Cookie, now: Time)
    requires Good(jar)
    ensures Good(Store(jar, c, now))
  {
    var key := DomainKey(c.domain);
    var rest := Others(BucketOf(jar, key), c);
    OthersMembers(BucketOf(jar, key), c);
    assert forall i :: 0 <= i < |rest| ==> rest[i] in rest;
  }

  lemma {:induction false} StoreAllIsGood(jar: Buckets, cookies: seq<Option<Cookie>>, now: Time)
    requires Good(jar)
    ensures Good(StoreAll(jar, cookies, now))
  {
    if cookies != [] {
      StoreAllIsGood(jar, cookies[..|cookies| - 1], now);
      var last := cookies[|cookies| - 1];
      if last.Some? { StoreIsGood(StoreAll(jar, cookies[..|cookies| - 1], now), last.value, now); }
    }
  }

  lemma ExpireIsGood(jar: Buckets, now: Time)
    requires Good(jar)
    ensures Good(Expire(jar, now))
  {
    forall k | k in Expire(jar, now)
      ensures NoTwins(Expire(jar, now)[k]) && forall c :: c in Expire(jar, now)[k] ==> DomainKey(c.domain) == k
    {
      KeepMembers(jar[k], now);
    }
  }

  /** Setting a cookie replaces the one of its domain, name and path and touches no other;
      one that has expired only deletes, and one without a name does nothing. */
  lemma StoreReplaces(jar: Buckets, c: Cookie, now: Time, k: string, d: Cookie)
    requires Good(jar)
    ensures d in BucketOf(Store(jar, c, now), k) <==>
              if c.name != "" && k == DomainKey(c.domain) && d.name == c.name && d.path == c.path
              then d == c && c.maxAge >= 0 && (c.expires.Some? ==> now <= c.expires.value)
              else d in BucketOf(jar, k)
  {
    OthersMembers(BucketOf(jar, DomainKey(c.domain)), c);
  }

  /** Clearing keeps exactly the cookies that have not expired by now. */
  lemma ExpireIsExact(jar: Buckets, now: Time, k: string, d: Cookie)
    ensures d in BucketOf(Expire(jar, now), k) <==>
              d in BucketOf(jar, k) && d.maxAge >= 0 && (d.expires.Some? ==> now < d.expires.value)
    ensures k in Expire(jar, now) ==> Expire(jar, now)[k] != []
  {
    KeepMembers(BucketOf(jar, k), now);
  }

  lemma {:induction false} KeepSelectsAlike(cookies: seq<Cookie>, u: Url, t: Time, now: Time)
    requires t < now
    ensures Select(Keep(cookies, t), u, now) == Select(cookies, u, now)
  {
    if cookies != [] {
      var init, last := cookies[..|cookies| - 1], cookies[|cookies| - 1];
      KeepSelectsAlike(init, u, t, now);
      if Kept(last, t) {
        assert Keep(cookies, t)[..|Keep(cookies, t)| - 1] == Keep(init, t);
      } else {
        assert Keep(cookies, t) == Keep(init, t);
      }
    }
  }

  /** Clearing expired cookies cannot be seen by any later lookup. */
  lemma {:induction false} ExpiryIsUnseen(jar: Buckets, keys: seq<string>, u: Url, t: Time, now: Time)
    requires t < now
    ensures Scan(Expire(jar, t), keys, u, now) == Scan(jar, keys, u, now)
  {
    if keys != [] {
      ExpiryIsUnseen(jar, keys[..|keys| - 1], u, t, now);
      KeepSelectsAlike(BucketOf(jar, keys[|keys| - 1]), u, t, now);
    }
  }

  /** At the very instant of the clearing the two tests disagree: a lookup still returns a
      cookie that expires now, while the clearing drops it. */
  lemma ExpiryAtTheInstant(c: Cookie, u: Url, now: Time)
    requires Matches(c, u)
    ensures Sent(c, u, now) && !Kept(c, now) <==> c.maxAge >= 0 && c.expires == Some(now)
  {}

  // ----- The jar object -----

  predicate LongestPathFirst(cookies: seq<Cookie>) {
    forall i, j :: 0 <= i < j < |cookies| ==> |cookies[i].path| >= |cookies[j].path|
  }

  /** The inner loop of SetCookies. */
  method FilterOthers(existing: seq<Cookie>, cookie: Cookie) returns (filtered: seq<Cookie>)
    ensures filtered == Others(existing, cookie)
  {
    filtered := [];
    for k := 0 to |existing|
      invariant filtered == Others(existing[..k], cookie)
    {
      assert existing[..k + 1][..k] == existing[..k];
      if existing[k].name != cookie.name || existing[k].path != cookie.path {
        filtered := filtered + [existing[k]];
      }
    }
    assert existing[..|existing|] == existing;
  }

  /** The inner loop of a lookup. */
  method AppendMatching(before: seq<Cookie>, bucket: seq<Cookie>, u: Url, now: Time) returns (result: seq<Cookie>)
    ensures result == before + Select(bucket, u, now)
  {
    result := before;
    for k := 0 to |bucket|
      invariant result == before + Select(bucket[..k], u, now)
    {
      var cookie := bucket[k];
      assert bucket[..k + 1][..k] == bucket[..k];
      if cookie.maxAge < 0 { continue; }
      if cookie.expires.Some? && now > cookie.expires.value { continue; }
      if Matches(cookie, u) {
        result := result + [cookie];
      }
    }
    assert bucket[..|bucket|] == bucket;
  }

  /** The inner loop of ClearExpired. */
  method FilterLive(list: seq<Cookie>, now: Time) returns (filtered: seq<Cookie>)
    ensures filtered == Keep(list, now)
  {
    filtered := [];
    for i := 0 to |list|
      invariant filtered == Keep(list[..i], now)
    {
      assert list[..i + 1][..i] == list[..i];
      if list[i].maxAge >= 0 && (list[i].expires.None? || now < list[i].expires.value) {
        filtered := filtered + [list[i]];
      }
    }
    assert list[..|list|] == list;
  }

  class CookieJar {
    var cookies: Buckets

    constructor ()
      ensures cookies == map[] && Good(cookies)
    {
      cookies := map[];
    }

    method SetCookies(list: seq<Option<Cookie>>, now: Time)
      requires Good(cookies)
      modifies this
      ensures cookies == StoreAll(old(cookies), list, now) && Good(cookies)
    {
      StoreAllIsGood(cookies, list, now);
      hide Good, IsExpired, Others, DomainKey;
      for i := 0 to |list|
        invariant cookies == StoreAll(old(cookies), list[..i], now)
      {
        assert list[..i + 1][..i] == list[..i];
        if list[i].None? || list[i].value.name == "" { continue; }
        var cookie := list[i].value;
        var domain := DomainKey(cookie.domain);
        var existing := if domain in cookies then cookies[domain] else [];
        var filtered := FilterOthers(existing, cookie);
        if !IsExpired(cookie, now) {
          filtered := filtered + [cookie];
        }
        assert filtered == Others(existing, cookie) + if IsExpired(cookie, now) then [] else [cookie];
        cookies := cookies[domain := filtered];
      }
      assert list[..|list|] == list;
    }

    method GetMatchingDomains(host: string) returns (domains: seq<string>)
      ensures domains == Present(cookies, Candidates(host))
    {
      hide Split, Join, AfterDots, Present;
      domains := if host in cookies then [host] else [];
      assert Candidates(host)[..1] == [] + [host];
      PresentSnoc(cookies, [], host);
      var parts := Split(host, '.');
      AsManyPartsAsDots(host);
      for i := 1 to |parts|
        invariant domains == Present(cookies, Candidates(host)[..i])
      {
        var parent := Join(parts[i..], '.');
        ParentsAreAfterDots(host, i);
        assert Candidates(host)[..i + 1] == Candidates(host)[..i] + [parent];
        PresentSnoc(cookies, Candidates(host)[..i], parent);
        if parent in cookies {
          domains := domains + [parent];
        }
      }
      assert Candidates(host)[..|parts|] == Candidates(host);
    }

    /** The answer of a lookup: by whatever order one enumerates the buckets, exactly the
        cookies of a full scan, each as often, longest paths first. */
    method Cookies(u: Url, now: Time) returns (result: seq<Cookie>)
      requires Good(cookies)
      ensures LongestPathFirst(result)
      ensures forall keys :: Enumerates(keys, cookies) ==> multiset(result) == multiset(Scan(cookies, keys, u, now))
      ensures forall c :: c in result <==> Allowed(c, u, now) && exists k :: k in cookies && c in cookies[k]
    {
      var domains := GetMatchingDomains(HostOf(u.host));
      assert Scan(cookies, [], u, now) == [];
      hide Select, Enumerates, Present, Candidates, HostOf, Scan, Good;
      result := [];
      for i := 0 to |domains|
        invariant result == Scan(cookies, domains[..i], u, now)
      {
        assert domains[..i + 1] == domains[..i] + [domains[i]];
        ScanSnoc(cookies, domains[..i], domains[i], u, now);
        result := AppendMatching(result, BucketOf(cookies, domains[i]), u, now);
      }
      assert domains[..|domains|] == domains;
      forall keys | Enumerates(keys, cookies)
        ensures multiset(result) == multiset(Scan(cookies, keys, u, now))
      {
        IndexIsExact(cookies, keys, u, now);
      }
      ghost var scanned := result;
      result := Sort(result, (a: Cookie, b: Cookie) => |a.path| >= |b.path|);
      SameMembers(result, scanned);
      LookupMembers(cookies, scanned, u, now);
    }

    method Clear()
      modifies this
      ensures cookies == map[] && Good(cookies)
    {
      cookies := map[];
    }

    method ClearDomain(domain: string)
      requires Good(cookies)
      modifies this
      ensures cookies == old(cookies) - {DomainKey(domain)} && Good(cookies)
    {
      cookies := cookies - {DomainKey(domain)};
    }

    method ClearExpired(now: Time)
      requires Good(cookies)
      modifies this
      ensures cookies == Expire(old(cookies), now) && Good(cookies)
    {
      ghost var jar, done := cookies, {};
      ExpireIsGood(jar, now);
      var todo := cookies.Keys;
      while todo != {}
        invariant todo + done == jar.Keys && todo !! done
        invariant forall k :: k in cookies <==> k in todo || (k in done && Keep(jar[k], now) != [])
        invariant forall k :: k in cookies ==> cookies[k] == if k in todo then jar[k] else Keep(jar[k], now)
        decreases todo
      {
        var domain :| domain in todo;
        var filtered := FilterLive(cookies[domain], now);
        if |filtered| > 0 {
          cookies := cookies[domain := filtered];
        } else {
          cookies := cookies - {domain};
        }
        todo, done := todo - {domain}, done + {domain};
      }
      assert cookies == Expire(jar, now);
    }
  }
}
