/** The session's cookie jar (session/cookie_jar.go): who may set a cookie, who gets it back
    (RFC 6265 sections 5.1.3, 5.1.4 and 5.4), and what survives an export and import. */
module SessionCookieJar {

  import opened Sequences
  import opened Text
  import opened Wrappers

  type Time = int

  datatype Cookie = Cookie(name: string, value: string, domain: string, hostOnly: bool, path: string,
                           expires: Option<Time>, maxAge: int, secure: bool, httpOnly: bool,
                           sameSite: string, createdAt: Time)

  type Bucket = map<string, Cookie>
  type Jar = map<string, Bucket>

  const NUL: string := [0 as char]

  function CookieKey(path: string, name: string): string {
    path + NUL + name
  }

  function BucketOf(jar: Jar, domain: string): Bucket {
    if domain in jar then jar[domain] else map[]
  }

  // ----- Hosts, domains and paths -----

  /** Lower case, without a port; a colon inside brackets does not start a port. */
  function NormHost(host: string): string {
    var h := ToLower(host);
    var colon := LastIndex(h, ':');
    if colon >= 0 && (']' !in h || colon > FirstIndex(h, ']')) then h[..colon] else h
  }

  predicate IsDomainMatch(host: string, domain: string) {
    host == domain || HasSuffix(host, "." + domain)
  }

  predicate DomainMatchesHost(cookieDomain: string, host: string) {
    || cookieDomain == ""
    || cookieDomain == host
    || ("." <= cookieDomain && (host == cookieDomain[1..] || HasSuffix(host, cookieDomain)))
  }

  predicate IsPathMatch(requestPath: string, cookiePath: string) {
    || requestPath == cookiePath
    || (cookiePath <= requestPath
        && (HasSuffix(cookiePath, "/") || (|requestPath| > |cookiePath| && requestPath[|cookiePath|] == '/')))
  }

  /** Section 5.1.3 of RFC 6265 for host names: equal, or a suffix after a dot. */
  predicate Rfc6265DomainMatch(host: string, domain: string) {
    host == domain
    || (|host| > |domain| && host[|host| - |domain|..] == domain && host[|host| - |domain| - 1] == '.')
  }

  lemma DomainMatchIsRfc(host: string, domain: string)
    ensures IsDomainMatch(host, domain) <==> Rfc6265DomainMatch(host, domain)
  {
    if |host| > |domain| {
      var i := |host| - |domain| - 1;
      assert host[i..] == [host[i]] + host[i + 1..];
      assert ("." + domain)[0] == '.' && ("." + domain)[1..] == domain;
    }
  }

  function Dotless(domain: string): string {
    if "." <= domain then domain[1..] else domain
  }

  // ----- Setting -----

  /** The cookie that a Set call stores, if it is not rejected. */
  function Stored(host: string, c: Cookie, secure: bool, now: Time): Option<Cookie> {
    var h, d := NormHost(host), Dotless(ToLower(c.domain));
    if c.domain != "" && !IsDomainMatch(h, d) then None
    else if c.secure && !secure then None
    else
      Some(c.(domain := if c.domain == "" then h else "." + d, hostOnly := c.domain == "",
              path := if c.path == "" || c.path[0] != '/' then "/" else c.path, createdAt := now))
  }

  function Keep(jar: Jar, c: Cookie): Jar {
    jar[c.domain := BucketOf(jar, c.domain)[CookieKey(c.path, c.name) := c]]
  }

  function Set(jar: Jar, host: string, c: Cookie, secure: bool, now: Time): Jar {
    var stored := Stored(host, c, secure, now);
    if stored.None? then jar else Keep(jar, stored.value)
  }

  /** Setting by the library's user, without a request and without checks. */
  function SetSimple(jar: Jar, c: Cookie, now: Time): Jar {
    var d := ToLower(c.domain);
    Keep(jar, c.(domain := d, hostOnly := d != "" && !("." <= d),
                 path := if c.path == "" then "/" else c.path, createdAt := now))
  }

  // ----- Getting -----

  datatype Ref = Ref(domain: string, key: string)

  datatype Request = Request(host: string, path: string, secure: bool, now: Time)

  predicate Expired(c: Cookie, now: Time) {
    c.expires.Some? && c.expires.value < now
  }

  predicate Matches(domain: string, c: Cookie, req: Request) {
    && DomainMatchesHost(domain, NormHost(req.host))
    && (c.hostOnly ==> domain == NormHost(req.host))
    && IsPathMatch(if req.path == "" then "/" else req.path, c.path)
    && (c.secure ==> req.secure)
    && !Expired(c, req.now)
  }

  predicate In(r: Ref, jar: Jar) {
    r.domain in jar && r.key in jar[r.domain]
  }

  function Deref(jar: Jar, r: Ref): Cookie
    requires In(r, jar)
  {
    jar[r.domain][r.key]
  }

  predicate Answers(jar: Jar, r: Ref, req: Request) {
    In(r, jar) && Matches(r.domain, Deref(jar, r), req)
  }

  /** Longer paths first, then older cookies first. */
  predicate Before(a: Cookie, b: Cookie) {
    |a.path| > |b.path| || (|a.path| == |b.path| && a.createdAt <= b.createdAt)
  }

  // ----- Runs of Set -----

  datatype SetCall = SetCall(host: string, cookie: Cookie, secure: bool, now: Time)

  function StoredBy(call: SetCall): Option<Cookie> {
    Stored(call.host, call.cookie, call.secure, call.now)
  }

  function JarOf(calls: seq<SetCall>): Jar {
    if calls == [] then map[] else
      var last := calls[|calls| - 1];
      Set(JarOf(calls[..|calls| - 1]), last.host, last.cookie, last.secure, last.now)
  }

  function SlotOf(c: Cookie): Ref {
    Ref(c.domain, CookieKey(c.path, c.name))
  }

  /** Call `i` is the last one that stored into the slot `r`. */
  predicate LastWriter(calls: seq<SetCall>, i: nat, r: Ref) {
    && i < |calls|
    && StoredBy(calls[i]).Some? && SlotOf(StoredBy(calls[i]).value) == r
    && forall j :: i < j < |calls| && StoredBy(calls[j]).Some? ==> SlotOf(StoredBy(calls[j]).value) != r
  }

  lemma KeepChangesOneSlot(jar: Jar, c: Cookie, r: Ref)
    ensures In(r, Keep(jar, c)) <==> r == SlotOf(c) || In(r, jar)
    ensures In(r, Keep(jar, c)) ==> Deref(Keep(jar, c), r) == if r == SlotOf(c) then c else Deref(jar, r)
  {
    hide CookieKey;
  }

  predicate Writes(call: SetCall, r: Ref) {
    StoredBy(call).Some? && SlotOf(StoredBy(call).value) == r
  }

  lemma LastWriterSnoc(calls: seq<SetCall>, i: nat, r: Ref)
    requires calls != []
    ensures LastWriter(calls, i, r) <==>
              if Writes(calls[|calls| - 1], r) then i == |calls| - 1 else LastWriter(calls[..|calls| - 1], i, r)
  {
    hide StoredBy, SlotOf;
  }

  lemma JarOfSnoc(calls: seq<SetCall>, r: Ref)
    requires calls != []
    ensures var before, jar, last := JarOf(calls[..|calls| - 1]), JarOf(calls), calls[|calls| - 1];
            && (In(r, jar) <==> Writes(last, r) || In(r, before))
            && (In(r, jar) ==> Deref(jar, r) == if Writes(last, r) then StoredBy(last).value else Deref(before, r))
  {
    var stored := StoredBy(calls[|calls| - 1]);
    if stored.Some? { KeepChangesOneSlot(JarOf(calls[..|calls| - 1]), stored.value, r); }
  }

  /** The jar holds, in every slot, exactly what the last accepted call for that slot stored. */
  lemma {:induction false} LastWriteWins(calls: seq<SetCall>, r: Ref)
    ensures In(r, JarOf(calls)) <==> exists i: nat :: LastWriter(calls, i, r)
    ensures forall i: nat :: LastWriter(calls, i, r) ==>
              In(r, JarOf(calls)) && Deref(JarOf(calls), r) == StoredBy(calls[i]).value
  {
    if calls == [] { return; }
    hide StoredBy, SlotOf, Writes, In, Deref, JarOf, LastWriter;
    LastWriteWins(calls[..|calls| - 1], r);
    JarOfSnoc(calls, r);
    forall i: nat
      ensures LastWriter(calls, i, r) <==>
                if Writes(calls[|calls| - 1], r) then i == |calls| - 1 else LastWriter(calls[..|calls| - 1], i, r)
    {
      LastWriterSnoc(calls, i, r);
    }
    if Writes(calls[|calls| - 1], r) {
      assert LastWriter(calls, |calls| - 1, r);
    } else if In(r, JarOf(calls)) {
      var i: nat :| LastWriter(calls[..|calls| - 1], i, r);
      assert LastWriter(calls, i, r);
    }
  }

  /** A cookie comes back only where the call that set it allows: to the same host, or to
      hosts that domain-match the domain which the setting host also domain-matched; and a
      Secure cookie only over, and only from, secure requests. */
  lemma SentWhereAllowed(calls: seq<SetCall>, r: Ref, req: Request) returns (i: nat)
    requires Answers(JarOf(calls), r, req)
    ensures LastWriter(calls, i, r)
    ensures var a, b, set_ := NormHost(calls[i].host), NormHost(req.host), calls[i].cookie;
            && (set_.domain == "" ==> a == b)
            && (set_.domain != "" ==> Rfc6265DomainMatch(a, Dotless(ToLower(set_.domain))))
            && (set_.domain != "" ==> Rfc6265DomainMatch(b, Dotless(ToLower(set_.domain))))
            && (set_.secure ==> calls[i].secure && req.secure)
            && Deref(JarOf(calls), r).value == set_.value
  {
    LastWriteWins(calls, r);
    i :| LastWriter(calls, i, r);
    var a, b, set_ := NormHost(calls[i].host), NormHost(req.host), calls[i].cookie;
    if set_.domain != "" {
      var d := Dotless(ToLower(set_.domain));
      DomainMatchIsRfc(a, d);
      DomainMatchIsRfc(b, d);
      assert ("." + d)[1..] == d;
    }
  }

  // ----- What the rules are -----

  /** A port is cut off, letter case does not count, and colons inside brackets stay. */
  lemma HostIsNormal(name: string, port: string)
    requires ':' !in port && ']' !in port
    ensures NormHost(name + ":" + port) == ToLower(name)
    ensures ':' !in name ==> NormHost(name) == ToLower(name)
    ensures ']' !in name ==> NormHost(name + "]") == ToLower(name + "]")
  {
    LowerKeepsMark(port);
    LowerKeepsMark(name);
    var h := ToLower(name + ":" + port);
    assert h == ToLower(name) + ":" + ToLower(port);
    assert h[|name|] == ':' && h[..|name|] == ToLower(name);
    assert forall i :: |name| < i < |h| ==> h[i] == ToLower(port)[i - |name| - 1];
    assert LastIndex(h, ':') == |name|;
    assert ']' in h ==> FirstIndex(h, ']') < |name|;
    var g := ToLower(name + "]");
    assert g == ToLower(name) + "]" && g[|name|] == ']';
    assert ']' !in name ==> FirstIndex(g, ']') == |name| && LastIndex(g, ':') <= |name|;
  }

  lemma LowerKeepsMark(s: string)
    ensures ':' in ToLower(s) <==> ':' in s
    ensures ']' in ToLower(s) <==> ']' in s
  {
    forall c | c == ':' || c == ']' ensures c in ToLower(s) <==> c in s {
      if c in s {
        var i :| 0 <= i < |s| && s[i] == c;
        assert ToLower(s)[i] == c;
      }
      if c in ToLower(s) {
        var i :| 0 <= i < |s| && ToLower(s)[i] == c;
        assert s[i] == c;
      }
    }
  }

  /** Section 5.1.4 of RFC 6265: equal, or a continuation at a slash. */
  ghost predicate Rfc6265PathMatch(path: string, cookiePath: string) {
    exists rest: string :: path == cookiePath + rest
      && (rest == "" || rest[0] == '/' || (cookiePath != "" && cookiePath[|cookiePath| - 1] == '/'))
  }

  lemma PathMatchIsRfc(path: string, cookiePath: string)
    ensures IsPathMatch(path, cookiePath) <==> Rfc6265PathMatch(path, cookiePath)
  {
    if cookiePath <= path {
      var rest := path[|cookiePath|..];
      assert path == cookiePath + rest;
      assert rest != "" ==> rest[0] == path[|cookiePath|];
    }
    forall rest: string | path == cookiePath + rest
      ensures cookiePath <= path && path[|cookiePath|..] == rest
    {}
  }

  /** A stored cookie goes to a request exactly when its domain is the host, or starts with a
      dot and is domain-matched by it, or is empty; a host-only one to that host alone; its path
      matches; a Secure one over secure requests only; and not after it has expired. */
  lemma AnswersMean(jar: Jar, r: Ref, req: Request)
    requires In(r, jar)
    ensures var c, host := Deref(jar, r), NormHost(req.host);
            Answers(jar, r, req) <==>
              && (r.domain == "" || r.domain == host || ("." <= r.domain && Rfc6265DomainMatch(host, r.domain[1..])))
              && (c.hostOnly ==> r.domain == host)
              && Rfc6265PathMatch(if req.path == "" then "/" else req.path, c.path)
              && (c.secure ==> req.secure) && (c.expires.Some? ==> req.now <= c.expires.value)
  {
    var host := NormHost(req.host);
    PathMatchIsRfc(if req.path == "" then "/" else req.path, Deref(jar, r).path);
    if "." <= r.domain {
      assert "." + r.domain[1..] == r.domain;
      DomainMatchIsRfc(host, r.domain[1..]);
    }
    hide NormHost, IsPathMatch, Rfc6265PathMatch, Rfc6265DomainMatch;
  }

  /** What Set accepts: a domain that the setting host domain-matches, and Secure cookies from
      secure requests only. What it stores is the cookie itself, filed by host or dotted domain. */
  lemma AcceptedMeans(host: string, c: Cookie, secure: bool, now: Time)
    ensures Stored(host, c, secure, now).Some? <==>
              && (c.domain != "" ==> Rfc6265DomainMatch(NormHost(host), Dotless(ToLower(c.domain))))
              && (c.secure ==> secure)
    ensures Stored(host, c, secure, now).Some? ==>
              var d := Stored(host, c, secure, now).value;
              && (d.name, d.value, d.expires, d.maxAge) == (c.name, c.value, c.expires, c.maxAge)
              && (d.secure, d.httpOnly, d.sameSite, d.createdAt) == (c.secure, c.httpOnly, c.sameSite, now)
              && (c.domain == "" ==> d.hostOnly && d.domain == NormHost(host))
              && (c.domain != "" ==> !d.hostOnly && d.domain == "." + Dotless(ToLower(c.domain)))
              && d.path == if "/" <= c.path then c.path else "/"
  {
    DomainMatchIsRfc(NormHost(host), Dotless(ToLower(c.domain)));
    hide NormHost;
  }

  /** An accepted cookie is returned to its host, or to every host that domain-matches its
      domain, on every matching path until it expires. */
  lemma SetIsReturned(jar: Jar, host: string, c: Cookie, secure: bool, now: Time, req: Request)
    requires Stored(host, c, secure, now).Some?
    requires if c.domain == "" then NormHost(req.host) == NormHost(host)
             else Rfc6265DomainMatch(NormHost(req.host), Dotless(ToLower(c.domain)))
    requires Rfc6265PathMatch(if req.path == "" then "/" else req.path, if "/" <= c.path then c.path else "/")
    requires (c.secure ==> req.secure) && (c.expires.Some? ==> req.now <= c.expires.value)
    ensures var slot := SlotOf(Stored(host, c, secure, now).value);
            Answers(Set(jar, host, c, secure, now), slot, req)
            && Deref(Set(jar, host, c, secure, now), slot).value == c.value
  {
    var stored := Stored(host, c, secure, now).value;
    AcceptedMeans(host, c, secure, now);
    KeepChangesOneSlot(jar, stored, SlotOf(stored));
    AnswersMean(Keep(jar, stored), SlotOf(stored), req);
    assert c.domain != "" ==> stored.domain[1..] == Dotless(ToLower(c.domain));
    hide NormHost, Rfc6265PathMatch, Rfc6265DomainMatch, Answers, Keep, CookieKey;
  }

  // ----- Which slots are different -----

  predicate NulFree(s: string) {
    forall i :: 0 <= i < |s| ==> s[i] != NUL[0]
  }

  /** Cookies of different names and NUL-free paths never share a slot. */
  lemma KeysAreInjective(p: string, n: string, q: string, m: string)
    requires NulFree(p) && NulFree(q) && CookieKey(p, n) == CookieKey(q, m)
    ensures p == q && n == m
  {
    var k := CookieKey(p, n);
    assert k[|p|] == NUL[0] && k[|q|] == NUL[0];
    assert forall i :: 0 <= i < |p| ==> k[i] == p[i];
    assert forall i :: 0 <= i < |q| ==> k[i] == q[i];
    assert p == k[..|p|] && q == k[..|q|];
    assert n == k[|p| + 1..] && m == k[|q| + 1..];
  }

  /** Two different paths can share a slot exactly when one continues the other after a NUL. */
  lemma PathsCollideIff(p: string, q: string)
    requires p != q
    ensures (exists n, m :: CookieKey(p, n) == CookieKey(q, m)) <==> p + NUL <= q || q + NUL <= p
  {
    if p + NUL <= q {
      assert CookieKey(p, q[|p| + 1..] + NUL) == CookieKey(q, "");
    } else if q + NUL <= p {
      assert CookieKey(p, "") == CookieKey(q, p[|q| + 1..] + NUL);
    }
    forall n, m | CookieKey(p, n) == CookieKey(q, m)
      ensures p + NUL <= q || q + NUL <= p
    {
      ShorterPathCollides(p, n, q, m);
      ShorterPathCollides(q, m, p, n);
    }
  }

  lemma ShorterPathCollides(p: string, n: string, q: string, m: string)
    requires p != q && CookieKey(p, n) == CookieKey(q, m)
    ensures |p| < |q| ==> p + NUL <= q
    ensures |p| != |q|
  {
    var k := CookieKey(p, n);
    assert k[..|p|] == p && k[..|q|] == q;
    if |p| < |q| {
      assert q[..|p|] == k[..|p|] && q[|p|] == k[|p|] == NUL[0];
      assert q[..|p| + 1] == p + NUL;
    }
  }

  // ----- Export and import -----

  datatype CookieState = CookieState(name: string, value: string, domain: string, path: string,
                                     expires: Option<Time>, maxAge: int, secure: bool, httpOnly: bool,
                                     sameSite: string, createdAt: Option<Time>)

  function StateOf(c: Cookie): CookieState {
    CookieState(c.name, c.value, c.domain, c.path, c.expires, c.maxAge, c.secure, c.httpOnly, c.sameSite,
                Some(c.createdAt))
  }

  /** `states` lists the live cookies of a bucket, whose keys are `keys` in the same order. */
  ghost predicate Lists(states: seq<CookieState>, keys: seq<string>, bucket: Bucket, now: Time) {
    && Distinct(keys) && |keys| == |states|
    && (forall k :: k in keys <==> k in bucket && !Expired(bucket[k], now))
    && (forall i :: 0 <= i < |keys| ==> states[i] == StateOf(bucket[keys[i]]))
  }

  lemma ListsSomethingIff(states: seq<CookieState>, keys: seq<string>, bucket: Bucket, now: Time)
    requires Lists(states, keys, bucket, now)
    ensures |states| > 0 <==> exists k :: k in bucket && !Expired(bucket[k], now)
  {
    if |states| > 0 { assert keys[0] in bucket; }
  }

  /** An export lists every live cookie of every bucket once, in some order, and no empty bucket. */
  ghost predicate IsExport(jar: Jar, now: Time, out: map<string, seq<CookieState>>) {
    && (forall d :: d in out <==> d in jar && exists k :: k in jar[d] && !Expired(jar[d][k], now))
    && (forall d :: d in out ==> exists keys :: Lists(out[d], keys, jar[d], now))
  }

  predicate StateExpired(c: CookieState, now: Time) {
    c.expires.Some? && c.expires.value < now
  }

  function Restored(c: CookieState, now: Time): Cookie {
    Cookie(c.name, c.value, c.domain, !("." <= c.domain), if c.path == "" then "/" else c.path, c.expires,
           c.maxAge, c.secure, c.httpOnly, c.sameSite, if c.createdAt.Some? then c.createdAt.value else now)
  }

  function ImportList(bucket: Bucket, states: seq<CookieState>, now: Time): Bucket {
    if states == [] then bucket else
      var before, last := ImportList(bucket, states[..|states| - 1], now), states[|states| - 1];
      if StateExpired(last, now) then before
      else
        var c := Restored(last, now);
        before[CookieKey(c.path, c.name) := c]
  }

  function Import(jar: Jar, from: map<string, seq<CookieState>>, now: Time): Jar {
    map d | d in jar.Keys + from.Keys ::
      if d in from then ImportList(BucketOf(jar, d), from[d], now) else jar[d]
  }

  /** Every cookie lies in the slot that its own fields name. */
  ghost predicate Consistent(jar: Jar) {
    forall r :: In(r, jar) ==> SlotOf(Deref(jar, r)) == r && Deref(jar, r).path != ""
  }

  lemma KeepIsConsistent(jar: Jar, c: Cookie)
    requires Consistent(jar) && c.path != ""
    ensures Consistent(Keep(jar, c))
  {
    forall r | In(r, Keep(jar, c))
      ensures SlotOf(Deref(Keep(jar, c), r)) == r && Deref(Keep(jar, c), r).path != ""
    {
      KeepChangesOneSlot(jar, c, r);
    }
  }

  lemma {:induction false} RunsAreConsistent(calls: seq<SetCall>)
    ensures Consistent(JarOf(calls))
  {
    if calls != [] {
      RunsAreConsistent(calls[..|calls| - 1]);
      var stored := StoredBy(calls[|calls| - 1]);
      if stored.Some? { KeepIsConsistent(JarOf(calls[..|calls| - 1]), stored.value); }
    }
  }

  /** What importing makes of a cookie: its host-only flag is read off its domain. */
  function Held(c: Cookie): Cookie {
    c.(hostOnly := !("." <= c.domain))
  }

  predicate Faithful(c: Cookie) {
    c.hostOnly == !("." <= c.domain)
  }

  lemma RestoredIsHeld(c: Cookie, now: Time)
    requires c.path != ""
    ensures Restored(StateOf(c), now) == Held(c) && Held(c).path == c.path && Held(c).name == c.name
    ensures StateExpired(StateOf(c), now) == Expired(c, now)
  {}

  ghost predicate OwnKeys(bucket: Bucket) {
    forall k :: k in bucket ==> bucket[k].path != "" && k == CookieKey(bucket[k].path, bucket[k].name)
  }

  lemma {:induction false} ImportListShape(bucket: Bucket, keys: seq<string>, states: seq<CookieState>, now: Time)
    requires |keys| == |states| && OwnKeys(bucket)
    requires forall i :: 0 <= i < |keys| ==> keys[i] in bucket && states[i] == StateOf(bucket[keys[i]])
    ensures forall k :: k in ImportList(map[], states, now) <==> k in keys && !Expired(bucket[k], now)
    ensures forall k :: k in ImportList(map[], states, now) ==> ImportList(map[], states, now)[k] == Held(bucket[k])
  {
    if states != [] {
      var n := |states| - 1;
      ImportListShape(bucket, keys[..n], states[..n], now);
      assert keys == keys[..n] + [keys[n]];
      var c := bucket[keys[n]];
      RestoredIsHeld(c, now);
      hide CookieKey, Restored, StateOf, Held, Expired, StateExpired;
      assert ImportList(map[], states, now) == if Expired(c, now) then ImportList(map[], states[..n], now)
                                               else ImportList(map[], states[..n], now)[keys[n] := Held(c)];
    }
  }

  lemma RoundTripShape(jar: Jar, out: map<string, seq<CookieState>>, t0: Time, t1: Time, r: Ref)
    requires Consistent(jar) && IsExport(jar, t0, out) && t0 <= t1
    ensures In(r, Import(map[], out, t1)) <==> In(r, jar) && !Expired(Deref(jar, r), t1)
    ensures In(r, Import(map[], out, t1)) ==> Deref(Import(map[], out, t1), r) == Held(Deref(jar, r))
  {
    var d := r.domain;
    if d in out {
      var keys :| Lists(out[d], keys, jar[d], t0);
      BucketsOwnKeys(jar, d);
      hide CookieKey, Held, OwnKeys, Consistent, StateOf;
      ImportListShape(jar[d], keys, out[d], t1);
      assert Import(map[], out, t1)[d] == ImportList(map[], out[d], t1);
    }
  }

  lemma BucketsOwnKeys(jar: Jar, d: string)
    requires Consistent(jar) && d in jar
    ensures OwnKeys(jar[d])
  {
    forall k | k in jar[d]
      ensures jar[d][k].path != "" && k == CookieKey(jar[d][k].path, jar[d][k].name)
    {
      assert In(Ref(d, k), jar);
    }
  }

  ghost predicate SameAnswers(jar: Jar, other: Jar, req: Request) {
    forall r :: && (Answers(jar, r, req) <==> Answers(other, r, req))
                && (Answers(jar, r, req) && Answers(other, r, req) ==> Deref(jar, r) == Deref(other, r))
  }

  /** Some request host can match cookies of this domain. */
  ghost predicate Matchable(domain: string) {
    exists host :: DomainMatchesHost(domain, NormHost(host))
  }

  ghost predicate AllFaithful(jar: Jar, now: Time) {
    forall r :: In(r, jar) && !Expired(Deref(jar, r), now) && Matchable(r.domain) ==> Faithful(Deref(jar, r))
  }

  /** Saving a jar and loading it into an empty one is invisible to every later request if
      and only if each live cookie that some request can match has the host-only flag that its
      domain suggests. */
  lemma RoundTripIff(jar: Jar, out: map<string, seq<CookieState>>, t0: Time, t1: Time)
    requires Consistent(jar) && IsExport(jar, t0, out) && t0 <= t1
    ensures AllFaithful(jar, t1) <==>
            forall req: Request :: req.now >= t1 ==> SameAnswers(jar, Import(map[], out, t1), req)
  {
    var loaded := Import(map[], out, t1);
    if AllFaithful(jar, t1) {
      forall req: Request | req.now >= t1 ensures SameAnswers(jar, loaded, req) {
        FaithfulRoundTrip(jar, out, t0, t1, req);
      }
    } else {
      var r :| In(r, jar) && !Expired(Deref(jar, r), t1) && Matchable(r.domain) && !Faithful(Deref(jar, r));
      var req := UnfaithfulIsSeen(jar, out, t0, t1, r);
    }
  }

  lemma FaithfulRoundTrip(jar: Jar, out: map<string, seq<CookieState>>, t0: Time, t1: Time, req: Request)
    requires Consistent(jar) && IsExport(jar, t0, out) && t0 <= t1 <= req.now && AllFaithful(jar, t1)
    ensures SameAnswers(jar, Import(map[], out, t1), req)
  {
    var loaded := Import(map[], out, t1);
    hide Consistent, IsExport, Import, NormHost, DomainMatchesHost, IsPathMatch, Distinct, CookieKey;
    forall r
      ensures Answers(jar, r, req) <==> Answers(loaded, r, req)
      ensures Answers(jar, r, req) && Answers(loaded, r, req) ==> Deref(jar, r) == Deref(loaded, r)
    {
      RoundTripShape(jar, out, t0, t1, r);
      assert DomainMatchesHost(r.domain, NormHost(req.host)) ==> Matchable(r.domain);
    }
  }

  lemma UnfaithfulIsSeen(jar: Jar, out: map<string, seq<CookieState>>, t0: Time, t1: Time, r: Ref) returns (req: Request)
    requires Consistent(jar) && IsExport(jar, t0, out) && t0 <= t1
    requires In(r, jar) && !Expired(Deref(jar, r), t1) && Matchable(r.domain) && !Faithful(Deref(jar, r))
    ensures req.now == t1 && !SameAnswers(jar, Import(map[], out, t1), req)
  {
    var host :| DomainMatchesHost(r.domain, NormHost(host));
    var c := Deref(jar, r);
    req := Request(host, c.path, true, t1);
    RoundTripShape(jar, out, t0, t1, r);
    assert IsPathMatch(c.path, c.path);
    hide IsExport, Import, NormHost, DomainMatchesHost, IsPathMatch, Distinct, CookieKey;
    var loaded := Import(map[], out, t1);
    assert Answers(jar, r, req) || Answers(loaded, r, req);
    assert Deref(loaded, r) != Deref(jar, r);
  }

  predicate DotlessHost(call: SetCall) {
    !("." <= NormHost(call.host))
  }

  /** Jars filled by requests whose hosts do not start with a dot round-trip. */
  lemma SetJarsRoundTrip(calls: seq<SetCall>, out: map<string, seq<CookieState>>, t0: Time, t1: Time, req: Request)
    requires forall i :: 0 <= i < |calls| ==> DotlessHost(calls[i])
    requires IsExport(JarOf(calls), t0, out) && t0 <= t1 <= req.now
    ensures SameAnswers(JarOf(calls), Import(map[], out, t1), req)
  {
    var jar := JarOf(calls);
    RunsAreConsistent(calls);
    forall r | In(r, jar) ensures Faithful(Deref(jar, r)) {
      LastWriteWins(calls, r);
      var i: nat :| LastWriter(calls, i, r);
      assert DotlessHost(calls[i]);
      hide NormHost;
    }
    assert AllFaithful(jar, t1);
    FaithfulRoundTrip(jar, out, t0, t1, req);
  }

  /** A cookie set without a request is faithful exactly when it names a domain. */
  lemma SimpleIsFaithfulIff(jar: Jar, c: Cookie, now: Time, r: Ref)
    requires r.domain == ToLower(c.domain) && r.key == CookieKey(if c.path == "" then "/" else c.path, c.name)
    ensures forall q :: q != r ==> (In(q, SetSimple(jar, c, now)) <==> In(q, jar))
    ensures In(r, SetSimple(jar, c, now)) && (Faithful(Deref(SetSimple(jar, c, now), r)) <==> c.domain != "")
    ensures var kept := Deref(SetSimple(jar, c, now), r);
            (kept.name, kept.value, kept.secure, kept.expires, kept.createdAt) == (c.name, c.value, c.secure, c.expires, now)
    ensures c.domain == "" ==> Matchable(r.domain)
  {
    assert DomainMatchesHost("", NormHost(""));
    var d := ToLower(c.domain);
    var kept := c.(domain := d, hostOnly := d != "" && !("." <= d), path := if c.path == "" then "/" else c.path, createdAt := now);
    forall q | q != r ensures In(q, SetSimple(jar, c, now)) <==> In(q, jar) {
      KeepChangesOneSlot(jar, kept, q);
    }
  }

  // ----- Deleting and expiring -----

  function WithoutName(bucket: Bucket, name: string): Bucket {
    map k | k in bucket && bucket[k].name != name :: bucket[k]
  }

  /** Buckets that a deletion visits and leaves empty go away; no domain means every domain. */
  function Delete(jar: Jar, name: string, domain: string): Jar {
    map d | d in jar && (DeleteVisits(domain, d) ==> WithoutName(jar[d], name) != map[]) ::
      if DeleteVisits(domain, d) then WithoutName(jar[d], name) else jar[d]
  }

  predicate DeleteVisits(domain: string, d: string) {
    domain == "" || d == ToLower(domain)
  }

  function Live(bucket: Bucket, now: Time): Bucket {
    map k | k in bucket && !Expired(bucket[k], now) :: bucket[k]
  }

  function ClearExpired(jar: Jar, now: Time): Jar {
    map d | d in jar && Live(jar[d], now) != map[] :: Live(jar[d], now)
  }

  /** A deletion takes exactly the cookies of that name from the buckets it visits. */
  lemma DeleteIsExact(jar: Jar, name: string, domain: string, r: Ref)
    ensures In(r, Delete(jar, name, domain)) <==>
              In(r, jar) && !((domain == "" || r.domain == ToLower(domain)) && Deref(jar, r).name == name)
    ensures In(r, Delete(jar, name, domain)) ==> Deref(Delete(jar, name, domain), r) == Deref(jar, r)
  {
    if In(r, jar) && Deref(jar, r).name != name {
      assert r.key in WithoutName(jar[r.domain], name);
    }
  }

  /** Deleting a cookie by the name and domain it was set with works exactly when that domain
      was written with its dot: without one the deletion looks in the host-only bucket. */
  lemma DeleteFindsDomainCookieIff(jar: Jar, host: string, c: Cookie, secure: bool, now: Time)
    requires c.domain != "" && Stored(host, c, secure, now).Some?
    ensures var slot := SlotOf(Stored(host, c, secure, now).value);
            In(slot, Delete(Set(jar, host, c, secure, now), c.name, c.domain)) <==> !("." <= c.domain)
  {
    var stored := Stored(host, c, secure, now).value;
    KeepChangesOneSlot(jar, stored, SlotOf(stored));
    DeleteIsExact(Keep(jar, stored), c.name, c.domain, SlotOf(stored));
    var d := ToLower(c.domain);
    assert d[0] == LowerChar(c.domain[0]);
    assert "." <= d ==> "." + d[1..] == d;
  }

  lemma ClearIsExact(jar: Jar, now: Time, r: Ref)
    ensures In(r, ClearExpired(jar, now)) <==>
              In(r, jar) && (Deref(jar, r).expires.Some? ==> now <= Deref(jar, r).expires.value)
    ensures In(r, ClearExpired(jar, now)) ==> Deref(ClearExpired(jar, now), r) == Deref(jar, r)
  {
    if In(r, jar) && !Expired(Deref(jar, r), now) {
      assert r.key in Live(jar[r.domain], now);
    }
  }

  /** Clearing expired cookies cannot be seen by any request from then on. */
  lemma ClearExpiredIsUnseen(jar: Jar, t: Time, req: Request)
    requires t <= req.now
    ensures SameAnswers(jar, ClearExpired(jar, t), req)
  {
    forall r
      ensures Answers(jar, r, req) <==> Answers(ClearExpired(jar, t), r, req)
      ensures In(r, ClearExpired(jar, t)) ==> Deref(jar, r) == Deref(ClearExpired(jar, t), r)
    {
      ClearIsExact(jar, t, r);
    }
  }

  datatype JarOp =
    | DoSet(host: string, cookie: Cookie, secure: bool, now: Time)
    | DoSetSimple(cookie: Cookie, now: Time)
    | DoDelete(name: string, domain: string)
    | DoClearExpired(now: Time)
    | DoImport(from: map<string, seq<CookieState>>, now: Time)
    | DoClear

  function ApplyOp(jar: Jar, op: JarOp): Jar {
    match op
    case DoSet(host, c, secure, now) => Set(jar, host, c, secure, now)
    case DoSetSimple(c, now) => SetSimple(jar, c, now)
    case DoDelete(name, domain) => Delete(jar, name, domain)
    case DoClearExpired(now) => ClearExpired(jar, now)
    case DoImport(from, now) => Import(jar, from, now)
    case DoClear => map[]
  }

  function ApplyAll(ops: seq<JarOp>): Jar {
    if ops == [] then map[] else ApplyOp(ApplyAll(ops[..|ops| - 1]), ops[|ops| - 1])
  }

  /** Each imported cookie is listed under its own domain, as an export lists it. */
  predicate OwnDomains(from: map<string, seq<CookieState>>) {
    forall d :: d in from ==> forall i :: 0 <= i < |from[d]| ==> from[d][i].domain == d
  }

  lemma {:induction false} ImportListIsConsistent(bucket: Bucket, states: seq<CookieState>, now: Time, d: string)
    requires OwnKeys(bucket) && forall k :: k in bucket ==> bucket[k].domain == d
    requires forall i :: 0 <= i < |states| ==> states[i].domain == d
    ensures OwnKeys(ImportList(bucket, states, now))
    ensures forall k :: k in ImportList(bucket, states, now) ==> ImportList(bucket, states, now)[k].domain == d
  {
    if states != [] {
      ImportListIsConsistent(bucket, states[..|states| - 1], now, d);
      hide CookieKey;
    }
  }

  lemma ImportIsConsistent(jar: Jar, from: map<string, seq<CookieState>>, now: Time)
    requires Consistent(jar) && OwnDomains(from)
    ensures Consistent(Import(jar, from, now))
  {
    forall r | In(r, Import(jar, from, now))
      ensures SlotOf(Deref(Import(jar, from, now), r)) == r && Deref(Import(jar, from, now), r).path != ""
    {
      var d := r.domain;
      if d in from {
        forall k | k in BucketOf(jar, d) ensures BucketOf(jar, d)[k].domain == d {
          assert In(Ref(d, k), jar);
        }
        if d in jar { BucketsOwnKeys(jar, d); }
        ImportListIsConsistent(BucketOf(jar, d), from[d], now, d);
        hide CookieKey, ImportList;
        assert OwnKeys(ImportList(BucketOf(jar, d), from[d], now));
      } else {
        assert In(r, jar);
      }
    }
  }

  lemma OpIsConsistent(jar: Jar, op: JarOp)
    requires Consistent(jar) && (op.DoImport? ==> OwnDomains(op.from))
    ensures Consistent(ApplyOp(jar, op))
  {
    assert Consistent(map[]);
    hide Consistent, Keep;
    match op
    case DoSet(host, c, secure, now) =>
      var stored := Stored(host, c, secure, now);
      if stored.Some? {
        KeepIsConsistent(jar, stored.value);
      }
    case DoSetSimple(c, now) => SimpleIsConsistent(jar, c, now);
    case DoDelete(name, domain) => DeleteIsConsistent(jar, name, domain);
    case DoClearExpired(now) => ClearIsConsistent(jar, now);
    case DoImport(from, now) => ImportIsConsistent(jar, from, now);
    case DoClear =>
  }

  lemma SimpleIsConsistent(jar: Jar, c: Cookie, now: Time)
    requires Consistent(jar)
    ensures Consistent(SetSimple(jar, c, now))
  {
    var d := ToLower(c.domain);
    KeepIsConsistent(jar, c.(domain := d, hostOnly := d != "" && !("." <= d),
                             path := if c.path == "" then "/" else c.path, createdAt := now));
  }

  lemma DeleteIsConsistent(jar: Jar, name: string, domain: string)
    requires Consistent(jar)
    ensures Consistent(Delete(jar, name, domain))
  {
    forall r | In(r, Delete(jar, name, domain))
      ensures In(r, jar) && Deref(Delete(jar, name, domain), r) == Deref(jar, r)
    {
      DeleteIsExact(jar, name, domain, r);
    }
  }

  lemma ClearIsConsistent(jar: Jar, now: Time)
    requires Consistent(jar)
    ensures Consistent(ClearExpired(jar, now))
  {
    forall r | In(r, ClearExpired(jar, now))
      ensures In(r, jar) && Deref(ClearExpired(jar, now), r) == Deref(jar, r)
    {
      ClearIsExact(jar, now, r);
    }
  }

  /** Whatever is done to a jar, every cookie stays in the slot that its own fields name, so
      every jar that is built from the operations can be exported and imported. */
  lemma {:induction false} EveryRunIsConsistent(ops: seq<JarOp>)
    requires forall i :: 0 <= i < |ops| && ops[i].DoImport? ==> OwnDomains(ops[i].from)
    ensures Consistent(ApplyAll(ops))
  {
    if ops != [] {
      hide Consistent, OwnDomains;
      EveryRunIsConsistent(ops[..|ops| - 1]);
      OpIsConsistent(ApplyAll(ops[..|ops| - 1]), ops[|ops| - 1]);
    }
  }

  /** What an export lists can be imported into any consistent jar. */
  lemma ExportsOwnTheirDomains(jar: Jar, now: Time, out: map<string, seq<CookieState>>)
    requires Consistent(jar) && IsExport(jar, now, out)
    ensures OwnDomains(out)
  {
    forall d, i | d in out && 0 <= i < |out[d]|
      ensures out[d][i].domain == d
    {
      var keys :| Lists(out[d], keys, jar[d], now);
      var r := Ref(d, keys[i]);
      assert keys[i] in keys;
      assert In(r, jar) && out[d][i] == StateOf(Deref(jar, r));
      hide CookieKey, Lists, IsExport;
      assert SlotOf(Deref(jar, r)) == r;
    }
  }

  // ----- The order of the answers -----

  predicate Tie(a: Cookie, b: Cookie) {
    Before(a, b) && Before(b, a)
  }

  ghost predicate Sorted(jar: Jar, refs: seq<Ref>) {
    && (forall i :: 0 <= i < |refs| ==> In(refs[i], jar))
    && (forall i, j :: 0 <= i < j < |refs| ==> Before(Deref(jar, refs[i]), Deref(jar, refs[j])))
  }

  /** Two sorted lists of the same answers differ at most in the order of ties. */
  lemma SameOrderUpToTies(jar: Jar, a: seq<Ref>, b: seq<Ref>, i: nat)
    requires Sorted(jar, a) && Sorted(jar, b) && Distinct(a) && Distinct(b)
    requires forall r :: r in a <==> r in b
    requires i < |a|
    ensures |a| == |b| && Tie(Deref(jar, a[i]), Deref(jar, b[i]))
  {
    SizeOfElements(a);
    SizeOfElements(b);
    assert Elements(a) == Elements(b);
    NotLater(jar, a, b, i);
    NotLater(jar, b, a, i);
  }

  lemma NotLater(jar: Jar, a: seq<Ref>, b: seq<Ref>, i: nat)
    requires Sorted(jar, a) && Sorted(jar, b) && Distinct(a) && Distinct(b)
    requires forall r :: r in a ==> r in b
    requires i < |a| && i < |b|
    ensures Before(Deref(jar, b[i]), Deref(jar, a[i]))
  {
    if !Before(Deref(jar, b[i]), Deref(jar, a[i])) {
      forall r | r in Elements(a[..i + 1])
        ensures r in Elements(b[..i])
      {
        var k :| 0 <= k <= i && a[k] == r;
        assert r in a;
        var m :| 0 <= m < |b| && b[m] == r;
        assert Before(Deref(jar, a[k]), Deref(jar, a[i]));
        assert m < i;
        assert b[..i][m] == r;
      }
      SizeOfElements(a[..i + 1]);
      SizeOfElements(b[..i]);
      SubsetIsSmaller(Elements(a[..i + 1]), Elements(b[..i]));
    }
  }

  /** What a lookup returns. */
  ghost predicate IsAnswer(jar: Jar, req: Request, refs: seq<Ref>) {
    Distinct(refs) && Sorted(jar, refs) && forall r :: r in refs <==> Answers(jar, r, req)
  }

  /** Jars that a request cannot tell apart answer it with the same cookies in the same order,
      up to ties: in particular a jar and its reloaded export. */
  lemma SameAnswersSameOrder(jar: Jar, other: Jar, req: Request, a: seq<Ref>, b: seq<Ref>, i: nat)
    requires SameAnswers(jar, other, req) && IsAnswer(jar, req, a) && IsAnswer(other, req, b) && i < |a|
    ensures |a| == |b| && In(b[i], jar) && Deref(jar, b[i]) == Deref(other, b[i]) && Tie(Deref(jar, a[i]), Deref(other, b[i]))
  {
    hide Matches, Before;
    forall k | 0 <= k < |b|
      ensures In(b[k], jar) && Deref(jar, b[k]) == Deref(other, b[k])
    {
      assert b[k] in b;
    }
    assert Sorted(jar, b);
    SameOrderUpToTies(jar, a, b, i);
  }

  function CookieAt(jar: Jar, r: Ref): Option<Cookie> {
    if In(r, jar) then Some(Deref(jar, r)) else None
  }

  /** `Before`, extended to references that are not in the jar: those come last. */
  predicate RefBefore(jar: Jar, a: Ref, b: Ref) {
    CookieAt(jar, b).None? || (CookieAt(jar, a).Some? && Before(CookieAt(jar, a).value, CookieAt(jar, b).value))
  }

  method SortRefs(jar: Jar, refs: seq<Ref>) returns (sorted: seq<Ref>)
    requires Distinct(refs) && forall i :: 0 <= i < |refs| ==> In(refs[i], jar)
    ensures Sorted(jar, sorted) && Distinct(sorted) && forall r :: r in sorted <==> r in refs
  {
    var before := (a, b) => RefBefore(jar, a, b);
    sorted := Sort(refs, before);
    ReorderedIsDistinct(refs, sorted);
    SameMembers(refs, sorted);
    forall i | 0 <= i < |sorted| ensures In(sorted[i], jar) {
      assert sorted[i] in sorted;
    }
    assert forall i, j :: 0 <= i < j < |sorted| ==> before(sorted[i], sorted[j]);
  }

  // ----- The jar object -----

  class CookieJar {
    var cookies: Jar

    constructor ()
      ensures cookies == map[]
    {
      cookies := map[];
    }

    method SetCookie(host: string, c: Cookie, secure: bool, now: Time)
      modifies this
      ensures cookies == Set(old(cookies), host, c, secure, now)
    {
      hide NormHost, IsDomainMatch, Dotless, Keep;
      var requestHost := NormHost(host);
      var domain, hostOnly := requestHost, true;
      if c.domain != "" {
        var domainWithoutDot := Dotless(ToLower(c.domain));
        if !IsDomainMatch(requestHost, domainWithoutDot) { return; }
        domain, hostOnly := "." + domainWithoutDot, false;
      }
      if c.secure && !secure { return; }
      var path := c.path;
      if path == "" || path[0] != '/' { path := "/"; }
      Put(c.(domain := domain, hostOnly := hostOnly, path := path, createdAt := now));
    }

    /** Stores a cookie in its slot, making its bucket first if there is none. */
    method Put(c: Cookie)
      modifies this
      ensures cookies == Keep(old(cookies), c)
    {
      if c.domain !in cookies { cookies := cookies[c.domain := map[]]; }
      cookies := cookies[c.domain := cookies[c.domain][CookieKey(c.path, c.name) := c]];
    }

    method SetSimpleCookie(c: Cookie, now: Time)
      modifies this
      ensures cookies == SetSimple(old(cookies), c, now)
    {
      hide Keep;
      var domain, hostOnly := c.domain, false;
      if domain != "" {
        domain := ToLower(domain);
        if !("." <= domain) { hostOnly := true; }
      }
      assert domain == ToLower(c.domain);
      var path := if c.path == "" then "/" else c.path;
      Put(c.(domain := domain, hostOnly := hostOnly, path := path, createdAt := now));
    }

    method DeleteCookie(name: string, domain: string)
      modifies this
      ensures cookies == Delete(old(cookies), name, domain)
    {
      ghost var jar := cookies;
      if domain == "" {
        var todo := cookies.Keys;
        while todo != {}
          invariant todo <= jar.Keys
          invariant forall d :: d in cookies <==> d in jar && (d in todo || WithoutName(jar[d], name) != map[])
          invariant forall d :: d in cookies ==> cookies[d] == if d in todo then jar[d] else WithoutName(jar[d], name)
          decreases todo
        {
          var d :| d in todo;
          DeleteFrom(d, name);
          todo := todo - {d};
        }
        assert cookies == Delete(jar, name, domain);
      } else {
        var d := ToLower(domain);
        if d in cookies { DeleteFrom(d, name); }
        assert d != "" && cookies == Delete(jar, name, domain);
      }
    }

    /** Deletes the name from one bucket, and the bucket when this empties it. */
    method DeleteFrom(d: string, name: string)
      requires d in cookies
      modifies this
      ensures cookies == if WithoutName(old(cookies)[d], name) == map[] then old(cookies) - {d}
                         else old(cookies)[d := WithoutName(old(cookies)[d], name)]
    {
      var bucket := cookies[d];
      var todo := bucket.Keys;
      while todo != {}
        invariant todo <= cookies[d].Keys
        invariant bucket == map k | k in cookies[d] && (k in todo || cookies[d][k].name != name) :: cookies[d][k]
        invariant cookies == old(cookies)
        decreases todo
      {
        var key :| key in todo;
        if bucket[key].name == name { bucket := bucket - {key}; }
        todo := todo - {key};
      }
      assert bucket == WithoutName(cookies[d], name);
      cookies := if |bucket| == 0 then cookies - {d} else cookies[d := bucket];
    }

    method ClearExpiredCookies(now: Time)
      modifies this
      ensures cookies == ClearExpired(old(cookies), now)
    {
      ghost var jar := cookies;
      var todo := cookies.Keys;
      while todo != {}
        invariant todo <= jar.Keys
        invariant forall d :: d in cookies <==> d in jar && (d in todo || Live(jar[d], now) != map[])
        invariant forall d :: d in cookies ==> cookies[d] == if d in todo then jar[d] else Live(jar[d], now)
        decreases todo
      {
        var d :| d in todo;
        var live := LiveOf(cookies[d], now);
        cookies := if |live| == 0 then cookies - {d} else cookies[d := live];
        todo := todo - {d};
      }
      assert cookies == ClearExpired(jar, now);
    }

    /** The inner loop of ClearExpired. */
    method LiveOf(bucket: Bucket, now: Time) returns (live: Bucket)
      ensures live == Live(bucket, now)
    {
      live := bucket;
      var todo := bucket.Keys;
      while todo != {}
        invariant todo <= bucket.Keys
        invariant live == map k | k in bucket && (k in todo || !Expired(bucket[k], now)) :: bucket[k]
        decreases todo
      {
        var key :| key in todo;
        if Expired(bucket[key], now) { live := live - {key}; }
        todo := todo - {key};
      }
    }

    /** Exactly the matching cookies, each once, longest path and oldest first. */
    method Get(req: Request) returns (matches: seq<Ref>)
      ensures IsAnswer(cookies, req, matches)
      ensures forall i, j :: 0 <= i < j < |matches| ==>
                && In(matches[i], cookies) && In(matches[j], cookies)
                && var a, b := Deref(cookies, matches[i]), Deref(cookies, matches[j]);
                   |a.path| > |b.path| || (|a.path| == |b.path| && a.createdAt <= b.createdAt)
    {
      var host, path := NormHost(req.host), if req.path == "" then "/" else req.path;
      matches := [];
      var todo := cookies.Keys;
      while todo != {}
        invariant todo <= cookies.Keys && Distinct(matches)
        invariant forall r :: r in matches <==> r.domain !in todo && Answers(cookies, r, req)
        decreases todo
      {
        var domain :| domain in todo;
        if DomainMatchesHost(domain, host) {
          matches := CollectFrom(matches, domain, host, path, req);
        }
        todo := todo - {domain};
      }
      matches := SortRefs(cookies, matches);
    }

    /** The inner loop of a lookup. */
    method CollectFrom(before: seq<Ref>, domain: string, host: string, path: string, req: Request)
      returns (matches: seq<Ref>)
      requires domain in cookies && host == NormHost(req.host) && path == (if req.path == "" then "/" else req.path)
      requires Distinct(before) && DomainMatchesHost(domain, host) && forall r :: r in before ==> r.domain != domain
      ensures Distinct(matches)
      ensures forall r :: r in matches <==> r in before || (r.domain == domain && Answers(cookies, r, req))
    {
      hide NormHost, DomainMatchesHost, IsPathMatch;
      matches := before;
      var keys := cookies[domain].Keys;
      while keys != {}
        invariant keys <= cookies[domain].Keys && Distinct(matches)
        invariant forall r :: r in matches <==>
                    r in before || (r.domain == domain && r.key !in keys && Answers(cookies, r, req))
        decreases keys
      {
        var key :| key in keys;
        keys := keys - {key};
        var cookie := cookies[domain][key];
        assert Deref(cookies, Ref(domain, key)) == cookie;
        if cookie.hostOnly && domain != host { continue; }
        if !IsPathMatch(path, cookie.path) { continue; }
        if cookie.secure && !req.secure { continue; }
        if cookie.expires.Some? && cookie.expires.value < req.now { continue; }
        matches := matches + [Ref(domain, key)];
      }
    }

    method Export(now: Time) returns (result: map<string, seq<CookieState>>)
      ensures IsExport(cookies, now, result)
    {
      hide Lists, Expired;
      result := map[];
      var todo := cookies.Keys;
      while todo != {}
        invariant todo <= cookies.Keys
        invariant forall d :: d in result <==>
                    d in cookies && d !in todo && exists k :: k in cookies[d] && !Expired(cookies[d][k], now)
        invariant forall d :: d in result ==> exists keys :: Lists(result[d], keys, cookies[d], now)
        decreases todo
      {
        var domain :| domain in todo;
        var states := ExportBucket(cookies[domain], now);
        ghost var keys :| Lists(states, keys, cookies[domain], now);
        ListsSomethingIff(states, keys, cookies[domain], now);
        if |states| > 0 {
          result := result[domain := states];
        }
        todo := todo - {domain};
      }
    }

    /** The inner loop of an export. */
    method ExportBucket(bucket: Bucket, now: Time) returns (states: seq<CookieState>)
      ensures exists keys :: Lists(states, keys, bucket, now)
    {
      states := [];
      ghost var keys: seq<string> := [];
      var todo := bucket.Keys;
      while todo != {}
        invariant todo <= bucket.Keys && Distinct(keys) && |keys| == |states|
        invariant forall k :: k in keys <==> k in bucket && k !in todo && !Expired(bucket[k], now)
        invariant forall i :: 0 <= i < |keys| ==> states[i] == StateOf(bucket[keys[i]])
        decreases todo
      {
        var k :| k in todo;
        todo := todo - {k};
        if Expired(bucket[k], now) { continue; }
        states, keys := states + [StateOf(bucket[k])], keys + [k];
      }
      assert Lists(states, keys, bucket, now);
    }

    method ImportCookies(from: map<string, seq<CookieState>>, now: Time)
      modifies this
      ensures cookies == Import(old(cookies), from, now)
    {
      ghost var jar, done := cookies, {};
      var todo := from.Keys;
      while todo != {}
        invariant todo + done == from.Keys && todo !! done
        invariant forall d :: d in cookies <==> d in jar || d in done
        invariant forall d :: d in cookies ==>
                    cookies[d] == if d in done then ImportList(BucketOf(jar, d), from[d], now) else jar[d]
        decreases todo
      {
        var domain :| domain in todo;
        var states := from[domain];
        var bucket := if domain in cookies then cookies[domain] else map[];
        for i := 0 to |states|
          invariant bucket == ImportList(BucketOf(jar, domain), states[..i], now)
        {
          var c := states[i];
          assert states[..i + 1][..i] == states[..i];
          if c.expires.Some? && c.expires.value < now { continue; }
          bucket := bucket[CookieKey(if c.path == "" then "/" else c.path, c.name) := Restored(c, now)];
        }
        assert states[..|states|] == states;
        cookies := cookies[domain := bucket];
        todo, done := todo - {domain}, done + {domain};
      }
      assert cookies == Import(jar, from, now);
    }
  }
}
