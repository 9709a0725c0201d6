# Verification of the HTTP client core

This project models the self-contained state machines and codecs of an HTTP client library
written in Go and proves what they promise. Each module follows one source component:

- `Http1Pool`, `ChunkedBody`, `RequestHead`: the HTTP/1 transport's idle pool, chunk framer and header writer.
- `SpeculativeConn`: the connection that sends CONNECT together with the first payload and strips the response head.
- `ClientCookieJar`, `SessionCookieJar`: the two cookie jars.
- `TlsSessionCache`: the LRU cache of TLS sessions.
- `Redirects`, `RetryBackoff`: the session's redirect and retry loop, and the waits between retries.
- `HappyEyeballs`, `Http2Conns`, `DialBudget`: concurrent dialing, shared HTTP/2 connections and the dial timeout budget.
- `Base64`, `Masque`, `Socks5Udp`, `ServerSentEvents`: the codecs. `Text`, `Numbers`, `Sequences`
  and `Wrappers` are shared helpers.

Components that change state have two layers. Functions over immutable values say what one
operation does; class methods and loops are proved to compute exactly those functions; the
lemmas about whole runs are about the functions. Protocols between goroutines (`Http1Pool`,
`HappyEyeballs`, `Http2Conns`) are state machines whose steps are the critical sections, so
that a run is any interleaving. Clocks, network outcomes, random bits and map iteration orders
are arbitrary inputs. Times are integers in nanoseconds.

Where the code does less than one may expect, the model keeps the code's behaviour and the
exact condition is proved:

- `getOrCreateConn` can put a new HTTP/2 connection over one that has become unusable, which is
  then never closed
  (`Http2Conns.HeldIffNeverOverwritten`, `LostForever`, `OverwriteCanHappen`).
- A header stored under a non-canonical spelling of Content-Length is sent beside the length
  the writer adds itself, and an order that repeats the name repeats the length
  (`RequestHead.LengthOnTheWire`).
- `Put` lets the session cache grow to 33 entries, and `Import` lists a cached key twice
  (`TlsSessionCache.PutKeepsLimitIff`, `ImportIsExactIffFresh`).
- An event whose name or id holds a newline, or one of whose lines ends in a carriage return,
  does not come back from an event stream (`ServerSentEvents.TextRoundTripIff`).
- A session-jar export loses the flag of cookies set without a domain (`SessionCookieJar.RoundTripIff`,
  `SimpleIsFaithfulIff`), and deleting by an undotted domain misses domain cookies
  (`DeleteFindsDomainCookieIff`).
- The client jar's lookup and its clearing of expired cookies disagree at the instant of expiry
  (`ClientCookieJar.ExpiryAtTheInstant`).
- The doubling of retry waits overflows 64 bits from attempt 35 on with the default wait
  (`RetryBackoff.BackoffIsRightIff`, `DefaultsOverflowAt35`).
- An empty payload does not survive datagram wrapping (`Masque.UnwrapUndoesWrap`).

## Model

| member | source | states |
|---|---|---|
| Http1Pool.ExactlyOneSlot | transport/http1_transport.go:133-198 | In every interleaving of round trips, body EOF and Close, cleanup, Refresh, SetProxy and transport Close, each connection ever created is in exactly one slot: one index of one idle list, one call or body, a pending close, or closed. |
| Http1Pool.RunKeepsInv | transport/http1_transport.go:984-1131 | Every run keeps the whole invariant: idle lists are duplicate-free, at most 6 long and sorted by last use, every connection has one place, nothing panics, and after Close's drain the pool is empty. |
| Http1Pool.ReachableIsGood | transport/http1_transport.go:984-1116 | That invariant holds in every state that a run from the empty transport reaches. |
| Http1Pool.NothingPooledAfterClose | transport/http1_transport.go:1004-1024 | Once Close has drained the pool, no later event of any run pools a connection or writes into the nil map, although the closed flag and the map have different mutexes. |
| Http1Pool.BodyReleasesOnce | transport/http1_transport.go:240-276 | Any number of EOFs and Closes on one body, in any order, release its connection at most once. |
| Http1Pool.NotKeptAliveIsNeverPooled | transport/http1_transport.go:162-198 | A connection whose response forbids keep-alive, or whose exchange fails, is in no idle list at the end of any run from then on. |
| Http1Pool.ReleasedAndClosed | transport/http1_transport.go:257-276 | A body without keep-alive, or whose Close fails, has its connection closed, and no later run pools it. |
| Http1Pool.KeptAliveIsReused | transport/http1_transport.go:267-276 | On an open transport a released body with keep-alive puts its connection into the pool, and the next lookup for its host gets it. |
| Http1Pool.RetiredForever | transport/http1_transport.go:984-1131 | A connection that is closed or handed to a closer is never pooled, looked up or used again, in any run. |
| Http1Pool.NeverUsedForAnotherHost | transport/http1_transport.go:159-162 | A connection dialed under one key (scheme, host and port) is pooled and used under that key only, in every run. |
| Http1Pool.CallSteps | transport/http1_transport.go:133-198 | A call keeps its key, looks up before it dials, tries a new connection after a failure on an idle one, gives up only after a new one failed, and reads with the keep-alive flag of its own response. |
| Http1Pool.ClosedRefuses | transport/http1_transport.go:134-145 | A call is refused if and only if the transport is closed when it starts. |
| Http1Pool.MissMeansAllExpired | transport/http1_transport.go:984-1002 | A lookup that returns nothing from a non-empty list implies that every connection in the list had expired. |
| Http1Pool.HitIsMostRecent | transport/http1_transport.go:984-1002 | A lookup that returns a connection takes the most recently used one, used within 90 seconds, and exactly it leaves the list. |
| Http1Pool.OverflowDropsLeastRecent | transport/http1_transport.go:1004-1024 | A put closes a connection only when the list is full, and then exactly one, no other of which was used less recently. |
| Http1Pool.CleanupIsExact | transport/http1_transport.go:1057-1076 | Cleanup keeps exactly the idle connections used within 90 seconds and hands the others to closers. |
| Http1Pool.DrainRetiresAll | transport/http1_transport.go:1078-1131 | Close, Refresh and SetProxy leave the pool empty and hand every idle connection to a closer. |
| Http1Pool.StepKeepsInv | transport/http1_transport.go:133-198 | One atomic step of any kind keeps the invariant. |
| Http1Pool.Http1Transport.GetIdleConn | transport/http1_transport.go:984-1002 | The method's new state and result are the lookup step of the machine, including the synchronous close of an expired connection. |
| Http1Pool.Http1Transport.PutIdleConn | transport/http1_transport.go:1004-1024 | A closed transport closes the connection; otherwise it is appended with its new time and a full list loses its head. |
| Http1Pool.Http1Transport.Cleanup | transport/http1_transport.go:1057-1076 | The loop over all lists leaves exactly the live connections, in order, drops emptied lists and hands every expired connection to a closer, whatever the map order. |
| Http1Pool.Partition | transport/http1_transport.go:1062-1069 | The inner loop splits a list into its live part in order and its expired set. |
| Http1Pool.Http1Transport.Close | transport/http1_transport.go:1078-1097 | The first Close hands every idle connection to a closer and leaves a nil map; a second does nothing. |
| Http1Pool.Http1Transport.Refresh | transport/http1_transport.go:1099-1116 | As Close, but the map stays usable; nothing happens once closed. |
| ChunkedBody.WriteChunkedBody | transport/http1_transport.go:821-848 | For every sequence of reads: after EOF the output, whatever follows it, is decoded by a strict RFC 9112 section 7.1 decoder to exactly the bytes read and the bytes that follow; after a read error it is never taken for a finished body. |
| ChunkedBody.FramedDecodes | transport/http1_transport.go:821-842 | Decoding framed reads in front of any tail gives the bytes read in front of what the tail decodes to. |
| ChunkedBody.FinishedDecodes | transport/http1_transport.go:843-848 | With the last chunk appended the body is complete and the rest is untouched. |
| ChunkedBody.UnfinishedIsIncomplete | transport/http1_transport.go:836-840 | Without the last chunk the receiver always waits for more. |
| ChunkedBody.HexIsHex | transport/http1_transport.go:829-829 | The chunk size, printed in hexadecimal, is read back as the same number. |
| RequestHead.WriteHeadersInOrder | transport/http1_transport.go:854-962 | For every header order and map iteration order the ordered names come first and in order, and every name carries exactly its expected values: written once, or as often as the order repeats it. |
| RequestHead.WriteOrdered | transport/http1_transport.go:882-921 | The loop over the order writes exactly the lines of its entries and marks exactly the names it wrote. |
| RequestHead.WriteRest | transport/http1_transport.go:923-941 | The loop over the map writes exactly the eligible headers that the order did not write. |
| RequestHead.HeadValues | transport/http1_transport.go:854-962 | The three parts of the head add up to the expected values of every name. |
| RequestHead.ChunkedOnTheWire | transport/http1_transport.go:791-793 | A chunked request carries no Content-Length in any letter case, and exactly one Transfer-Encoding if and only if the order does not repeat it. |
| RequestHead.LengthOnTheWire | transport/http1_transport.go:882-953 | Without chunking, the Content-Length values sent under every spelling are exactly the request's own (the stored values, or the one decimal length), each once, if and only if no value is stored under another spelling and the order does not repeat the name (or there is no value to repeat). |
| RequestHead.OtherSpellingDuplicates | transport/http1_transport.go:924-953 | Concrete request: a stored "content-length" is sent beside the writer's own length. |
| RequestHead.RepeatedOrderDuplicates | transport/http1_transport.go:882-902 | Concrete request: an order that names Content-Length twice sends the length twice. |
| RequestHead.ChunkedMeans | transport/http1_transport.go:791-791 | A request is chunked if and only if it has a body, no positive length, and no length header with a non-empty first value. |
| RequestHead.FramingIsRight | transport/http1_transport.go:885-957 | For every request whose order repeats no length or coding: chunked and nothing else; or the stored lengths; or one number that reads back as the body's length; or "0" for a body of unknown emptiness; or nothing without a body. |
| RequestHead.OtherHeadersOnTheWire | transport/http1_transport.go:912-962 | Every other header: never a Host, the stored values once each unless the order repeats the name, keep-alive if no Connection is stored, and nothing that is not stored. |
| RequestHead.OrderIsKept | transport/http1_transport.go:882-922 | A stored order is used, its entries go out one after the other, each under its canonical name. |
| RequestHead.OrderedValues | transport/http1_transport.go:882-921 | An entry repeated n times in the order has its values written n times. |
| RequestHead.SpecialNames | transport/http1_transport.go:850-852 | A name equal to Content-Length or Transfer-Encoding up to case has that canonical form. |
| SpeculativeConn.ReadsDeliverTheTunnel | transport/speculative_conn.go:87-161 | For every chunking of the stream, every error in between and all buffer sizes, what Read returns is a prefix of the stream after the first CRLFCRLF, nothing unless the status was 200, and all of it once everything has arrived and been read. |
| SpeculativeConn.NoHeadNoData | transport/speculative_conn.go:110-161 | A stream without a complete response head never yields data. |
| SpeculativeConn.ReadsAreFaithful | transport/speculative_conn.go:87-161 | Every sequence of reads keeps the relation between stream, header buffer, read buffer and bytes delivered. |
| SpeculativeConn.StripErrors | transport/speculative_conn.go:110-145 | Each error has its cause in the bytes received, success leaves the header buffer empty, a failed read leaves no complete head behind, and the buffer never exceeds 16384+8192 bytes up to the first error. |
| SpeculativeConn.GoodHeadIsStripped | transport/speculative_conn.go:110-161 | A 200 head within the limit is stripped however finely it is chunked. |
| SpeculativeConn.ReadIsFaithful | transport/speculative_conn.go:87-108 | One Read, from either buffer or the connection, returns the next bytes of the tunnel and at most as many as asked for. |
| SpeculativeConn.WritesFollowTheRequest | transport/speculative_conn.go:69-85 | In every sequence of accepted and failed writes, the accepted ones put on the wire the CONNECT request once, followed by their payloads in order, or nothing if none was accepted. |
| SpeculativeConn.WireIsCleanIff | transport/speculative_conn.go:69-85 | The wire carries just that if and only if every failed write failed before its first byte. |
| SpeculativeConn.ReportIsHonest | transport/speculative_conn.go:69-85 | An accepted write reports the payload's length and never counts the CONNECT request; a failed first write reports 0, a later one what it put on the wire. |
| SpeculativeConn.ReadHandsOver | transport/speculative_conn.go:87-108 | A Read hands over buffered bytes first, as many as fit, and then exactly what the connection delivers. |
| SpeculativeConn.SpeculativeConn.Write | transport/speculative_conn.go:69-85 | The method is the write step: a failed first write reports 0 bytes and will send the request again. |
| SpeculativeConn.SpeculativeConn.Read | transport/speculative_conn.go:87-108 | The method is the read step of the model. |
| SpeculativeConn.SpeculativeConn.ReadAndStripHttpResponse | transport/speculative_conn.go:110-161 | The read loop is the recursive stripping function, with every error branch. |
| ClientCookieJar.IndexIsExact | client/cookiejar.go:73-109 | Looking only into the buckets of the host and its parent domains yields exactly the cookies of a scan of all buckets, each as often, for every host and in every enumeration order. |
| ClientCookieJar.ParentsAreAfterDots | client/cookiejar.go:187-203 | Joining the parts from i on gives what follows the i-th dot of the host. |
| ClientCookieJar.AfterEveryDot | client/cookiejar.go:187-203 | Nothing that follows a dot of the host is missed. |
| ClientCookieJar.CandidatesAreDistinct | client/cookiejar.go:187-203 | No bucket is visited twice. |
| ClientCookieJar.MatchIsCandidate | client/cookie.go:52-74 | A cookie that matches a host is filed under one of the host's candidate keys. |
| ClientCookieJar.SentIsAllowed | client/cookie.go:22-91 | The expiry, domain, path and Secure tests admit exactly the cookies that an independent statement of the rules allows: not expired, https if Secure, the host equal to the domain or ending in it after a dot, the path continued at a slash. |
| ClientCookieJar.HostOfUrl | client/cookie.go:52-58 | The port is cut off and letter case does not count. |
| ClientCookieJar.ScansAgree | client/cookiejar.go:73-99 | Two duplicate-free lists of buckets that agree where anything matches scan the same cookies. |
| ClientCookieJar.StoreReplaces | client/cookiejar.go:22-51 | Setting a cookie replaces exactly the one of its domain, name and path; an expired one only deletes, a nameless one does nothing. |
| ClientCookieJar.StoreAllIsGood | client/cookiejar.go:22-51 | Setting any list of cookies keeps every cookie in its own bucket and names unique per path. |
| ClientCookieJar.StoreIsGood | client/cookiejar.go:30-50 | Setting one cookie keeps the jar's invariant. |
| ClientCookieJar.ExpireIsGood | client/cookiejar.go:137-155 | Clearing expired cookies keeps the jar's invariant. |
| ClientCookieJar.ExpireIsExact | client/cookiejar.go:137-155 | Clearing keeps exactly the cookies whose maximum age is not negative and that expire later than now. |
| ClientCookieJar.ExpiryIsUnseen | client/cookiejar.go:137-155 | Clearing expired cookies changes no later lookup. |
| ClientCookieJar.ExpiryAtTheInstant | client/cookie.go:22-34 | Lookup and clearing disagree on a cookie if and only if it expires at this very instant. |
| ClientCookieJar.CookieJar.SetCookies | client/cookiejar.go:22-51 | The loops compute the repeated store and keep the invariant. |
| ClientCookieJar.CookieJar.GetMatchingDomains | client/cookiejar.go:187-203 | The result is the host's candidates that have a bucket, in order. |
| ClientCookieJar.CookieJar.Cookies | client/cookiejar.go:73-109 | The result is exactly the stored cookies that the rules allow for the URL, each as often as a full scan finds it, in order of non-increasing path length. |
| ClientCookieJar.CookieJar.ClearDomain | client/cookiejar.go:131-135 | Exactly the bucket of the domain goes away. |
| ClientCookieJar.CookieJar.ClearExpired | client/cookiejar.go:137-155 | Every bucket keeps exactly its live cookies in order, and emptied buckets go away. |
| SessionCookieJar.SentWhereAllowed | session/cookie_jar.go:39-150 | For every run of Set calls, a cookie returned for a host was set by the last accepted call for its slot: by the same host if host-only, else both hosts domain-match its domain by RFC 6265; a Secure one was set by and is sent to secure requests only. |
| SessionCookieJar.LastWriteWins | session/cookie_jar.go:39-96 | A slot holds exactly what the last accepted Set for it stored, and nothing else is in the jar. |
| SessionCookieJar.DomainMatchIsRfc | session/cookie_jar.go:446-454 | The suffix test is section 5.1.3 of RFC 6265 for host names. |
| SessionCookieJar.PathMatchIsRfc | session/cookie_jar.go:456-471 | The path test is section 5.1.4 of RFC 6265: equal, or a continuation at a slash. |
| SessionCookieJar.HostIsNormal | session/cookie_jar.go:43-48 | Port and letter case do not count, and colons inside brackets do not start a port. |
| SessionCookieJar.AnswersMean | session/cookie_jar.go:98-150 | A stored cookie goes to a request if and only if its domain is empty, the host, or dotted and domain-matched; it is not host-only or the host is its domain; its path matches; Secure only over secure; and it has not expired. |
| SessionCookieJar.AcceptedMeans | session/cookie_jar.go:39-96 | Set accepts a cookie if and only if the host domain-matches its domain and a Secure one comes over secure; it stores all its fields, the path or "/", and the host or the dotted domain. |
| SessionCookieJar.SetIsReturned | session/cookie_jar.go:39-150 | An accepted cookie is returned to its host, or to every host that domain-matches its domain, on every matching path until it expires. |
| SessionCookieJar.KeysAreInjective | session/cookie_jar.go:35-37 | Distinct pairs of NUL-free path and name never share a slot. |
| SessionCookieJar.PathsCollideIff | session/cookie_jar.go:35-37 | Two different paths can share a slot if and only if one continues the other after a NUL. |
| SessionCookieJar.EveryRunIsConsistent | session/cookie_jar.go:39-374 | Every run of Set, SetSimple, Delete, ClearExpired, Clear and Import leaves each cookie in the slot its own fields name. |
| SessionCookieJar.RunsAreConsistent | session/cookie_jar.go:39-96 | The same for runs of Set alone, without conditions. |
| SessionCookieJar.ExportsOwnTheirDomains | session/cookie_jar.go:295-329 | What an export lists under a domain belongs to it, so it can be imported into any consistent jar. |
| SessionCookieJar.RoundTripIff | session/cookie_jar.go:295-374 | Exporting a consistent jar and importing into an empty one is invisible to every later request if and only if each live cookie that a request can match has the host-only flag its domain suggests. |
| SessionCookieJar.RoundTripShape | session/cookie_jar.go:331-374 | The reloaded jar holds exactly the unexpired cookies, changed at most in the host-only flag. |
| SessionCookieJar.FaithfulRoundTrip | session/cookie_jar.go:295-374 | The positive half, request by request. |
| SessionCookieJar.UnfaithfulIsSeen | session/cookie_jar.go:347-352 | A cookie with another flag is told apart by a concrete request. |
| SessionCookieJar.SetJarsRoundTrip | session/cookie_jar.go:295-374 | Jars filled by Set from hosts without a leading dot always round-trip. |
| SessionCookieJar.SimpleIsFaithfulIff | session/cookie_jar.go:194-227 | SetSimple stores the cookie in its slot and touches no other, and the cookie meets that condition if and only if it names a domain. |
| SessionCookieJar.SameAnswersSameOrder | session/cookie_jar.go:142-149 | Jars that a request cannot tell apart answer it in the same order up to ties. |
| SessionCookieJar.SameOrderUpToTies | session/cookie_jar.go:142-149 | Two sorted lists of the same cookies differ at most in the order of ties. |
| SessionCookieJar.DeleteIsExact | session/cookie_jar.go:229-259 | A deletion takes exactly the cookies of that name from the buckets of that exact domain, or from all. |
| SessionCookieJar.DeleteFindsDomainCookieIff | session/cookie_jar.go:229-259 | Deleting a domain cookie by the domain it was set with works if and only if that was written with a leading dot. |
| SessionCookieJar.ClearExpiredIsUnseen | session/cookie_jar.go:267-282 | Clearing expired cookies changes no request from that instant on. |
| SessionCookieJar.CookieJar.SetCookie | session/cookie_jar.go:39-96 | The method is the Set function, both rejections included. |
| SessionCookieJar.CookieJar.SetSimpleCookie | session/cookie_jar.go:194-227 | The method is the SetSimple function. |
| SessionCookieJar.CookieJar.Get | session/cookie_jar.go:98-150 | The result is exactly the matching cookies, each once, longer paths first and older cookies first among equally long ones. |
| SessionCookieJar.CookieJar.DeleteCookie | session/cookie_jar.go:229-259 | Both branches compute the deletion. |
| SessionCookieJar.CookieJar.ClearExpiredCookies | session/cookie_jar.go:267-282 | The loops keep exactly the live cookies and drop emptied buckets. |
| SessionCookieJar.CookieJar.Export | session/cookie_jar.go:295-329 | Every live cookie of every bucket is listed once, and no empty bucket is. |
| SessionCookieJar.CookieJar.ImportCookies | session/cookie_jar.go:331-374 | The loops compute the import, whatever the map order. |
| TlsSessionCache.RunIsLru | transport/tls_cache.go:186-312 | In every run whose imports bring no cached key, the order list names exactly the cached keys, once each, and is the tail of the last-touch order; the cached values are the last ones stored. |
| TlsSessionCache.GetAnswers | transport/tls_cache.go:186-245 | A hit answers with the session last stored under the key; a miss with what the backend has if that is at most 24 hours old, and else with nothing. |
| TlsSessionCache.RunAnswers | transport/tls_cache.go:186-245 | The same after every run whose imports bring no cached key. |
| TlsSessionCache.StoredIsFound | transport/tls_cache.go:186-312 | A session just put or loaded is found by the next Get, whatever was evicted for it. |
| TlsSessionCache.ImportBrings | transport/tls_cache.go:371-412 | Before evicting, an import has cached exactly the readable sessions that are at most 24 hours old, over what was cached under their keys. |
| TlsSessionCache.StepKeepsLru | transport/tls_cache.go:186-312 | Each operation keeps this. |
| TlsSessionCache.RunKeepsSize | transport/tls_cache.go:186-421 | With any imports, cached keys stay within the order list and at most 33 are cached. |
| TlsSessionCache.StepKeepsSize | transport/tls_cache.go:269-275 | The same for one operation, and at most 32 after an import or a load from the backend. |
| TlsSessionCache.PutKeepsLimitIff | transport/tls_cache.go:287-312 | Put leaves at most 32 entries if and only if the key is cached and there were at most 32, or it is new and there were fewer; a new key leaves exactly one more than the smaller of the old size and 32, because Put evicts before it inserts. |
| TlsSessionCache.EvictStopsAtTarget | transport/tls_cache.go:269-275 | Eviction leaves exactly the smaller of the old size and 32. |
| TlsSessionCache.ImportIsExactIffFresh | transport/tls_cache.go:371-414 | Import keeps the order list exact for every iteration order of the imported map if and only if no accepted key is cached already. |
| TlsSessionCache.StaleImportIsInexact | transport/tls_cache.go:402-404 | A cached key imported last always spoils the order list. |
| TlsSessionCache.EvictReachesTarget | transport/tls_cache.go:269-275 | Eviction gets down to 32 whenever the cached keys are within the order list. |
| TlsSessionCache.EvictKeepsExact | transport/tls_cache.go:269-275 | Eviction keeps the order list exact. |
| TlsSessionCache.EvictTakesTheFront | transport/tls_cache.go:269-275 | Eviction takes keys from the front only and changes no value. |
| TlsSessionCache.PersistableSessionCache.GetSession | transport/tls_cache.go:186-245 | Hit, miss, expired load and successful load are the Get function, order list included. |
| TlsSessionCache.PersistableSessionCache.EvictIfNeeded | transport/tls_cache.go:269-275 | The loop is the eviction function. |
| TlsSessionCache.PersistableSessionCache.Reorder | transport/tls_cache.go:277-285 | The in-place splice moves the first occurrence of the key to the end and leaves an unlisted key alone. |
| TlsSessionCache.PersistableSessionCache.PutSession | transport/tls_cache.go:287-312 | Update and insertion are the Put function. |
| TlsSessionCache.PersistableSessionCache.ImportSessions | transport/tls_cache.go:371-414 | The loop with its two rejections, then one eviction, is the Import function. |
| TlsSessionCache.PersistableSessionCache.Clear | transport/tls_cache.go:416-421 | Both the map and the order list are emptied. |
| Redirects.ChainPromises | session/session.go:198-410 | For every chain: after a cross-origin or downgrade hop no later request carries an authorization header in any letter case (and no referer after a downgrade); a request carries the first one's body exactly while all redirects were 307 or 308; its method is GET once a redirect was 303, or 301 or 302 of a POST, and else the first one's. |
| Redirects.ChainIsBounded | session/session.go:259-364 | At most (maxRedirects+1)*(maxRetries+1) transport calls are made, the history lists exactly the redirects followed, and too many redirects is reported only when all were used. |
| Redirects.ChainObeys | session/session.go:198-410 | The log of every chain obeys, call by call, a policy written out in statuses, methods, limits and header names: when it retries, when it follows a redirect and with what; and the result is explained by the last call. |
| Redirects.ChainSends | session/session.go:211-275 | Every call of every chain carries the validators of its hop, the client hints of its attempt, and the request's own cookie (on the first hop only) before the jar's. |
| Redirects.NextIsThePolicy | session/session.go:369-402 | Method, body and exactly which headers a redirect carries over, in terms of the status, the methods and the two URLs. |
| Redirects.TestsAreThePolicy | session/session.go:228-246 | The loop's tests for retrying, for redirect statuses and for its two limits are those of the policy, defaults included. |
| Redirects.CredentialsStayDropped | session/session.go:380-398 | What a crossing hop drops never comes back. |
| Redirects.BodyAndMethod | session/session.go:369-402 | Body and method of any call, exactly, in terms of the first call and the statuses between. |
| Redirects.RedirectObeys | session/session.go:369-402 | The first call of a hop stands to the last call before it as the policy for redirects says. |
| Redirects.IndexBound | session/session.go:259-317 | A call's place in the log is bounded by its hop and attempt. |
| Redirects.RedirectCount | session/session.go:360-365 | The log shows one redirect for each hop. |
| Redirects.Session.TryAttempts | session/session.go:254-317 | The retry loop sends exactly the calls of the hop function, with headers accumulating over attempts. |
| Redirects.Session.CopyHeaders | session/session.go:380-398 | The loop with its filters copies exactly the headers that are not dropped, whatever the map order. |
| Redirects.Session.RedirectedRequest | session/session.go:369-402 | The next request's method, body and headers are those that the policy names. |
| Redirects.Session.RequestWithRedirects | session/session.go:198-410 | The recursive method appends exactly the chain's calls to the log and returns its result. |
| RetryBackoff.BackoffIsRightIff | session/session.go:304-307 | The waits up to attempt n are min(max, min*2^a) if and only if the last doubling fits 64 bits; otherwise some wait up to n is negative. |
| RetryBackoff.DefaultsOverflowAt35 | session/session.go:229-230 | With the default waits attempts 0 to 34 are right and attempt 35 is negative. |
| RetryBackoff.WrappedProduct | session/session.go:304-304 | Shift, product and wrap-around together keep the low 64 bits of the true power, for every attempt. |
| RetryBackoff.SpreadIsWithinAQuarterIff | session/session.go:309-310 | Every random wait is within a (rounded) quarter of its base if and only if the longest possible one fits 64 bits. |
| RetryBackoff.SpreadCovers | session/session.go:309-310 | Every wait in that range occurs for some random bits. |
| RetryBackoff.RoundedIsNear | session/session.go:309-309 | The conversion to a 64-bit float goes to a nearest neighbour and is exact below 2^53. |
| RetryBackoff.QuarterGrows | session/session.go:309-309 | The quarter taken through the float grows with the wait, never exceeds it, and is the exact truncated quarter below 2^53. |
| RetryBackoff.WaitIsNearNominal | session/session.go:304-310 | As long as neither the doubling nor the longest wait leaves 64 bits, every wait is within a quarter of min(max, min*2^attempt). |
| RetryBackoff.WaitIsCapped | session/session.go:304-310 | No wait exceeds the cap by more than a quarter. |
| RetryBackoff.WaitTime | session/session.go:304-310 | The statements return a wait within a quarter of min(max, min*2^attempt) unless something leaves 64 bits, and never more than a quarter above the cap. |
| HappyEyeballs.NeverWaitsInVain | pool/pool.go:484-515 | While the collector waits, the results it still expects are exactly the dials outstanding, and there is one: it never waits for a result that cannot come. |
| HappyEyeballs.ErrorMeansAllFailed | pool/pool.go:412-515 | An error without cancellation means every preferred and fallback address of the right family was dialed and failed, and the error is that of one of them. |
| HappyEyeballs.FilterIsExact | pool/pool.go:413-430 | Address by address and in order: without a local address all are dialed, with one exactly those of its family. |
| HappyEyeballs.NeverStuck | pool/pool.go:475-515 | A waiting collector can go on as soon as there is a result, none is left to wait for, or the context is cancelled. |
| HappyEyeballs.ConnectedMeansSuccess | pool/pool.go:470-505 | The returned connection is that of a dial that succeeded. |
| HappyEyeballs.SendNeverBlocks | pool/pool.go:436-460 | The channel never holds more results than it has room for, so no dial blocks on sending. |
| HappyEyeballs.StepKeepsInv | pool/pool.go:412-515 | Every step keeps the counter equal to the outstanding dials and loses no result. |
| HappyEyeballs.RunKeepsInv | pool/pool.go:412-515 | So does every run. |
| Http2Conns.InFlightIsExact | transport/http2_transport.go:122-186 | In every interleaving, retries included, inFlight is the number of calls between increment and decrement, so never negative, and a busy connection is rejected for its age only. |
| Http2Conns.StepKeepsCounts | transport/http2_transport.go:122-186 | Each step keeps the counts. |
| Http2Conns.AtMostOnePlace | transport/http2_transport.go:188-238 | A connection is never in two places: under two keys, with two makers, or shared while being closed by the transport. |
| Http2Conns.HandedOutIsShared | transport/http2_transport.go:201-237 | After the second or third check a call has the connection that the map names for its key, neither closed nor being closed: the one already there if usable, else the new one. |
| Http2Conns.PeekedIsUsable | transport/http2_transport.go:194-199 | Without the lock a call gets the connection it saw if that is usable, and else takes the slow path. |
| Http2Conns.DialsOnlyWithoutUsable | transport/http2_transport.go:207-218 | A call dials only when nothing usable is left under its key, and what was there goes to be closed. |
| Http2Conns.CallSteps | transport/http2_transport.go:122-186 | A call keeps its key, tries a second time exactly after a first failure that is not a cancellation, and ends without a response only when closed, after a failed dial, or after the second failure. |
| Http2Conns.CallStarts | transport/http2_transport.go:122-128 | A call is refused if and only if the transport is closed. |
| Http2Conns.NeverUsedForAnotherHost | transport/http2_transport.go:130-138 | A connection dialed under one key serves calls under that key only, in every run. |
| Http2Conns.UseIsRecorded | transport/http2_transport.go:143-183 | A first take-off or a response restarts the idle clock, and only a response counts as use. |
| Http2Conns.DropsAreExact | transport/http2_transport.go:823-903 | A failure drops what its key names, Refresh and Close drop everything, cleanup exactly the unusable, and what is dropped goes to be closed. |
| Http2Conns.UsableMeans | transport/http2_transport.go:240-257 | Usable means at most 300 seconds old, in use or used within 90 seconds, and with a protocol layer. |
| Http2Conns.HeldIffNeverOverwritten | transport/http2_transport.go:122-238 | At the end of every run each connection ever made is in the map, with its maker, closing or closed, if and only if no step overwrote it while it was unusable. |
| Http2Conns.LostForever | transport/http2_transport.go:223-237 | A connection that was lost is not closed or shared again by any later event of any run. |
| Http2Conns.LostIffOverwritten | transport/http2_transport.go:223-237 | A step loses track of a connection if and only if it puts a new one over it while it is unusable. |
| Http2Conns.OverwriteCanHappen | transport/http2_transport.go:229-234 | A concrete run in which this happens. |
| Http2Conns.StepPlaces | transport/http2_transport.go:823-903 | Every step keeps all places, except for the overwritten connection, and gives each new connection one. |
| Http2Conns.ClosedStaysEmpty | transport/http2_transport.go:874-889 | After Close the map stays empty in every run. |
| Http2Conns.Http2Transport.IsConnUsable | transport/http2_transport.go:240-257 | The age rule, the idle rule and the check for the protocol layer. |
| Http2Conns.Http2Transport.CheckLocked | transport/http2_transport.go:201-216 | The second check is the machine's step, dropping an unusable connection. |
| Http2Conns.Http2Transport.InsertConn | transport/http2_transport.go:223-237 | The third check is the machine's step, in all four outcomes. |
| Http2Conns.Http2Transport.BeginUse | transport/http2_transport.go:143-146 | The increment; only the first connection's last use is set. |
| Http2Conns.Http2Transport.EndUse | transport/http2_transport.go:149-183 | The decrement after success and after failure. |
| Http2Conns.Http2Transport.RemoveConn | transport/http2_transport.go:823-834 | Whatever the key now names is dropped and closed. |
| Http2Conns.Http2Transport.Cleanup | transport/http2_transport.go:862-872 | The loop drops exactly the unusable connections, whatever the map order. |
| Http2Conns.Http2Transport.Close | transport/http2_transport.go:874-889 | The first Close closes everything; later ones do nothing. |
| Http2Conns.Http2Transport.Refresh | transport/http2_transport.go:891-903 | As Close, leaving the transport open. |
| DialBudget.DialFirstSuccessful | transport/http3_transport.go:728-754 | For any addresses and outcomes: timeouts never shrink from one address to the next, none is below min(10 s, first equal share) or above 10 s, the deadline is kept, the time taken is that of the dials made, only a success stops early, and a passed deadline dials nothing. |
| DialBudget.GrantIsFair | transport/http3_transport.go:740-740 | A share granted to every address that is left just fits the time that is left. |
| DialBudget.ShareNeverShrinks | transport/http3_transport.go:738-745 | Spending at most one share never lowers the next. |
| DialBudget.AfterDial | transport/http3_transport.go:738-750 | After a dial that is not the last there is time left and the next timeout is no smaller. |
| Base64.RoundTrip | bindings/clib/sensor.go:3146-3243 | Decoding undoes encoding for every byte sequence. |
| Base64.BlockIsBase64 | bindings/clib/sensor.go:3212-3240 | The four characters of a group are its 24 bits in base 64 with the alphabet of RFC 4648. |
| Base64.SamplesOfRfc4648 | bindings/clib/sensor.go:3212-3243 | Sample encodings of RFC 4648, padding and the two signs of the alphabet included. |
| Base64.EncodeIsPaddedCore | bindings/clib/sensor.go:3229-3239 | The padding is two, one or no equals signs as the length demands, and nothing before it ends in one. |
| Base64.EncodedLength | bindings/clib/sensor.go:3212-3215 | The encoded length is 4*ceil(n/3). |
| Base64.EncodeBase64 | bindings/clib/sensor.go:3212-3243 | The loop with its padding branches is the encoding function. |
| Base64.DecodeBase64 | bindings/clib/sensor.go:3146-3193 | On arbitrary input the loop decodes every group and never writes past the computed output length, so its guards never drop a byte. |
| Base64.DecodeGroup | bindings/clib/sensor.go:3164-3190 | One round writes exactly the bytes of its group. |
| Base64.ReadGroup | bindings/clib/sensor.go:3166-3177 | The accumulator holds the group's digits, left-aligned in 24 bits; foreign characters are skipped. |
| Base64.WriteBytes | bindings/clib/sensor.go:3178-3190 | One byte fewer than digits is written, in order. |
| Base64.GroupIsShort | bindings/clib/sensor.go:3164-3190 | A group yields one byte fewer than its digits, at most three. |
| Base64.TrimRight | bindings/clib/sensor.go:3195-3210 | Trailing padding is removed, and only that. |
| Masque.RoundTripIff | proxy/masque.go:432-481 | Reading undoes writing, for any trailing bytes, if and only if the value is below 2^62. |
| Masque.ReadUndoesWrite | proxy/masque.go:432-481 | For any 64-bit value, what is read back is the value modulo 2^62, and exactly the written length is consumed. |
| Masque.ShortestForm | proxy/masque.go:460-481 | No encoding of the value is shorter (section 16 of RFC 9000). |
| Masque.SamplesOfRfc9000 | proxy/masque.go:432-458 | The sample encodings of appendix A.1 of RFC 9000 are read as their values. |
| Masque.ReadFailsIff | proxy/masque.go:432-458 | A read fails if and only if the data ends before the announced length. |
| Masque.UnwrapUndoesWrap | proxy/masque.go:276-298 | Every non-empty payload survives; an empty one is taken for no datagram. |
| Masque.UnwrapAccepts | proxy/masque.go:276-291 | A datagram is accepted if and only if it is one of the four encodings of context 0 before a non-empty payload, and then gives that payload. |
| Masque.WriteVarInt | proxy/masque.go:460-481 | The filled buffer is the encoding. |
| Masque.WrapDatagram | proxy/masque.go:293-298 | The filled buffer is the context byte and the payload. |
| Socks5Udp.ParseUndoesBuild | proxy/socks5_udp.go:571-649 | For every IPv4 or IPv6 address, port and payload: the same address (mapped ones as IPv4), the port modulo 2^16, and the payload's exact offset. |
| Socks5Udp.PortSurvivesIff | proxy/socks5_udp.go:584-590 | The port survives if and only if it is in 0..65535. |
| Socks5Udp.BuildUndoesParse | proxy/socks5_udp.go:594-649 | A numeric header is rebuilt byte for byte from its parse result, except for mapped addresses. |
| Socks5Udp.InvalidAddressIsUnspecified | proxy/socks5_udp.go:571-592 | An address of another length is sent as 0.0.0.0. |
| Socks5Udp.OffsetIsInBounds | proxy/socks5_udp.go:594-649 | The offset of every accepted packet is within the packet. |
| Socks5Udp.NamedPacketIsParsed | proxy/socks5_udp.go:617-633 | A packet with a name of n bytes: the name, the port behind it and the payload at 7 + n are found. |
| Socks5Udp.ParseErrorsMean | proxy/socks5_udp.go:594-645 | Each error has its one reason, in the order of the tests, and everything else is accepted. |
| Socks5Udp.BuildHeader | proxy/socks5_udp.go:571-592 | Whatever payload follows, parsing the built header gives the address (mapped ones as IPv4, invalid ones as 0.0.0.0), the port modulo 2^16 and the payload's exact offset. |
| Socks5Udp.ReadFrom | proxy/socks5_udp.go:476-494 | As much of the payload as fits is copied, the rest of the buffer and rejected packets leave it unchanged. |
| ServerSentEvents.TextRoundTripIff | client/stream.go:322-384 | For every sequence of events: written as text, split by the scanner and read by Next until the end, it comes back exactly if and only if no event name or id contains a newline and no line of an event ends in a carriage return. |
| ServerSentEvents.TextRoundTrip | client/stream.go:322-384 | What comes back otherwise, for one-line names: the same events with one trailing carriage return off each line. |
| ServerSentEvents.ReadingUndoesPrinting | client/stream.go:322-384 | However the events are written (any field style, comments, unknown and repeated fields, empty lines anywhere), reading the lines until the end returns exactly those events, in order. |
| ServerSentEvents.MeaningByName | client/stream.go:337-372 | What the reader accumulates is, field by field, the last event, id and retry written and all data lines. |
| ServerSentEvents.BlocksAreRead | client/stream.go:322-384 | Any printed blocks are read one by one as what their items mean. |
| ServerSentEvents.NextReadsABlock | client/stream.go:322-384 | Next returns the first event and leaves exactly the rest. |
| ServerSentEvents.LineIsRead | client/stream.go:337-361 | Every printed line is read as the field and value it stands for. |
| ServerSentEvents.LastEventNeedsNoBlank | client/stream.go:374-383 | An event cut off before its empty line is still delivered as written. |
| ServerSentEvents.NoDataNoEvent | client/stream.go:329-335 | A block without data is not delivered, and its fields carry over to the next one. |
| ServerSentEvents.SseReader.Next | client/stream.go:322-384 | The loop over lines is the scanning function, and a scanner error is reported only when no empty line ended an event first. |
| ServerSentEvents.ParseRetry | client/stream.go:361-370 | The digit loop reads the leading number. |
| Text.DecimalIsRead | client/stream.go:361-370 | A number printed in decimal is read as that number, as the retry field is. |

## Left out

- HTTP/1: write errors of the buffered writer, the copying of bodies that are not chunked, and the streaming and given-connection variants of RoundTrip. A connection's last use is set when its exchange ends, as one step.
- RequestHead: the request line and the Host line; the two reserved map keys for header orders are those of the http package, which is not part of this model.
- Case folding of non-ASCII text: `ToLower` and `EqualFold` are modelled on ASCII letters, in all modules.
- SpeculativeConn: an underlying Read that returns bytes together with an error, calls from several goroutines, and the parsing of the status line, which is a parameter.
- Cookies: parsing of Set-Cookie headers and dates, `GetAll`, `ImportV4` and `Count`; the order that the library sorts give to ties. Both jars' locks make each method atomic.
- SessionCookieJar.DomainMatchIsRfc: section 5.1.3 of RFC 6265 also excludes IP addresses, which the code does not look at.
- TlsSessionCache: key formatting, the backend's own calls and errors, and Export; what the backend returns is an input.
- Redirects: URL parsing and the resolution of Location (a URL is an abstract origin and a rest), the extraction of cookies, client hints and validators from responses (their effect on the next call is an input), and a nil configuration.
- RetryBackoff.BackoffIsRightIff: the configured waits are taken as durations; their conversion from milliseconds can overflow on its own.
- HappyEyeballs: the order of results in the channel (any order is allowed), and the losing connections that stay in the channel.
- Http2Conns: how a connection is made, and requests on the wire.
- DialBudget: a context that is cancelled before its deadline, and the dial itself, which takes its time and ends by its timeout.
- Socks5Udp: name resolution is a parameter.
- ServerSentEvents: decoding bytes into text, the scanner's limit on the length of a line, and overflow of the retry number. As in the code, fields of a block without data carry over to the next event, unlike in the WHATWG standard.
- `raceH3H2`, `client.doOnce`, fingerprint and preset tables, TLS and QUIC handshakes, decompression, the local proxy and the language bindings beyond base64.
