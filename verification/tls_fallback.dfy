/** HTTP requests that fall back from one TLS library to the other, and from checking certificates to
    accepting any, while remembering per server what worked. */
module TlsFallback {
  import opened Wrappers

  datatype TlsType = Plain | Rustls | NativeTls

  datatype Outcome = Response | RequestError | OtherError

  /** One request sent: with which library, and whether any certificate is accepted. */
  datatype Attempt = Attempt(tls: TlsType, lax: bool)

  /** What the network does with the n-th attempt ever made. */
  type Network = nat -> Outcome

  type Url = string

  function Lookup<T>(m: map<Url, T>, url: Url): Option<T> {
    if url in m then Some(m[url]) else None
  }

  // ----- what is tried

  function Types(tls: Option<TlsType>): seq<TlsType> {
    if tls.Some? then [tls.value] else [Rustls, NativeTls]
  }

  function Policies(cert: Option<bool>): seq<bool> {
    if cert.Some? then [cert.value] else [false, true]
  }

  function Each(tls: TlsType, policies: seq<bool>): seq<Attempt> {
    if policies == [] then [] else [Attempt(tls, policies[0])] + Each(tls, policies[1..])
  }

  function Product(types: seq<TlsType>, policies: seq<bool>): seq<Attempt> {
    if types == [] then [] else Each(types[0], policies) + Product(types[1..], policies)
  }

  /** The attempts of a plan that are made: up to the first that is not refused with a request error. */
  function Made(net: Network, start: nat, plan: seq<Attempt>): (r: seq<Attempt>)
    ensures r <= plan && (plan != [] ==> r != [])
    ensures forall n: nat :: start <= n < start + |r| - 1 ==> net(n).RequestError?
    ensures r != [] && |r| < |plan| ==> !net(start + |r| - 1).RequestError?
    decreases |plan|
  {
    if plan == [] then []
    else [plan[0]] + if net(start).RequestError? then Made(net, start + 1, plan[1..]) else []
  }

  function Plan(tls: Option<TlsType>, cert: Option<bool>, original: Option<bool>): seq<Attempt> {
    if tls.Some? then Each(tls.value, Policies(cert))
    else Each(Rustls, Policies(cert)) + Each(NativeTls, Policies(original))
  }

  // ----- the client

  /** What worked for each server, and every attempt made so far. */
  datatype Client = Client(tlsCache: map<Url, TlsType>, certCache: map<Url, bool>, log: seq<Attempt>) {
    function Tried(a: Attempt): Client {
      this.(log := log + [a])
    }

    function Remember(url: Url, a: Attempt): Client {
      this.(tlsCache := tlsCache[url := a.tls], certCache := certCache[url := a.lax])
    }
  }

  function First(tls: Option<TlsType>, cert: Option<bool>): Attempt {
    Attempt(if tls.Some? then tls.value else Rustls, if cert.Some? then cert.value else false)
  }

  /** A request with its fallbacks: the client afterwards, and whether there was a response. */
  function Requested(net: Network, c: Client, url: Url, tls: Option<TlsType>, cert: Option<bool>,
                     original: Option<bool>): (Client, bool)
    decreases tls.None?, cert.None?
  {
    var a := First(tls, cert);
    var d := c.Tried(a);
    match net(|c.log|)
    case Response => (d.Remember(url, a), true)
    case OtherError => (d, false)
    case RequestError =>
      if cert.None? then Requested(net, d, url, tls, Some(true), original)
      else if tls.None? then Requested(net, d, url, Some(NativeTls), original, original)
      else (d, false)
  }

  class HttpClient {
    const net: Network
    var tlsCache: map<Url, TlsType>
    var certCache: map<Url, bool>
    var log: seq<Attempt>

    function View(): Client
      reads this
    {
      Client(tlsCache, certCache, log)
    }

    method Send(a: Attempt) returns (r: Outcome)
      modifies this`log
      ensures log == old(log) + [a] && r == net(|old(log)|)
    {
      r := net(|log|);
      log := log + [a];
    }

    method Upsert(url: Url, tls: TlsType, lax: bool)
      modifies this`tlsCache, this`certCache
      ensures tlsCache == old(tlsCache)[url := tls] && certCache == old(certCache)[url := lax]
    {
      tlsCache := tlsCache[url := tls];
      certCache := certCache[url := lax];
    }

    method PostRequest(url: Url, tls: Option<TlsType>, cert: Option<bool>, original: Option<bool>) returns (ok: bool)
      modifies this
      ensures (View(), ok) == Requested(net, old(View()), url, tls, cert, original)
      decreases tls.None?, cert.None?
    {
      var tlsType := if tls.Some? then tls.value else Rustls;
      var lax := if cert.Some? then cert.value else false;
      var r := Send(Attempt(tlsType, lax));
      if r.Response? {
        Upsert(url, tlsType, lax);
        return true;
      }
      if tls.Some? && cert.Some? {
        return false;
      }
      if r.RequestError? {
        if cert.None? {
          ok := PostRequest(url, tls, Some(true), original);
        } else {
          ok := PostRequest(url, Some(NativeTls), original, original);
        }
      } else {
        return false;
      }
    }

    /** `valid` is whether the method name is known and the header parses; both are looked at before
        every attempt. */
    method GetHttpResponse(url: Url, valid: bool, tls: Option<TlsType>, cert: Option<bool>, original: Option<bool>)
      returns (ok: bool)
      modifies this
      ensures (View(), ok) == if valid then Requested(net, old(View()), url, tls, cert, original)
                              else (old(View()), false)
      decreases tls.None?, cert.None?
    {
      if !valid {
        return false;
      }
      var tlsType := if tls.Some? then tls.value else Rustls;
      var lax := if cert.Some? then cert.value else false;
      var r := Send(Attempt(tlsType, lax));
      if r.Response? {
        Upsert(url, tlsType, lax);
        return true;
      }
      if (tls.None? || cert.None?) && r.RequestError? {
        if cert.None? {
          ok := GetHttpResponse(url, valid, tls, Some(true), original);
        } else {
          ok := GetHttpResponse(url, valid, Some(NativeTls), original, original);
        }
      } else {
        return false;
      }
    }

    /** A request starts from what is known about the server. */
    method Post(url: Url) returns (ok: bool)
      modifies this
      ensures (View(), ok) == Posted(net, old(View()), url)
    {
      var tls := if url in tlsCache then Some(tlsCache[url]) else None;
      var cert := if url in certCache then Some(certCache[url]) else None;
      ok := PostRequest(url, tls, cert, cert);
    }
  }

  function Posted(net: Network, c: Client, url: Url): (Client, bool) {
    Requested(net, c, url, Lookup(c.tlsCache, url), Lookup(c.certCache, url), Lookup(c.certCache, url))
  }

  // ----- requests follow their plan

  /** The attempts of a plan are made in order until one is not refused with a request error; the
      request succeeds when the last one made is answered, and that one is remembered. */
  ghost predicate Follows(net: Network, c: Client, url: Url, plan: seq<Attempt>, d: Client, ok: bool) {
    var made := Made(net, |c.log|, plan);
    && made != [] && d.log == c.log + made
    && ok == net(|d.log| - 1).Response?
    && d.tlsCache == (if ok then c.tlsCache[url := made[|made| - 1].tls] else c.tlsCache)
    && d.certCache == (if ok then c.certCache[url := made[|made| - 1].lax] else c.certCache)
  }

  lemma {:induction false} FollowsNext(net: Network, c: Client, url: Url, a: Attempt, rest: seq<Attempt>,
                                       d: Client, ok: bool)
    requires net(|c.log|).RequestError? && Follows(net, c.Tried(a), url, rest, d, ok)
    ensures Follows(net, c, url, [a] + rest, d, ok)
  {
    var later := Made(net, |c.log| + 1, rest);
    assert ([a] + rest)[1..] == rest;
    assert Made(net, |c.log|, [a] + rest) == [a] + later;
    assert c.log + [a] + later == c.log + ([a] + later);
  }

  lemma {:induction false} RequestedFollows(net: Network, c: Client, url: Url, tls: Option<TlsType>, cert: Option<bool>,
                                            original: Option<bool>)
    ensures var (d, ok) := Requested(net, c, url, tls, cert, original);
            Follows(net, c, url, Plan(tls, cert, original), d, ok)
    decreases tls.None?, cert.None?
  {
    var a := First(tls, cert);
    var (d, ok) := Requested(net, c, url, tls, cert, original);
    PlanStarts(tls, cert, original);
    if net(|c.log|).RequestError? && cert.None? {
      RequestedFollows(net, c.Tried(a), url, tls, Some(true), original);
      FollowsNext(net, c, url, a, Plan(tls, Some(true), original), d, ok);
    } else if net(|c.log|).RequestError? && tls.None? {
      RequestedFollows(net, c.Tried(a), url, Some(NativeTls), original, original);
      FollowsNext(net, c, url, a, Plan(Some(NativeTls), original, original), d, ok);
    } else {
      MadeOne(net, |c.log|, Plan(tls, cert, original));
    }
  }

  lemma {:induction false} MadeOne(net: Network, start: nat, plan: seq<Attempt>)
    requires plan != [] && (!net(start).RequestError? || |plan| == 1)
    ensures Made(net, start, plan) == [plan[0]]
  {
  }

  lemma {:induction false} PlanStarts(tls: Option<TlsType>, cert: Option<bool>, original: Option<bool>)
    ensures Plan(tls, cert, original) ==
            [First(tls, cert)] +
            (if cert.None? then Plan(tls, Some(true), original)
             else if tls.None? then Plan(Some(NativeTls), original, original)
             else [])
  {
    EachTwice(Rustls);
    var t := if tls.Some? then tls.value else Rustls;
    EachTwice(t);
    assert Each(t, [true]) == [Attempt(t, true)];
    if cert.Some? {
      assert [cert.value][1..] == [];
      assert Each(t, [cert.value]) == [Attempt(t, cert.value)];
    }
  }

  // ----- what the plans have in common

  /** A plan made from what is known tries every unknown library with every unknown policy. */
  lemma {:induction false} PlanIsProduct(tls: Option<TlsType>, cert: Option<bool>)
    ensures Plan(tls, cert, cert) == Product(Types(tls), Policies(cert))
  {
    if tls.None? {
      assert Types(tls)[1..] == [NativeTls] && Types(tls)[1..][1..] == [];
      assert Product([NativeTls], Policies(cert)) == Each(NativeTls, Policies(cert));
    }
  }

  function Unknown(tls: Option<TlsType>, cert: Option<bool>): nat {
    (if tls.None? then 1 else 0) + (if cert.None? then 1 else 0)
  }

  function Pow2(n: nat): nat {
    if n == 0 then 1 else 2 * Pow2(n - 1)
  }

  lemma {:induction false} EachTwice(tls: TlsType)
    ensures Each(tls, [false, true]) == [Attempt(tls, false), Attempt(tls, true)]
  {
    assert [false, true][1..] == [true] && [true][1..] == [];
  }

  /** At most two attempts for each thing unknown, never the same twice, and certificates are checked
      before they are ignored. */
  lemma {:induction false} PlanShape(tls: Option<TlsType>, cert: Option<bool>)
    ensures var p := Plan(tls, cert, cert);
            |p| == Pow2(Unknown(tls, cert)) &&
            (forall i, j :: 0 <= i < j < |p| ==> p[i] != p[j]) &&
            (cert.None? ==> forall j :: 0 <= j < |p| && p[j].lax ==> j > 0 && p[j - 1] == Attempt(p[j].tls, false)) &&
            (forall i :: 0 <= i < |p| ==> p[i].tls == if tls.Some? then tls.value
                                                     else if i < |p| / 2 then Rustls else NativeTls) &&
            (cert.Some? ==> forall i :: 0 <= i < |p| ==> p[i].lax == cert.value)
  {
    EachTwice(Rustls);
    EachTwice(NativeTls);
    if tls.Some? {
      EachTwice(tls.value);
    }
    assert Pow2(1) == 2 && Pow2(2) == 4;
  }

  /** A request tries every unknown library with every unknown policy, in the order of the product. */
  lemma {:induction false} PostedFollows(net: Network, c: Client, url: Url)
    ensures var (d, ok) := Posted(net, c, url);
            Follows(net, c, url, Product(Types(Lookup(c.tlsCache, url)), Policies(Lookup(c.certCache, url))), d, ok)
  {
    PlanIsProduct(Lookup(c.tlsCache, url), Lookup(c.certCache, url));
    RequestedFollows(net, c, url, Lookup(c.tlsCache, url), Lookup(c.certCache, url), Lookup(c.certCache, url));
  }

  /** After a success the next request to the server makes one attempt, the one that worked. */
  lemma {:induction false} OneAttemptAfterSuccess(net: Network, c: Client, url: Url)
    requires Posted(net, c, url).1
    ensures var d := Posted(net, c, url).0;
            d.log != [] && Posted(net, d, url).0.log == d.log + [d.log[|d.log| - 1]]
  {
    PostedFollows(net, c, url);
    var d := Posted(net, c, url).0;
    var a := d.log[|d.log| - 1];
    assert Lookup(d.tlsCache, url) == Some(a.tls) && Lookup(d.certCache, url) == Some(a.lax);
    assert First(Some(a.tls), Some(a.lax)) == a;
  }
}
