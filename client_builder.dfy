/** The HTTP client configuration of src/httpdir/http_client_builder.rs: a mutable builder
    whose fields become the client's settings, the basic-auth header it computes,
    and the redirect policy that keeps a scan on the target host. */
module ClientBuilder {
  import opened Common
  import opened Text
  import opened Net
  import Base64

  // ---------------------------------------------------------------------------
  // Redirect policy

  /** `redirect::Policy`: reqwest's default, or the closure built by
      `redirect_policy_keep_on_domain` over the target's host and a cap. */
  datatype RedirectPolicy = DefaultPolicy | KeepOnDomain(host: Option<string>, maxRedirects: nat)

  /** `attempt.follow()`, `attempt.stop()`, `attempt.error("too many redirects")`. */
  datatype RedirectAction = Follow | Stop | TooManyRedirects

  /** The keep-on-domain closure. `previous` is the number of URLs already requested in
      this chain (the original request included), `next` is where the redirect points. */
  function RedirectDecision(host: Option<string>, maxRedirects: nat, previous: nat, next: Url): (a: RedirectAction)
    ensures a == TooManyRedirects <==> previous > maxRedirects
    ensures a == Stop <==> previous <= maxRedirects && next.host != host
    ensures a == Follow <==> previous <= maxRedirects && next.host == host
  {
    if previous > maxRedirects then TooManyRedirects
    else if next.host != host then Stop
    else Follow
  }

  /** How many of the offered redirects `hops` a client with this policy follows, when
      `previous` URLs were requested before the first of them. */
  function Followed(host: Option<string>, maxRedirects: nat, previous: nat, hops: seq<Url>): (n: nat)
    ensures n <= |hops|
    ensures forall k :: 0 <= k < n ==> RedirectDecision(host, maxRedirects, previous + k, hops[k]) == Follow
    ensures n < |hops| ==> RedirectDecision(host, maxRedirects, previous + n, hops[n]) != Follow
    decreases |hops|
  {
    if hops == [] || RedirectDecision(host, maxRedirects, previous, hops[0]) != Follow then 0
    else 1 + Followed(host, maxRedirects, previous + 1, hops[1..])
  }

  /** The redirects followed after one original request. */
  function FollowedFromRequest(host: Option<string>, maxRedirects: nat, hops: seq<Url>): nat {
    Followed(host, maxRedirects, 1, hops)
  }

  lemma {:induction false} FollowedBound(host: Option<string>, maxRedirects: nat, previous: nat, hops: seq<Url>)
    requires previous >= 1
    ensures previous + Followed(host, maxRedirects, previous, hops) <= maxRedirects + 1
            || Followed(host, maxRedirects, previous, hops) == 0
    decreases |hops|
  {
    if hops != [] && RedirectDecision(host, maxRedirects, previous, hops[0]) == Follow {
      FollowedBound(host, maxRedirects, previous + 1, hops[1..]);
    }
  }

  /** A chain never follows more redirects than the cap, and every redirect it follows
      stays on the target's host. */
  lemma RedirectsCappedAndOnDomain(host: Option<string>, maxRedirects: nat, hops: seq<Url>)
    ensures FollowedFromRequest(host, maxRedirects, hops) <= maxRedirects
    ensures forall k :: 0 <= k < FollowedFromRequest(host, maxRedirects, hops) ==> hops[k].host == host
  {
    FollowedBound(host, maxRedirects, 1, hops);
  }

  /** A chain is followed to its end exactly when it is no longer than the cap and
      never leaves the target's host. */
  lemma WholeChainFollowedIff(host: Option<string>, maxRedirects: nat, hops: seq<Url>)
    ensures FollowedFromRequest(host, maxRedirects, hops) == |hops|
        <==> |hops| <= maxRedirects && forall k :: 0 <= k < |hops| ==> hops[k].host == host
  {
    RedirectsCappedAndOnDomain(host, maxRedirects, hops);
  }

  // ---------------------------------------------------------------------------
  // Authorization header

  /** `HeaderValue::from_bytes` of the http crate: every byte visible ASCII, space,
      obs-text (0x80 and up) or horizontal tab; DEL and other controls are refused. */
  predicate IsHeaderValueByte(b: Byte) {
    (b >= 0x20 && b != 0x7F) || b == 0x09
  }

  function HeaderValueFromBytes(bytes: seq<Byte>): (r: Option<seq<Byte>>)
    ensures r.Some? <==> forall k :: 0 <= k < |bytes| ==> IsHeaderValueByte(bytes[k])
    ensures r.Some? ==> r.value == bytes
  {
    if forall k :: 0 <= k < |bytes| ==> IsHeaderValueByte(bytes[k]) then Some(bytes) else None
  }

  /** The credentials text: the username, a colon, then the password if there is one. */
  function Credentials(username: string, password: Option<string>): string {
    username + ":" + (if password.Some? then password.value else "")
  }

  /** The ASCII bytes of "Basic ". */
  const BasicPrefix: seq<Byte> := [0x42, 0x61, 0x73, 0x69, 0x63, 0x20]

  /** `create_auth_header`: "Basic " followed by the standard, padded base64 of the
      UTF-8 credentials (the scheme of RFC 7617), checked as a header value. */
  function CreateAuthHeader(username: string, password: Option<string>): Option<seq<Byte>> {
    HeaderValueFromBytes(BasicPrefix + Base64.Encode(Utf8(Credentials(username, password))))
  }

  /** The header is always accepted: base64 output is printable ASCII. */
  lemma CreateAuthHeaderNeverFails(username: string, password: Option<string>)
    ensures CreateAuthHeader(username, password).Some?
    ensures CreateAuthHeader(username, password).value[..6] == BasicPrefix
  {
    var e := Base64.Encode(Utf8(Credentials(username, password)));
    Base64.EncodeIsPrintableAscii(Utf8(Credentials(username, password)));
    var v := BasicPrefix + e;
    forall k | 0 <= k < |v| ensures IsHeaderValueByte(v[k]) {
      if k >= 6 {
        assert v[k] == e[k - 6];
      }
    }
    assert v[..6] == BasicPrefix;
  }

  /** A server decoding the header gets the credentials back. */
  lemma AuthHeaderRoundTrip(username: string, password: Option<string>)
    ensures CreateAuthHeader(username, password).Some?
    ensures Base64.Decode(CreateAuthHeader(username, password).value[6..])
         == Some(Utf8(Credentials(username, password)))
  {
    CreateAuthHeaderNeverFails(username, password);
    var c := Utf8(Credentials(username, password));
    assert (BasicPrefix + Base64.Encode(c))[6..] == Base64.Encode(c);
    Base64.DecodeEncode(c);
  }

  // ---------------------------------------------------------------------------
  // The builder

  /** One entry of a `HeaderMap`, in insertion order. */
  datatype Header = Header(name: string, value: seq<Byte>)

  const Authorization: string := "authorization"

  /** What the built `reqwest::Client` is configured with. */
  datatype ClientSettings = ClientSettings(
    defaultHeaders: seq<Header>,
    gzip: bool,
    redirect: RedirectPolicy,
    userAgent: Option<string>,
    timeoutMs: Option<nat>)

  /** `HttpClientBuilder`: settings gathered before `build`. */
  class HttpClientBuilder {
    var headerMap: seq<Header>
    var redirectPolicy: RedirectPolicy
    var gzip: bool
    var userAgent: string
    var timeoutMs: Option<I32>

    /** A stored timeout is always positive. */
    predicate Valid()
      reads this
    {
      timeoutMs.Some? ==> timeoutMs.value > 0
    }

    /** `HttpClientBuilder::new`. */
    constructor ()
      ensures headerMap == [] && redirectPolicy == DefaultPolicy && !gzip
      ensures userAgent == "" && timeoutMs == None
      ensures Valid()
    {
      headerMap := [];
      redirectPolicy := DefaultPolicy;
      gzip := false;
      userAgent := "";
      timeoutMs := None;
    }

    /** `build`: the settings, with the timeout applied only when positive;
        `None` when reqwest's client construction fails (`backendReady` false). */
    method Build(backendReady: bool) returns (client: Option<ClientSettings>)
      ensures backendReady <==> client.Some?
      ensures client.Some? ==> client.value.defaultHeaders == headerMap && client.value.gzip == gzip
      ensures client.Some? ==> client.value.redirect == redirectPolicy
      ensures client.Some? ==> client.value.userAgent == Some(userAgent)
      ensures client.Some? ==> (client.value.timeoutMs.Some? <==> timeoutMs.Some? && timeoutMs.value > 0)
      ensures client.Some? && client.value.timeoutMs.Some? ==> client.value.timeoutMs.value == timeoutMs.value
      ensures client.Some? && Valid() ==>
        (client.value.timeoutMs.Some? <==> timeoutMs.Some?)
    {
      var timeout: Option<nat> := None;
      if timeoutMs.Some? {
        var t := timeoutMs.value;
        if t > 0 {
          timeout := Some(t);
        }
      }
      if !backendReady {
        return None;
      }
      client := Some(ClientSettings(headerMap, gzip, redirectPolicy, Some(userAgent), timeout));
    }

    /** `basic_auth`: appends an `authorization` header; never fails. */
    method BasicAuth(username: string, password: Option<string>) returns (ok: bool)
      modifies this
      ensures ok
      ensures headerMap == old(headerMap) + [Header(Authorization, CreateAuthHeader(username, password).value)]
      ensures redirectPolicy == old(redirectPolicy) && gzip == old(gzip)
      ensures userAgent == old(userAgent) && timeoutMs == old(timeoutMs)
    {
      var value := CreateAuthHeader(username, password);
      CreateAuthHeaderNeverFails(username, password);
      if value.None? {
        return false;
      }
      headerMap := headerMap + [Header(Authorization, value.value)];
      ok := true;
    }

    /** `gzip`. */
    method Gzip(enabled: bool)
      modifies this
      ensures gzip == enabled
      ensures headerMap == old(headerMap) && redirectPolicy == old(redirectPolicy)
      ensures userAgent == old(userAgent) && timeoutMs == old(timeoutMs)
    {
      gzip := enabled;
    }

    /** `timeout_ms`: a non-positive value clears the timeout. */
    method TimeoutMs(t: I32)
      modifies this
      ensures timeoutMs == (if t > 0 then Some(t) else None)
      ensures Valid()
      ensures headerMap == old(headerMap) && redirectPolicy == old(redirectPolicy)
      ensures gzip == old(gzip) && userAgent == old(userAgent)
    {
      if t > 0 {
        timeoutMs := Some(t);
      } else {
        timeoutMs := None;
      }
    }

    /** `user_agent`. */
    method UserAgent(agent: string)
      modifies this
      ensures userAgent == agent
      ensures headerMap == old(headerMap) && redirectPolicy == old(redirectPolicy)
      ensures gzip == old(gzip) && timeoutMs == old(timeoutMs)
    {
      userAgent := agent;
    }

    /** `redirect_policy_keep_on_domain`. */
    method RedirectPolicyKeepOnDomain(domain: Url, maxRedirects: nat)
      modifies this
      ensures redirectPolicy == KeepOnDomain(domain.host, maxRedirects)
      ensures headerMap == old(headerMap) && gzip == old(gzip)
      ensures userAgent == old(userAgent) && timeoutMs == old(timeoutMs)
    {
      redirectPolicy := KeepOnDomain(domain.host, maxRedirects);
    }
  }
}
