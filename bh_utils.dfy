/** The signed-request layer of lib/bh_utils.py: the HMAC chain of `_request`, the URL and body
    composition of `pass_request`, and `verify_access`. HMAC-SHA-256, base64, UTF-8 encoding and
    `json.dumps` are foreign code and stay uninterpreted. */
module BhUtils {
  import opened Wrappers
  import Json
  import Text
  import Config
  import Utils

  type Bytes = seq<bv8>

  /** The foreign primitives the chain is built from. */
  datatype Primitives = Primitives(
    hmacSha256: (Bytes, Bytes) -> Bytes,
    base64: Bytes -> string,
    utf8: string -> Bytes,
    jsonDumps: Json.Json -> string)

  const UserAgent := "bhe-python-sdk 0001"
  const ContentType := "application/json"
  const AuthScheme := "bhesignature "

  /** The `Credentials` pair, read fresh from the environment by each request. */
  datatype Credentials = Credentials(tokenId: Option<string>, tokenKey: Option<string>)

  /** The part of the timestamp that is signed: the first 13 characters, up to the hour. */
  function DateStamp(timestamp: string): (stamp: string)
    ensures Text.StartsWith(timestamp, stamp)
    ensures |timestamp| >= 13 ==> |stamp| == 13
    ensures |timestamp| < 13 ==> stamp == timestamp
  {
    if |timestamp| <= 13 then timestamp else timestamp[..13]
  }

  /** A chain of HMAC links: each message is signed with the digest of the link before it, the first
      with `key`. */
  function Chain(p: Primitives, key: Bytes, messages: seq<Bytes>): Bytes
    decreases |messages|
  {
    if messages == [] then key else Chain(p, p.hmacSha256(key, messages[0]), messages[1..])
  }

  /** The three-link chain: the operation key signs method and path, the date key signs the hour,
      and the last link signs the body (nothing at all when there is none). */
  function Signature(p: Primitives, tokenKey: string, verb: string, path: string, timestamp: string, body: Option<Bytes>): (sig: string)
    ensures sig == p.base64(Chain(p, p.utf8(tokenKey),
                                  [p.utf8(verb + path), p.utf8(DateStamp(timestamp)), body.GetOr([])]))
  {
    var operationKey := p.hmacSha256(p.utf8(tokenKey), p.utf8(verb + path));
    var dateKey := p.hmacSha256(operationKey, p.utf8(DateStamp(timestamp)));
    var links := [p.utf8(verb + path), p.utf8(DateStamp(timestamp)), body.GetOr([])];
    assert Chain(p, dateKey, links[2..]) == p.hmacSha256(dateKey, body.GetOr([])) by {
      assert links[2..][1..] == [];
    }
    assert links[1..][1..] == links[2..];
    assert links[1..] == [links[1]] + links[2..];
    p.base64(p.hmacSha256(dateKey, if body.Some? then body.value else []))
  }

  /** What `requests.request` is handed: method, URL, the five headers and the body. */
  datatype SignedRequest = SignedRequest(
    verb: string, url: string,
    userAgent: string, authorization: string, requestDate: string, signature: string, contentType: string,
    body: Option<Bytes>)

  /** How `_request` ends: the process exits because the service is down, it fails on a missing token
      key, or it sends the request. */
  datatype Dispatch = Exited | NoKey | Sent(request: SignedRequest)

  /** An HMAC-SHA-256 digester: the key and everything written to it so far. */
  class Digester {
    const key: Bytes
    var written: Bytes

    constructor (key: Bytes)
      ensures this.key == key && written == []
    {
      this.key := key;
      written := [];
    }

    method Update(data: Bytes)
      modifies this
      ensures written == old(written) + data
    {
      written := written + data;
    }

    function Digest(p: Primitives): Bytes
      reads this
    {
      p.hmacSha256(key, written)
    }
  }

  /** What `_request(method, path, full_url, body)` does, given the liveness probe, the environment
      and the clock reading `now`: exit when the service is down, fail without a token key, and
      otherwise send to `full_url` (or to `path` when `full_url` is empty) with the five headers: the
      fixed user agent and content type, "bhesignature " and the token id, the full timestamp as
      RequestDate (only its hour is signed), and the signature over the path alone. */
  function Dispatched(p: Primitives, environ: map<string, string>, probe: Option<int>, now: string,
                      verb: string, path: string, fullUrl: Option<string>, body: Option<Bytes>): (d: Dispatch)
    ensures d.Exited? <==> !Utils.IsUp(probe)
    ensures d.NoKey? <==> Utils.IsUp(probe) && Config.Get(environ, "BHE_TOKEN_KEY").None?
    ensures d.Sent? ==>
      && d.request.verb == verb && d.request.body == body
      && d.request.url == (if Text.Truthy(fullUrl) then fullUrl.value else path)
      && d.request.userAgent == "bhe-python-sdk 0001" && d.request.contentType == "application/json"
      && d.request.authorization == "bhesignature " + Config.Show(Config.Get(environ, "BHE_TOKEN_ID"))
      && d.request.requestDate == now
      && d.request.signature == Signature(p, Config.Get(environ, "BHE_TOKEN_KEY").value, verb, path, now, body)
  {
    if !Utils.IsUp(probe) then Exited
    else
      match Config.Get(environ, "BHE_TOKEN_KEY")
      case None => NoKey
      case Some(key) =>
        Sent(SignedRequest(
          verb, if Text.Truthy(fullUrl) then fullUrl.value else path,
          UserAgent, AuthScheme + Config.Show(Config.Get(environ, "BHE_TOKEN_ID")), now,
          Signature(p, key, verb, path, now, body), ContentType, body))
  }

  /** `_request`, computing the signature with three successive digesters. */
  method Request(p: Primitives, environ: map<string, string>, probe: Option<int>, now: string,
                 verb: string, path: string, fullUrl: Option<string>, body: Option<Bytes>)
    returns (d: Dispatch)
    ensures d == Dispatched(p, environ, probe, now, verb, path, fullUrl, body)
  {
    if !Utils.IsUp(probe) {
      return Exited;
    }
    var currentEnv := Config.LoadEnvVariables(environ);
    Config.LoadReads(environ, Config.TokenKey);
    Config.LoadReads(environ, Config.TokenId);
    var credentials := Credentials(currentEnv.tokenId, currentEnv.tokenKey);
    if credentials.tokenKey.None? {
      return NoKey;
    }
    var digester := new Digester(p.utf8(credentials.tokenKey.value));
    digester.Update(p.utf8(verb + path));
    ghost var operationKey := p.hmacSha256(p.utf8(credentials.tokenKey.value), p.utf8(verb + path));
    assert digester.key == p.utf8(credentials.tokenKey.value);
    assert digester.written == p.utf8(verb + path);
    assert digester.Digest(p) == operationKey;
    digester := new Digester(digester.Digest(p));
    var datetimeFormatted := now;
    digester.Update(p.utf8(DateStamp(datetimeFormatted)));
    ghost var dateKey := p.hmacSha256(operationKey, p.utf8(DateStamp(now)));
    assert digester.key == operationKey;
    assert digester.written == p.utf8(DateStamp(now));
    assert digester.Digest(p) == dateKey;
    digester := new Digester(digester.Digest(p));
    if body.Some? {
      digester.Update(body.value);
    }
    assert digester.key == dateKey;
    assert digester.written == if body.Some? then body.value else [];
    var url := if Text.Truthy(fullUrl) then fullUrl.value else path;
    var request := SignedRequest(
      verb, url, UserAgent, AuthScheme + Config.Show(credentials.tokenId), datetimeFormatted,
      p.base64(digester.Digest(p)), ContentType, body);
    return Sent(request);
  }

  /** Method and path enter the first link with no delimiter: any split of the same text signs alike. */
  lemma NoDelimiter(p: Primitives, key: string, verb1: string, path1: string, verb2: string, path2: string,
                    timestamp: string, body: Option<Bytes>)
    requires verb1 + path1 == verb2 + path2
    ensures Signature(p, key, verb1, path1, timestamp, body) == Signature(p, key, verb2, path2, timestamp, body)
  {
  }

  /** Only the hour is signed: two timestamps that agree on their first 13 characters sign alike. */
  lemma HourTruncation(p: Primitives, key: string, verb: string, path: string, t1: string, t2: string, body: Option<Bytes>)
    requires |t1| >= 13 && |t2| >= 13 && t1[..13] == t2[..13]
    ensures Signature(p, key, verb, path, t1, body) == Signature(p, key, verb, path, t2, body)
  {
    assert DateStamp(t1) == DateStamp(t2);
  }

  /** An absent body signs exactly as an empty one. */
  lemma NoBodySignsAsEmpty(p: Primitives, key: string, verb: string, path: string, timestamp: string)
    ensures Signature(p, key, verb, path, timestamp, None) == Signature(p, key, verb, path, timestamp, Some([]))
  {
  }

  /** The body argument of `pass_request`: nothing, bytes, or a JSON document. */
  datatype Payload = NoBody | Raw(bytes: Bytes) | Doc(doc: Json.Json)

  /** A document is sent as the UTF-8 bytes of its `json.dumps` rendering; bytes and "no body" pass
      through. */
  function PayloadBytes(p: Primitives, body: Payload): (b: Option<Bytes>)
    ensures body.NoBody? <==> b.None?
    ensures body.Raw? ==> b == Some(body.bytes)
    ensures body.Doc? ==> b == Some(p.utf8(p.jsonDumps(body.doc)))
  {
    match body
    case NoBody => None
    case Raw(bytes) => Some(bytes)
    case Doc(doc) => Some(p.utf8(p.jsonDumps(doc)))
  }

  /** `pass_request(method, endpoint, body)`: sent to the server URL followed by the endpoint, signed
      over the endpoint alone. */
  method PassRequest(p: Primitives, environ: map<string, string>, probe: Option<int>, now: string,
                     verb: string, endpoint: string, body: Payload)
    returns (d: Dispatch)
    ensures d == Dispatched(p, environ, probe, now, verb, endpoint, Some(Config.BuildUrl(environ) + endpoint), PayloadBytes(p, body))
    ensures Utils.IsUp(probe) && Config.Get(environ, "BHE_TOKEN_KEY").Some? ==> d.Sent?
    ensures d.Sent? ==> d.request.url == Config.BuildUrl(environ) + endpoint
    ensures d.Sent? ==> d.request.verb == verb && d.request.body == PayloadBytes(p, body)
    ensures d.Sent? ==>
      d.request.signature == Signature(p, Config.Get(environ, "BHE_TOKEN_KEY").value, verb, endpoint, now, PayloadBytes(p, body))
  {
    var currentEnv := Config.LoadEnvVariables(environ);
    var fullUrl := currentEnv.buildUrl + endpoint;
    var path := endpoint;
    var payload := PayloadBytes(p, body);
    var scheme := Config.Show(Config.Get(environ, "BHE_SCHEME"));
    assert Text.StartsWith(fullUrl, scheme + "://") by {
      assert fullUrl[..|scheme + "://"|] == Config.BuildUrl(environ)[..|scheme + "://"|];
    }
    assert fullUrl != "";
    d := Request(p, environ, probe, now, verb, path, Some(fullUrl), payload);
  }

  /** Where the server is placed does not matter to the signature: two environments that hold the
      same token key, and may differ in BHE_SCHEME, BHE_DOMAIN, BHE_PORT or anything else, make
      `pass_request` send requests with the same signature, which differ at most in their URL and
      their token id header. */
  lemma SignatureIgnoresServer(p: Primitives, env1: map<string, string>, env2: map<string, string>,
                               probe: Option<int>, now: string, verb: string, endpoint: string, body: Payload)
    requires Config.Get(env1, "BHE_TOKEN_KEY") == Config.Get(env2, "BHE_TOKEN_KEY")
    ensures var d1 := Dispatched(p, env1, probe, now, verb, endpoint, Some(Config.BuildUrl(env1) + endpoint), PayloadBytes(p, body));
            var d2 := Dispatched(p, env2, probe, now, verb, endpoint, Some(Config.BuildUrl(env2) + endpoint), PayloadBytes(p, body));
            && (d1.Sent? <==> d2.Sent?)
            && (d1.Sent? ==> d1.request.signature == d2.request.signature
                             && d1.request == d2.request.(url := d1.request.url, authorization := d1.request.authorization))
  {
  }

  const SelfEndpoint := "/api/v2/self"

  /** `verify_access()`: a signed `GET /api/v2/self` without a body; access holds iff the server
      answers 200. `server` is the status the server gives a request. */
  method VerifyAccess(p: Primitives, environ: map<string, string>, probe: Option<int>, now: string,
                      server: SignedRequest -> int)
    returns (d: Dispatch, ok: bool)
    ensures d == Dispatched(p, environ, probe, now, "GET", SelfEndpoint, Some(Config.BuildUrl(environ) + SelfEndpoint), None)
    ensures Utils.IsUp(probe) && Config.Get(environ, "BHE_TOKEN_KEY").Some? ==> d.Sent?
    ensures d.Sent? ==> d.request.verb == "GET" && d.request.url == Config.BuildUrl(environ) + SelfEndpoint
    ensures d.Sent? ==> d.request.body.None?
    ensures d.Sent? ==>
      d.request.signature == Signature(p, Config.Get(environ, "BHE_TOKEN_KEY").value, "GET", SelfEndpoint, now, None)
    ensures ok <==> d.Sent? && server(d.request) == 200
  {
    var currentEnv := Config.LoadEnvVariables(environ);
    var fullUrl := currentEnv.buildUrl + SelfEndpoint;
    var path := SelfEndpoint;
    var scheme := Config.Show(Config.Get(environ, "BHE_SCHEME"));
    assert Text.StartsWith(fullUrl, scheme + "://") by {
      assert fullUrl[..|scheme + "://"|] == Config.BuildUrl(environ)[..|scheme + "://"|];
    }
    assert fullUrl != "";
    d := Request(p, environ, probe, now, "GET", path, Some(fullUrl), None);
    match d
    case Sent(request) =>
      ok := server(request) == 200;
    case _ =>
      ok := false;
  }
}
