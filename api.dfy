/**
 * The HTTP client of the React front end (frontend/src/api.js): where it
 * sends requests, the settings every request carries, the message a
 * failed request is turned into, and the requests each helper builds.
 */
module Api {
  import opened Wrappers
  import opened Text
  import opened Js
  import opened Uri
  import Backend

  const DefaultBaseUrl := "http://127.0.0.1:8000"
  const TimeoutMs := 15000
  const JsonHeaders: map<string, string> := map["Content-Type" := "application/json"]
  const FallbackMessage := "Request failed"

  /**
   * `BASE_URL`: `window.__API_BASE__` when a window exists and the value
   * is truthy, else `REACT_APP_API_BASE_URL` when truthy, else the local
   * backend.
   */
  function BaseUrl(hasWindow: bool, apiBase: JsValue, envBaseUrl: JsValue): (url: JsValue)
    ensures hasWindow && Truthy(apiBase) ==> url == apiBase
    ensures !(hasWindow && Truthy(apiBase)) && Truthy(envBaseUrl) ==> url == envBaseUrl
    ensures !(hasWindow && Truthy(apiBase)) && !Truthy(envBaseUrl) ==> url == Str(DefaultBaseUrl)
  {
    Or(Or(if hasWindow then apiBase else Bool(false), envBaseUrl), Str(DefaultBaseUrl))
  }

  /** Whatever the environment holds, the base URL is never empty or missing. */
  lemma BaseUrlTruthy(hasWindow: bool, apiBase: JsValue, envBaseUrl: JsValue)
    ensures Truthy(BaseUrl(hasWindow, apiBase, envBaseUrl))
    ensures BaseUrl(hasWindow, apiBase, envBaseUrl) in {apiBase, envBaseUrl, Str(DefaultBaseUrl)}
  {
  }

  /** The axios instance: base URL, a 15 s timeout and a JSON content type. */
  datatype Client = Client(baseUrl: JsValue, timeoutMs: nat, headers: map<string, string>)

  function MakeClient(hasWindow: bool, apiBase: JsValue, envBaseUrl: JsValue): Client {
    Client(BaseUrl(hasWindow, apiBase, envBaseUrl), TimeoutMs, JsonHeaders)
  }

  // ---------------------------------------------------------- failures

  /**
   * The message of the error the response interceptor rejects with: the
   * first truthy of `response.data.detail`, `response.data.message` and
   * `err.message`, else "Request failed", converted to text by `new Error`.
   */
  function ErrorMessage(err: JsValue): (msg: string)
    ensures var data := Get(Get(err, "response"), "data");
      && (Truthy(Get(data, "detail")) ==> msg == ToString(Get(data, "detail")))
      && (!Truthy(Get(data, "detail")) && Truthy(Get(data, "message")) ==> msg == ToString(Get(data, "message")))
      && (!Truthy(Get(data, "detail")) && !Truthy(Get(data, "message")) && Truthy(Get(err, "message")) ==>
            msg == ToString(Get(err, "message")))
      && (!Truthy(Get(data, "detail")) && !Truthy(Get(data, "message")) && !Truthy(Get(err, "message")) ==>
            msg == FallbackMessage)
  {
    var data := Get(Get(err, "response"), "data");
    ToString(Or(Or(Or(Get(data, "detail"), Get(data, "message")), Get(err, "message")), Str(FallbackMessage)))
  }

  /** The server's `{"detail": "..."}` answer surfaces as exactly that text. */
  lemma DetailShown(detail: string, other: map<string, JsValue>)
    requires detail != ""
    ensures ErrorMessage(Object(other["response" := Object(map["data" := Object(map["detail" := Str(detail)])])])) == detail
  {
  }

  /** A failure without a response or message of its own reports "Request failed". */
  lemma NothingToShow()
    ensures ErrorMessage(Object(map[])) == FallbackMessage
    ensures ErrorMessage(Undefined) == FallbackMessage
  {
  }

  /**
   * A validation failure whose `detail` is a list of objects surfaces as
   * "[object Object]" for a single problem: `new Error` converts the list
   * with ToString.
   */
  lemma ObjectDetailShown(problem: map<string, JsValue>)
    ensures ErrorMessage(Object(map["response" := Object(map["data" := Object(map["detail" := Array([Object(problem)])])])]))
            == "[object Object]"
  {
    var elems := [Object(problem)];
    assert seq(|elems|, i requires 0 <= i < |elems| =>
             if elems[i].Undefined? || elems[i].Null? then "" else ToString(elems[i])) == ["[object Object]"];
  }

  /** The response interceptor: successes pass through untouched, failures become their message. */
  function Intercept(outcome: Result<JsValue, JsValue>): (r: Result<JsValue, string>)
    ensures outcome.Ok? <==> r.Ok?
    ensures outcome.Ok? ==> r.value == outcome.value
    ensures outcome.Err? ==> r.error == ErrorMessage(outcome.error)
  {
    match outcome
    case Ok(response) => Ok(response)
    case Err(e) => Err(ErrorMessage(e))
  }

  // ---------------------------------------------------------- requests

  datatype Verb = GET | POST | DELETE

  datatype Request = Request(verb: Verb, path: string, params: map<string, JsValue>, body: Option<JsValue>)

  /** `getBlacklist(q)`: the query parameter `q` only when `q` is truthy. */
  function BlacklistParams(q: JsValue): (params: map<string, JsValue>)
    ensures "q" in params <==> Truthy(q)
    ensures params.Keys <= {"q"}
    ensures "q" in params ==> params["q"] == q
  {
    if Truthy(q) then map["q" := q] else map[]
  }

  /** `deleteBlacklist(ip)`: "/blacklist/" and the address, percent-encoded. */
  function DeleteBlacklistPath(ip: string): string {
    "/blacklist/" + EncodeUriComponent(ip)
  }

  /**
   * Whatever the address holds ("/", "?", "#", spaces, non-ASCII text),
   * the path has one segment after "/blacklist/", and decoding that
   * segment gives the address back.
   */
  lemma DeletePathRoundTrip(ip: string)
    ensures var path := DeleteBlacklistPath(ip);
      && path[..11] == "/blacklist/"
      && '/' !in path[11..] && '?' !in path[11..] && '#' !in path[11..]
      && DecodeUriComponent(path[11..]) == Some(ip)
  {
    var path := DeleteBlacklistPath(ip);
    assert path[11..] == EncodeUriComponent(ip);
    EncodedIsSafe(ip);
    DecodeEncode(ip);
  }

  /** Distinct addresses are sent to distinct paths. */
  lemma DeletePathInjective(a: string, b: string)
    requires DeleteBlacklistPath(a) == DeleteBlacklistPath(b)
    ensures a == b
  {
    assert DeleteBlacklistPath(a)[11..] == EncodeUriComponent(a);
    assert DeleteBlacklistPath(b)[11..] == EncodeUriComponent(b);
    EncodeInjective(a, b);
  }

  /** The decoded path of a delete request is "/blacklist/" followed by the address. */
  lemma DeletePathDecodes(ip: string)
    ensures DecodeUriComponent(DeleteBlacklistPath(ip)) == Some("/blacklist/" + ip)
  {
    DecodeEncode(ip);
    DecodePlainPrefix("/blacklist/", EncodeUriComponent(ip));
  }

  /**
   * As the route is declared, a delete sent by the page reaches the handler
   * with its address exactly when the address is non-empty and holds no
   * "/": the server decodes "%2F" back to "/" before matching `{ip}`.
   */
  lemma DeleteRouteDropsSlash(ip: string)
    ensures Backend.DeleteRouteIp(DeleteBlacklistPath(ip)) == if ip != [] && '/' !in ip then Some(ip) else None
  {
    DeletePathDecodes(ip);
    var path := "/blacklist/" + ip;
    assert path[..11] == "/blacklist/" && path[11..] == ip;
  }

  /** A CIDR entry such as "10.0.0.0/8" cannot be deleted from the page: the router answers 404. */
  lemma CidrDeleteUnrouted()
    ensures Backend.DeleteRouteIp(DeleteBlacklistPath("10.0.0.0/8")).None?
  {
    DeleteRouteDropsSlash("10.0.0.0/8");
    assert "10.0.0.0/8"[8] == '/';
  }

  /** With a `{ip:path}` route every address the page sends reaches the handler unchanged. */
  lemma DeleteRouteKeepsAddress(ip: string)
    ensures Backend.DeleteRoutePathIp(DeleteBlacklistPath(ip)) == Some(ip)
  {
    DeletePathDecodes(ip);
    var path := "/blacklist/" + ip;
    assert path[..11] == "/blacklist/" && path[11..] == ip;
  }

  function RegisterUser(data: JsValue): Request { Request(POST, "/users", map[], Some(data)) }
  function LoginUser(data: JsValue): Request { Request(POST, "/auth/login", map[], Some(data)) }
  function DetectThreat(payload: JsValue): Request { Request(POST, "/detect", map[], Some(payload)) }
  function GetDetections(): Request { Request(GET, "/detections", map[], None) }
  function GetBlacklist(q: JsValue): Request { Request(GET, "/blacklist", BlacklistParams(q), None) }
  function AddBlacklist(data: JsValue): Request { Request(POST, "/blacklist", map[], Some(data)) }
  function DeleteBlacklist(ip: string): Request { Request(DELETE, DeleteBlacklistPath(ip), map[], None) }
  function Health(): Request { Request(GET, "/health", map[], None) }
}
