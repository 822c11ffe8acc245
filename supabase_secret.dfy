/**
 * The secret resolver `get_openai_api_key_from_supabase`: find the OpenAI
 * API key in the process environment or, failing that, ask the Supabase
 * secret store for it through one PostgREST RPC call.
 *
 * The environment is a map from variable names to values. The network and
 * `json.loads` are parameters: `transport` is what `urlopen` followed by
 * `resp.read().decode("utf-8")` gives for a request, `loads` is what
 * `json.loads` gives for a text, and `nfkc` is what
 * `unicodedata.normalize("NFKC", ...)` gives for a text, which the request
 * constructor uses to check the URL's network location. A call of the
 * resolver either returns a value or raises an exception, and `Resolution`
 * records which.
 */
module SupabaseSecret {
  import opened Wrappers
  import Assoc
  import PyStr
  import PyUrl
  import opened Json

  type Env = map<string, string>

  const OPENAI_API_KEY: string := "OPENAI_API_KEY"
  const SUPABASE_URL: string := "SUPABASE_URL"
  const SUPABASE_SERVICE_ROLE_KEY: string := "SUPABASE_SERVICE_ROLE_KEY"
  const SUPABASE_ANON_KEY: string := "SUPABASE_ANON_KEY"
  const SUPABASE_SECRET_PASSPHRASE: string := "SUPABASE_SECRET_PASSPHRASE"
  const RPC_PATH: string := "/rest/v1/rpc/get_secret"
  const TIMEOUT_SECONDS: nat := 10

  /** The POST request handed to `urlopen`, with the timeout it is given. */
  datatype Request = Request(
    url: string,
    verb: string,
    headers: seq<(string, string)>,
    body: Value,
    timeout: nat)

  /** The exception families the resolver catches around the call. */
  datatype Failure = HttpError | UrlError | UnexpectedError

  /** How the call ends: an exception, or the UTF-8 decoded response body. */
  datatype Outcome = Failed(failure: Failure) | Delivered(text: string)

  /** The `ValueError` that `Request(...)` raises for a URL it refuses, and why it refuses it. */
  datatype Exception = ValueError(url: string, reason: PyUrl.UrlError)

  /** What the resolver does once the environment has been read and the request constructed. */
  datatype Step = Finish(result: Option<string>) | Raise(error: Exception) | Send(request: Request)

  /** How a call of the resolver ends: it returns a value or raises. */
  datatype Resolution = Returned(key: Option<string>) | Raised(error: Exception)

  /** `os.getenv(name)`. */
  function Getenv(env: Env, name: string): (v: Option<string>)
    ensures v.Some? <==> name in env
    ensures v.Some? ==> v.value == env[name]
  {
    if name in env then Some(env[name]) else None
  }

  /** Python truthiness of an `Optional[str]`: neither `None` nor `""`. */
  predicate Truthy(v: Option<string>)
  {
    v.Some? && v.value != ""
  }

  /** `os.getenv(SERVICE_ROLE) or os.getenv(ANON)`: the service-role key is preferred. */
  function AuthKey(env: Env): (key: Option<string>)
    ensures Truthy(Getenv(env, SUPABASE_SERVICE_ROLE_KEY)) ==>
      key == Some(env[SUPABASE_SERVICE_ROLE_KEY])
    ensures !Truthy(Getenv(env, SUPABASE_SERVICE_ROLE_KEY)) ==>
      key == Getenv(env, SUPABASE_ANON_KEY)
    ensures Truthy(key) <==>
      Truthy(Getenv(env, SUPABASE_SERVICE_ROLE_KEY)) || Truthy(Getenv(env, SUPABASE_ANON_KEY))
  {
    var serviceRole := Getenv(env, SUPABASE_SERVICE_ROLE_KEY);
    if Truthy(serviceRole) then serviceRole else Getenv(env, SUPABASE_ANON_KEY)
  }

  /** The request headers, keyed by name. */
  function Headers(key: string): (headers: seq<(string, string)>)
    ensures Assoc.Keys(headers) == ["apikey", "Authorization", "Content-Type", "Accept", "Prefer"]
    ensures Assoc.Lookup(headers, "apikey") == Some(key)
    ensures Assoc.Lookup(headers, "Authorization") == Some("Bearer " + key)
    ensures Assoc.Lookup(headers, "Content-Type") == Some("application/json")
    ensures Assoc.Lookup(headers, "Accept") == Some("application/json")
    ensures Assoc.Lookup(headers, "Prefer") == Some("return=representation")
  {
    var headers := [
      ("apikey", key),
      ("Authorization", "Bearer " + key),
      ("Content-Type", "application/json"),
      ("Accept", "application/json"),
      ("Prefer", "return=representation") ];
    assert Assoc.Keys(headers) == ["apikey", "Authorization", "Content-Type", "Accept", "Prefer"];
    assert "Accept" != "apikey" && "Accept" != "Prefer" && "Prefer" != "apikey" by {
      assert "Accept"[0] == 'A' && "apikey"[0] == 'a' && "Prefer"[0] == 'P';
    }
    assert Assoc.DistinctKeys(headers);
    Assoc.LookupDistinct(headers, 0);
    Assoc.LookupDistinct(headers, 1);
    Assoc.LookupDistinct(headers, 2);
    Assoc.LookupDistinct(headers, 3);
    Assoc.LookupDistinct(headers, 4);
    headers
  }

  /** The RPC request for the stored key, authenticated twice with the same key. */
  function BuildRequest(url: string, key: string, passphrase: string): (request: Request)
    ensures request.url == url + "/rest/v1/rpc/get_secret"
    ensures request.verb == "POST"
    ensures request.headers == Headers(key)
    ensures request.body == JObject([
      ("p_key", JString("OPENAI_API_KEY")),
      ("p_passphrase", JString(passphrase))])
    ensures request.timeout == 10
  {
    Request(
      url + RPC_PATH,
      "POST",
      Headers(key),
      JObject([("p_key", JString(OPENAI_API_KEY)), ("p_passphrase", JString(passphrase))]),
      TIMEOUT_SECONDS)
  }

  /** The Supabase URL, an authentication key and the passphrase are all set and non-empty. */
  predicate Configured(env: Env)
  {
    Truthy(Getenv(env, SUPABASE_URL)) && Truthy(AuthKey(env)) && Truthy(Getenv(env, SUPABASE_SECRET_PASSPHRASE))
  }

  /** The request the configuration calls for. */
  function ConfiguredRequest(env: Env): Request
    requires Configured(env)
  {
    BuildRequest(env[SUPABASE_URL], AuthKey(env).value, env[SUPABASE_SECRET_PASSPHRASE])
  }

  /**
   * Everything before the `try`: the key from the environment, absence,
   * or the request, whose construction raises `ValueError` when it refuses
   * the URL.
   */
  function Plan(env: Env, nfkc: string -> string): (step: Step)
    ensures Truthy(Getenv(env, OPENAI_API_KEY)) ==> step == Finish(Getenv(env, OPENAI_API_KEY))
    ensures step.Finish? && !Truthy(Getenv(env, OPENAI_API_KEY)) ==> step.result == None
    ensures !step.Finish? <==> !Truthy(Getenv(env, OPENAI_API_KEY)) && Configured(env)
    ensures step.Send? ==> step.request == ConfiguredRequest(env) && PyUrl.Accepts(step.request.url, nfkc)
    ensures step.Raise? ==>
      var url := ConfiguredRequest(env).url;
      PyUrl.RequestError(url, nfkc).Some? && step.error == ValueError(url, PyUrl.RequestError(url, nfkc).value)
  {
    var envKey := Getenv(env, OPENAI_API_KEY);
    if Truthy(envKey) then Finish(envKey)
    else
      var url := Getenv(env, SUPABASE_URL);
      var key := AuthKey(env);
      var passphrase := Getenv(env, SUPABASE_SECRET_PASSPHRASE);
      if !Truthy(url) || !Truthy(key) || !Truthy(passphrase) then Finish(None)
      else
        var request := BuildRequest(url.value, key.value, passphrase.value);
        match PyUrl.RequestError(request.url, nfkc)
        case None => Send(request)
        case Some(reason) => Raise(ValueError(request.url, reason))
  }

  /** The extraction chain over the stripped body `data` and `json.loads(data)`. */
  function ExtractSecret(data: string, parsed: ParseResult): (r: Option<string>)
    ensures parsed.OtherError? ==> r.None?
    ensures parsed.DecodeError? ==> (r.Some? <==> data != "") && (r.Some? ==> r.value == data)
    ensures parsed.Parsed? && r.Some? ==> parsed.value.JObject? || parsed.value == JString(r.value)
  {
    match parsed
    case Parsed(JObject(members)) =>
      (match Assoc.Lookup<Value>(members, "get_secret")
       case Some(JString(s)) => Some(s)
       case _ =>
         match Assoc.Lookup<Value>(members, "value")
         case Some(JString(s)) => Some(s)
         case _ => None)
    case Parsed(JString(s)) => Some(s)
    case Parsed(_) => None
    case DecodeError => if data != "" then Some(data) else None
    case OtherError => None
  }

  /** What the resolver makes of the outcome of its call, inside the `try`. */
  function ReadSecret(outcome: Outcome, loads: string -> ParseResult): (r: Option<string>)
    ensures outcome.Failed? ==> r.None?
    ensures outcome.Delivered? ==>
      var data := PyStr.Strip(outcome.text);
      r == FirstMatch(Strategies(data, loads(data)))
  {
    match outcome
    case Failed(_) => None
    case Delivered(text) =>
      var data := PyStr.Strip(text);
      ExtractionIsOrderedChain(data, loads(data));
      ExtractSecret(data, loads(data))
  }

  /** `get_openai_api_key_from_supabase()` as written, `Request(...)` built before the `try`. */
  function GetOpenAiApiKey(
    env: Env, nfkc: string -> string, transport: Request -> Outcome, loads: string -> ParseResult): (r: Resolution)
    ensures Truthy(Getenv(env, OPENAI_API_KEY)) ==> r == Returned(Getenv(env, OPENAI_API_KEY))
    ensures r.Raised? <==> Plan(env, nfkc).Raise?
    ensures Plan(env, nfkc).Send? ==> r == Returned(ReadSecret(transport(Plan(env, nfkc).request), loads))
    ensures r.Returned? && r.key.Some? ==>
      (r.key == Getenv(env, OPENAI_API_KEY) && Truthy(r.key)) ||
      (Plan(env, nfkc).Send? && transport(Plan(env, nfkc).request).Delivered?)
  {
    match Plan(env, nfkc)
    case Finish(result) => Returned(result)
    case Raise(error) => Raised(error)
    case Send(request) => Returned(ReadSecret(transport(request), loads))
  }

  /**
   * The resolver its docstring describes, returning `None` "otherwise":
   * `Request(...)` built inside the `try`, so that its `ValueError` is
   * caught like any other exception. It never raises, and it agrees with
   * the resolver as written wherever that one does not raise.
   */
  function GetOpenAiApiKeyIntended(
    env: Env, nfkc: string -> string, transport: Request -> Outcome, loads: string -> ParseResult): (r: Resolution)
    ensures r.Returned?
    ensures !GetOpenAiApiKey(env, nfkc, transport, loads).Raised? ==> r == GetOpenAiApiKey(env, nfkc, transport, loads)
    ensures GetOpenAiApiKey(env, nfkc, transport, loads).Raised? ==> r == Returned(None)
  {
    match Plan(env, nfkc)
    case Finish(result) => Returned(result)
    case Raise(_) => Returned(None)
    case Send(request) => Returned(ReadSecret(transport(request), loads))
  }

  // The extraction chain stated as an ordered list of independent strategies.

  /** A dictionary whose `get_secret` entry is a string. */
  function FromGetSecret(parsed: ParseResult): Option<string>
  {
    if parsed.Parsed? && parsed.value.JObject? then
      var v := Assoc.Lookup(parsed.value.members, "get_secret");
      if v.Some? && v.value.JString? then Some(v.value.s) else None
    else None
  }

  /** A dictionary whose `value` entry is a string. */
  function FromValue(parsed: ParseResult): Option<string>
  {
    if parsed.Parsed? && parsed.value.JObject? then
      var v := Assoc.Lookup(parsed.value.members, "value");
      if v.Some? && v.value.JString? then Some(v.value.s) else None
    else None
  }

  /** A document that is a JSON string. */
  function FromPlainString(parsed: ParseResult): Option<string>
  {
    if parsed.Parsed? && parsed.value.JString? then Some(parsed.value.s) else None
  }

  /** A body that is not JSON at all, taken verbatim if not empty. */
  function FromRawText(data: string, parsed: ParseResult): Option<string>
  {
    if parsed.DecodeError? && data != "" then Some(data) else None
  }

  /** The first candidate that produced a value, or `None` when none did. */
  function FirstMatch(candidates: seq<Option<string>>): (r: Option<string>)
    ensures r.None? <==> forall i :: 0 <= i < |candidates| ==> candidates[i].None?
    ensures r.Some? ==>
      exists i :: 0 <= i < |candidates| && candidates[i] == r &&
        forall j :: 0 <= j < i ==> candidates[j].None?
  {
    if candidates == [] then None
    else if candidates[0].Some? then candidates[0]
    else FirstMatch(candidates[1..])
  }

  /** The strategies in the order the resolver tries them. */
  function Strategies(data: string, parsed: ParseResult): seq<Option<string>>
  {
    [FromGetSecret(parsed), FromValue(parsed), FromPlainString(parsed), FromRawText(data, parsed)]
  }

  /** The resolver's nested conditionals are exactly the ordered strategy list. */
  lemma ExtractionIsOrderedChain(data: string, parsed: ParseResult)
    ensures ExtractSecret(data, parsed) == FirstMatch(Strategies(data, parsed))
  {
    var c := Strategies(data, parsed);
    assert c[1..][1..][1..][1..] == [];
    assert FirstMatch(c[1..][1..][1..]) == c[3];
    assert FirstMatch(c[1..][1..]) == if c[2].Some? then c[2] else c[3];
  }

  // Properties of the resolver.

  /** A non-empty key in the environment is returned as it is, and no request is built. */
  lemma EnvKeyShortCircuits(
    env: Env, nfkc: string -> string, transport: Request -> Outcome, loads: string -> ParseResult)
    requires OPENAI_API_KEY in env && env[OPENAI_API_KEY] != ""
    ensures Plan(env, nfkc) == Finish(Some(env[OPENAI_API_KEY]))
    ensures GetOpenAiApiKey(env, nfkc, transport, loads) == Returned(Some(env[OPENAI_API_KEY]))
  {
  }

  /**
   * A request is sent exactly when there is no key in the environment, every
   * coordinate is set and `Request(...)` accepts the request URL; with the
   * URL refused, the resolver raises.
   */
  lemma RequestOnlyWhenConfigured(env: Env, nfkc: string -> string)
    ensures Plan(env, nfkc).Send? <==>
      !Truthy(Getenv(env, OPENAI_API_KEY)) &&
      Truthy(Getenv(env, SUPABASE_URL)) &&
      Truthy(AuthKey(env)) &&
      Truthy(Getenv(env, SUPABASE_SECRET_PASSPHRASE)) &&
      PyUrl.Accepts(env[SUPABASE_URL] + RPC_PATH, nfkc)
    ensures Plan(env, nfkc).Raise? <==>
      !Truthy(Getenv(env, OPENAI_API_KEY)) &&
      Truthy(Getenv(env, SUPABASE_URL)) &&
      Truthy(AuthKey(env)) &&
      Truthy(Getenv(env, SUPABASE_SECRET_PASSPHRASE)) &&
      !PyUrl.Accepts(env[SUPABASE_URL] + RPC_PATH, nfkc)
    ensures Plan(env, nfkc).Finish? && !Truthy(Getenv(env, OPENAI_API_KEY)) ==> Plan(env, nfkc).result == None
  {
  }

  /** When no request is sent, neither the network nor the JSON decoder affects the result. */
  lemma UnsentRequestIgnoresNetwork(
    env: Env, nfkc: string -> string,
    transport1: Request -> Outcome, loads1: string -> ParseResult,
    transport2: Request -> Outcome, loads2: string -> ParseResult)
    requires !Plan(env, nfkc).Send?
    ensures GetOpenAiApiKey(env, nfkc, transport1, loads1) == GetOpenAiApiKey(env, nfkc, transport2, loads2)
    ensures GetOpenAiApiKeyIntended(env, nfkc, transport1, loads1) ==
      GetOpenAiApiKeyIntended(env, nfkc, transport2, loads2)
  {
  }

  /** The request goes to the RPC endpoint, carries the chosen key twice and names the secret and passphrase. */
  lemma RequestShape(env: Env, nfkc: string -> string)
    requires Plan(env, nfkc).Send?
    ensures var request := Plan(env, nfkc).request;
      var key := AuthKey(env).value;
      && request.url == env[SUPABASE_URL] + "/rest/v1/rpc/get_secret"
      && request.verb == "POST"
      && Assoc.Lookup(request.headers, "apikey") == Some(key)
      && Assoc.Lookup(request.headers, "Authorization") == Some("Bearer " + key)
      && Assoc.Lookup(request.headers, "Content-Type") == Some("application/json")
      && Assoc.Lookup(request.headers, "Accept") == Some("application/json")
      && Assoc.Lookup(request.headers, "Prefer") == Some("return=representation")
      && Assoc.Keys(request.headers) == ["apikey", "Authorization", "Content-Type", "Accept", "Prefer"]
      && request.body == JObject([
           ("p_key", JString("OPENAI_API_KEY")),
           ("p_passphrase", JString(env[SUPABASE_SECRET_PASSPHRASE]))])
      && request.timeout == 10
  {
  }

  /** A string `get_secret` entry wins, whatever the `value` entry holds. */
  lemma GetSecretEntryWins(data: string, members: seq<(string, Value)>, s: string)
    requires Assoc.Lookup(members, "get_secret") == Some(JString(s))
    ensures ExtractSecret(data, Parsed(JObject(members))) == Some(s)
  {
  }

  /** A missing or non-string `get_secret` entry falls through to the `value` entry. */
  lemma NonStringGetSecretFallsThrough(data: string, members: seq<(string, Value)>)
    requires Assoc.Lookup(members, "get_secret").None? || !Assoc.Lookup(members, "get_secret").value.JString?
    ensures var v := Assoc.Lookup(members, "value");
      ExtractSecret(data, Parsed(JObject(members))) ==
        if v.Some? && v.value.JString? then Some(v.value.s) else None
  {
  }

  /** A JSON string document is the secret, even the empty string. */
  lemma JsonStringIsSecret(data: string, s: string)
    ensures ExtractSecret(data, Parsed(JString(s))) == Some(s)
  {
  }

  /** Any other JSON document gives `None`, never the raw text. */
  lemma OtherJsonGivesNone(data: string, v: Value)
    requires !v.JObject? && !v.JString?
    ensures ExtractSecret(data, Parsed(v)) == None
  {
  }

  /** An object with neither entry as a string gives `None`, never the raw text. */
  lemma ObjectWithoutSecretGivesNone(data: string, members: seq<(string, Value)>)
    requires forall i :: 0 <= i < |members| ==>
      (members[i].0 == "get_secret" || members[i].0 == "value") ==> !members[i].1.JString?
    ensures ExtractSecret(data, Parsed(JObject(members))) == None
  {
  }

  /** A body that is not JSON is returned stripped when something is left of it; an empty one gives `None`. */
  lemma RawBodyFallback(text: string, loads: string -> ParseResult)
    requires loads(PyStr.Strip(text)) == DecodeError
    ensures var data := PyStr.Strip(text);
      ReadSecret(Delivered(text), loads) == if data == "" then None else Some(data)
    ensures ReadSecret(Delivered(text), loads) == None <==>
      forall i :: 0 <= i < |text| ==> PyStr.IsSpace(text[i])
  {
  }

  /** HTTP errors, URL errors, anything else raised by the call or by the decoder: `None`. */
  lemma ErrorsGiveNone(failure: Failure, text: string, loads: string -> ParseResult)
    ensures ReadSecret(Failed(failure), loads) == None
    ensures loads(PyStr.Strip(text)) == OtherError ==> ReadSecret(Delivered(text), loads) == None
  {
  }

  /**
   * Every secret the resolver hands out is the environment's key or was
   * taken from the response to the request it built.
   */
  lemma SecretProvenance(env: Env, nfkc: string -> string, transport: Request -> Outcome, loads: string -> ParseResult)
    requires GetOpenAiApiKey(env, nfkc, transport, loads).Returned?
    requires GetOpenAiApiKey(env, nfkc, transport, loads).key.Some?
    ensures var key := GetOpenAiApiKey(env, nfkc, transport, loads).key;
      (key == Getenv(env, OPENAI_API_KEY) && Truthy(key)) ||
      (Plan(env, nfkc).Send? && transport(Plan(env, nfkc).request).Delivered? &&
       var data := PyStr.Strip(transport(Plan(env, nfkc).request).text);
       FirstMatch(Strategies(data, loads(data))) == key &&
       key in Strategies(data, loads(data)))
  {
  }

  /**
   * Once the request is sent and answered, the resolver returns exactly what
   * the first matching strategy gives for the stripped body.
   */
  lemma DeliveredBodyDecides(env: Env, nfkc: string -> string, transport: Request -> Outcome, loads: string -> ParseResult)
    requires Plan(env, nfkc).Send? && transport(Plan(env, nfkc).request).Delivered?
    ensures var data := PyStr.Strip(transport(Plan(env, nfkc).request).text);
      && GetOpenAiApiKey(env, nfkc, transport, loads) == Returned(FirstMatch(Strategies(data, loads(data))))
      && GetOpenAiApiKeyIntended(env, nfkc, transport, loads) == GetOpenAiApiKey(env, nfkc, transport, loads)
  {
  }

  /** A Supabase URL without any `:` makes the resolver as written raise instead of returning `None`. */
  lemma {:induction false} ColonlessUrlRaises(
    env: Env, nfkc: string -> string, transport: Request -> Outcome, loads: string -> ParseResult)
    requires !Truthy(Getenv(env, OPENAI_API_KEY)) && Configured(env)
    requires ':' !in env[SUPABASE_URL]
    ensures GetOpenAiApiKey(env, nfkc, transport, loads) ==
      Raised(ValueError(env[SUPABASE_URL] + RPC_PATH, PyUrl.UnknownUrlType))
    ensures GetOpenAiApiKeyIntended(env, nfkc, transport, loads) == Returned(None)
  {
    var url := env[SUPABASE_URL] + RPC_PATH;
    assert forall i :: 0 <= i < |url| ==> url[i] != ':' by {
      forall i | 0 <= i < |url| ensures url[i] != ':' {
        if i < |env[SUPABASE_URL]| {
          assert url[i] == env[SUPABASE_URL][i];
          assert url[i] in env[SUPABASE_URL];
        }
      }
    }
    PyUrl.NoColonRefused(url, nfkc);
  }

  /** The host name of the Supabase project without its `https://`: the resolver raises `ValueError`. */
  lemma SchemelessUrlRaises(nfkc: string -> string, transport: Request -> Outcome, loads: string -> ParseResult)
    ensures var env := map[
        SUPABASE_URL := "xyz.supabase.co",
        SUPABASE_ANON_KEY := "anon",
        SUPABASE_SECRET_PASSPHRASE := "pass"];
      && GetOpenAiApiKey(env, nfkc, transport, loads) ==
           Raised(ValueError("xyz.supabase.co" + RPC_PATH, PyUrl.UnknownUrlType))
      && GetOpenAiApiKeyIntended(env, nfkc, transport, loads) == Returned(None)
  {
    var env := map[
      SUPABASE_URL := "xyz.supabase.co",
      SUPABASE_ANON_KEY := "anon",
      SUPABASE_SECRET_PASSPHRASE := "pass"];
    assert OPENAI_API_KEY !in env;
    assert SUPABASE_SERVICE_ROLE_KEY !in env;
    assert Configured(env);
    assert ':' !in env[SUPABASE_URL];
    ColonlessUrlRaises(env, nfkc, transport, loads);
  }

  /**
   * A Supabase URL whose host opens a `[` it never closes: `urlsplit`, run
   * by the request constructor, raises `ValueError("Invalid IPv6 URL")`,
   * which escapes the resolver as written.
   */
  lemma BracketUrlRaises(nfkc: string -> string, transport: Request -> Outcome, loads: string -> ParseResult)
    ensures var env := map[
        SUPABASE_URL := "https://[xyz.supabase.co",
        SUPABASE_ANON_KEY := "anon",
        SUPABASE_SECRET_PASSPHRASE := "pass"];
      && GetOpenAiApiKey(env, nfkc, transport, loads) ==
           Raised(ValueError("https://[xyz.supabase.co" + RPC_PATH, PyUrl.InvalidIpv6Url))
      && GetOpenAiApiKeyIntended(env, nfkc, transport, loads) == Returned(None)
  {
    var env := map[
      SUPABASE_URL := "https://[xyz.supabase.co",
      SUPABASE_ANON_KEY := "anon",
      SUPABASE_SECRET_PASSPHRASE := "pass"];
    assert OPENAI_API_KEY !in env && SUPABASE_SERVICE_ROLE_KEY !in env;
    assert AuthKey(env) == Some("anon");
    assert Configured(env);
    BracketUrlRefused(nfkc);
    assert ConfiguredRequest(env).url == "https://[xyz.supabase.co" + RPC_PATH;
  }

  /** `Request(...)` refuses the request URL of a project at `https://[xyz.supabase.co`. */
  lemma BracketUrlRefused(nfkc: string -> string)
    ensures PyUrl.RequestError("https://[xyz.supabase.co" + RPC_PATH, nfkc) == Some(PyUrl.InvalidIpv6Url)
  {
    var netloc := "[xyz.supabase.co";
    assert "https://[xyz.supabase.co" == "https" + "://" + netloc;
    assert forall i :: 0 <= i < |netloc| ==> netloc[i] !in {'/', '?', '#', '\t', '\r', '\n', ']'};
    assert netloc[0] == '[';
    RpcPathPlain();
    PyUrl.HierarchicalUrl("https", netloc, RPC_PATH, nfkc);
  }

  /**
   * A project URL with text before the `[` of its host, such as
   * `https://x[0:0:0:0:0:0:0:1]`, makes the resolver as written raise
   * `ValueError` (Invalid IPv6 URL); the intended one returns `None`.
   */
  lemma PrefixedBracketUrlRaises(nfkc: string -> string, transport: Request -> Outcome, loads: string -> ParseResult)
    ensures var env := map[
        SUPABASE_URL := "https://x[0:0:0:0:0:0:0:1]",
        SUPABASE_ANON_KEY := "anon",
        SUPABASE_SECRET_PASSPHRASE := "pass"];
      && GetOpenAiApiKey(env, nfkc, transport, loads) ==
           Raised(ValueError("https://x[0:0:0:0:0:0:0:1]" + RPC_PATH, PyUrl.InvalidIpv6Url))
      && GetOpenAiApiKeyIntended(env, nfkc, transport, loads) == Returned(None)
  {
    var env := map[
      SUPABASE_URL := "https://x[0:0:0:0:0:0:0:1]",
      SUPABASE_ANON_KEY := "anon",
      SUPABASE_SECRET_PASSPHRASE := "pass"];
    assert OPENAI_API_KEY !in env && SUPABASE_SERVICE_ROLE_KEY !in env;
    assert AuthKey(env) == Some("anon");
    assert Configured(env);
    PrefixedBracketUrlRefused(nfkc);
    assert ConfiguredRequest(env).url == "https://x[0:0:0:0:0:0:0:1]" + RPC_PATH;
  }

  /** `Request(...)` refuses the request URL of a project at `https://x[0:0:0:0:0:0:0:1]`. */
  lemma PrefixedBracketUrlRefused(nfkc: string -> string)
    ensures PyUrl.RequestError("https://x[0:0:0:0:0:0:0:1]" + RPC_PATH, nfkc) == Some(PyUrl.InvalidIpv6Url)
  {
    var netloc := "x[0:0:0:0:0:0:0:1]";
    assert "https://x[0:0:0:0:0:0:0:1]" == "https" + "://" + netloc;
    assert forall i :: 0 <= i < |netloc| ==> netloc[i] !in {'/', '?', '#', '\t', '\r', '\n'};
    RpcPathPlain();
    PyUrl.HierarchicalUrl("https", netloc, RPC_PATH, nfkc);
    PrefixedHostRefused(nfkc);
  }

  /** The host `x[0:0:0:0:0:0:0:1]` has text before its `[`. */
  lemma PrefixedHostRefused(nfkc: string -> string)
    ensures PyUrl.NetlocError("x[0:0:0:0:0:0:0:1]", nfkc) == Some(PyUrl.InvalidIpv6Url)
  {
    var rest := "0:0:0:0:0:0:0:1]";
    assert "x[0:0:0:0:0:0:0:1]" == "x" + "[" + rest;
    assert '@' !in rest;
    PyUrl.PrefixBeforeBracket("x", rest, nfkc);
  }

  /** The RPC path is a plain absolute path. */
  lemma RpcPathPlain()
    ensures RPC_PATH != [] && RPC_PATH[0] == '/' && !PyStr.IsSpace(RPC_PATH[|RPC_PATH| - 1])
    ensures forall i :: 0 <= i < |RPC_PATH| ==> RPC_PATH[i] !in {'#', '\t', '\r', '\n'}
  {
  }

  /** The response `{"get_secret": "abc"}` to a fully configured resolver yields "abc". */
  lemma GetSecretExample(nfkc: string -> string)
    ensures var env := map[
        SUPABASE_URL := "https://xyz.supabase.co",
        SUPABASE_ANON_KEY := "anon",
        SUPABASE_SECRET_PASSPHRASE := "pass"];
      var body := "{\"get_secret\": \"abc\"}";
      GetOpenAiApiKey(
        env,
        nfkc,
        (request: Request) => Delivered(body),
        (text: string) => if text == body then Parsed(JObject([("get_secret", JString("abc"))]))
                          else DecodeError) == Returned(Some("abc"))
  {
    var body := "{\"get_secret\": \"abc\"}";
    var loads := (text: string) => if text == body then Parsed(JObject([("get_secret", JString("abc"))]))
                                   else DecodeError;
    ProjectPlan(nfkc);
    GetSecretBodyRead(loads);
  }

  /** The body `{"get_secret": "abc"}`, decoded to its dictionary, gives "abc". */
  lemma GetSecretBodyRead(loads: string -> ParseResult)
    requires loads("{\"get_secret\": \"abc\"}") == Parsed(JObject([("get_secret", JString("abc"))]))
    ensures ReadSecret(Delivered("{\"get_secret\": \"abc\"}"), loads) == Some("abc")
  {
    var body := "{\"get_secret\": \"abc\"}";
    var members := [("get_secret", JString("abc"))];
    assert Assoc.Lookup(members, "get_secret") == Some(JString("abc"));
    assert ExtractSecret(body, Parsed(JObject(members))) == Some("abc");
    PyStr.StripUnpadded(body);
  }

  /** A project at `https://xyz.supabase.co` with an anonymous key and a passphrase sends its request. */
  lemma ProjectPlan(nfkc: string -> string)
    ensures var env := map[
        SUPABASE_URL := "https://xyz.supabase.co",
        SUPABASE_ANON_KEY := "anon",
        SUPABASE_SECRET_PASSPHRASE := "pass"];
      Plan(env, nfkc) == Send(BuildRequest("https://xyz.supabase.co", "anon", "pass"))
  {
    var env := map[
      SUPABASE_URL := "https://xyz.supabase.co",
      SUPABASE_ANON_KEY := "anon",
      SUPABASE_SECRET_PASSPHRASE := "pass"];
    assert OPENAI_API_KEY !in env && SUPABASE_SERVICE_ROLE_KEY !in env;
    assert AuthKey(env) == Some("anon");
    assert Configured(env);
    ProjectUrlAccepted(nfkc);
    assert ConfiguredRequest(env) == BuildRequest("https://xyz.supabase.co", "anon", "pass");
  }

  /** `Request(...)` accepts the request URL of a project at `https://xyz.supabase.co`. */
  lemma ProjectUrlAccepted(nfkc: string -> string)
    ensures PyUrl.Accepts("https://xyz.supabase.co" + RPC_PATH, nfkc)
  {
    var netloc := "xyz.supabase.co";
    assert "https://xyz.supabase.co" == "https" + "://" + netloc;
    ProjectHostAccepted(nfkc);
    RpcPathPlain();
    PyUrl.HierarchicalUrl("https", netloc, RPC_PATH, nfkc);
  }

  /** The host `xyz.supabase.co` passes `urlsplit`'s checks and holds no delimiter. */
  lemma ProjectHostAccepted(nfkc: string -> string)
    ensures var netloc := "xyz.supabase.co";
      && PyUrl.NetlocError(netloc, nfkc) == None
      && forall i :: 0 <= i < |netloc| ==> netloc[i] !in {'/', '?', '#', '\t', '\r', '\n'}
  {
    var netloc := "xyz.supabase.co";
    assert forall i :: 0 <= i < |netloc| ==> netloc[i] !in {'/', '?', '#', '\t', '\r', '\n', '[', ']'};
    assert PyUrl.IsAscii(netloc);
  }
}
