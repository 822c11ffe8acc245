# Question-answering backend: a Dafny model

This project models the logic of a small Django REST framework backend for
asking questions. It covers three parts:

- **The secret resolver** `get_openai_api_key_from_supabase`. It returns the
  OpenAI API key from the environment when one is set. Otherwise it asks the
  Supabase secret store for the key through one PostgREST RPC call, and
  accepts several shapes of response.
- **Question intake.** The `AskQuestionSerializer` rule for `question` is
  `CharField(allow_blank=False, trim_whitespace=True)`. `ask_question`
  answers a valid question with `"You asked: " + question`, stores the
  record and returns 201. An invalid body gets 400 with the errors.
- **The record table** behind `ask_question` and `qa_history`. `qa_history`
  lists every record, newest first. `health` returns a fixed payload.

Modules:

| file | module | models |
|---|---|---|
| `wrappers.dfy` | `Wrappers` | `Option` (Python `None`) and `Result` (accepted value or validation error) |
| `assoc.dfy` | `Assoc` | Python dictionaries built by writing entries in order, where the last write wins |
| `pystr.dfy` | `PyStr` | `str.isspace`, `str.strip()`, `str.find`, `str.split`, `str.join` and `str(int)` |
| `ipaddress.dfy` | `PyIpAddress` | which strings `ipaddress.ip_address` accepts as IPv4 or IPv6 addresses |
| `pyurl.dfy` | `PyUrl` | the URL checks the `urllib.request.Request` constructor makes, including those of `urlsplit` |
| `json.dfy` | `Json` | the values `json.loads` returns, and how it can fail |
| `supabase_secret.dfy` | `SupabaseSecret` | the resolver, as pure functions |
| `models.dfy` | `Models` | `QARecord` and the table as a class: rows, next id, clock |
| `serializers.dfy` | `Serializers` | the `question` validation rule and the output shape of a record |
| `views.dfy` | `Views` | `health`, `ask_question` and `qa_history`, with the `-created_at` ordering |

Inputs from outside the program are parameters:

- the process environment is a `map<string, string>`;
- the network is a function from the built `Request` to an `Outcome`, which
  is either an exception family or the decoded response text;
- `json.loads` is a function from text to a `ParseResult`: a value,
  `JSONDecodeError`, or some other exception;
- `unicodedata.normalize("NFKC", ...)`, which the request constructor applies
  to a non-ASCII host, is a function `nfkc` from text to text;
- the clock advances by a caller-chosen `elapsed: nat` at each insert.

A call of the resolver either returns a value or raises, and its result
type `Resolution` says which. Every exception raised inside the `try`
(lines 57-82) is caught and gives `None`. The one way to raise is the
`Request(...)` construction at line 55, which comes before the `try`. It
raises `ValueError` when it refuses the request URL (see "## Findings").
The URL checks follow `urllib` and `ipaddress` of CPython 3.12.13. Setting
`full_url` refuses a URL without a scheme. `request_host` then runs
`urlsplit` on the URL. It refuses a network location with only one of `[`
and `]`. When both occur, it looks at the host and port after the last `@`:
it refuses text before a `[` and text after the first `]` that does not start
with `:`, and the host (between the brackets, or up to the first `:` when
there is no `[` after the `@`) must be an IPvFuture literal or an IPv6
address. Last, it refuses a non-ASCII network location that NFKC
normalisation gives one of `/?#@:`.
`GetOpenAiApiKey` models the code as written. `GetOpenAiApiKeyIntended`
moves the construction inside the `try`. It never raises, and it agrees
with the code as written on every input where that does not raise.

A JSON object is kept as its list of members in document order. Looking up
a key returns the value of its last occurrence, as a dictionary built by
`json.loads` does.

The `question` rule follows Django REST framework's `CharField`, not code
in this repository. These checks run in this order:

- the blank check on the trimmed text runs first;
- a missing field is rejected as required;
- `null` is rejected;
- booleans, lists and objects are rejected as not strings;
- numbers are converted with `str()`, then trimmed;
- text that contains a NUL character is rejected.

When the response body is not JSON, the resolver returns the body after
`strip()` (line 59), not the body exactly as received.

## Model

| member | source | states |
|---|---|---|
| `SupabaseSecret.Getenv` | qa_backend/api/supabase_secret.py:23-29 | `os.getenv` is present exactly when the variable is set, and gives its value |
| `SupabaseSecret.AuthKey` | qa_backend/api/supabase_secret.py:28 | the service-role key when it is non-empty, otherwise the anon key (which may be absent or empty); the result is truthy if and only if either key is |
| `SupabaseSecret.Headers` | qa_backend/api/supabase_secret.py:46-52 | the five header names in source order; `apikey` is the key, `Authorization` is `"Bearer " + key`, `Content-Type` and `Accept` are `application/json`, `Prefer` is `return=representation` |
| `SupabaseSecret.BuildRequest` | qa_backend/api/supabase_secret.py:45-55 | a POST to `url + "/rest/v1/rpc/get_secret"` with those headers, body `{"p_key": "OPENAI_API_KEY", "p_passphrase": passphrase}` and a 10-second timeout |
| `SupabaseSecret.Plan` | qa_backend/api/supabase_secret.py:22-55 | a non-empty env key finishes with that key; any other finish is `None`; the resolver goes past the early exits exactly when there is no env key and the configuration is complete; it then sends the configured request when `Request(...)` accepts its URL, and otherwise raises `ValueError` for that URL with the reason the constructor gives |
| `SupabaseSecret.ExtractSecret` | qa_backend/api/supabase_secret.py:59-76 | a decoder exception other than `JSONDecodeError` gives `None`; a body that is not JSON gives itself exactly when it is non-empty; a value taken from parsed JSON comes from an object, or is the JSON string itself |
| `SupabaseSecret.ReadSecret` | qa_backend/api/supabase_secret.py:57-84 | a failed call gives `None`; a delivered body gives the first match of the strategy chain over the stripped text |
| `SupabaseSecret.GetOpenAiApiKey` | qa_backend/api/supabase_secret.py:10-84 | a non-empty env key is returned; the call raises exactly when the request construction raises; once the request is sent, the result is exactly what the response handling makes of the transport's outcome; any key it returns is the env key or came from a delivered response to the built request |
| `SupabaseSecret.GetOpenAiApiKeyIntended` | qa_backend/api/supabase_secret.py:19-20 | the resolver that returns `None` "otherwise", as its docstring says: it never raises, it equals the resolver as written wherever that does not raise, and gives `None` where it does |
| `SupabaseSecret.EnvKeyShortCircuits` | qa_backend/api/supabase_secret.py:23-25 | a non-empty `OPENAI_API_KEY` is returned unchanged, and the plan is to finish without building a request |
| `SupabaseSecret.RequestOnlyWhenConfigured` | qa_backend/api/supabase_secret.py:27-55 | a request is sent if and only if the env key is absent or empty, the URL, the chosen key and the passphrase are all non-empty, and `Request(...)` accepts the request URL; with all else the same but the URL refused, the resolver raises; any finish without the env key is `None` |
| `SupabaseSecret.UnsentRequestIgnoresNetwork` | qa_backend/api/supabase_secret.py:31-32 | when no request is sent, the result is the same for every network and every JSON decoder, for both resolvers |
| `SupabaseSecret.RequestShape` | qa_backend/api/supabase_secret.py:45-55 | the request is a POST to `url + "/rest/v1/rpc/get_secret"`; it carries the chosen key as `apikey` and as `Authorization: Bearer <key>`, `Content-Type` and `Accept` set to `application/json`, `Prefer` set to `return=representation`, the five headers in source order, body `{"p_key": "OPENAI_API_KEY", "p_passphrase": passphrase}`, and a 10-second timeout |
| `SupabaseSecret.FirstMatch` | qa_backend/api/supabase_secret.py:64-76 | returns the first candidate that holds a value, and `None` exactly when no candidate does |
| `SupabaseSecret.ExtractionIsOrderedChain` | qa_backend/api/supabase_secret.py:59-76 | the nested conditionals equal the ordered strategy list: string `get_secret`, then string `value`, then a JSON string, then non-empty raw text |
| `SupabaseSecret.GetSecretEntryWins` | qa_backend/api/supabase_secret.py:64-67 | a string `get_secret` entry is returned, whatever `value` holds |
| `SupabaseSecret.NonStringGetSecretFallsThrough` | qa_backend/api/supabase_secret.py:66-70 | a missing or non-string `get_secret` falls through to the `value` entry: its string if it is one, else `None` |
| `SupabaseSecret.JsonStringIsSecret` | qa_backend/api/supabase_secret.py:71-72 | a body that decodes to a JSON string returns that string, even `""` |
| `SupabaseSecret.OtherJsonGivesNone` | qa_backend/api/supabase_secret.py:71-72 | a body that decodes to a number, bool, null or list returns `None`, not the raw text |
| `SupabaseSecret.ObjectWithoutSecretGivesNone` | qa_backend/api/supabase_secret.py:64-70 | an object in which no `get_secret` or `value` entry is a string returns `None` |
| `SupabaseSecret.RawBodyFallback` | qa_backend/api/supabase_secret.py:59 | a body that is not JSON returns the stripped text if something is left of it, else `None`; `None` exactly when the body is all whitespace |
| `SupabaseSecret.ErrorsGiveNone` | qa_backend/api/supabase_secret.py:77-84 | HTTP errors, URL errors, any other error from the call, and any decoder exception other than `JSONDecodeError` all give `None` |
| `SupabaseSecret.SecretProvenance` | qa_backend/api/supabase_secret.py:22-84 | every key returned is the non-empty env key, or was extracted by the strategy chain from the delivered response to the built request and is one of the strategies' candidates |
| `SupabaseSecret.ColonlessUrlRaises` | qa_backend/api/supabase_secret.py:55 | with no env key, a complete configuration and a Supabase URL without any `:`, the resolver as written raises `ValueError` (unknown url type) for the request URL, and the intended one returns `None` |
| `SupabaseSecret.SchemelessUrlRaises` | qa_backend/api/supabase_secret.py:15 | the project host `xyz.supabase.co` given without its `https://` makes the resolver as written raise, and the intended one return `None` |
| `SupabaseSecret.DeliveredBodyDecides` | qa_backend/api/supabase_secret.py:55-84 | once the request is sent and answered, both resolvers return exactly the first matching strategy's result for the stripped body |
| `SupabaseSecret.BracketUrlRaises` | qa_backend/api/supabase_secret.py:55 | the project URL `https://[xyz.supabase.co` makes the resolver as written raise `ValueError` (Invalid IPv6 URL), and the intended one return `None` |
| `SupabaseSecret.BracketUrlRefused` | qa_backend/api/supabase_secret.py:55 | `Request(...)` refuses the request URL of a project at `https://[xyz.supabase.co` as an invalid IPv6 URL |
| `SupabaseSecret.PrefixedBracketUrlRaises` | qa_backend/api/supabase_secret.py:55 | the project URL `https://x[0:0:0:0:0:0:0:1]` makes the resolver as written raise `ValueError` (Invalid IPv6 URL), and the intended one return `None` |
| `SupabaseSecret.PrefixedBracketUrlRefused` | qa_backend/api/supabase_secret.py:55 | `Request(...)` refuses the request URL of a project at `https://x[0:0:0:0:0:0:0:1]` as an invalid IPv6 URL |
| `SupabaseSecret.PrefixedHostRefused` | qa_backend/api/supabase_secret.py:55 | the network location `x[0:0:0:0:0:0:0:1]` is refused as an invalid IPv6 URL |
| `SupabaseSecret.ProjectHostAccepted` | qa_backend/api/supabase_secret.py:55 | the host `xyz.supabase.co` passes every host check of `urlsplit` |
| `SupabaseSecret.GetSecretExample` | qa_backend/api/supabase_secret.py:63 | with every coordinate set and the response `{"get_secret": "abc"}`, the result is `"abc"` |
| `SupabaseSecret.GetSecretBodyRead` | qa_backend/api/supabase_secret.py:59-67 | the body `{"get_secret": "abc"}`, decoded to its dictionary, gives `"abc"` |
| `SupabaseSecret.ProjectPlan` | qa_backend/api/supabase_secret.py:15 | a project at `https://xyz.supabase.co` with an anon key and a passphrase sends the configured request |
| `SupabaseSecret.ProjectUrlAccepted` | qa_backend/api/supabase_secret.py:15 | `Request(...)` accepts the request URL of a project at `https://xyz.supabase.co`, whatever NFKC normalisation does |
| `PyUrl.Unwrap` | qa_backend/api/supabase_secret.py:55 | every character of the unwrapped URL comes from the URL |
| `PyUrl.Unbracket` | qa_backend/api/supabase_secret.py:55 | every character of the URL taken out of its angle brackets comes from the URL |
| `PyUrl.StripKeepsChars` | qa_backend/api/supabase_secret.py:55 | every character `strip()` keeps comes from its input |
| `PyUrl.DropFragment` | qa_backend/api/supabase_secret.py:55 | a URL without `#` is kept whole; otherwise the result is the prefix before the last `#` |
| `PyUrl.ParsedUrl` | qa_backend/api/supabase_secret.py:55 | every character of the URL the constructor parses comes from the URL it was given |
| `PyUrl.SeparatorIndex` | qa_backend/api/supabase_secret.py:55 | the position of the first `/` or `:`, or the length when there is none |
| `PyUrl.HasSchemeMeansPattern` | qa_backend/api/supabase_secret.py:55 | a scheme is found if and only if a non-empty run free of `/` and `:` is followed by `:` at the start |
| `PyUrl.PlainUrl` | qa_backend/api/supabase_secret.py:55 | a URL that is unpadded, not in angle brackets, without a `URL:` prefix and without `#` is parsed, and reassembled by `full_url`, as it is |
| `PyUrl.SchemeFound` | qa_backend/api/supabase_secret.py:55 | a scheme, then `:`, then the rest, with no `#` and no padding, is kept as it is by unwrapping and by `full_url`, and passes the scheme check |
| `PyUrl.NoColonRefused` | qa_backend/api/supabase_secret.py:55 | a URL without any `:` is refused as having no scheme |
| `PyUrl.FullUrl` | qa_backend/api/supabase_secret.py:55 | `full_url` is the unwrapped URL when that has no `#`, and in every case starts with the URL the scheme check reads |
| `PyUrl.LstripC0` | qa_backend/api/supabase_secret.py:55 | `urlsplit` drops exactly the leading characters up to the space, and what is left starts with none of them |
| `PyUrl.Remove` | qa_backend/api/supabase_secret.py:55 | removing a set of characters keeps exactly the other characters, and changes nothing when none occurs |
| `PyUrl.AfterScheme` | qa_backend/api/supabase_secret.py:55 | `urlsplit` goes on with the whole URL or with what follows its first `:` |
| `PyUrl.SchemeSplit` | qa_backend/api/supabase_secret.py:55 | after a scheme name that starts with a letter, `urlsplit` goes on with what follows its `:` |
| `PyUrl.DelimiterIndex` | qa_backend/api/supabase_secret.py:55 | the first position holding `/`, `?` or `#`, or the length when there is none |
| `PyUrl.Netloc` | qa_backend/api/supabase_secret.py:55 | the network location comes after the `//` and holds no `/`, `?` or `#` |
| `PyUrl.DelimiterAfterNetloc` | qa_backend/api/supabase_secret.py:55 | in `//netloc/path`, the network location is exactly `netloc` |
| `PyUrl.HasScheme` | qa_backend/api/supabase_secret.py:55 | a URL with a scheme has a `:` and starts with neither `:` nor `/` |
| `PyUrl.IpvFuture` | qa_backend/api/supabase_secret.py:55 | an IPvFuture literal is at least four characters, starts with `v` and a hexadecimal digit, and holds a `.` |
| `PyUrl.IpvFutureMeansPattern` | qa_backend/api/supabase_secret.py:55 | a host is an IPvFuture literal if and only if it is `v`, one or more hexadecimal digits, a `.` and a non-empty rest without a newline |
| `PyUrl.BracketedNetlocError` | qa_backend/api/supabase_secret.py:55 | never a missing scheme; text before the `[` of the host and port after the last `@` is an invalid IPv6 URL |
| `PyUrl.BracketedNetlocOf` | qa_backend/api/supabase_secret.py:55 | in `[h]port` without `@`, a port not starting with `:` is an invalid IPv6 URL, and otherwise the verdict is that on the host `h` |
| `PyUrl.NoAtInBracketed` | qa_backend/api/supabase_secret.py:55 | without `@` in `h` and `port`, the host and port of `[h]port` is all of it |
| `PyUrl.BracketedHostPort` | qa_backend/api/supabase_secret.py:55 | for a network location `[h]port` without `@`, a port not starting with `:` is refused as an invalid IPv6 URL; otherwise `h` is checked and then the NFKC rule |
| `PyUrl.PrefixBeforeBracket` | qa_backend/api/supabase_secret.py:55 | a network location without `@` that has text before its `[` is refused as an invalid IPv6 URL |
| `PyUrl.HostAfterUserinfo` | qa_backend/api/supabase_secret.py:55 | when the text after the last `@` has no `[`, the host checked is that text up to its first `:`, wherever the brackets are |
| `PyUrl.UserinfoHostRefused` | qa_backend/api/supabase_secret.py:55 | the host `b]` is refused as no IP address |
| `PyUrl.UserinfoBracketRefused` | qa_backend/api/supabase_secret.py:55 | the network location `[v1.a@b]` is refused: the host checked is `b]`, which is no IP address |
| `PyUrl.BracketedHostError` | qa_backend/api/supabase_secret.py:55 | a bracketed host is accepted exactly when it is an IPvFuture literal (if it starts with `v`) or an IPv6 and not an IPv4 address (otherwise) |
| `PyUrl.NetlocNfkcError` | qa_backend/api/supabase_secret.py:55 | an ASCII network location always passes the NFKC check, and the only error it gives is the NFKC one |
| `PyUrl.NetlocError` | qa_backend/api/supabase_secret.py:55 | one bracket without the other is an invalid IPv6 URL; with both, the host and port after the last `@` are checked and then the NFKC rule; with neither, only the NFKC rule |
| `PyUrl.SplitError` | qa_backend/api/supabase_secret.py:55 | `urlsplit` never reports a missing scheme |
| `PyUrl.RequestError` | qa_backend/api/supabase_secret.py:55 | the constructor reports an unknown URL type exactly when the scheme check fails; otherwise its verdict is that of `urlsplit` on `full_url` |
| `PyUrl.HierarchicalUrl` | qa_backend/api/supabase_secret.py:55 | a URL `scheme://netloc/path` with a plain scheme, no fragment and no tab or line break is refused exactly when its network location is, and for the same reason |
| `PyUrl.BracketedNetloc` | qa_backend/api/supabase_secret.py:55 | for a network location `[h]` without `@`, the verdict is that on `h` and then the NFKC rule |
| `PyUrl.BracketedIpv6Accepted` | qa_backend/api/supabase_secret.py:55 | a full-form IPv6 address in brackets is accepted |
| `PyUrl.Ipv4HostChars` | qa_backend/api/supabase_secret.py:55 | an IPv4 address holds no bracket and no `@`, and does not start with `v` |
| `PyUrl.BracketedIpv4Refused` | qa_backend/api/supabase_secret.py:55 | an IPv4 address in brackets is refused as such |
| `PyIpAddress.Ipv4Valid` | qa_backend/api/supabase_secret.py:55 | a valid IPv4 address is non-empty, at most 15 characters, and only decimal digits and dots |
| `PyIpAddress.OctetsJoined` | qa_backend/api/supabase_secret.py:55 | four valid octets joined by dots are non-empty, at most 15 characters, and only digits and dots |
| `PyIpAddress.HextetsValid` | qa_backend/api/supabase_secret.py:55 | in a valid list of IPv6 parts every part is empty or a group of one to four hexadecimal digits |
| `PyIpAddress.Ipv6AddressValid` | qa_backend/api/supabase_secret.py:55 | a valid IPv6 address part holds a `:` |
| `PyIpAddress.Ipv6Valid` | qa_backend/api/supabase_secret.py:55 | a valid IPv6 address holds a `:` and is never a valid IPv4 address |
| `PyIpAddress.Ipv6Loopback` | qa_backend/api/supabase_secret.py:55 | the compressed address `::1` is a valid IPv6 address |
| `PyIpAddress.LoopbackSplit` | qa_backend/api/supabase_secret.py:55 | `::1` splits into `""`, `""` and `"1"`, and has no scope and no `/` |
| `PyIpAddress.LoopbackHextets` | qa_backend/api/supabase_secret.py:55 | the parts `""`, `""`, `"1"` form a valid `::` address |
| `PyIpAddress.SkipValid` | qa_backend/api/supabase_secret.py:55 | around a valid `::`, every part is empty or a group of one to four hexadecimal digits |
| `PyIpAddress.SplitParts` | qa_backend/api/supabase_secret.py:55 | pieces free of `:`, `%` and `/` joined by colons split back into those pieces and hold no `%` or `/` |
| `PyIpAddress.EmptyPositions` | qa_backend/api/supabase_secret.py:55 | lists exactly the positions in range whose part is empty |
| `PyIpAddress.OctetOfByte` | qa_backend/api/supabase_secret.py:55 | the decimal text of every number up to 255 is a valid IPv4 octet |
| `PyIpAddress.Ipv4DottedQuad` | qa_backend/api/supabase_secret.py:55 | a string is a valid IPv4 address if and only if it is four valid octets joined by dots |
| `PyIpAddress.Ipv6FullForm` | qa_backend/api/supabase_secret.py:55 | eight valid groups joined by colons form a valid IPv6 address |
| `PyIpAddress.NoDotNotIpv4` | qa_backend/api/supabase_secret.py:55 | text without a dot is no IPv4 address |
| `PyStr.Find` | qa_backend/api/supabase_secret.py:55 | `str.find` is -1 exactly when the character is absent, and otherwise its first position |
| `PyStr.Join` | qa_backend/api/supabase_secret.py:55 | a join of one piece is that piece; with more pieces, the separator directly follows the first piece (its inverse is `Split`, see `PyStr.Split` and `PyStr.SplitJoin`) |
| `PyStr.JoinBound` | qa_backend/api/supabase_secret.py:55 | joining `n` pieces of at most `m` characters gives at most `n * (m + 1) - 1` characters |
| `PyStr.Partition` | qa_backend/api/supabase_secret.py:55 | `str.partition` finds the separator exactly when it occurs; then the input is the part before, the separator and the part after, and the part before holds no separator; otherwise it gives the input, false and `""` |
| `PyStr.PartitionAtStart` | qa_backend/api/supabase_secret.py:55 | partitioning at a separator the text starts with leaves nothing before it, and at a later one leaves something |
| `PyStr.RFind` | qa_backend/api/supabase_secret.py:55 | `str.rfind` is -1 exactly when the character is absent, and otherwise its last position |
| `PyStr.AfterLast` | qa_backend/api/supabase_secret.py:55 | `str.rpartition(c)[2]` is a suffix free of `c`, preceded by `c` when `c` occurs, and the whole input when it does not |
| `PyStr.Split` | qa_backend/api/supabase_secret.py:55 | `str.split` gives at least one piece, no piece holds the separator, and joining the pieces gives the input back |
| `PyStr.SplitStep` | qa_backend/api/supabase_secret.py:55 | the text before the first separator followed by the pieces of the rest are separator-free pieces that join back to the input |
| `PyStr.JoinChars` | qa_backend/api/supabase_secret.py:55 | every character of a join is the separator or comes from one of the pieces |
| `PyStr.PartitionAfterPiece` | qa_backend/api/supabase_secret.py:55 | partitioning a separator-free piece, the separator and a rest gives exactly those three |
| `PyStr.SplitJoin` | qa_backend/api/supabase_secret.py:55 | splitting a join of separator-free pieces gives the pieces back |
| `Assoc.LookupDistinct` | qa_backend/api/supabase_secret.py:46-52 | in a dictionary literal with no repeated key, each key looks up its own value |
| `Assoc.Lookup` | qa_backend/api/supabase_secret.py:66 | `key in d and d[key]`: absent exactly when no entry has the key; otherwise the value of the last entry with that key |
| `PyStr.IsSpace` | qa_backend/api/supabase_secret.py:59 | space, tab, newline, carriage return and no-break space are whitespace for `str.strip()`; NUL, ASCII digits and letters are not |
| `PyStr.Strip` | qa_backend/api/supabase_secret.py:59 | `str.strip()` returns an infix of the input with only whitespace around it, and neither end is whitespace; the result is empty exactly when the input is all whitespace |
| `PyStr.StripIdempotent` | qa_backend/api/serializers.py:24 | stripping twice is the same as stripping once |
| `PyStr.StripUnpadded` | qa_backend/api/serializers.py:24 | a string that does not start or end with whitespace is left unchanged |
| `PyStr.IntToStr` | qa_backend/api/serializers.py:22 | `str(i)` is not empty, not padded with whitespace, and has no NUL |
| `PyStr.DigitsRoundTrip` | qa_backend/api/serializers.py:22 | reading the decimal digits back gives the number |
| `Json.TypeName` | qa_backend/api/serializers.py:17 | the Python type name of a decoded value is `dict` exactly for objects |
| `Serializers.SerializeRecord` | qa_backend/api/serializers.py:13 | a serialized record has exactly the keys `id`, `question`, `answer`, `created_at`, in that order, each holding the record's value |
| `Serializers.Without` | qa_backend/api/serializers.py:14 | keeps exactly the fields not in the excluded list |
| `Serializers.OnlyQuestionIsWritable` | qa_backend/api/serializers.py:13-14 | once `id`, `answer` and `created_at` are removed as read-only, only `question` is left for the client |
| `Serializers.FieldMessage` | qa_backend/api/serializers.py:22-24 | each `CharField` error has a non-empty message ending in a full stop |
| `Serializers.FieldMessagesDistinct` | qa_backend/api/serializers.py:22-24 | different field errors have different messages |
| `Serializers.ErrorDetail` | qa_backend/api/views.py:55 | the errors name the `question` field for a field error, and `non_field_errors` otherwise |
| `Serializers.AcceptText` | qa_backend/api/serializers.py:23-24 | text is accepted if and only if its trimmed form is non-empty and has no NUL; the accepted value is the trimmed form; otherwise the error is `Blank` or `NullCharacters` |
| `Serializers.AcceptTrimmed` | qa_backend/api/serializers.py:23-24 | text that is already trimmed, non-empty and free of NUL is accepted unchanged |
| `Serializers.ValidateQuestion` | qa_backend/api/serializers.py:22-26 | an accepted question is non-empty, trimmed and free of NUL; a missing field is `Required`; `null` is `Null` |
| `Serializers.ValidateAsk` | qa_backend/api/views.py:53-57 | only a JSON object can be accepted, and its question is non-empty and trimmed; a body that is not an object gets a non-field error; a field error names `question` |
| `Serializers.StringQuestion` | qa_backend/api/serializers.py:22-24 | a string question is accepted if and only if its trimmed form is non-empty and has no NUL; the accepted value is the trimmed form; a blank question is refused as `Blank` |
| `Serializers.MissingQuestionRefused` | qa_backend/api/serializers.py:22-26 | an object without `question` is refused as `Required` |
| `Serializers.OtherEntriesIgnored` | qa_backend/api/serializers.py:17-26 | only the `question` entry decides the outcome |
| `Serializers.ValidatedQuestionIsStable` | qa_backend/api/serializers.py:22-24 | an accepted question, submitted again exactly as accepted, is accepted unchanged |
| `Serializers.IntegerQuestion` | qa_backend/api/serializers.py:22 | an integer question is accepted as its decimal text |
| `Models.RecordTable.constructor` | qa_backend/api/models.py:4-11 | a new table is empty and valid; the first id to be handed out is 1 |
| `Models.RecordTable.Create` | qa_backend/api/views.py:61 | appends exactly one record with the next id and the advanced clock; the invariant is kept (distinct, increasing ids; non-decreasing timestamps); the new id is fresh and its timestamp is no earlier than any stored one |
| `Models.RecordTable.ValidIdsDistinct` | qa_backend/api/models.py:4-11 | a valid table never holds two records with the same id |
| `Views.Health` | qa_backend/api/views.py:19 | status 200 with the fixed payload `{"message": "Server is up!"}`; the table is not an input |
| `Views.AnswerFor` | qa_backend/api/views.py:59 | the answer is the prefix `"You asked: "` followed by the question |
| `Views.AnswerRoundTrip` | qa_backend/api/views.py:59 | the question can be recovered from its answer |
| `Views.AnswerInjective` | qa_backend/api/views.py:59 | different questions get different answers |
| `Views.Insert` | qa_backend/api/views.py:89 | inserting into a newest-first list keeps it newest-first, and adds exactly the new record to the multiset |
| `Views.PrependNewest` | qa_backend/api/views.py:89 | a record no older than any in a newest-first list can go in front of it |
| `Views.OrderByNewest` | qa_backend/api/views.py:89 | `order_by("-created_at")` returns a newest-first permutation of the rows |
| `Views.InsertKeepsIdsDistinct` | qa_backend/api/views.py:89 | inserting a record with a new id keeps the ids distinct |
| `Views.OrderingKeepsIdsDistinct` | qa_backend/api/views.py:89 | reordering keeps the ids distinct |
| `Views.SerializeAll` | qa_backend/api/views.py:90 | `many=True` serializes each record in order |
| `Views.SerializeCons` | qa_backend/api/views.py:90 | serializing a list with a record in front puts that record's serialized form in front |
| `Views.SerializeInsert` | qa_backend/api/views.py:89-90 | serializing after an insertion adds exactly the inserted record's serialized form to the multiset |
| `Views.SerializeOrdering` | qa_backend/api/views.py:89-90 | the serialized newest-first listing is a permutation of the serialized rows, whatever order the ties take |
| `Views.SerializedListing` | qa_backend/api/views.py:89-90 | serializing a newest-first list with distinct ids gives output whose `id`s differ pairwise and whose `created_at` never increases |
| `Views.AskQuestion` | qa_backend/api/views.py:53-63 | an invalid body gives 400 with the serializer's errors and leaves the table unchanged; a valid one appends exactly `(next id, trimmed question, "You asked: " + question, clock)`, advances the next id by one and returns 201 with that record; the new `created_at` is no earlier than the clock before the request |
| `Views.QaHistory` | qa_backend/api/views.py:89-91 | status 200; the listing is the serialized newest-first ordering of the table; as a multiset it is exactly the serialized rows; its ids differ pairwise and its `created_at` never increases; the table is not modified |
| `Views.AskAllThenHistory` | qa_backend/api/views.py:53-91 | after a sequence of asks on a new table, the history has one entry per accepted ask, with distinct ids and newest first |

## Findings

| source | as written | input that shows it | evidently intended | confidence | as-written member | corrected member |
|---|---|---|---|---|---|---|
| qa_backend/api/supabase_secret.py:55 | `urllib.request.Request(rpc_url, ...)` is built before the `try` at line 57. For a URL without a scheme it raises `ValueError("unknown url type: ...")`, which escapes the resolver. | `SUPABASE_URL="xyz.supabase.co"`, `SUPABASE_ANON_KEY="anon"`, `SUPABASE_SECRET_PASSPHRASE="pass"`, and no `OPENAI_API_KEY` | return `None`, as the docstring's "otherwise None" (lines 19-20) promises | not executed | `SupabaseSecret.SchemelessUrlRaises` | `SupabaseSecret.GetOpenAiApiKeyIntended` |
| qa_backend/api/supabase_secret.py:55 | The same construction before the `try` also runs `urlsplit` on the URL. For a host with an unmatched `[` it raises `ValueError("Invalid IPv6 URL")`, which escapes the resolver. | `SUPABASE_URL="https://[xyz.supabase.co"`, `SUPABASE_ANON_KEY="anon"`, `SUPABASE_SECRET_PASSPHRASE="pass"`, and no `OPENAI_API_KEY` | return `None`, as the docstring's "otherwise None" (lines 19-20) promises | not executed | `SupabaseSecret.BracketUrlRaises` | `SupabaseSecret.GetOpenAiApiKeyIntended` |
| qa_backend/api/supabase_secret.py:55 | `urlsplit` also raises `ValueError("Invalid IPv6 URL")` for a host with both brackets but text before the `[`, and that too escapes the resolver. | `SUPABASE_URL="https://x[0:0:0:0:0:0:0:1]"`, `SUPABASE_ANON_KEY="anon"`, `SUPABASE_SECRET_PASSPHRASE="pass"`, and no `OPENAI_API_KEY` | return `None`, as the docstring's "otherwise None" (lines 19-20) promises | not executed | `SupabaseSecret.PrefixedBracketUrlRaises` | `SupabaseSecret.GetOpenAiApiKeyIntended` |

## Left out

- HTTP transport: `urllib.request.urlopen` and its 10-second timeout, the response read, and UTF-8 decoding. They are foreign I/O. Their result is the `transport` parameter, and a decoding failure is one of the `Failed` outcomes.
- JSON decoding and encoding: `json.loads` is the `loads` parameter. The request body is kept as a JSON value; `json.dumps` and `.encode("utf-8")` are not modelled.
- The parts of `urllib.request.Request` and `urlsplit` that compute rather than check: host and selector splitting, unquoting, scheme lower-casing, query and fragment splitting, and port stripping in `request_host`. They cannot raise, and the resolver reads none of what they compute.
- NFKC normalisation: `unicodedata.normalize` needs the Unicode character tables, so it is the `nfkc` parameter.
- Python versions: the URL checks are those of CPython 3.12.13. Other releases check differently. Releases without `_check_bracketed_netloc` check only the text between the first `[` and the first `]`, and older ones do not check bracketed hosts at all.
- `ipaddress` error messages: every refusal is the one `ValueError`, so the model does not say which of CPython's messages (too many colons, bad octet, and so on) a refused address gets. `split(':', maxsplit=9)` is modelled as a plain split; the two refuse the same addresses (see the header of `ipaddress.dfy`).
- Header name normalisation: `urllib.request.Request` capitalises header names (`Apikey`, `Content-type`). The model keeps the names as the source writes them.
- The `logging.warning` calls: they do not affect the result.
- Django ORM persistence and `auto_now_add`: the database is an in-memory sequence, and the clock is a field that advances by a caller-chosen amount.
- `QARecord.__str__`: it is debug formatting.
- Ids: they are modelled as consecutive from 1. A real database sequence may skip values, which the invariant (increasing ids) still allows, but `Create` does not produce skips.
- Ties in `order_by("-created_at")`: the database does not fix the order of records with equal timestamps. `OrderByNewest` picks one order. The `ensures` of `Views.QaHistory` that equates the listing with the serialized `OrderByNewest` result pins that order. Its other `ensures` do not depend on how ties are ordered: the multiset of serialized rows, the distinct ids and the newest-first `created_at`. Neither do those of `Views.AskAllThenHistory`.
- JSON rendering of responses: `created_at` is kept as a timestamp value and is not formatted as ISO 8601.
- Request parsing by Django REST framework: a body that is not JSON, and form-encoded bodies. The model starts from the decoded JSON body.
- `ProhibitSurrogateCharactersValidator`: Dafny characters are Unicode scalar values, so a lone surrogate cannot occur in a model string.
- URL routing (`urls.py`), `@api_view`, `swagger_auto_schema`, and building DRF `Response` objects: these are framework dispatch and documentation metadata.
- Concurrency between requests and database transactions: they are outside this code.
- `Views.AskAllThenHistory` is a client of the views, not a function of the source. It states the property about several asks followed by a history listing.
