# pyroutes cookie handling, modelled in Dafny

This project models the cookie layer of pyroutes (`pyroutes/http/cookies.py`). The layer has two halves that share one signing step.

- **Request side (`RequestCookieHandler`).** It parses a request's raw `Cookie` header, which a WSGI server passes as `HTTP_COOKIE`, into a name-to-value map. It then answers plain lookups and signed lookups. A signed lookup checks the `<name>_hash` companion cookie against an HMAC of `name + value` under the site's secret key.
- **Response side (`ResponseCookieHandler`).** It keeps an append-only list of `('Set-Cookie', value)` headers. Adding a signed cookie appends the value header and then its `<name>_hash` header. Deleting a cookie appends two headers that expire both cookies at the epoch.

Modules:

- `Text` (text.dfy): the Python 3 string operations the parser uses. These are `str.split(sep)`, `str.split(sep, 1)` and `str.strip()`, with Python's 29 white-space code points.
- `Cookies` (cookies.dfy): the shared pieces:
  - the settings the code reads (`SECRET_KEY`, `SITE_ROOT`);
  - the signature function, a parameter of type `Signer`;
  - the `<key>_hash` naming;
  - the three exceptions.
- `RequestCookies` (request.dfy): the reader, as pure functions over `map<string, string>`. The parse is partial, as in the code. `dict()` raises `ValueError` at the first segment without `=`. So an empty header, or one ending in `;`, fails.
- `ResponseCookies` (response.dfy): the writer, as a class. Its field `cookieHeaders: seq<Header>` is reassigned by `modifies this` methods. The `Set-Cookie` value is built step by step, as the code builds it with `+=`.
- `CookieRoundTrip` (roundtrip.dfy): covers a value written by the response side and read back by the request side. A user agent stores the `name=value` pair in front of the first `;` (section 5.2 of RFC 6265). It sends stored pairs back joined with `; ` (section 5.4 of RFC 6265).
- `CookieExamples` (examples.dfy): the cases of `tests/cookie_test.py`, with the digests left symbolic.

Configuration and foreign code become parameters:

- `settings.SECRET_KEY` and `settings.SITE_ROOT` are a `Settings(secretKey: Option<string>, siteRoot: string)` value. `None` is an unset key. An empty key is still a key, because the code tests `is None`.
- HMAC-SHA1 (RFC 2104 over SHA-1) is the parameter `signer: Signer`, which maps a secret and a message to a digest. Every property holds for any digest function.
- The signed message is the plain string `key + value`.
- The `path` argument is `PathArg = Default | Given(path)`. `Given("")` stands for every falsy path, `False` included, because the code only tests truthiness.
- `expires` is an already-formatted `Option<string>`.
- Exceptions become values:
  - Lookups return `Result<Option<string>, CookieError>`. `Ok(None)` is Python's `None`, `Ok(Some(v))` is a returned value, and `Err(e)` is a raised exception.
  - `AddCookie` returns `Option<CookieError>`.
  - Parse failure is `Err(DictElementLength(index, length))`.

Two behaviours of the code are kept exactly as written, although they may look like oversights:

- **Malformed segments.** A segment without `=` is not skipped. `dict()` fails on it, and so does the model (`ParseCookieHeader`).
- **Signing without a secret.** The value header is appended first. Then `CookieKeyMissing` is raised, and no signature header is appended. `AddCookie` and `NoSecretKeyExample` state that order.

## Model

| member | source | states |
|---|---|---|
| `Text.Split` | pyroutes/http/cookies.py:34 | `header.split(';')` yields at least one piece, and no piece holds the separator |
| `Text.JoinSplit` | pyroutes/http/cookies.py:34 | joining the pieces with the separator gives back the original header, so splitting loses nothing |
| `Text.SplitJoin` | pyroutes/http/cookies.py:34 | splitting a join of separator-free pieces gives exactly those pieces back (the inverse direction) |
| `Text.SplitCons` | pyroutes/http/cookies.py:34 | a separator-free first piece followed by the separator splits off as a piece of its own |
| `Text.SplitNone` | pyroutes/http/cookies.py:34 | a string without the separator splits into just itself |
| `Text.JoinSnoc` | pyroutes/http/cookies.py:34 | joining one more piece appends the separator and that piece |
| `Text.SplitSnoc` | pyroutes/http/cookies.py:34 | appending the separator and a separator-free piece adds exactly that piece at the end of the split |
| `Text.SplitOnce` | pyroutes/http/cookies.py:33 | `c.split('=', 1)` gives one part, the whole segment, when it holds no `=`; otherwise two parts, where the first holds no `=` and the segment is first + `=` + second |
| `Text.SplitOnceAt` | pyroutes/http/cookies.py:33 | in `a + "=" + b` with no `=` in `a`, the split happens right after `a` |
| `Text.IsSpace` | pyroutes/http/cookies.py:33 | the white space `str.strip()` removes, Python 3's 29 `isspace` code points; its meaning in the parser is fixed by the `LStrip` and `RStrip` contracts, which remove exactly a run of these characters at each end |
| `Text.LStrip` | pyroutes/http/cookies.py:33 | the result is a suffix of the input that does not start with white space, and all that was removed is white space |
| `Text.RStrip` | pyroutes/http/cookies.py:33 | the result is a prefix of the input that does not end with white space, and all that was removed is white space |
| `Text.Strip` | pyroutes/http/cookies.py:33 | `part.strip()` has no white space at either end, and leaves a string that has none unchanged |
| `Text.StripSpacePrefix` | pyroutes/http/cookies.py:33 | leading white space, such as the blank after `; `, does not survive `strip()` |
| `Cookies.HashName` | pyroutes/http/cookies.py:46 | the companion name of `key` is `key` followed by `_hash` |
| `Cookies.SignedMessage` | pyroutes/http/cookies.py:51-52 | the message signed for a cookie is its name followed by its value; the `GetCookie` contract checks the companion against the signature of exactly this message, and the `AddCookie` contract writes the signature of the same message, which `SignedCookieReadsBack` ties together |
| `Cookies.HashNameDiffers` | pyroutes/http/cookies.py:46 | a companion name never equals the cookie's own name, so a signed pair is two distinct entries |
| `RequestCookies.Item` | pyroutes/http/cookies.py:33 | the trimmed parts of a segment form a pair exactly when the segment holds `=`, and a single item otherwise |
| `RequestCookies.Items` | pyroutes/http/cookies.py:32-34 | there is one item per `;`-segment, and item i is a pair exactly when segment i holds `=` |
| `RequestCookies.ItemsArePairs` | pyroutes/http/cookies.py:32-34 | every item is a pair if and only if every segment holds `=` |
| `RequestCookies.Dict` | pyroutes/http/cookies.py:32 | `dict()` succeeds if and only if every item is a pair; on failure it names the first non-pair item and its length |
| `RequestCookies.LastPairNamed` | pyroutes/http/cookies.py:32 | reference definition of the last pair carrying a name: it carries that name, and no later pair does |
| `RequestCookies.DictLastWins` | pyroutes/http/cookies.py:32 | `dict()` holds a name if and only if some pair carries it, and keeps the value of the last such pair (a later duplicate overwrites) |
| `RequestCookies.ParseCookieHeader` | pyroutes/http/cookies.py:32-34 | the parse succeeds if and only if every `;`-segment holds `=`; otherwise it fails with a length-1 item at the first segment without one; an empty header always fails |
| `RequestCookies.ParsedNamesAndValues` | pyroutes/http/cookies.py:32-34 | a parsed name is present if and only if some segment's trimmed name is that name, and its value is the trimmed value of the last such segment |
| `RequestCookies.PairItem` | pyroutes/http/cookies.py:33 | a segment `name=value`, with white space in front, gives the trimmed name and the trimmed value |
| `RequestCookies.SegmentItem` | pyroutes/http/cookies.py:33 | an already trimmed `name=value` whose name holds no `=` gives exactly `[name, value]` |
| `RequestCookies.ParseJoinedPairs` | pyroutes/http/cookies.py:32-34 | parsing `name=value` segments joined with `;` equals `dict()` of those pairs, when names hold no `=` or `;`, values hold no `;`, and neither has white space at its ends |
| `RequestCookies.ParseEnviron` | pyroutes/http/cookies.py:30-36 | with no environ, or no `HTTP_COOKIE` in it, there are no cookies; otherwise the result is the parse of that header |
| `RequestCookies.GetUnsignedCookie` | pyroutes/http/cookies.py:62-69 | returns a value if and only if the name is present, and that value is the stored one; it depends on no companion and no secret |
| `RequestCookies.GetCookie` | pyroutes/http/cookies.py:41-60 | decision table as if-and-only-if clauses: `None` exactly when the name is absent; `CookieHashMissing(key)` when the companion is absent, with or without a secret; `CookieKeyMissing` when both are present and there is no secret; otherwise the stored value exactly when the companion equals the signature of `key + value`, and `CookieHashInvalid(key)` exactly when it differs |
| `RequestCookies.SignedReadAgreesWithUnsigned` | pyroutes/http/cookies.py:41-69 | the signed read finds nothing exactly when the plain read finds nothing, and whatever it returns is the plain value |
| `RequestCookies.TamperedValueIsRejected` | pyroutes/http/cookies.py:47-56 | a value replaced after signing, whose signature differs from the original's, raises `CookieHashInvalid` and is never returned |
| `ResponseCookies.ResolvePath` | pyroutes/http/cookies.py:94-95 | the resolved path is empty, so no path attribute is written, exactly when a falsy path was given; a left-out path never resolves to empty; `PathAttribute` states which path each case writes |
| `ResponseCookies.Attributes` | pyroutes/http/cookies.py:99-104 | the attributes are empty exactly when there is no expiry and no path; `SetCookieSegments` states which attribute segments they hold, and in what order |
| `ResponseCookies.CookieString` | pyroutes/http/cookies.py:97-104 | the `Set-Cookie` value of both headers (lines 115-121 build the companion's the same way); `SetCookieSegments` reads it back as the pair and exactly the attributes written |
| `ResponseCookies.SetCookieSegments` | pyroutes/http/cookies.py:97-104 | a `Set-Cookie` value split on `;` gives the `key=value` pair, then ` expires=E` if an expiry is given, then ` path=P` if the path is not empty, and nothing else |
| `ResponseCookies.PathAttribute` | pyroutes/http/cookies.py:94-104 | a left-out path writes the site root as path, or `/` when the site root is empty; a falsy path writes no path attribute; any other path is written verbatim |
| `ResponseCookies.WithAttributes` | pyroutes/http/cookies.py:99-104 | the step-by-step appends of `; expires=E` and `; path=P` produce the pair followed by the attributes |
| `ResponseCookies.ResponseCookieHandler.constructor` | pyroutes/http/cookies.py:77-78 | a new handler holds no headers |
| `ResponseCookies.ResponseCookieHandler.AddCookie` | pyroutes/http/cookies.py:80-123 | appends the value header; when signing with a secret, then appends `key_hash=<signature of key+value>` with the identical attributes; when signing without a secret, appends only the value header and raises `CookieKeyMissing`; earlier headers are unchanged |
| `ResponseCookies.ResponseCookieHandler.AddUnsignedCookie` | pyroutes/http/cookies.py:125-127 | appends exactly one header, the value header, and never raises |
| `ResponseCookies.ResponseCookieHandler.DelCookie` | pyroutes/http/cookies.py:129-136 | appends exactly `k=null; expires=Thu, 01-Jan-1970 00:00:01 GMT` and then the same for `k_hash`, with no secret needed |
| `ResponseCookies.DeletionHeaders` | pyroutes/http/cookies.py:132-136 | each deletion header is what an unsigned add of `null` with the epoch expiry and a falsy path writes, and read back it has no path attribute |
| `ResponseCookies.DeletionHeader` | pyroutes/http/cookies.py:133 | the deletion header of one name splits into `name=null` and the epoch expiry |
| `CookieRoundTrip.StoredPairOf` | pyroutes/http/cookies.py:97-104 | what a user agent keeps of a written header is its `key=value` pair |
| `CookieRoundTrip.HashNameTransparent` | pyroutes/http/cookies.py:115 | if a key has no `;`, no `=` and no surrounding white space, its `_hash` companion name has none either |
| `CookieRoundTrip.TwoPairSegments` | pyroutes/http/cookies.py:34 | a two-pair request header splits into the first pair and the second pair behind a blank |
| `CookieRoundTrip.TwoPairItems` | pyroutes/http/cookies.py:33 | those two segments give the two trimmed pairs |
| `CookieRoundTrip.ItemsOfTwo` | pyroutes/http/cookies.py:32-34 | a two-segment header has the two segments' items |
| `CookieRoundTrip.TwoPairDict` | pyroutes/http/cookies.py:32 | `dict()` of two pairs with different names holds both |
| `CookieRoundTrip.SignedPairParses` | pyroutes/http/cookies.py:30-36 | a request header holding a cookie and its companion parses to exactly those two entries |
| `CookieRoundTrip.SignedCookieReadsBack` | pyroutes/http/cookies.py:106-123 | the two headers a signed add writes under a secret, stored and sent back, parse to the value and its signature; the signed read and the plain read both return the value |
| `CookieRoundTrip.SignedCookieThroughHandlers` | pyroutes/http/cookies.py:45-54 | a fresh handler, one signed `AddCookie`, the stored pairs sent back, parsed from the environ and read with the same secret: the read returns the value |
| `CookieExamples.SignedAddExamples` | tests/cookie_test.py:67-98 | `foo=bar; path=/` then `foo_hash=<digest>; path=/`; with an expiry, both carry `; expires=E` before the path |
| `CookieExamples.UnsignedAddExamples` | tests/cookie_test.py:73-105 | default path `/`, falsy path none, site root `/baz/`, given path `/foo`, expiry before path: one header each |
| `CookieExamples.DelCookieExample` | tests/cookie_test.py:106-109 | deleting `foo` writes the two epoch-expired headers |
| `CookieExamples.NoSecretKeyExample` | tests/cookie_test.py:111-115 | signing without a secret raises `CookieKeyMissing` after writing only the value header |
| `CookieExamples.ParseExample` | tests/cookie_test.py:23-35 | the tests' header parses to its five cookies, and no environ gives no cookies |
| `CookieExamples.LookupExamples` | tests/cookie_test.py:37-57 | `foo` reads as `bar`; `bar` raises `CookieHashMissing`; `baz` raises `CookieHashInvalid`; an absent name is `None` both ways; no secret raises `CookieKeyMissing` |

## Left out

- HMAC-SHA1 itself (RFC 2104 over SHA-1, `hmac.HMAC(...).hexdigest()`) is a library call. It is the parameter `signer`, so no concrete digest is computed or checked.
- `str_encode` (ISO-8859-1 encoding, which falls back to the unencoded string when that fails) is Python byte/str plumbing. The signed message is the string `key + value` itself. Under Python 3, a `key + value` holding a character outside ISO-8859-1 stays a `str`, and `hmac.HMAC` then raises `TypeError` in `add_cookie` after the value header is appended. That failure is not modelled: `AddCookie` appends both headers for such input. The read side cannot reach it, since a WSGI environ is decoded as Latin-1.
- `expires.strftime(...)` is a datetime library call. `expires` arrives already formatted. A formatted date is never empty, so `Some(e)` always writes the attribute.
- The global `settings` module, and its reloading in the tests, is process-wide mutable configuration. It is passed in as `Settings` instead.
- `__repr__` is debugging output.
- The `*args/**kwargs` forwarding of `add_unsigned_cookie` is modelled as `AddCookie` with `sign = false`.
- The exception classes' Python base classes (`LookupError`, `ValueError`, `AttributeError`) are not modelled. Only which exception is raised, and with which arguments, is modelled.
- The message text of `dict()`'s `ValueError` is not modelled. Only the failing element's index and length are kept.
- Path arguments that are neither `None` nor a string (for example `True`) are not modelled. They format oddly or fail at `'; path=' + path`.
- Python 2 string semantics are not modelled. There, `strip()` removes only ASCII white space. The model uses Python 3's definition.
- `CookieRoundTrip.SignedCookieReadsBack`: the round trip is proved only when the name, the value and the signature hold no `;`, the name holds no `=`, and none of them has white space at its ends. The path, the site root and the expiry date are unrestricted, since a user agent keeps only the text before the first `;`. The writer neither quotes nor checks values, so other inputs do not survive a user agent's split.
- A user agent is modelled only as far as the round trip needs: it keeps the pair in front of the first `;` and sends pairs back joined with `; `. Cookie scoping by path and expiry is not modelled. So the model cannot observe that `del_cookie`, which writes no path attribute, may not remove a cookie first set with a non-root path.
- `tests/stderr_helper.py` redirects stderr and the logger. It is I/O plumbing with nothing to verify.
