/** `ResponseCookieHandler`: the `Set-Cookie` headers of one response, kept in the
    order they are added. Adding a signed cookie appends its value header and then
    a `<key>_hash` header carrying the signature; deleting appends two headers
    that expire both cookies. */
module ResponseCookies {
  import opened Text
  import opened Cookies

  /** One response header: its name and its value. */
  type Header = (string, string)

  const SET_COOKIE := "Set-Cookie"

  /** The expiry date `del_cookie` gives both cookies: one second into 1970. */
  const EPOCH_EXPIRES := "Thu, 01-Jan-1970 00:00:01 GMT"

  /** The `path` argument of `add_cookie`: left out (Python's `None`), or given.
      A given empty path stands for every falsy value, `False` included, since only
      the truth of the argument is tested. */
  datatype PathArg = Default | Given(path: string)

  /** The path attribute a cookie gets: the site root, or `/` when the site root is
      empty, if the path was left out; the given path otherwise. An empty result
      means no path attribute. */
  function ResolvePath(path: PathArg, siteRoot: string): (resolved: string)
    ensures resolved == "" <==> path == Given("")
  {
    match path
    case Default => if siteRoot != "" then siteRoot else "/"
    case Given(p) => p
  }

  /** The attributes after the `name=value` pair: `; expires=E` when an expiry
      date is given, then `; path=P` when the path is not empty. */
  function Attributes(expires: Option<string>, path: string): (attributes: string)
    ensures attributes == "" <==> expires.None? && path == ""
  {
    (if expires.Some? then "; expires=" + expires.value else "") +
    (if path != "" then "; path=" + path else "")
  }

  /** The value of a `Set-Cookie` header: `name=value` followed by the attributes. */
  function CookieString(name: string, value: string, expires: Option<string>, path: string): string
  {
    name + "=" + value + Attributes(expires, path)
  }

  /** The attribute segments of a `Set-Cookie` value, as `CookieString` lays them out. */
  function AttributeSegments(expires: Option<string>, path: string): seq<string>
  {
    (if expires.Some? then [" expires=" + expires.value] else []) +
    (if path != "" then [" path=" + path] else [])
  }

  /** Reading a `Set-Cookie` value back: split on `;`, it gives the `name=value`
      pair first, then ` expires=E` if an expiry date was given, then ` path=P` if
      the path is not empty, and nothing else, as long as no part holds a `;`. */
  lemma SetCookieSegments(name: string, value: string, expires: Option<string>, path: string)
    requires ';' !in name && ';' !in value && ';' !in path
    requires expires.Some? ==> ';' !in expires.value
    ensures Split(CookieString(name, value, expires, path), ';') ==
      [name + "=" + value] + AttributeSegments(expires, path)
  {
    var pair := name + "=" + value;
    SplitNone(pair, ';');
    var withExpires := pair + if expires.Some? then "; expires=" + expires.value else "";
    if expires.Some? {
      assert withExpires == pair + [';'] + (" expires=" + expires.value);
      assert ';' !in " expires=" + expires.value;
      SplitSnoc(pair, ';', " expires=" + expires.value);
    } else {
      assert withExpires == pair;
    }
    assert Split(withExpires, ';') == [pair] + if expires.Some? then [" expires=" + expires.value] else [];
    if path != "" {
      assert CookieString(name, value, expires, path) == withExpires + [';'] + (" path=" + path);
      assert ';' !in " path=" + path;
      SplitSnoc(withExpires, ';', " path=" + path);
    } else {
      assert CookieString(name, value, expires, path) == withExpires;
    }
  }

  /** Where the path attribute comes from, read back from the header: a left-out
      path writes `path=` the site root, or `/` when the site root is empty; a
      falsy path writes no path attribute, so only the pair and the expiry date
      remain; any other path is written as given. */
  lemma PathAttribute(name: string, value: string, expires: Option<string>, path: PathArg, siteRoot: string)
    requires ';' !in name && ';' !in value && ';' !in siteRoot
    requires expires.Some? ==> ';' !in expires.value
    requires path.Given? ==> ';' !in path.path
    ensures var segments := Split(CookieString(name, value, expires, ResolvePath(path, siteRoot)), ';');
      && segments[0] == name + "=" + value
      && (path.Default? ==> segments[|segments| - 1] == " path=" + (if siteRoot != "" then siteRoot else "/"))
      && (path == Given("") ==> segments == [name + "=" + value] + if expires.Some? then [" expires=" + expires.value] else [])
      && (path.Given? && path.path != "" ==> segments[|segments| - 1] == " path=" + path.path)
  {
    assert ';' !in "/";
    SetCookieSegments(name, value, expires, ResolvePath(path, siteRoot));
  }

  /** The attribute steps `add_cookie` takes twice, once for the value header and
      once for the signature header: `; expires=E` is appended when an expiry date
      is given, then `; path=P` when the path is not empty. */
  method WithAttributes(pair: string, expires: Option<string>, path: string) returns (cookie: string)
    ensures cookie == pair + Attributes(expires, path)
  {
    cookie := pair;
    if expires.Some? {
      cookie := cookie + "; expires=" + expires.value;
    }
    if path != "" {
      cookie := cookie + "; path=" + path;
    }
  }

  class ResponseCookieHandler {
    /** The `('Set-Cookie', value)` pairs added so far, oldest first. */
    var cookieHeaders: seq<Header>

    constructor ()
      ensures cookieHeaders == []
    {
      cookieHeaders := [];
    }

    /** `add_cookie(key, value, expires, path, sign)`. The value header is always
        appended. When signing, an unset secret key raises `CookieKeyMissing`
        after that append and before anything else; with a key, the header
        `<key>_hash=<signature of key + value>` with the same attributes follows
        it. */
    method AddCookie(key: string, value: string, expires: Option<string>, path: PathArg, sign: bool,
                     settings: Settings, signer: Signer)
      returns (raised: Option<CookieError>)
      modifies this
      ensures raised == if sign && settings.secretKey.None? then Some(CookieKeyMissing(KEY_MISSING_REASON)) else None
      ensures var p := ResolvePath(path, settings.siteRoot);
        cookieHeaders == old(cookieHeaders) + [(SET_COOKIE, CookieString(key, value, expires, p))] +
          if sign && settings.secretKey.Some?
          then [(SET_COOKIE, CookieString(HashName(key), signer(settings.secretKey.value, SignedMessage(key, value)), expires, p))]
          else []
    {
      var p := ResolvePath(path, settings.siteRoot);

      var cookie := WithAttributes(key + "=" + value, expires, p);
      cookieHeaders := cookieHeaders + [(SET_COOKIE, cookie)];

      raised := None;
      if sign {
        if settings.secretKey.None? {
          raised := Some(CookieKeyMissing(KEY_MISSING_REASON));
          return;
        }
        var cookieHash := signer(settings.secretKey.value, key + value);
        cookieHash := WithAttributes(key + "_hash=" + cookieHash, expires, p);
        assert key + "_hash=" == HashName(key) + "=";
        cookieHeaders := cookieHeaders + [(SET_COOKIE, cookieHash)];
      }
    }

    /** `add_unsigned_cookie`: `add_cookie` with `sign=False`, which appends the
        value header alone and cannot raise. */
    method AddUnsignedCookie(key: string, value: string, expires: Option<string>, path: PathArg, settings: Settings)
      modifies this
      ensures cookieHeaders == old(cookieHeaders) +
        [(SET_COOKIE, CookieString(key, value, expires, ResolvePath(path, settings.siteRoot)))]
    {
      // The signature function is never consulted when nothing is signed.
      var raised := AddCookie(key, value, expires, path, false, settings, (secret, message) => "");
    }

    /** `del_cookie(key)`: appends a header that empties cookie `key` and expires
        it at the epoch, then the same for `<key>_hash`. No secret is needed and no
        path attribute is written. */
    method DelCookie(key: string)
      modifies this
      ensures cookieHeaders == old(cookieHeaders) + [
        (SET_COOKIE, key + "=null; expires=" + EPOCH_EXPIRES),
        (SET_COOKIE, key + "_hash=null; expires=" + EPOCH_EXPIRES)]
    {
      cookieHeaders := cookieHeaders + [(SET_COOKIE, key + "=null; expires=" + EPOCH_EXPIRES)];
      cookieHeaders := cookieHeaders + [(SET_COOKIE, key + "_hash=null; expires=" + EPOCH_EXPIRES)];
    }
  }

  /** The two deletion headers are what an unsigned add of the value `null`, with
      the epoch as expiry date and no path, would write for the cookie and for its
      companion: read back, each is the `name=null` pair and the expiry, with no
      path attribute. */
  lemma DeletionHeaders(key: string)
    requires ';' !in key
    ensures key + "=null; expires=" + EPOCH_EXPIRES == CookieString(key, "null", Some(EPOCH_EXPIRES), "")
    ensures key + "_hash=null; expires=" + EPOCH_EXPIRES == CookieString(HashName(key), "null", Some(EPOCH_EXPIRES), "")
    ensures Split(key + "=null; expires=" + EPOCH_EXPIRES, ';') == [key + "=null", " expires=" + EPOCH_EXPIRES]
    ensures Split(key + "_hash=null; expires=" + EPOCH_EXPIRES, ';') == [HashName(key) + "=null", " expires=" + EPOCH_EXPIRES]
  {
    CompanionDeletionText(key);
    DeletionHeader(key);
    DeletionHeader(HashName(key));
  }

  /** The deletion header of one name, read back. */
  lemma DeletionHeader(name: string)
    requires ';' !in name
    ensures name + "=null; expires=" + EPOCH_EXPIRES == CookieString(name, "null", Some(EPOCH_EXPIRES), "")
    ensures Split(name + "=null; expires=" + EPOCH_EXPIRES, ';') == [name + "=null", " expires=" + EPOCH_EXPIRES]
  {
    DeletionText(name);
    SetCookieSegments(name, "null", Some(EPOCH_EXPIRES), "");
  }

  lemma DeletionText(name: string)
    ensures name + "=null; expires=" + EPOCH_EXPIRES == CookieString(name, "null", Some(EPOCH_EXPIRES), "")
    ensures name + "=" + "null" == name + "=null"
    ensures AttributeSegments(Some(EPOCH_EXPIRES), "") == [" expires=" + EPOCH_EXPIRES]
    ensures ';' !in EPOCH_EXPIRES && ';' !in "null"
  {
    assert "=null; expires=" == "=" + "null" + "; expires=";
  }

  lemma CompanionDeletionText(key: string)
    ensures key + "_hash=null; expires=" + EPOCH_EXPIRES == HashName(key) + "=null; expires=" + EPOCH_EXPIRES
    ensures ';' !in key ==> ';' !in HashName(key)
  {
    assert "_hash" + "=null; expires=" == "_hash=null; expires=";
  }
}
