/** What the response side writes, the request side reads back: a signed cookie
    added with a secret key, stored by a user agent and sent back in a `Cookie`
    header, parses to its value and its signature and passes the signed read. */
module CookieRoundTrip {
  import opened Text
  import opened Cookies
  import opened RequestCookies
  import opened ResponseCookies

  /** The cookie a user agent keeps from a `Set-Cookie` value: the `name=value`
      pair before the first `;` (section 5.2 of RFC 6265). */
  function StoredPair(setCookie: string): string
  {
    Split(setCookie, ';')[0]
  }

  /** The `Cookie` request header a user agent sends for the pairs it stores,
      joined with `; ` (section 5.4 of RFC 6265). It has its own definition
      rather than going through `Join`, whose separator is the single character
      the parser splits on: this one is the two-character `; ` of the user agent,
      and the blank it adds is what the parser's `strip()` must remove. */
  function RequestHeader(pairs: seq<string>): string
  {
    if pairs == [] then ""
    else if |pairs| == 1 then pairs[0]
    else pairs[0] + "; " + RequestHeader(pairs[1..])
  }

  /** A cookie name or value that survives the trip: no `;` ends it early, and no
      white space at its ends is lost to `strip()`. */
  predicate Transparent(s: string)
  {
    ';' !in s && IsStripped(s)
  }

  /** A user agent keeps the `name=value` pair of what `add_cookie` writes. */
  lemma StoredPairOf(name: string, value: string, expires: Option<string>, path: string)
    requires ';' !in name && ';' !in value
    ensures StoredPair(CookieString(name, value, expires, path)) == name + "=" + value
  {
    var pair := name + "=" + value;
    var attributes := Attributes(expires, path);
    assert ';' !in pair;
    if attributes == "" {
      assert CookieString(name, value, expires, path) == pair;
      SplitNone(pair, ';');
    } else {
      assert attributes[0] == ';';
      assert CookieString(name, value, expires, path) == pair + [';'] + attributes[1..];
      SplitCons(pair, ';', attributes[1..]);
    }
  }

  /** The companion name of a name that survives the trip survives it too. */
  lemma HashNameTransparent(key: string)
    requires Transparent(key) && '=' !in key
    ensures Transparent(HashName(key)) && '=' !in HashName(key)
  {
    var h := HashName(key);
    assert "_hash" == ['_', 'h', 'a', 's', 'h'];
    assert h[|h| - 1] == 'h' && !IsSpace('h');
    if key == [] {
      assert h[0] == '_' && !IsSpace('_');
    } else {
      assert h[0] == key[0];
    }
  }

  /** Two stored pairs sent back split into the first pair and the second one
      behind the blank that follows the `;`. */
  lemma TwoPairSegments(a: string, b: string)
    requires ';' !in a && ';' !in b
    ensures Split(RequestHeader([a, b]), ';') == [a, " " + b]
  {
    assert [a, b][1..] == [b];
    assert RequestHeader([a, b]) == a + "; " + b;
    assert a + "; " + b == a + [';'] + (" " + b);
    SplitCons(a, ';', " " + b);
    SplitNone(" " + b, ';');
  }

  /** The items of a header of two trimmed pairs. */
  lemma TwoPairItems(header: string, k1: string, v1: string, k2: string, v2: string)
    requires '=' !in k1 && '=' !in k2
    requires IsStripped(k1) && IsStripped(v1) && IsStripped(k2) && IsStripped(v2)
    requires Split(header, ';') == [k1 + "=" + v1, " " + (k2 + "=" + v2)]
    ensures Items(header) == [[k1, v1], [k2, v2]]
  {
    assert AllSpace(" ");
    SegmentItem(k1, v1);
    PairItem(" ", k2, v2);
    ItemsOfTwo(header);
  }

  lemma ItemsOfTwo(header: string)
    requires |Split(header, ';')| == 2
    ensures Items(header) == [Item(Split(header, ';')[0]), Item(Split(header, ';')[1])]
  {
    PairShape(Items(header));
  }

  /** `dict()` of two pairs with different names holds both. */
  lemma TwoPairDict(k1: string, v1: string, k2: string, v2: string)
    requires k1 != k2
    ensures Dict([[k1, v1], [k2, v2]]) == Ok(map[k1 := v1, k2 := v2])
  {
    var items := [[k1, v1], [k2, v2]];
    assert items[..1] == [[k1, v1]];
    assert items[..1][..0] == [];
    assert Dict(items[..1]) == Ok(map[k1 := v1]);
  }

  /** The signed pair read back: the headers `add_cookie` writes for `key` and
      `value` under a secret key, stored and sent back by a user agent, parse to
      exactly the value and its signature, and both the signed and the plain read
      return `value`. */
  lemma SignedCookieReadsBack(key: string, value: string, expires: Option<string>,
                              path: PathArg, settings: Settings, signer: Signer)
    requires settings.secretKey.Some?
    requires Transparent(key) && '=' !in key && Transparent(value)
    requires Transparent(signer(settings.secretKey.value, SignedMessage(key, value)))
    ensures
      var p := ResolvePath(path, settings.siteRoot);
      var digest := signer(settings.secretKey.value, SignedMessage(key, value));
      var header := RequestHeader([StoredPair(CookieString(key, value, expires, p)),
                                   StoredPair(CookieString(HashName(key), digest, expires, p))]);
      && ParseCookieHeader(header) == Ok(map[key := value, HashName(key) := digest])
      && GetCookie(ParseCookieHeader(header).value, key, settings.secretKey, signer) == Ok(Some(value))
      && GetUnsignedCookie(ParseCookieHeader(header).value, key) == Some(value)
  {
    var p := ResolvePath(path, settings.siteRoot);
    var digest := signer(settings.secretKey.value, SignedMessage(key, value));
    var hashName := HashName(key);
    HashNameTransparent(key);
    StoredPairOf(key, value, expires, p);
    StoredPairOf(hashName, digest, expires, p);
    SignedPairParses(key, value, digest);
    var raw := map[key := value, hashName := digest];
    assert key in raw && hashName in raw && raw[key] == value && raw[hashName] == digest by {
      HashNameDiffers(key);
    }
  }

  /** The request header holding a cookie and its companion parses to both. */
  lemma SignedPairParses(key: string, value: string, digest: string)
    requires Transparent(key) && '=' !in key && Transparent(value) && Transparent(digest)
    requires Transparent(HashName(key)) && '=' !in HashName(key)
    ensures ParseCookieHeader(RequestHeader([key + "=" + value, HashName(key) + "=" + digest])) ==
      Ok(map[key := value, HashName(key) := digest])
  {
    var header := RequestHeader([key + "=" + value, HashName(key) + "=" + digest]);
    TwoPairSegments(key + "=" + value, HashName(key) + "=" + digest);
    TwoPairItems(header, key, value, HashName(key), digest);
    HashNameDiffers(key);
    TwoPairDict(key, value, HashName(key), digest);
  }

  /** The same trip through the writer object: a fresh handler, one signed
      `add_cookie`, the stored pairs sent back, the request parsed from its
      environ and the cookie read with the same secret. */
  method SignedCookieThroughHandlers(key: string, value: string, expires: Option<string>,
                                     path: PathArg, settings: Settings, signer: Signer)
    returns (read: Result<Option<string>, CookieError>)
    requires settings.secretKey.Some?
    requires Transparent(key) && '=' !in key && Transparent(value)
    requires Transparent(signer(settings.secretKey.value, SignedMessage(key, value)))
    ensures read == Ok(Some(value))
  {
    var response := new ResponseCookieHandler();
    var raised := response.AddCookie(key, value, expires, path, true, settings, signer);
    assert |response.cookieHeaders| == 2;
    var header := RequestHeader([StoredPair(response.cookieHeaders[0].1), StoredPair(response.cookieHeaders[1].1)]);
    SignedCookieReadsBack(key, value, expires, path, settings, signer);
    var raw := ParseEnviron(Some(map[HTTP_COOKIE := header]));
    read := GetCookie(raw.value, key, settings.secretKey, signer);
  }
}
