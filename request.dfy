/** `RequestCookieHandler`: the cookies of one request. The raw `Cookie` header
    is parsed once into a name-to-value map, which is then read with or without
    checking the value's signature. */
module RequestCookies {
  import opened Text
  import opened Cookies

  /** The key under which a WSGI server passes the raw `Cookie` request header. */
  const HTTP_COOKIE := "HTTP_COOKIE"

  /** The `ValueError` Python's `dict()` raises when element `index` of the
      sequence it is given does not have exactly two items. */
  datatype ParseError = DictElementLength(index: nat, length: nat)

  /** `[part.strip() for part in segment.split('=', 1)]`: one item (the trimmed
      segment) when it holds no `=`, otherwise the trimmed name and value. */
  function Item(segment: string): (item: seq<string>)
    ensures |item| == (if '=' in segment then 2 else 1)
  {
    var parts := SplitOnce(segment, '=');
    seq(|parts|, i requires 0 <= i < |parts| => Strip(parts[i]))
  }

  /** The sequence `dict()` receives for a raw header: one item per `;`-segment. */
  function Items(header: string): (items: seq<seq<string>>)
    ensures |items| == |Split(header, ';')|
    ensures forall i :: 0 <= i < |items| ==> (|items[i]| == 2 <==> '=' in Split(header, ';')[i])
  {
    var segments := Split(header, ';');
    seq(|segments|, i requires 0 <= i < |segments| => Item(segments[i]))
  }

  /** Every item is a pair exactly when every segment holds an `=`. */
  lemma ItemsArePairs(header: string)
    ensures (forall i :: 0 <= i < |Items(header)| ==> |Items(header)[i]| == 2) <==>
      (forall i :: 0 <= i < |Split(header, ';')| ==> '=' in Split(header, ';')[i])
  {
    var items := Items(header);
    var segments := Split(header, ';');
    if forall i :: 0 <= i < |items| ==> |items[i]| == 2 {
      forall i | 0 <= i < |segments| ensures '=' in segments[i] {
        assert |items[i]| == 2;
      }
    }
    if forall i :: 0 <= i < |segments| ==> '=' in segments[i] {
      forall i | 0 <= i < |items| ensures |items[i]| == 2 {
        assert '=' in segments[i];
      }
    }
  }

  /** `dict(items)`: items are taken in order and the first one that is not a
      pair makes the whole construction fail. */
  function Dict(items: seq<seq<string>>): (r: Result<map<string, string>, ParseError>)
    ensures r.Ok? <==> forall i :: 0 <= i < |items| ==> |items[i]| == 2
    ensures r.Err? ==>
      && r.error.index < |items|
      && |items[r.error.index]| == r.error.length != 2
      && forall j :: 0 <= j < r.error.index ==> |items[j]| == 2
    decreases |items|
  {
    if items == [] then Ok(map[])
    else
      var n := |items| - 1;
      var prefix := items[..n];
      match Dict(prefix)
      case Err(e) =>
        assert forall i :: 0 <= i < n ==> items[i] == prefix[i];
        Err(e)
      case Ok(m) =>
        assert forall i :: 0 <= i < n ==> items[i] == prefix[i];
        if |items[n]| != 2 then Err(DictElementLength(n, |items[n]|))
        else Ok(m[items[n][0] := items[n][1]])
  }

  /** The index of the last pair in `items` whose name is `k`, or -1 when there is none. */
  function LastPairNamed(items: seq<seq<string>>, k: string): (i: int)
    ensures -1 <= i < |items|
    ensures i >= 0 ==> |items[i]| == 2 && items[i][0] == k
    ensures forall j :: i < j < |items| ==> !(|items[j]| == 2 && items[j][0] == k)
    decreases |items|
  {
    if items == [] then -1
    else
      var n := |items| - 1;
      if |items[n]| == 2 && items[n][0] == k then n
      else
        assert forall j :: 0 <= j < n ==> items[..n][j] == items[j];
        LastPairNamed(items[..n], k)
  }

  /** `dict()` holds a name exactly when some pair carries it, and keeps the value
      of the LAST pair with that name: a later duplicate overwrites an earlier one. */
  lemma {:induction false} DictLastWins(items: seq<seq<string>>, k: string)
    requires Dict(items).Ok?
    ensures k in Dict(items).value <==> LastPairNamed(items, k) >= 0
    ensures k in Dict(items).value ==> Dict(items).value[k] == items[LastPairNamed(items, k)][1]
    decreases |items|
  {
    if items != [] {
      var n := |items| - 1;
      var prefix := items[..n];
      assert forall i :: 0 <= i < n ==> items[i] == prefix[i];
      assert Dict(prefix).Ok?;
      DictLastWins(prefix, k);
    }
  }

  /** The constructor's parse of a raw `Cookie` header: split on `;`, split each
      segment on its first `=`, trim both halves, and build the map. Every segment
      must hold an `=`: an empty header or a trailing `;` fails the parse, at the
      first segment without one. */
  function ParseCookieHeader(header: string): (r: Result<map<string, string>, ParseError>)
    ensures r.Ok? <==> forall i :: 0 <= i < |Split(header, ';')| ==> '=' in Split(header, ';')[i]
    ensures r.Err? ==>
      && r.error.length == 1
      && r.error.index < |Split(header, ';')|
      && '=' !in Split(header, ';')[r.error.index]
      && forall j :: 0 <= j < r.error.index ==> '=' in Split(header, ';')[j]
    ensures header == "" ==> r == Err(DictElementLength(0, 1))
  {
    ItemsArePairs(header);
    assert header == "" ==> Split(header, ';') == [""];
    Dict(Items(header))
  }

  /** A parsed name is present exactly when some segment's trimmed name is that
      name, and its value is the trimmed value of the last such segment. */
  lemma ParsedNamesAndValues(header: string, k: string)
    requires ParseCookieHeader(header).Ok?
    ensures var i := LastPairNamed(Items(header), k);
      && (k in ParseCookieHeader(header).value <==> i >= 0)
      && (i >= 0 ==>
            && '=' in Split(header, ';')[i]
            && Strip(SplitOnce(Split(header, ';')[i], '=')[0]) == k
            && ParseCookieHeader(header).value[k] == Strip(SplitOnce(Split(header, ';')[i], '=')[1]))
  {
    DictLastWins(Items(header), k);
  }

  lemma PairShape<T>(s: seq<T>)
    requires |s| == 2
    ensures s == [s[0], s[1]]
  {
  }

  /** The items of a segment split at `name` and `value` are the two trimmed parts. */
  lemma ItemOfParts(segment: string, name: string, value: string)
    requires SplitOnce(segment, '=') == [name, value]
    ensures Item(segment) == [Strip(name), Strip(value)]
  {
    PairShape(Item(segment));
  }

  /** A segment `name=value`, possibly after some white space, gives the trimmed
      name and value. */
  lemma PairItem(lead: string, name: string, value: string)
    requires '=' !in name && AllSpace(lead)
    ensures Item(lead + (name + "=" + value)) == [Strip(name), Strip(value)]
  {
    var segment := lead + (name + "=" + value);
    assert segment == (lead + name) + ['='] + value;
    assert !IsSpace('=');
    assert '=' !in lead;
    SplitOnceAt(lead + name, '=', value);
    StripSpacePrefix(lead, name);
    ItemOfParts(segment, lead + name, value);
  }

  /** A trimmed segment `name=value` whose name holds no `=` gives exactly that pair. */
  lemma SegmentItem(name: string, value: string)
    requires '=' !in name && IsStripped(name) && IsStripped(value)
    ensures Item(name + "=" + value) == [name, value]
  {
    SplitOnceAt(name, '=', value);
    ItemOfParts(name + "=" + value, name, value);
  }

  /** The header that joins `name=value` segments with `;`. */
  function JoinedPairs(pairs: seq<(string, string)>): string
  {
    Join(seq(|pairs|, i requires 0 <= i < |pairs| => pairs[i].0 + "=" + pairs[i].1), ';')
  }

  /** Parsing a `;`-joined list of `name=value` segments is `dict()` of the pairs,
      as long as no name holds `=` or `;`, no value holds `;`, and neither has
      white space at its ends. */
  lemma ParseJoinedPairs(pairs: seq<(string, string)>)
    requires |pairs| >= 1
    requires forall i :: 0 <= i < |pairs| ==>
      '=' !in pairs[i].0 && ';' !in pairs[i].0 && ';' !in pairs[i].1 &&
      IsStripped(pairs[i].0) && IsStripped(pairs[i].1)
    ensures ParseCookieHeader(JoinedPairs(pairs)) == Dict(seq(|pairs|, i requires 0 <= i < |pairs| => [pairs[i].0, pairs[i].1]))
  {
    var segments := seq(|pairs|, i requires 0 <= i < |pairs| => pairs[i].0 + "=" + pairs[i].1);
    assert forall i :: 0 <= i < |segments| ==> ';' !in segments[i];
    SplitJoin(segments, ';');
    var items := Items(JoinedPairs(pairs));
    var expected := seq(|pairs|, i requires 0 <= i < |pairs| => [pairs[i].0, pairs[i].1]);
    forall i | 0 <= i < |pairs|
      ensures items[i] == expected[i]
    {
      assert items[i] == Item(segments[i]);
      SegmentItem(pairs[i].0, pairs[i].1);
    }
    assert items == expected;
  }

  /** `RequestCookieHandler(environ)`: with no environ, or one without
      `HTTP_COOKIE`, there are no cookies; otherwise the header is parsed. */
  function ParseEnviron(environ: Option<map<string, string>>): (r: Result<map<string, string>, ParseError>)
    ensures (environ.None? || HTTP_COOKIE !in environ.value) ==> r == Ok(map[])
    ensures environ.Some? && HTTP_COOKIE in environ.value ==> r == ParseCookieHeader(environ.value[HTTP_COOKIE])
  {
    // `if environ and ...`: an empty environ is falsy, but it cannot hold the key either.
    if environ.Some? && HTTP_COOKIE in environ.value then ParseCookieHeader(environ.value[HTTP_COOKIE])
    else Ok(map[])
  }

  /** `get_unsigned_cookie`: the plain value, or `None`; never looks at the
      signature companion or the secret. */
  function GetUnsignedCookie(raw: map<string, string>, key: string): (r: Option<string>)
    ensures r.Some? <==> key in raw
    ensures r.Some? ==> r.value == raw[key]
  {
    if key in raw then Some(raw[key]) else None
  }

  /** `get_cookie`: a signed read. The checks are made in this order: an absent
      name gives `None`; a missing `<key>_hash` companion raises
      `CookieHashMissing`; an unset secret raises `CookieKeyMissing`; a companion
      that differs from the signature of `key + value` raises `CookieHashInvalid`;
      otherwise the value is returned. */
  function GetCookie(raw: map<string, string>, key: string, secretKey: Option<string>, sign: Signer)
    : (r: Result<Option<string>, CookieError>)
    ensures r == Ok(None) <==> key !in raw
    ensures r == Err(CookieHashMissing(key, HASH_MISSING_REASON)) <==> key in raw && HashName(key) !in raw
    ensures r == Err(CookieKeyMissing(KEY_MISSING_REASON)) <==>
      key in raw && HashName(key) in raw && secretKey.None?
    ensures r == Err(CookieHashInvalid(key, HASH_INVALID_REASON)) <==>
      key in raw && HashName(key) in raw && secretKey.Some? &&
      raw[HashName(key)] != sign(secretKey.value, SignedMessage(key, raw[key]))
    ensures r.Ok? && r.value.Some? <==>
      key in raw && HashName(key) in raw && secretKey.Some? &&
      raw[HashName(key)] == sign(secretKey.value, SignedMessage(key, raw[key]))
    ensures r.Ok? && r.value.Some? ==> r.value.value == raw[key]
  {
    if key in raw then
      if HashName(key) in raw then
        if secretKey.None? then Err(CookieKeyMissing(KEY_MISSING_REASON))
        else if raw[HashName(key)] == sign(secretKey.value, SignedMessage(key, raw[key])) then Ok(Some(raw[key]))
        else Err(CookieHashInvalid(key, HASH_INVALID_REASON))
      else Err(CookieHashMissing(key, HASH_MISSING_REASON))
    else Ok(None)
  }

  /** A signed read agrees with a plain read whenever it returns: it finds nothing
      exactly when the plain read finds nothing, and what it returns is the plain
      value. */
  lemma SignedReadAgreesWithUnsigned(raw: map<string, string>, key: string, secretKey: Option<string>, sign: Signer)
    ensures GetCookie(raw, key, secretKey, sign) == Ok(None) <==> GetUnsignedCookie(raw, key) == None
    ensures GetCookie(raw, key, secretKey, sign).Ok? ==>
      GetCookie(raw, key, secretKey, sign).value == GetUnsignedCookie(raw, key)
  {
  }

  /** Replacing a signed value by another whose signature differs is detected:
      the read raises `CookieHashInvalid` and never passes the new value on. */
  lemma TamperedValueIsRejected(raw: map<string, string>, key: string, secret: string, sign: Signer, original: string)
    requires key in raw && HashName(key) in raw
    requires raw[HashName(key)] == sign(secret, SignedMessage(key, original))
    requires sign(secret, SignedMessage(key, raw[key])) != sign(secret, SignedMessage(key, original))
    ensures GetCookie(raw, key, Some(secret), sign) == Err(CookieHashInvalid(key, HASH_INVALID_REASON))
  {
  }
}
