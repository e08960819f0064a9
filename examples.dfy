/** The cases of pyroutes' cookie tests, stated over the model. Digests are left
    symbolic: each case holds for whatever signature function is plugged in. */
module CookieExamples {
  import opened Text
  import opened Cookies
  import opened RequestCookies
  import opened ResponseCookies

  /** The secret key the tests configure. */
  const TEST_KEY := "asdfnaj2308sydfahli37flas36al9gaiufw"

  /** The header texts of the unsigned-add cases, laid out literally. */
  lemma PathLiterals()
    ensures CookieString("foo", "bar", None, "/") == "foo=bar; path=/"
    ensures CookieString("foo", "bar", None, "") == "foo=bar"
    ensures CookieString("foo", "bar", None, "/baz/") == "foo=bar; path=/baz/"
    ensures CookieString("foo", "bar", None, "/foo") == "foo=bar; path=/foo"
  {
  }

  /** The header texts of the signed-add cases, laid out literally. */
  lemma SignedLiterals(digest: string, expires: string)
    ensures CookieString(HashName("foo"), digest, None, "/") == "foo_hash=" + digest + "; path=/"
    ensures CookieString("foo", "bar", Some(expires), "/") == "foo=bar; expires=" + expires + "; path=/"
    ensures CookieString(HashName("foo"), digest, Some(expires), "/") == "foo_hash=" + digest + "; expires=" + expires + "; path=/"
    ensures SignedMessage("foo", "bar") == "foobar"
  {
  }

  /** The deletion header texts of `foo`, laid out literally. */
  lemma DeletionLiterals()
    ensures "foo" + "=null; expires=" == "foo=null; expires="
    ensures "foo" + "_hash=null; expires=" == "foo_hash=null; expires="
  {
  }

  /** A signed add with the default path and an empty site root writes the value
      header and then the signature header, both with `path=/`; with an expiry
      date both carry it before the path. */
  method SignedAddExamples(signer: Signer, expires: string) returns (plain: seq<Header>, withExpiry: seq<Header>)
    ensures plain == [(SET_COOKIE, "foo=bar; path=/"), (SET_COOKIE, "foo_hash=" + signer(TEST_KEY, "foobar") + "; path=/")]
    ensures withExpiry == [
      (SET_COOKIE, "foo=bar; expires=" + expires + "; path=/"),
      (SET_COOKIE, "foo_hash=" + signer(TEST_KEY, "foobar") + "; expires=" + expires + "; path=/")]
  {
    var settings := Settings(Some(TEST_KEY), "");
    SignedLiterals(signer(TEST_KEY, "foobar"), expires);
    PathLiterals();

    var cookies := new ResponseCookieHandler();
    var raised := cookies.AddCookie("foo", "bar", None, Default, true, settings, signer);
    plain := cookies.cookieHeaders;

    cookies := new ResponseCookieHandler();
    raised := cookies.AddCookie("foo", "bar", Some(expires), Default, true, settings, signer);
    withExpiry := cookies.cookieHeaders;
  }

  /** Unsigned adds write one header each: the default path is `/` for an empty
      site root and the site root otherwise, a falsy path writes none, a given
      path is written as it is, and an expiry date comes before the path. */
  method UnsignedAddExamples(expires: string) returns (headers: seq<Header>)
    ensures headers == [
      (SET_COOKIE, "foo=bar; path=/"),
      (SET_COOKIE, "foo=bar"),
      (SET_COOKIE, "foo=bar; path=/baz/"),
      (SET_COOKIE, "foo=bar; path=/foo"),
      (SET_COOKIE, "foo=bar; expires=" + expires + "; path=/")]
  {
    var settings := Settings(Some(TEST_KEY), "");
    SignedLiterals("", expires);
    PathLiterals();
    var cookies := new ResponseCookieHandler();
    cookies.AddUnsignedCookie("foo", "bar", None, Default, settings);
    cookies.AddUnsignedCookie("foo", "bar", None, Given(""), settings);
    cookies.AddUnsignedCookie("foo", "bar", None, Default, Settings(Some(TEST_KEY), "/baz/"));
    cookies.AddUnsignedCookie("foo", "bar", None, Given("/foo"), settings);
    cookies.AddUnsignedCookie("foo", "bar", Some(expires), Default, settings);
    headers := cookies.cookieHeaders;
  }

  /** Deleting `foo` writes the two epoch-expired headers, without a secret key. */
  method DelCookieExample() returns (headers: seq<Header>)
    ensures headers == [
      (SET_COOKIE, "foo=null; expires=" + EPOCH_EXPIRES),
      (SET_COOKIE, "foo_hash=null; expires=" + EPOCH_EXPIRES)]
  {
    DeletionLiterals();
    var cookies := new ResponseCookieHandler();
    cookies.DelCookie("foo");
    headers := cookies.cookieHeaders;
  }

  /** Signing with no secret key raises `CookieKeyMissing`, after the value header
      has been written and before any signature header. */
  method NoSecretKeyExample(signer: Signer) returns (raised: Option<CookieError>, headers: seq<Header>)
    ensures raised == Some(CookieKeyMissing(KEY_MISSING_REASON))
    ensures headers == [(SET_COOKIE, "foo=bar; path=/")]
  {
    PathLiterals();
    var cookies := new ResponseCookieHandler();
    raised := cookies.AddCookie("foo", "bar", None, Default, true, Settings(None, ""), signer);
    headers := cookies.cookieHeaders;
  }

  /** The request header of the tests: `foo` correctly signed, `bar` without a
      companion, `baz` with a wrong one. */
  function TestPairs(digest: string): seq<(string, string)>
  {
    [("foo", "bar"), ("foo_hash", digest), ("bar", "foo"), ("baz", "b"), ("baz_hash", "b")]
  }

  lemma TestPairsAreClean(digest: string)
    requires ';' !in digest && IsStripped(digest)
    ensures forall i :: 0 <= i < |TestPairs(digest)| ==>
      '=' !in TestPairs(digest)[i].0 && ';' !in TestPairs(digest)[i].0 && ';' !in TestPairs(digest)[i].1 &&
      IsStripped(TestPairs(digest)[i].0) && IsStripped(TestPairs(digest)[i].1)
  {
  }

  lemma TestPairsDict(digest: string)
    ensures Dict(seq(5, i requires 0 <= i < 5 => [TestPairs(digest)[i].0, TestPairs(digest)[i].1])) ==
      Ok(map["foo" := "bar", "foo_hash" := digest, "bar" := "foo", "baz" := "b", "baz_hash" := "b"])
  {
    var items := [["foo", "bar"], ["foo_hash", digest], ["bar", "foo"], ["baz", "b"], ["baz_hash", "b"]];
    assert seq(5, i requires 0 <= i < 5 => [TestPairs(digest)[i].0, TestPairs(digest)[i].1]) == items;
    assert items[..1][..0] == [];
    assert Dict(items[..1]) == Ok(map["foo" := "bar"]);
    assert items[..2][..1] == items[..1];
    assert Dict(items[..2]) == Ok(map["foo" := "bar", "foo_hash" := digest]);
    assert items[..3][..2] == items[..2];
    assert Dict(items[..3]) == Ok(map["foo" := "bar", "foo_hash" := digest, "bar" := "foo"]);
    assert items[..4][..3] == items[..3];
    assert Dict(items[..4]) == Ok(map["foo" := "bar", "foo_hash" := digest, "bar" := "foo", "baz" := "b"]);
    assert items[..4] == items[..|items| - 1];
  }

  /** What the tests' parsed map holds and lacks. */
  lemma TestMapFacts(digest: string)
    ensures var raw := map["foo" := "bar", "foo_hash" := digest, "bar" := "foo", "baz" := "b", "baz_hash" := "b"];
      && "foo" in raw && raw["foo"] == "bar"
      && "foo_hash" in raw && raw["foo_hash"] == digest
      && "bar" in raw && "bar_hash" !in raw
      && "baz" in raw && raw["baz"] == "b" && "baz_hash" in raw && raw["baz_hash"] == "b"
      && "test" !in raw
  {
  }

  /** Parsing the tests' header gives its five cookies; a request without an
      environ has none. */
  lemma ParseExample(digest: string)
    requires ';' !in digest && IsStripped(digest)
    ensures ParseCookieHeader(JoinedPairs(TestPairs(digest))) ==
      Ok(map["foo" := "bar", "foo_hash" := digest, "bar" := "foo", "baz" := "b", "baz_hash" := "b"])
    ensures ParseEnviron(None) == Ok(map[])
  {
    TestPairsAreClean(digest);
    ParseJoinedPairs(TestPairs(digest));
    TestPairsDict(digest);
  }

  /** Reading the tests' cookies: `foo` reads as `bar`, `bar` has no companion,
      `baz` has a wrong one (the digest of `bazb` is not `b`), an absent name reads
      as nothing both ways, and with no secret key the signed read of `foo` raises
      `CookieKeyMissing`. */
  lemma LookupExamples(signer: Signer)
    requires signer(TEST_KEY, "bazb") != "b"
    ensures var raw := map["foo" := "bar", "foo_hash" := signer(TEST_KEY, "foobar"), "bar" := "foo", "baz" := "b", "baz_hash" := "b"];
      && GetCookie(raw, "foo", Some(TEST_KEY), signer) == Ok(Some("bar"))
      && GetCookie(raw, "bar", Some(TEST_KEY), signer) == Err(CookieHashMissing("bar", HASH_MISSING_REASON))
      && GetCookie(raw, "baz", Some(TEST_KEY), signer) == Err(CookieHashInvalid("baz", HASH_INVALID_REASON))
      && GetCookie(raw, "test", Some(TEST_KEY), signer) == Ok(None)
      && GetUnsignedCookie(raw, "foo") == Some("bar")
      && GetUnsignedCookie(raw, "test") == None
      && GetCookie(raw, "foo", None, signer) == Err(CookieKeyMissing(KEY_MISSING_REASON))
  {
    var digest := signer(TEST_KEY, "foobar");
    TestMapFacts(digest);
    assert SignedMessage("foo", "bar") == "foobar";
    assert SignedMessage("baz", "b") == "bazb";
    assert HashName("foo") == "foo_hash" && HashName("bar") == "bar_hash" && HashName("baz") == "baz_hash";
    var raw := map["foo" := "bar", "foo_hash" := digest, "bar" := "foo", "baz" := "b", "baz_hash" := "b"];
    assert raw[HashName("baz")] != signer(TEST_KEY, SignedMessage("baz", raw["baz"]));
  }
}
