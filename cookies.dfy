/** What the request and the response side of pyroutes' cookie handling share:
    the configuration they read, the signature function, the name of a cookie's
    signature companion and the three exceptions. */
module Cookies {

  datatype Option<+T> = None | Some(value: T)

  datatype Result<+T, +E> = Ok(value: T) | Err(error: E)

  /** The keyed digest pyroutes signs with: HMAC (RFC 2104) over SHA-1 as a
      lower-case hex string, given the secret key and the message. It is a
      parameter, so every property below holds whatever digest is plugged in. */
  type Signer = (string, string) -> string

  /** The two entries of the global `settings` module the cookie code reads.
      `secretKey == None` is an unset `SECRET_KEY`; an empty key is still a key. */
  datatype Settings = Settings(secretKey: Option<string>, siteRoot: string)

  /** The three exception classes, each with the arguments pyroutes raises it with. */
  datatype CookieError =
    | CookieHashMissing(key: string, reason: string)
    | CookieHashInvalid(key: string, reason: string)
    | CookieKeyMissing(reason: string)

  const HASH_MISSING_REASON := "Cookie hash missing"
  const HASH_INVALID_REASON := "Cookie modified"
  const KEY_MISSING_REASON := "Set SECRET_KEY in settings to use cookies"

  /** The name of the cookie that carries the signature of cookie `key`. */
  function HashName(key: string): (name: string)
    ensures |name| == |key| + 5 && name[..|key|] == key && name[|key|..] == "_hash"
  {
    key + "_hash"
  }

  /** The message that is signed for cookie `key` with value `value`. */
  function SignedMessage(key: string, value: string): string
  {
    key + value
  }

  /** A cookie's companion name is never the cookie's own name, so a signed pair
      is always two distinct entries. */
  lemma HashNameDiffers(key: string)
    ensures HashName(key) != key
  {
    assert |HashName(key)| != |key|;
  }
}
