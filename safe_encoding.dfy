/**
 * `safeEncodeForJS` and the page's `safeDecode`: the base64 text of a design
 * is rewritten into the URL-safe alphabet of RFC 4648, section 5, with the
 * padding left off as section 3.2 allows, so that it can sit inside a
 * quoted `onclick` argument; the decoder restores the standard alphabet and
 * the padding before decoding.
 *
 * `btoa(encodeURIComponent(html))` and `decodeURIComponent(atob(...))` are
 * not modelled: the encoder takes the base64 text as its input and the
 * decoder takes the base64 decoding as a parameter.
 */
module SafeEncoding {
  import opened Wrappers
  import opened Text

  predicate Alnum(c: char)
  {
    'A' <= c <= 'Z' || 'a' <= c <= 'z' || '0' <= c <= '9'
  }

  /** A character of the base64 alphabet of RFC 4648, section 4. */
  predicate StdChar(c: char)
  {
    Alnum(c) || c == '+' || c == '/'
  }

  /** A character of the URL-safe alphabet of RFC 4648, section 5. */
  predicate UrlChar(c: char)
  {
    Alnum(c) || c == '-' || c == '_'
  }

  /** The number of `=` characters at the end of `s`. */
  function Padding(s: string): (k: nat)
    ensures k <= |s|
    ensures forall i :: |s| - k <= i < |s| ==> s[i] == '='
    ensures k < |s| ==> s[|s| - k - 1] != '='
  {
    PaddingBefore(s, |s|)
  }

  /** The number of `=` characters at the end of `s[..n]`, counted without slicing. */
  function PaddingBefore(s: string, n: nat): (k: nat)
    requires n <= |s|
    ensures k <= n
    ensures forall i :: n - k <= i < n ==> s[i] == '='
    ensures k < n ==> s[n - k - 1] != '='
  {
    if n > 0 && s[n - 1] == '=' then PaddingBefore(s, n - 1) + 1 else 0
  }

  /**
   * What `btoa` returns: a length that is a multiple of four, characters of
   * the alphabet, then at most two `=`.
   */
  predicate IsBase64(s: string)
  {
    |s| % 4 == 0 && Padding(s) <= 2 &&
    forall i :: 0 <= i < |s| - Padding(s) ==> StdChar(s[i])
  }

  /** `safeEncodeForJS`, after `btoa`: `+` becomes `-`, `/` becomes `_`, `=` is dropped. */
  function SafeEncodeForJs(b64: string): (r: string)
    ensures '+' !in r && '/' !in r && '=' !in r
  {
    ReplaceChar(ReplaceChar(ReplaceChar(b64, '+', "-"), '/', "_"), '=', "")
  }

  /** `s.padEnd(n, c)`: `c` appended until the length is `n`; a longer `s` is kept. */
  function PadEnd(s: string, n: int, c: char): (r: string)
    ensures |r| == if n <= |s| then |s| else n
    ensures r[..|s|] == s
    ensures forall i :: |s| <= i < |r| ==> r[i] == c
    decreases n - |s|
  {
    if n <= |s| then s else PadEnd(s + [c], n, c)
  }

  /** The base64 text `safeDecode` hands to `atob`. */
  function RestoreBase64(encoded: string): (r: string)
  {
    PadEnd(ReplaceChar(ReplaceChar(encoded, '-', "+"), '_', "/"),
           |encoded| + (4 - |encoded| % 4) % 4, '=')
  }

  /**
   * `safeDecode(encoded)`: `decode` is `decodeURIComponent(atob(...))`, with
   * `None` for a text either of them rejects; a rejected text gives ''.
   */
  function SafeDecode(encoded: string, decode: string -> Option<string>): string
  {
    match decode(RestoreBase64(encoded))
    case Some(html) => html
    case None => ""
  }

  /** The character the encoder writes for a base64 character. */
  function ToUrlChar(c: char): char
  {
    if c == '+' then '-' else if c == '/' then '_' else c
  }

  /** The character the decoder writes back. */
  function FromUrlChar(c: char): char
  {
    if c == '-' then '+' else if c == '_' then '/' else c
  }

  function ToUrl(s: string): string
  {
    seq(|s|, i requires 0 <= i < |s| => ToUrlChar(s[i]))
  }

  function FromUrl(s: string): string
  {
    seq(|s|, i requires 0 <= i < |s| => FromUrlChar(s[i]))
  }

  /** The first two replacements of the encoder map the text character by character. */
  lemma EncoderSwaps(s: string)
    ensures ReplaceChar(ReplaceChar(s, '+', "-"), '/', "_") == ToUrl(s)
  {
    var s1 := ReplaceChar(s, '+', "-");
    ReplaceCharByChar(s, '+', '-');
    ReplaceCharByChar(s1, '/', '_');
  }

  /** The two replacements of the decoder map the text character by character. */
  lemma DecoderSwaps(s: string)
    ensures ReplaceChar(ReplaceChar(s, '-', "+"), '_', "/") == FromUrl(s)
  {
    var s1 := ReplaceChar(s, '-', "+");
    ReplaceCharByChar(s, '-', '+');
    ReplaceCharByChar(s1, '_', '/');
  }

  /** Deleting `=` from a text without `=` followed by a run of `=` cuts the run. */
  lemma DropPadding(u: string, n: nat)
    requires n <= |u| && '=' !in u[..n]
    requires forall i :: n <= i < |u| ==> u[i] == '='
    ensures ReplaceChar(u, '=', "") == u[..n]
  {
    assert u == u[..n] + u[n..];
    ReplaceCharAppend(u[..n], u[n..], '=', "");
    ReplaceCharAbsent(u[..n], '=', "");
    ReplaceCharDeletesRun(u[n..], '=');
  }

  /** The encoder maps the characters before the padding and drops the padding. */
  lemma EncodeShape(b64: string)
    requires IsBase64(b64)
    ensures SafeEncodeForJs(b64) == ToUrl(b64[..|b64| - Padding(b64)])
  {
    var n := |b64| - Padding(b64);
    EncoderSwaps(b64);
    var u := ToUrl(b64);
    assert u[..n] == ToUrl(b64[..n]);
    assert '=' !in u[..n] by {
      forall i | 0 <= i < n ensures u[i] != '=' {
        assert StdChar(b64[i]);
      }
    }
    DropPadding(u, n);
  }

  /** The encoded text uses only the URL-safe alphabet. */
  lemma EncodeIsUrlSafe(b64: string)
    requires IsBase64(b64)
    ensures forall i :: 0 <= i < |SafeEncodeForJs(b64)| ==> UrlChar(SafeEncodeForJs(b64)[i])
  {
    EncodeShape(b64);
  }

  /** The padding the decoder restores is the padding the encoder dropped. */
  lemma PaddingRestored(len: nat, k: nat)
    requires (len + k) % 4 == 0 && k <= 2
    ensures len + (4 - len % 4) % 4 == len + k
  {
    var q := (len + k) / 4;
    assert len + k == 4 * q;
    if k == 1 {
      assert len == 4 * (q - 1) + 3;
    } else if k == 2 {
      assert len == 4 * (q - 1) + 2;
    }
  }

  /** The decoder maps the text character by character, then pads it. */
  lemma RestoreShape(e: string, m: int)
    requires m == |e| + (4 - |e| % 4) % 4
    ensures RestoreBase64(e) == PadEnd(FromUrl(e), m, '=')
  {
    DecoderSwaps(e);
  }

  /** Padding the text before its `=` run back to full length gives the text. */
  lemma PadEndRestoresPadding(s: string)
    ensures PadEnd(s[..|s| - Padding(s)], |s|, '=') == s
  {
    var n := |s| - Padding(s);
    var r := PadEnd(s[..n], |s|, '=');
    forall i | 0 <= i < |s| ensures r[i] == s[i] {
      if i < n {
        assert r[..n][i] == s[i];
      }
    }
  }

  /** On the standard alphabet the decoder's character map undoes the encoder's. */
  lemma UrlCharsRoundTrip(s: string)
    requires forall i :: 0 <= i < |s| ==> StdChar(s[i])
    ensures FromUrl(ToUrl(s)) == s
  {
  }

  /** The decoder turns the mapped text before the padding back into the whole text. */
  lemma RestoreMapped(b64: string)
    requires IsBase64(b64)
    ensures RestoreBase64(ToUrl(b64[..|b64| - Padding(b64)])) == b64
  {
    var body := b64[..|b64| - Padding(b64)];
    assert RestoreBase64(ToUrl(body)) == PadEnd(body, |b64|, '=') by {
      BodyOfBase64(b64, body);
      RestoreOfMapped(body, |b64|);
    }
    assert PadEnd(body, |b64|, '=') == b64 by {
      PadEndRestoresPadding(b64);
    }
  }

  /** Before its padding, `btoa` output is standard characters, and padding it back gives its length. */
  lemma BodyOfBase64(b64: string, body: string)
    requires IsBase64(b64) && body == b64[..|b64| - Padding(b64)]
    ensures forall i :: 0 <= i < |body| ==> StdChar(body[i])
    ensures |b64| == |body| + (4 - |body| % 4) % 4
  {
    PaddingRestored(|b64| - Padding(b64), Padding(b64));
  }

  /** The decoder turns mapped standard characters back into them, then pads. */
  lemma RestoreOfMapped(body: string, m: int)
    requires forall i :: 0 <= i < |body| ==> StdChar(body[i])
    requires m == |body| + (4 - |body| % 4) % 4
    ensures RestoreBase64(ToUrl(body)) == PadEnd(body, m, '=')
  {
    RestoreShape(ToUrl(body), m);
    UrlCharsRoundTrip(body);
  }

  /** Decoding restores exactly the text `btoa` produced. */
  lemma RestoreAfterEncode(b64: string)
    requires IsBase64(b64)
    ensures RestoreBase64(SafeEncodeForJs(b64)) == b64
  {
    EncodeShape(b64);
    RestoreMapped(b64);
  }

  /**
   * The round trip of the page: decoding the encoded text decodes exactly
   * what `btoa` produced.
   */
  lemma SafeDecodeRoundTrip(b64: string, decode: string -> Option<string>)
    requires IsBase64(b64)
    ensures SafeDecode(SafeEncodeForJs(b64), decode) == match decode(b64) case Some(h) => h case None => ""
  {
    RestoreAfterEncode(b64);
  }

  /** In the other direction, encoding the restored text gives back any URL-safe text. */
  lemma EncodeAfterRestore(encoded: string)
    requires forall i :: 0 <= i < |encoded| ==> UrlChar(encoded[i])
    ensures SafeEncodeForJs(RestoreBase64(encoded)) == encoded
  {
    var n := |encoded|;
    var r := RestoreBase64(encoded);
    RestoreShape(encoded, n + (4 - n % 4) % 4);
    EncoderSwaps(r);
    RemapRestored(encoded, r);
    DropPadding(ToUrl(r), n);
  }

  /** Mapping the restored text forward gives the encoded text, then a run of `=`. */
  lemma RemapRestored(encoded: string, r: string)
    requires forall i :: 0 <= i < |encoded| ==> UrlChar(encoded[i])
    requires r == PadEnd(FromUrl(encoded), |encoded| + (4 - |encoded| % 4) % 4, '=')
    ensures |encoded| <= |ToUrl(r)| && ToUrl(r)[..|encoded|] == encoded && '=' !in encoded
    ensures forall i :: |encoded| <= i < |ToUrl(r)| ==> ToUrl(r)[i] == '='
  {
    var n := |encoded|;
    var back := FromUrl(encoded);
    var u := ToUrl(r);
    assert r[..n] == back;
    forall i | 0 <= i < n
      ensures u[i] == encoded[i]
    {
      assert r[i] == r[..n][i];
    }
    assert u[..n] == encoded;
  }
}
