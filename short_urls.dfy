/** The short URL of a record: `baseUrl.replace(/\/$/, '')`, then "/", then the
    code. The pattern has no `g` or `m` flag, so at most one "/" is removed, and
    only at the very end of the base URL. */
module ShortUrls {

  /** The base URL without its last character when that character is "/". */
  function StripTrailingSlash(s: string): (r: string)
    ensures s == r || s == r + "/"
    ensures s == r + "/" <==> (|s| > 0 && s[|s| - 1] == '/')
  {
    if |s| > 0 && s[|s| - 1] == '/' then s[..|s| - 1] else s
  }

  /** `${baseUrl.replace(/\/$/, '')}/${code}`: a base URL that ends in "/"
      is joined to the code directly, any other base URL through one added "/". */
  function ShortUrl(baseUrl: string, code: string): (r: string)
    ensures |baseUrl| > 0 && baseUrl[|baseUrl| - 1] == '/' ==> r == baseUrl + code
    ensures !(|baseUrl| > 0 && baseUrl[|baseUrl| - 1] == '/') ==> r == baseUrl + "/" + code
  {
    StripTrailingSlash(baseUrl) + "/" + code
  }

  /** What follows the last "/" of a string (all of it when there is none). */
  function LastSegment(s: string): (r: string)
    ensures '/' !in r
    ensures |r| <= |s| && r == s[|s| - |r|..]
  {
    if s == [] then []
    else if s[|s| - 1] == '/' then []
    else LastSegment(s[..|s| - 1]) + [s[|s| - 1]]
  }

  /** A base URL configured with or without its trailing "/" gives the same
      short URLs. */
  lemma TrailingSlashIrrelevant(baseUrl: string, code: string)
    requires baseUrl == [] || baseUrl[|baseUrl| - 1] != '/'
    ensures ShortUrl(baseUrl + "/", code) == ShortUrl(baseUrl, code)
  {
    assert (baseUrl + "/")[..|baseUrl|] == baseUrl;
  }

  /** Whatever precedes it, the segment after a final "/" is read back intact
      when it contains no "/" itself. */
  lemma {:induction false} LastSegmentAfterSlash(prefix: string, code: string)
    requires '/' !in code
    ensures LastSegment(prefix + "/" + code) == code
    decreases |code|
  {
    var s := prefix + "/" + code;
    if code == [] {
      assert s[|s| - 1] == '/';
    } else {
      var init := code[..|code| - 1];
      assert s[..|s| - 1] == prefix + "/" + init;
      assert '/' !in init by {
        forall i | 0 <= i < |init| ensures init[i] != '/' {
          assert init[i] == code[i];
        }
      }
      LastSegmentAfterSlash(prefix, init);
      assert code == init + [code[|code| - 1]];
    }
  }

  /** The code can be read back from the short URL: its last path segment. */
  lemma ShortUrlRecoversCode(baseUrl: string, code: string)
    requires '/' !in code
    ensures LastSegment(ShortUrl(baseUrl, code)) == code
  {
    LastSegmentAfterSlash(StripTrailingSlash(baseUrl), code);
  }

  /** So, for one base URL, distinct slash-free codes have distinct short URLs. */
  lemma ShortUrlInjective(baseUrl: string, c1: string, c2: string)
    requires '/' !in c1 && '/' !in c2
    requires ShortUrl(baseUrl, c1) == ShortUrl(baseUrl, c2)
    ensures c1 == c2
  {
    ShortUrlRecoversCode(baseUrl, c1);
    ShortUrlRecoversCode(baseUrl, c2);
  }

  /** Only one trailing "/" is removed: a base URL ending in "//" keeps one of them. */
  lemma OnlyOneSlashRemoved()
    ensures ShortUrl("http://h//", "abc") == "http://h//abc"
  {
    assert "http://h//"[..9] == "http://h/";
  }
}
