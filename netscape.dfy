/**
 * The Netscape HTTP cookie-file encoder, `to_netscape` in
 * cookie_exporter.py:179-207: a fixed comment header, then one line per
 * cookie of seven tab-separated fields, joined with newlines and no
 * trailing newline.
 */
module Netscape {
  import opened Wrappers
  import opened Text
  import opened Decimal
  import opened Timestamp

  /** A cookie record as `get_chrome_cookies` hands it on (the dict of lines 151-158). */
  datatype Cookie = Cookie(
    domain: string,
    name: string,
    value: string,
    path: string,
    secure: bool,
    expiresUtc: Option<int>)

  const Header: string := "# Netscape HTTP Cookie File"

  /** The TRUE/FALSE spelling of a flag field. */
  function Flag(b: bool): (r: string)
    ensures '\t' !in r && '\n' !in r
  {
    if b then "TRUE" else "FALSE"
  }

  /** A leading '.' marks a cookie valid for subdomains: `domain.startswith('.')`. */
  predicate IsDomainCookie(domain: string)
  {
    |domain| > 0 && domain[0] == '.'
  }

  /** The seven fields of a cookie's line, in file order. */
  function Fields(c: Cookie): seq<string>
  {
    [c.domain, Flag(IsDomainCookie(c.domain)), c.path, Flag(c.secure),
     IntToString(ConvertChromeTimestampToUnix(c.expiresUtc)), c.name, c.value]
  }

  /** A cookie's record line; CookieLineLayout and CookieLineFields state its shape. */
  function CookieLine(c: Cookie): (line: string)
    ensures c.domain <= line
  {
    Join(Fields(c), '\t')
  }

  /** The lines `to_netscape` collects: the header, then each cookie's line in input order. */
  function NetscapeLines(cookies: seq<Cookie>): seq<string>
  {
    [Header] + seq(|cookies|, i requires 0 <= i < |cookies| => CookieLine(cookies[i]))
  }

  /** `to_netscape`: builds the list of lines in a loop, then joins them with newlines. */
  method ToNetscape(cookies: seq<Cookie>) returns (text: string)
    ensures text == Join(NetscapeLines(cookies), '\n')
    ensures cookies == [] ==> text == Header
    ensures |Header| <= |text| && text[..|Header|] == Header
  {
    var lines := [Header];
    for i := 0 to |cookies|
      invariant |lines| == i + 1 && lines[0] == Header
      invariant forall k :: 0 <= k < i ==> lines[k + 1] == CookieLine(cookies[k])
    {
      lines := lines + [CookieLine(cookies[i])];
    }
    var spec := NetscapeLines(cookies);
    forall k | 0 <= k < |lines| ensures lines[k] == spec[k] {
      if k > 0 {
        assert lines[k] == CookieLine(cookies[k - 1]);
      }
    }
    assert lines == spec;
    text := Join(lines, '\n');
    assert Header <= text;
  }

  predicate HasNo(c: Cookie, ch: char)
  {
    ch !in c.domain && ch !in c.path && ch !in c.name && ch !in c.value
  }

  /**
   * Without tabs in its text fields, a cookie's line splits on tabs into
   * exactly its seven fields, with the two flags and the expiry derived as
   * the encoder derives them.
   */
  lemma {:induction false} CookieLineFields(c: Cookie)
    requires HasNo(c, '\t')
    ensures var f := Split(CookieLine(c), '\t');
      && |f| == 7
      && f[0] == c.domain
      && (f[1] == "TRUE" <==> IsDomainCookie(c.domain)) && (f[1] == "FALSE" <==> !IsDomainCookie(c.domain))
      && f[2] == c.path
      && (f[3] == "TRUE" <==> c.secure) && (f[3] == "FALSE" <==> !c.secure)
      && f[4] == IntToString(ConvertChromeTimestampToUnix(c.expiresUtc))
      && f[5] == c.name
      && f[6] == c.value
  {
    var f := Fields(c);
    IntToStringHasNoControl(ConvertChromeTimestampToUnix(c.expiresUtc));
    assert forall i :: 0 <= i < |f| ==> '\t' !in f[i];
    SplitJoin(f, '\t');
  }

  /** A cookie without newlines in its text fields encodes to a single line. */
  lemma CookieLineIsOneLine(c: Cookie)
    requires HasNo(c, '\n')
    ensures '\n' !in CookieLine(c)
  {
    var f := Fields(c);
    IntToStringHasNoControl(ConvertChromeTimestampToUnix(c.expiresUtc));
    JoinExcludes(f, '\t', '\n');
  }

  /**
   * Without newlines in the cookies' text fields, the output splits on
   * newlines into the header followed by one line per cookie, in input order.
   */
  lemma {:induction false} NetscapeLinesRecovered(cookies: seq<Cookie>)
    requires forall i :: 0 <= i < |cookies| ==> HasNo(cookies[i], '\n')
    ensures var lines := Split(Join(NetscapeLines(cookies), '\n'), '\n');
      && |lines| == 1 + |cookies|
      && lines[0] == Header
      && forall i :: 0 <= i < |cookies| ==> lines[i + 1] == CookieLine(cookies[i])
  {
    var lines := NetscapeLines(cookies);
    forall i | 0 <= i < |lines| ensures '\n' !in lines[i] {
      if i > 0 {
        CookieLineIsOneLine(cookies[i - 1]);
      }
    }
    SplitJoin(lines, '\n');
  }

  /** A cookie's line is its seven fields in file order, with a single tab between neighbours. */
  lemma CookieLineLayout(c: Cookie)
    ensures CookieLine(c) == c.domain + "\t" + Flag(IsDomainCookie(c.domain)) + "\t" + c.path + "\t"
      + Flag(c.secure) + "\t" + IntToString(ConvertChromeTimestampToUnix(c.expiresUtc)) + "\t"
      + c.name + "\t" + c.value
  {
    JoinSeven(c.domain, Flag(IsDomainCookie(c.domain)), c.path, Flag(c.secure),
      IntToString(ConvertChromeTimestampToUnix(c.expiresUtc)), c.name, c.value, '\t');
  }

  /** The line for a secure subdomain cookie expiring 2023-02-08 00:00:00 UTC. */
  lemma ExampleLine()
    ensures CookieLine(Cookie(".example.com", "sid", "abc123", "/", true, Some(13320288000000000)))
         == ".example.com" + "\t" + "TRUE" + "\t" + "/" + "\t" + "TRUE" + "\t" + "1675814400" + "\t" + "sid" + "\t" + "abc123"
  {
    var c := Cookie(".example.com", "sid", "abc123", "/", true, Some(13320288000000000));
    ConvertExample();
    ExampleExpiryRendering();
    CookieLineLayout(c);
    assert IsDomainCookie(c.domain);
    assert IntToString(ConvertChromeTimestampToUnix(c.expiresUtc)) == "1675814400";
  }

  lemma ExampleExpiryRendering()
    ensures IntToString(1675814400) == "1675814400"
  {
    assert NatToString(1) == "1";
    assert NatToString(16) == "16";
    assert NatToString(167) == "167";
    assert NatToString(1675) == "1675";
    assert NatToString(16758) == "16758";
    assert NatToString(167581) == "167581";
    assert NatToString(1675814) == "1675814";
    assert NatToString(16758144) == "16758144";
    assert NatToString(167581440) == "167581440";
  }
}
