/** The URL helpers of funcs.py: the source name a task link is filed under,
    and the syntactic half of the URL check. The URL is split the way
    urllib.parse.urlparse splits the scheme and the network location; the
    rest of urlparse (path, query, fragment, brackets, control characters)
    is not modelled. */
module Funcs {
  import opened Common

  /** The characters urlparse allows in a scheme. */
  predicate IsSchemeChar(c: char) {
    ('a' <= c <= 'z') || ('A' <= c <= 'Z') || ('0' <= c <= '9') || c == '+' || c == '-' || c == '.'
  }

  predicate IsAsciiLetter(c: char) {
    ('a' <= c <= 'z') || ('A' <= c <= 'Z')
  }

  /** The index of the first element of `s` in `stops`, or |s| when there is none. */
  function FirstOf(s: string, stops: set<char>): (r: nat)
    ensures r <= |s|
    ensures forall j :: 0 <= j < r ==> s[j] !in stops
    ensures r < |s| ==> s[r] in stops
  {
    if s == [] then 0
    else if s[0] in stops then 0
    else 1 + FirstOf(s[1..], stops)
  }

  /** The scheme and the remainder: a non-empty run of scheme characters that
      starts with a letter and ends at the first ':' is the scheme; otherwise
      there is none and the remainder is the whole URL. */
  function SplitScheme(url: string): (r: (string, string))
    ensures r.0 == "" ==> r.1 == url
    ensures r.0 != "" ==> url == r.0 + ":" + r.1 && IsAsciiLetter(r.0[0])
    ensures r.0 != "" ==> forall j :: 0 <= j < |r.0| ==> IsSchemeChar(r.0[j])
    ensures ':' !in r.0
  {
    var i := FirstOf(url, {':'});
    if 0 < i < |url| && IsAsciiLetter(url[0]) && (forall j :: 0 <= j < i ==> IsSchemeChar(url[j]))
    then
      assert url == url[..i] + ":" + url[i + 1..];
      (url[..i], url[i + 1..])
    else ("", url)
  }

  /** The network location: after a leading "//", everything up to the first
      '/', '?' or '#'; nothing when the remainder does not start with "//". */
  function Netloc(rest: string): (r: string)
    ensures r != "" ==> |rest| >= 2 && rest[..2] == "//"
    ensures forall c :: c in r ==> c !in {'/', '?', '#'}
    ensures |rest| >= 2 && rest[..2] == "//" ==>
              && r <= rest[2..]
              && (|r| == |rest| - 2 || rest[2 + |r|] in {'/', '?', '#'})
  {
    if |rest| >= 2 && rest[..2] == "//" then
      var tail := rest[2..];
      tail[..FirstOf(tail, {'/', '?', '#'})]
    else ""
  }

  function Host(url: string): string {
    Netloc(SplitScheme(url).1)
  }

  /** The host without one leading "www.". */
  function StripWww(host: string): (r: string)
    ensures r == host || "www." + r == host
    ensures |host| >= 4 && host[..4] == "www." ==> "www." + r == host
  {
    if |host| >= 4 && host[..4] == "www." then
      assert host == host[..4] + host[4..];
      host[4..]
    else host
  }

  /** Only one "www." goes: a host that starts with it twice keeps the second. */
  lemma StripWwwOnce(rest: string)
    ensures StripWww("www.www." + rest) == "www." + rest
  {
    assert ("www.www." + rest)[..4] == "www.";
    assert ("www.www." + rest)[4..] == "www." + rest;
  }

  /** get_link_source: the host without "www.", cut at its first '.'. */
  function GetLinkSource(url: string): (r: string)
    ensures '.' !in r
    ensures r <= StripWww(Host(url))
    ensures '.' !in StripWww(Host(url)) ==> r == StripWww(Host(url))
    ensures |r| < |StripWww(Host(url))| ==> StripWww(Host(url))[|r|] == '.'
  {
    var host := StripWww(Host(url));
    var cut := FirstOf(host, {'.'});
    assert forall c :: c in host[..cut] ==> c != '.' by {
      forall c | c in host[..cut] ensures c != '.' {
        var j :| 0 <= j < cut && host[..cut][j] == c;
      }
    }
    assert '.' !in host ==> cut == |host| by {
      if cut < |host| {
        assert host[cut] in host;
      }
    }
    host[..cut]
  }

  /** FirstOf skips a prefix free of stop characters. */
  lemma {:induction false} FirstOfAfter(prefix: string, rest: string, stops: set<char>)
    requires forall j :: 0 <= j < |prefix| ==> prefix[j] !in stops
    ensures FirstOf(prefix + rest, stops) == |prefix| + FirstOf(rest, stops)
  {
    if prefix != [] {
      assert (prefix + rest)[0] == prefix[0] && prefix[0] !in stops;
      assert (prefix + rest)[1..] == prefix[1..] + rest;
      FirstOfAfter(prefix[1..], rest, stops);
      assert FirstOf(prefix + rest, stops) == 1 + FirstOf((prefix + rest)[1..], stops);
    } else {
      assert prefix + rest == rest;
    }
  }

  /** Any URL of the form scheme ":" rest, with a scheme of scheme characters
      that starts with a letter, splits into exactly that scheme and rest; so
      a URL splits with a scheme if and only if it has this form. */
  lemma SplitSchemeOf(scheme: string, rest: string)
    requires scheme != [] && IsAsciiLetter(scheme[0])
    requires forall j :: 0 <= j < |scheme| ==> IsSchemeChar(scheme[j])
    ensures SplitScheme(scheme + ":" + rest) == (scheme, rest)
  {
    var url := scheme + ":" + rest;
    assert url == scheme + (":" + rest);
    FirstOfAfter(scheme, ":" + rest, {':'});
    assert url[..|scheme|] == scheme && url[|scheme| + 1..] == rest;
  }

  /** A URL starting with "https:" has scheme "https". */
  lemma HttpsScheme(rest: string)
    ensures SplitScheme("https:" + rest) == ("https", rest)
  {
    assert "https:" + rest == "https" + ":" + rest;
    SplitSchemeOf("https", rest);
  }

  /** After "//", the host runs to the next '/'. */
  lemma NetlocBeforePath(host: string, path: string)
    requires forall j :: 0 <= j < |host| ==> host[j] !in {'/', '?', '#'}
    ensures Netloc("//" + host + "/" + path) == host
  {
    var rest := "//" + host + "/" + path;
    assert rest[..2] == "//";
    assert rest[2..] == host + ("/" + path);
    FirstOfAfter(host, "/" + path, {'/', '?', '#'});
    assert (host + ("/" + path))[..|host|] == host;
  }

  /** An https t.me link files its task under source "t" — the source the
      task check treats as a Telegram channel. */
  lemma TelegramLinkSource(path: string)
    ensures GetLinkSource("https://t.me/" + path) == "t"
  {
    var url := "https://t.me/" + path;
    assert url == "https:" + ("//" + "t.me" + "/" + path);
    HttpsScheme("//" + "t.me" + "/" + path);
    NetlocBeforePath("t.me", path);
    assert Host(url) == "t.me";
    assert StripWww("t.me") == "t.me";
    assert "t.me" == "t" + ".me";
    FirstOfAfter("t", ".me", {'.'});
  }

  /** The syntactic part of is_valid_url: both a scheme and a network location. */
  predicate HasSchemeAndHost(url: string) {
    SplitScheme(url).0 != "" && Host(url) != ""
  }

  /** is_valid_url, with the HEAD request's answer (status 200 or not) as a
      parameter: never valid without a scheme and a host. */
  function IsValidUrl(url: string, headOk: bool): (r: bool)
    ensures r ==> SplitScheme(url).0 != "" && Host(url) != ""
  {
    HasSchemeAndHost(url) && headOk
  }
}
