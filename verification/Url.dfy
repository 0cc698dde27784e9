/** Taking a URL, or the resource of a request line, apart. */
module Url {
  import opened Text

  datatype Protocol = UnknownProtocol | Http | Https

  /** Where a request points. The port is -1 when none is given; the resource is missing when
      the text stops right after the port's colon. */
  datatype Target = Target(
    domain: string, port: int, ssl: bool, resource: Option<string>, query: Option<string>)

  /** hs_parser_parse_protocol_from_url. */
  function ParseProtocol(url: string): (p: Protocol)
    ensures p == Http <==> exists rest :: |url| >= 7 && url == url[..7] + rest && Lower(url[..7]) == "http://"
    ensures p == Https <==> exists rest :: |url| >= 8 && url == url[..8] + rest && Lower(url[..8]) == "https://"
  {
    if |url| < 7 then UnknownProtocol
    else
      var prefix := Lower(url[..if |url| >= 8 then 8 else 7]);
      assert prefix[..7] == Lower(url[..7]);
      assert url == url[..7] + url[7..];
      assert |url| >= 8 ==> url == url[..8] + url[8..];
      assert prefix[4] == 's' ==> prefix[..7] != "http://";
      if "http://" <= prefix then Http
      else if "https://" <= prefix then Https
      else UnknownProtocol
  }

  /** The parts of "authority[path]": the authority runs up to the first '/', and a port
      follows the first ':' inside it. */
  function Located(location: string, ssl: bool, query: Option<string>): Target {
    var slash := IndexOf(location, '/');
    var authority, path := location[..slash], location[slash..];
    var colon := IndexOf(authority, ':');
    var resource := if path == [] then "/" else path;
    if colon == |authority| then Target(authority, -1, ssl, Some(resource), query)
    else if colon + 1 == |location| then Target(authority[..colon], -1, ssl, None, query)
    else Target(authority[..colon], Atoi(authority[colon + 1..]), ssl, Some(resource), query)
  }

  /** "location[?query]", with an empty query counting as none. */
  function Parts(text: string, ssl: bool): Target {
    var mark := IndexOf(text, '?');
    Located(text[..mark], ssl, if mark + 1 < |text| then Some(text[mark + 1..]) else None)
  }

  function TargetOf(url: string, forceProtocol: bool): Option<Target> {
    match ParseProtocol(url)
    case Http => Some(Parts(url[7..], false))
    case Https => Some(Parts(url[8..], true))
    case UnknownProtocol => if forceProtocol then None else Some(Parts(url, false))
  }

  // ----- printing

  function PortText(port: Option<nat>): string {
    match port case None => [] case Some(n) => ":" + Decimal(n)
  }

  function QueryText(query: Option<string>): string {
    match query case None => [] case Some(q) => "?" + q
  }

  predicate GoodPath(path: string) { '?' !in path && (path != [] ==> path[0] == '/') }

  predicate GoodDomain(domain: string) { ':' !in domain && '/' !in domain && '?' !in domain }

  lemma DigitsAvoid(n: nat, c: char)
    requires !IsDigit(c)
    ensures c !in Decimal(n)
  {
    assert forall i :: 0 <= i < |Decimal(n)| ==> IsDigit(Decimal(n)[i]);
  }

  /** Cutting at a character recovers the two sides. */
  lemma CutAt(left: string, c: char, right: string)
    requires c !in left && (right != [] ==> right[0] == c)
    ensures var s := left + right;
            IndexOf(s, c) == |left| && s[..|left|] == left && s[|left|..] == right
            && (right != [] ==> s[|left| + 1..] == right[1..])
  {
    var s := left + right;
    assert s[..|left|] == left;
    IndexOfIs(s, c, |left|);
  }

  lemma PortTextAvoids(port: Option<nat>, c: char)
    requires !IsDigit(c) && c != ':'
    ensures c !in PortText(port)
  {
    if port.Some? { DigitsAvoid(port.value, c); }
  }

  lemma AuthorityRoundTrip(domain: string, port: Option<nat>)
    requires GoodDomain(domain)
    ensures var authority := domain + PortText(port);
            var colon := IndexOf(authority, ':');
            && authority[..colon] == domain
            && (port.None? ==> colon == |authority|)
            && (port.Some? ==> colon + 1 < |authority| && Atoi(authority[colon + 1..]) == port.value)
  {
    CutAt(domain, ':', PortText(port));
    if port.Some? { AtoiDecimal(port.value); }
  }

  lemma LocatedRoundTrip(domain: string, port: Option<nat>, path: string, query: Option<string>, ssl: bool)
    requires GoodDomain(domain) && GoodPath(path)
    ensures Located(domain + PortText(port) + path, ssl, query) ==
            Target(domain, match port case None => -1 case Some(n) => n, ssl,
                   Some(if path == [] then "/" else path), query)
  {
    PortTextAvoids(port, '/');
    CutAt(domain + PortText(port), '/', path);
    AuthorityRoundTrip(domain, port);
  }

  lemma QueryCut(location: string, query: Option<string>, ssl: bool)
    requires '?' !in location && query != Some([])
    ensures Parts(location + QueryText(query), ssl) == Located(location, ssl, query)
  {
    CutAt(location, '?', QueryText(query));
  }

  lemma PartsRoundTrip(domain: string, port: Option<nat>, path: string, query: Option<string>, ssl: bool)
    requires GoodDomain(domain) && GoodPath(path) && query != Some([])
    ensures Parts(domain + PortText(port) + path + QueryText(query), ssl) ==
            Target(domain, match port case None => -1 case Some(n) => n, ssl,
                   Some(if path == [] then "/" else path), query)
  {
    PortTextAvoids(port, '?');
    QueryCut(domain + PortText(port) + path, query, ssl);
    LocatedRoundTrip(domain, port, path, query, ssl);
  }

  lemma SchemeRead(scheme: string, rest: string, forceProtocol: bool)
    requires Lower(scheme) == "http://" || Lower(scheme) == "https://"
    ensures TargetOf(scheme + rest, forceProtocol) == Some(Parts(rest, Lower(scheme) == "https://"))
  {
    var url := scheme + rest;
    assert |scheme| == |Lower(scheme)|;
    assert url[..|scheme|] == scheme && url[|scheme|..] == rest;
  }

  /** Decomposing a printed URL returns its parts, whatever ':' the path or query contains
      (section 3 of RFC 3986). The scheme may be written in any letter case. */
  lemma UrlRoundTrip(scheme: string, domain: string, port: Option<nat>, path: string,
                     query: Option<string>, forceProtocol: bool)
    requires Lower(scheme) == "http://" || Lower(scheme) == "https://"
    requires GoodDomain(domain) && GoodPath(path) && query != Some([])
    requires port.Some? ==> port.value < INT_LIMIT
    ensures TargetOf(scheme + (domain + PortText(port) + path + QueryText(query)), forceProtocol) ==
            Some(Target(domain, match port case None => -1 case Some(n) => n,
                        Lower(scheme) == "https://",
                        Some(if path == [] then "/" else path), query))
  {
    var rest := domain + PortText(port) + path + QueryText(query);
    SchemeRead(scheme, rest, forceProtocol);
    PartsRoundTrip(domain, port, path, query, Lower(scheme) == "https://");
  }

  /** A request line's "/path?query" is kept as it stands: no domain, no port. */
  lemma OriginForm(path: string, query: Option<string>)
    requires path != [] && GoodPath(path) && query != Some([])
    ensures TargetOf(path + QueryText(query), false) ==
            Some(Target([], -1, false, Some(path), query))
  {
    var url := path + QueryText(query);
    assert url[0] == '/';
    assert |url| >= 7 ==> Lower(url[..7])[0] == '/';
    assert |url| >= 8 ==> Lower(url[..8])[0] == '/';
    assert ParseProtocol(url) == UnknownProtocol;
    PartsRoundTrip([], None, path, query, false);
    assert [] + PortText(None) + path + QueryText(query) == url;
  }

  /** A text without a known scheme is refused exactly if a scheme is demanded; otherwise it is
      taken as it stands. */
  lemma SchemeDemanded(url: string, forceProtocol: bool)
    ensures var known := "http://" <= Lower(url) || "https://" <= Lower(url);
            && (TargetOf(url, forceProtocol) == None <==> forceProtocol && !known)
            && (!known && !forceProtocol ==> TargetOf(url, forceProtocol) == Some(Parts(url, false)))
  {
    assert |url| >= 7 ==> Lower(url)[..7] == Lower(url[..7]) && url == url[..7] + url[7..];
    assert |url| >= 8 ==> Lower(url)[..8] == Lower(url[..8]) && url == url[..8] + url[8..];
  }

  /** The resource is missing exactly when the location ends in the colon of its authority. */
  lemma MissingResource(text: string, ssl: bool)
    ensures Parts(text, ssl).resource == None <==>
            var location := text[..IndexOf(text, '?')];
            location != [] && IndexOf(location, ':') == |location| - 1 && '/' !in location
  {
    var location := text[..IndexOf(text, '?')];
    var slash := IndexOf(location, '/');
    var authority := location[..slash];
    var colon := IndexOf(authority, ':');
    assert slash == |location| ==> authority == location;
    if '/' !in location { IndexOfIs(location, '/', |location|); }
  }

  // ----- the pointer walk

  /** C's strchr as a position, -1 for NULL. */
  function Find(s: string, c: char, from: nat): (i: int)
    requires from <= |s|
  {
    var i := from + IndexOf(s[from..], c);
    if i == |s| then -1 else i
  }

  lemma FindIs(s: string, c: char)
    ensures Find(s, c, 0) == if IndexOf(s, c) == |s| then -1 else IndexOf(s, c)
  {
    assert s[0..] == s;
  }

  /** Inside the text before the first '/', the first ':' is the one of the whole text, if it
      comes first; and the first '/' after it is the first '/' of all. */
  lemma ColonBeforeSlash(location: string)
    ensures var slash := IndexOf(location, '/');
            var colon := IndexOf(location, ':');
            && IndexOf(location[..slash], ':') == (if colon < slash then colon else slash)
            && (colon < slash ==> IndexOf(location[colon + 1..], '/') == slash - colon - 1)
  {
    var slash := IndexOf(location, '/');
    var colon := IndexOf(location, ':');
    var k := if colon < slash then colon else slash;
    assert location[..slash][..k] == location[..k];
    assert forall i :: 0 <= i < k ==> location[i] == location[..colon][i];
    IndexOfIs(location[..slash], ':', k);
    if colon < slash {
      var tail := location[colon + 1..];
      assert forall i :: 0 <= i < slash - colon - 1 ==> tail[i] == location[..slash][colon + 1 + i];
      IndexOfIs(tail, '/', slash - colon - 1);
    }
  }

  lemma PathAt(location: string)
    ensures var slash := IndexOf(location, '/');
            (if location[slash..] == [] then "/" else location[slash..]) ==
            (if slash + 1 < |location| then location[slash..] else "/")
  {
    var slash := IndexOf(location, '/');
    assert slash < |location| ==> location[slash..][0] == '/';
    assert slash + 1 == |location| ==> location[slash..] == "/";
  }

  lemma AuthorityAt(location: string)
    requires IndexOf(location, ':') < IndexOf(location, '/')
    ensures var slash, colon := IndexOf(location, '/'), IndexOf(location, ':');
            && location[..slash][..colon] == location[..colon]
            && location[..slash][colon + 1..] == location[colon + 1..slash]
  {}

  /** Located, restated with positions in the location. */
  lemma LocatedByPosition(location: string, ssl: bool, query: Option<string>)
    ensures var slash, colon := IndexOf(location, '/'), IndexOf(location, ':');
            var resource := if slash + 1 < |location| then location[slash..] else "/";
            Located(location, ssl, query) ==
            if slash <= colon then Target(location[..slash], -1, ssl, Some(resource), query)
            else if colon + 1 == |location| then Target(location[..colon], -1, ssl, None, query)
            else Target(location[..colon], Atoi(location[colon + 1..slash]), ssl, Some(resource), query)
  {
    ColonBeforeSlash(location);
    PathAt(location);
    if IndexOf(location, ':') < IndexOf(location, '/') { AuthorityAt(location); }
  }

  /** The second half of _hs_parser_create_request_from_path: domain, port and resource are
      cut at the positions strchr finds, a ':' counting only before the first '/'. */
  method CutLocation(location: string, ghost ssl: bool, ghost query: Option<string>)
    returns (domain: string, port: int, resource: Option<string>)
    ensures Target(domain, port, ssl, resource, query) == Located(location, ssl, query)
  {
    var portSeparator := Find(location, ':', 0);
    var pathSeparator := Find(location, '/', 0);
    FindIs(location, ':');
    FindIs(location, '/');
    ColonBeforeSlash(location);
    LocatedByPosition(location, ssl, query);
    ghost var slash := IndexOf(location, '/');
    assert location[..|location|] == location;
    var found := portSeparator;
    if portSeparator != -1 && pathSeparator != -1 && portSeparator >= pathSeparator {
      found := -1;
    }
    domain, port, resource := location, -1, None;
    if found != -1 {
      domain := location[..found];
      if |location| - found > 1 {
        found := found + 1;
        var next := Find(location, '/', found);
        assert next == if slash == |location| then -1 else slash;
        if next != -1 {
          port := Atoi(location[found..next]);
          resource := Some(if |location| - next > 1 then location[next..] else "/");
        } else {
          port := Atoi(location[found..]);
          resource := Some("/");
        }
      }
    } else {
      found := Find(location, '/', 0);
      if found != -1 {
        domain := location[..found];
        resource := Some(if |location| - found > 1 then location[found..] else "/");
      } else {
        resource := Some("/");
      }
    }
  }

  /** _hs_parser_create_request_from_path. */
  method CreateTarget(urlOrResource: string, forceProtocol: bool) returns (target: Option<Target>)
    ensures target == TargetOf(urlOrResource, forceProtocol)
  {
    var protocol := ParseProtocol(urlOrResource);
    var ssl := protocol == Https;
    if forceProtocol && protocol == UnknownProtocol {
      return None;
    }
    var offset := match protocol case Http => 7 case Https => 8 case UnknownProtocol => 0;
    var text := urlOrResource[offset..];
    assert protocol == UnknownProtocol ==> text == urlOrResource;
    var mark := Find(text, '?', 0);
    FindIs(text, '?');
    var query := None;
    var location := text;
    if mark != -1 {
      if |text| - mark > 1 {
        query := Some(text[mark + 1..]);
      }
      location := text[..mark];
    }
    assert location == text[..IndexOf(text, '?')];
    var domain, port, resource := CutLocation(location, ssl, query);
    target := Some(Target(domain, port, ssl, resource, query));
  }
}
