/** The text of a Set-Cookie header, taken apart at its ';' the way a client does. */
module SetCookie {
  import opened Text
  import opened KeyedLists
  import opened QueryString
  import opened Response
  import opened Sessions

  function IfAny(name: string, value: Option<string>): seq<string> {
    match value case None => [] case Some(text) => [" " + name + "=" + text]
  }

  function IfOn(name: string, on: bool): seq<string> { if on then [" " + name] else [] }

  function Age(c: Cookie): Option<string> {
    if c.maxAge >= 0 then Some(Decimal(c.maxAge)) else None
  }

  /** The attributes of a cookie, in the order they are sent. */
  function AttributesOf(c: Cookie): seq<string> {
    IfAny("Expires", c.expires) + IfAny("Max-Age", Age(c)) + IfOn("Secure", c.secure)
    + IfOn("HttpOnly", c.httpOnly) + IfAny("Domain", c.domain) + IfAny("Path", c.path)
    + [" SameSite=" + SameSiteText(c.sameSite)]
  }

  /** A cookie whose texts hold no ';', and whose name could not be taken for an attribute. */
  predicate Plain(c: Cookie) {
    && ';' !in c.name && ';' !in c.value && (c.name != [] ==> c.name[0] != ' ')
    && (c.expires.Some? ==> ';' !in c.expires.value)
    && (c.domain.Some? ==> ';' !in c.domain.value)
    && (c.path.Some? ==> ';' !in c.path.value)
  }

  lemma {:induction false} JoinOneMore(pieces: seq<string>, piece: string)
    requires pieces != []
    ensures Join(pieces + [piece], ';') == Join(pieces, ';') + ";" + piece
  {
    if |pieces| == 1 {
      assert (pieces + [piece])[1..] == [piece];
    } else {
      assert (pieces + [piece])[1..] == pieces[1..] + [piece];
      JoinOneMore(pieces[1..], piece);
    }
  }

  lemma JoinAttribute(pieces: seq<string>, name: string, prefix: string, value: Option<string>)
    requires pieces != [] && prefix == "; " + name + "="
    ensures Join(pieces + IfAny(name, value), ';') == Join(pieces, ';') + Attribute(prefix, value)
  {
    match value
    case None =>
      assert pieces + [] == pieces;
    case Some(text) =>
      JoinOneMore(pieces, " " + name + "=" + text);
      assert ";" + (" " + name + "=" + text) == prefix + text;
  }

  lemma JoinFlag(pieces: seq<string>, name: string, prefix: string, on: bool)
    requires pieces != [] && prefix == "; " + name
    ensures Join(pieces + IfOn(name, on), ';') == Join(pieces, ';') + Flag(prefix, on)
  {
    if on {
      JoinOneMore(pieces, " " + name);
      assert ";" + (" " + name) == prefix;
    } else {
      assert pieces + [] == pieces;
    }
  }

  lemma StemIsJoin(c: Cookie)
    ensures CookieStem(c) == Join([c.name + "=" + c.value] + IfAny("Expires", c.expires) + IfAny("Max-Age", Age(c))
                                  + IfOn("Secure", c.secure) + IfOn("HttpOnly", c.httpOnly), ';')
  {
    var p0 := [c.name + "=" + c.value];
    var p1 := p0 + IfAny("Expires", c.expires);
    var p2 := p1 + IfAny("Max-Age", Age(c));
    JoinAttribute(p0, "Expires", "; Expires=", c.expires);
    JoinAttribute(p1, "Max-Age", "; Max-Age=", Age(c));
    JoinFlag(p2, "Secure", "; Secure", c.secure);
    JoinFlag(p2 + IfOn("Secure", c.secure), "HttpOnly", "; HttpOnly", c.httpOnly);
  }

  lemma TailIsJoin(stem: seq<string>, domain: Option<string>, path: Option<string>, site: string)
    requires stem != []
    ensures Join(stem + IfAny("Domain", domain) + IfAny("Path", path) + [" SameSite=" + site], ';') ==
            Join(stem, ';') + Attribute("; Domain=", domain) + Attribute("; Path=", path) + ("; SameSite=" + site)
  {
    var p1 := stem + IfAny("Domain", domain);
    var p2 := p1 + IfAny("Path", path);
    JoinAttribute(stem, "Domain", "; Domain=", domain);
    JoinAttribute(p1, "Path", "; Path=", path);
    JoinOneMore(p2, " SameSite=" + site);
    SiteText(Join(p2, ';'), site);
  }

  lemma SiteText(before: string, site: string)
    ensures before + ";" + (" SameSite=" + site) == before + ("; SameSite=" + site)
  {}

  lemma TextIsJoin(c: Cookie)
    ensures CookieText(c) == Join([c.name + "=" + c.value] + AttributesOf(c), ';')
  {
    var first := [c.name + "=" + c.value];
    var a, b, d, e := IfAny("Expires", c.expires), IfAny("Max-Age", Age(c)), IfOn("Secure", c.secure), IfOn("HttpOnly", c.httpOnly);
    StemIsJoin(c);
    TailIsJoin(first + a + b + d + e, c.domain, c.path, SameSiteText(c.sameSite));
    Reassociate(first, a, b, d, e, IfAny("Domain", c.domain), IfAny("Path", c.path),
                [" SameSite=" + SameSiteText(c.sameSite)]);
  }

  lemma Reassociate(first: seq<string>, a: seq<string>, b: seq<string>, c: seq<string>, d: seq<string>,
                    e: seq<string>, f: seq<string>, g: seq<string>)
    ensures first + a + b + c + d + e + f + g == first + (a + b + c + d + e + f + g)
  {}

  /** Which attributes are there. */
  ghost predicate IsAttribute(c: Cookie, p: string) {
    || (c.expires.Some? && p == " Expires=" + c.expires.value)
    || (c.maxAge >= 0 && p == " Max-Age=" + Decimal(c.maxAge))
    || (c.secure && p == " Secure")
    || (c.httpOnly && p == " HttpOnly")
    || (c.domain.Some? && p == " Domain=" + c.domain.value)
    || (c.path.Some? && p == " Path=" + c.path.value)
    || p == " SameSite=" + SameSiteText(c.sameSite)
  }

  lemma AttributesAre(c: Cookie, p: string)
    ensures p in AttributesOf(c) <==> IsAttribute(c, p)
  {
    assert " " + "Expires" + "=" == " Expires=" && " " + "Max-Age" + "=" == " Max-Age=";
    assert " " + "Domain" + "=" == " Domain=" && " " + "Path" + "=" == " Path=";
    assert " " + "Secure" == " Secure" && " " + "HttpOnly" == " HttpOnly";
  }

  lemma DigitsHoldNoSeparator(n: nat)
    ensures ';' !in Decimal(n)
  {
    assert forall i :: 0 <= i < |Decimal(n)| ==> IsDigit(Decimal(n)[i]);
  }

  lemma PiecesHoldNoSeparator(c: Cookie)
    requires Plain(c)
    ensures forall p :: p in [c.name + "=" + c.value] + AttributesOf(c) ==> ';' !in p
  {
    forall p | p in AttributesOf(c) ensures ';' !in p {
      AttributesAre(c, p);
      if c.maxAge >= 0 { DigitsHoldNoSeparator(c.maxAge); }
    }
  }

  /** Taken apart at ';', the text is "name=value" and then exactly the cookie's attributes. */
  lemma CookiePieces(c: Cookie)
    requires Plain(c)
    ensures Split(CookieText(c), ';') == [c.name + "=" + c.value] + AttributesOf(c)
  {
    TextIsJoin(c);
    PiecesHoldNoSeparator(c);
    SplitJoin([c.name + "=" + c.value] + AttributesOf(c), ';');
  }

  /** A client finds each attribute exactly if the cookie has it, with exactly its value. */
  lemma AttributesAreSent(c: Cookie, text: string, n: nat)
    requires Plain(c)
    ensures var pieces := Split(CookieText(c), ';');
            && pieces[0] == c.name + "=" + c.value
            && (" Secure" in pieces[1..] <==> c.secure)
            && (" HttpOnly" in pieces[1..] <==> c.httpOnly)
            && (" Expires=" + text in pieces[1..] <==> c.expires == Some(text))
            && (" Max-Age=" + Decimal(n) in pieces[1..] <==> c.maxAge == n)
            && (" Domain=" + text in pieces[1..] <==> c.domain == Some(text))
            && (" Path=" + text in pieces[1..] <==> c.path == Some(text))
            && (" SameSite=Strict" in pieces[1..] <==> c.sameSite == SameSiteStrict)
            && (" SameSite=Lax" in pieces[1..] <==> c.sameSite == SameSiteLax)
            && (" SameSite=None" in pieces[1..] <==> c.sameSite == SameSiteNone)
  {
    CookiePieces(c);
    assert Split(CookieText(c), ';')[1..] == AttributesOf(c);
    FlagsAreSent(c);
    TextsAreSent(c, text);
    AgeIsSent(c, n);
    SameSiteIsSent(c);
  }

  lemma FlagsAreSent(c: Cookie)
    ensures " Secure" in AttributesOf(c) <==> c.secure
    ensures " HttpOnly" in AttributesOf(c) <==> c.httpOnly
  {
    AttributesAre(c, " Secure");
    AttributesAre(c, " HttpOnly");
    assert " Secure"[1] == 'S' && " Secure"[2] == 'e' && " HttpOnly"[1] == 'H';
    KindsDiffer(c, " Secure");
    KindsDiffer(c, " HttpOnly");
  }

  /** The second and third letter tell the attributes apart. */
  lemma KindsDiffer(c: Cookie, p: string)
    requires |p| >= 3
    ensures IsAttribute(c, p) ==>
              if p[1] == 'E' then c.expires.Some? && p == " Expires=" + c.expires.value
              else if p[1] == 'M' then c.maxAge >= 0 && p == " Max-Age=" + Decimal(c.maxAge)
              else if p[1] == 'H' then c.httpOnly && p == " HttpOnly"
              else if p[1] == 'D' then c.domain.Some? && p == " Domain=" + c.domain.value
              else if p[1] == 'P' then c.path.Some? && p == " Path=" + c.path.value
              else if p[2] == 'e' then c.secure && p == " Secure"
              else p == " SameSite=" + SameSiteText(c.sameSite)
  {}

  lemma TextsAreSent(c: Cookie, text: string)
    ensures " Expires=" + text in AttributesOf(c) <==> c.expires == Some(text)
    ensures " Domain=" + text in AttributesOf(c) <==> c.domain == Some(text)
    ensures " Path=" + text in AttributesOf(c) <==> c.path == Some(text)
  {
    OneTextIsSent(c, " Expires=", text, c.expires);
    OneTextIsSent(c, " Domain=", text, c.domain);
    OneTextIsSent(c, " Path=", text, c.path);
  }

  lemma OneTextIsSent(c: Cookie, name: string, text: string, value: Option<string>)
    requires (name == " Expires=" && value == c.expires) || (name == " Domain=" && value == c.domain)
          || (name == " Path=" && value == c.path)
    ensures name + text in AttributesOf(c) <==> value == Some(text)
  {
    var p := name + text;
    AttributesAre(c, p);
    KindsDiffer(c, p);
    assert p[1] == name[1];
    assert p[|name|..] == text;
    if value.Some? { assert (name + value.value)[|name|..] == value.value; }
  }

  lemma AgeIsSent(c: Cookie, n: nat)
    ensures " Max-Age=" + Decimal(n) in AttributesOf(c) <==> c.maxAge == n
  {
    var name := " Max-Age=";
    var p := name + Decimal(n);
    AttributesAre(c, p);
    KindsDiffer(c, p);
    assert p[1] == name[1];
    assert p[|name|..] == Decimal(n);
    AtoiDecimal(n);
    if c.maxAge >= 0 {
      assert (name + Decimal(c.maxAge))[|name|..] == Decimal(c.maxAge);
      AtoiDecimal(c.maxAge);
    }
  }

  lemma SameSiteIsSent(c: Cookie)
    ensures " SameSite=Strict" in AttributesOf(c) <==> c.sameSite == SameSiteStrict
    ensures " SameSite=Lax" in AttributesOf(c) <==> c.sameSite == SameSiteLax
    ensures " SameSite=None" in AttributesOf(c) <==> c.sameSite == SameSiteNone
  {
    OneSameSite(c, SameSiteStrict);
    OneSameSite(c, SameSiteLax);
    OneSameSite(c, SameSiteNone);
    assert " SameSite=" + "Strict" == " SameSite=Strict" && " SameSite=" + "Lax" == " SameSite=Lax";
    assert " SameSite=" + "None" == " SameSite=None";
  }

  lemma OneSameSite(c: Cookie, site: SameSite)
    ensures " SameSite=" + SameSiteText(site) in AttributesOf(c) <==> c.sameSite == site
  {
    var name := " SameSite=";
    var p := name + SameSiteText(site);
    AttributesAre(c, p);
    KindsDiffer(c, p);
    assert p[1] == name[1] && p[2] == name[2];
    assert p[|name|..] == SameSiteText(site);
    assert (name + SameSiteText(c.sameSite))[|name|..] == SameSiteText(c.sameSite);
    assert SameSiteText(site)[0] == match site case SameSiteNone => 'N' case SameSiteLax => 'L' case SameSiteStrict => 'S';
    assert SameSiteText(c.sameSite)[0] ==
           match c.sameSite case SameSiteNone => 'N' case SameSiteLax => 'L' case SameSiteStrict => 'S';
  }

  /** The session cookie, unless the configuration changes it, is secure, closed to scripts and
      to other sites, and lives two years. */
  lemma SessionCookieIsSent(context: SessionContext, id: string)
    requires context.modifyCookie == None && ';' !in context.cookieName && ';' !in id
    requires context.cookieName != [] ==> context.cookieName[0] != ' '
    ensures var pieces := Split(CookieText(SessionCookie(context, id)), ';');
            && pieces[0] == context.cookieName + "=" + id
            && " Secure" in pieces[1..] && " HttpOnly" in pieces[1..] && " SameSite=Strict" in pieces[1..]
            && " Max-Age=" + Decimal(2 * 365 * 86400) in pieces[1..]
  {
    AttributesAreSent(SessionCookie(context, id), "", 2 * 365 * 86400);
  }
}
