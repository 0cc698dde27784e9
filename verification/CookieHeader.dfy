/** The cookie header: "n1=v1; n2=v2; ...". */
module CookieHeader {
  import opened Text
  import opened KeyedLists

  /** A value stops at a ';' that a space follows or that ends the text. */
  predicate StopsAt(text: string, i: int) {
    0 <= i < |text| && text[i] == ';' && (i == |text| - 1 || text[i + 1] == ' ')
  }

  function ValueEnd(text: string): (i: nat)
    ensures i <= |text|
    ensures i < |text| ==> StopsAt(text, i)
    ensures forall j: nat :: j < i ==> !StopsAt(text, j)
  {
    if text == [] || StopsAt(text, 0) then 0
    else
      var i := ValueEnd(text[1..]);
      assert forall j: nat :: StopsAt(text, j + 1) <==> StopsAt(text[1..], j);
      assert forall j: nat :: StopsAt(text, j) ==> j > 0 && StopsAt(text[1..], j - 1);
      1 + i
  }

  lemma ValueEndIs(text: string, i: nat)
    requires i <= |text| && (i < |text| ==> StopsAt(text, i))
    requires forall j: nat :: j < i ==> !StopsAt(text, j)
    ensures ValueEnd(text) == i
  {
    var j := ValueEnd(text);
  }

  function SkipSpaces(text: string): (r: string)
    ensures |r| <= |text|
  {
    if text != [] && text[0] == ' ' then SkipSpaces(text[1..]) else text
  }

  /** The cookies of a cookie string: skip spaces, take the name up to '=', take the value. */
  function CookiesIn(text: string): seq<Cookie>
    decreases |text|, 1
  {
    var t := SkipSpaces(text);
    var e := IndexOf(t, '=');
    if e == |t| then [] else CookiesAfterName(t[..e], t[e + 1..])
  }

  function CookiesAfterName(name: string, text: string): seq<Cookie>
    decreases |text|, 0
  {
    var v := ValueEnd(text);
    if v < |text| then [NewCookie(name, text[..v])] + CookiesIn(text[v + 1..])
    else if text == [] then []
    else [NewCookie(name, text)]
  }

  /** The text is made of these cookies: spaces, a name up to the first '=', a value up to a ';'
      that a space follows or that ends the text; a last name without '=', or a last value that
      is empty, is dropped. */
  ghost predicate MadeOf(text: string, cookies: seq<Cookie>)
    decreases |cookies|
  {
    if cookies == [] then '=' !in SkipSpaces(text) || IndexOf(SkipSpaces(text), '=') == |SkipSpaces(text)| - 1
    else
      || (|cookies| == 1 && MadeFirst(text, cookies[0], None))
      || (exists more :: MadeFirst(text, cookies[0], Some(more)) && MadeOf(more, cookies[1..]))
  }

  /** The first cookie of the text, and what follows its ';'. */
  ghost predicate MadeFirst(text: string, c: Cookie, rest: Option<string>) {
    && '=' !in c.name && (c.name != [] ==> c.name[0] != ' ')
    && c == Cookie(c.name, c.value, None, -1, false, false, None, None, SameSiteLax)
    && match rest
       case None => c.value != [] && SkipSpaces(text) == c.name + "=" + c.value && NoStop(c.value, |c.value|)
       case Some(more) =>
         && SkipSpaces(text) == c.name + "=" + c.value + ";" + more
         && (more == [] || more[0] == ' ') && NoStop(c.value + ";" + more, |c.value|)
  }

  ghost predicate NoStop(text: string, n: nat) {
    forall j: nat :: j < n ==> !StopsAt(text, j)
  }

  lemma {:induction false} SkipSpacesStarts(text: string)
    ensures var t := SkipSpaces(text); t != [] ==> t[0] != ' '
    ensures |SkipSpaces(text)| <= |text| && text[|text| - |SkipSpaces(text)|..] == SkipSpaces(text)
    ensures forall i :: 0 <= i < |text| - |SkipSpaces(text)| ==> text[i] == ' '
  {
    if text != [] && text[0] == ' ' { SkipSpacesStarts(text[1..]); }
  }

  lemma NoneAreThere(text: string)
    requires IndexOf(SkipSpaces(text), '=') + 1 >= |SkipSpaces(text)|
    ensures MadeOf(text, CookiesIn(text))
  {
    var t := SkipSpaces(text);
    var e := IndexOf(t, '=');
    if e == |t| {
      assert t[..e] == t;
    } else {
      assert t[e + 1..] == [] && CookiesAfterName(t[..e], []) == [];
    }
  }

  lemma OneIsThere(text: string, t: string, e: nat)
    requires t == SkipSpaces(text) && e == IndexOf(t, '=') && e + 1 < |t|
    requires ValueEnd(t[e + 1..]) == |t[e + 1..]|
    ensures CookiesIn(text) == [NewCookie(t[..e], t[e + 1..])]
  {}

  lemma MoreAreThere(text: string, t: string, e: nat, v: nat)
    requires t == SkipSpaces(text) && e == IndexOf(t, '=') && e + 1 < |t|
    requires v == ValueEnd(t[e + 1..]) && v < |t[e + 1..]|
    ensures CookiesIn(text) == [NewCookie(t[..e], t[e + 1..][..v])] + CookiesIn(t[e + 1..][v + 1..])
  {}

  /** Whatever the text, the cookies found are the ones it is made of. */
  lemma {:induction false} CookiesAreThere(text: string)
    ensures MadeOf(text, CookiesIn(text))
    decreases |text|
  {
    var t := SkipSpaces(text);
    var e := IndexOf(t, '=');
    if e + 1 >= |t| {
      NoneAreThere(text);
    } else {
      SkipSpacesStarts(text);
      var tail := t[e + 1..];
      var v := ValueEnd(tail);
      if v < |tail| {
        MoreAreThere(text, t, e, v);
        CookiesAreThere(tail[v + 1..]);
        StoppedIsMade(text, t, e, v);
        MadeMore(text, NewCookie(t[..e], tail[..v]), tail[v + 1..], CookiesIn(tail[v + 1..]));
      } else {
        OneIsThere(text, t, e);
        LastIsMade(text, t, e);
      }
    }
  }

  lemma StoppedIsMade(text: string, t: string, e: nat, v: nat)
    requires t == SkipSpaces(text) && e == IndexOf(t, '=') && e < |t| && (t[0] != ' ')
    requires v == ValueEnd(t[e + 1..]) && v < |t[e + 1..]|
    ensures MadeFirst(text, NewCookie(t[..e], t[e + 1..][..v]), Some(t[e + 1..][v + 1..]))
  {
    CutTwice(t, e, v);
    var tail := t[e + 1..];
    assert tail == tail[..v] + ";" + tail[v + 1..];
    assert t[..e] != [] ==> t[..e][0] == t[0];
  }

  lemma CutTwice(t: string, e: nat, v: nat)
    requires e < |t| && t[e] == '=' && e + 1 + v < |t| && t[e + 1 + v] == ';'
    ensures t == t[..e] + "=" + t[e + 1..][..v] + ";" + t[e + 1..][v + 1..]
  {}

  lemma LastIsMade(text: string, t: string, e: nat)
    requires t == SkipSpaces(text) && e == IndexOf(t, '=') && e < |t| && (t[0] != ' ')
    requires t[e + 1..] != [] && ValueEnd(t[e + 1..]) == |t[e + 1..]|
    ensures MadeOf(text, [NewCookie(t[..e], t[e + 1..])])
  {
    var name, tail := t[..e], t[e + 1..];
    assert t == name + "=" + tail;
    assert name != [] ==> name[0] == t[0];
    assert MadeFirst(text, NewCookie(name, tail), None);
  }

  lemma MadeMore(text: string, c: Cookie, more: string, cookies: seq<Cookie>)
    requires MadeFirst(text, c, Some(more)) && MadeOf(more, cookies)
    ensures MadeOf(text, [c] + cookies)
  {
    assert ([c] + cookies)[1..] == cookies && ([c] + cookies)[0] == c;
  }

  // ----- printing

  function PrintCookies(cookies: seq<Cookie>): string {
    if cookies == [] then []
    else
      cookies[0].name + "=" + cookies[0].value +
      (if |cookies| == 1 then [] else "; " + PrintCookies(cookies[1..]))
  }

  /** Names without '=' or a leading space; values without "; "; and a last value the end of
      the line cannot be confused with. Empty names, and empty values before the last, are fine. */
  ghost predicate Sendable(cookies: seq<Cookie>) {
    && (forall c :: c in cookies ==>
          && c == NewCookie(c.name, c.value)
          && '=' !in c.name && (c.name != [] ==> c.name[0] != ' ')
          && !HasPair(c.value, ';', ' '))
    && (cookies != [] ==>
          var last := cookies[|cookies| - 1].value;
          last != [] && last[|last| - 1] != ';')
  }

  lemma NameRead(name: string, rest: string)
    requires '=' !in name && (name != [] ==> name[0] != ' ')
    ensures CookiesIn(name + "=" + rest) == CookiesAfterName(name, rest)
  {
    var t := name + "=" + rest;
    assert SkipSpaces(t) == t;
    assert t[..|name|] == name && t[|name| + 1..] == rest;
    IndexOfIs(t, '=', |name|);
  }

  lemma SkipOneSpace(text: string)
    ensures CookiesIn(" " + text) == CookiesIn(text)
  {
    assert (" " + text)[1..] == text;
  }

  lemma LastValueRead(name: string, value: string)
    requires !HasPair(value, ';', ' ') && value != [] && value[|value| - 1] != ';'
    ensures CookiesAfterName(name, value) == [NewCookie(name, value)]
  {
    forall j: nat | j < |value| ensures !StopsAt(value, j) {
      assert !PairAt(value, j, ';', ' ');
    }
    ValueEndIs(value, |value|);
  }

  lemma ValueRead(name: string, value: string, tail: string)
    requires !HasPair(value, ';', ' ')
    ensures CookiesAfterName(name, value + "; " + tail) == [NewCookie(name, value)] + CookiesIn(tail)
  {
    var rest := value + "; " + tail;
    forall j: nat | j < |value| ensures !StopsAt(rest, j) {
      assert !PairAt(value, j, ';', ' ');
    }
    ValueEndIs(rest, |value|);
    assert rest[..|value|] == value && rest[|value| + 1..] == " " + tail;
    SkipOneSpace(tail);
  }

  lemma LastCookieRead(c: Cookie)
    requires Sendable([c])
    ensures CookiesIn(c.name + "=" + c.value) == [c]
  {
    assert c in [c] && [c][|[c]| - 1] == c;
    NameRead(c.name, c.value);
    LastValueRead(c.name, c.value);
  }

  lemma FirstCookieRead(c: Cookie, tail: string)
    requires c == NewCookie(c.name, c.value) && !HasPair(c.value, ';', ' ')
    requires '=' !in c.name && (c.name != [] ==> c.name[0] != ' ')
    ensures CookiesIn(c.name + "=" + c.value + ("; " + tail)) == [c] + CookiesIn(tail)
  {
    Regroup(c.name + "=", c.value, "; " + tail);
    Regroup(c.value, "; ", tail);
    NameRead(c.name, c.value + "; " + tail);
    ValueRead(c.name, c.value, tail);
  }

  lemma PrintOne(c: Cookie)
    ensures PrintCookies([c]) == c.name + "=" + c.value
  {}

  lemma PrintMore(cookies: seq<Cookie>)
    requires |cookies| > 1
    ensures PrintCookies(cookies) ==
            cookies[0].name + "=" + cookies[0].value + ("; " + PrintCookies(cookies[1..]))
  {}

  lemma SendableRest(cookies: seq<Cookie>)
    requires Sendable(cookies) && |cookies| > 1
    ensures Sendable(cookies[1..])
    ensures var c := cookies[0];
            && c == NewCookie(c.name, c.value) && !HasPair(c.value, ';', ' ')
            && '=' !in c.name && (c.name != [] ==> c.name[0] != ' ')
  {
    assert cookies[0] in cookies;
    assert forall c :: c in cookies[1..] ==> c in cookies;
  }

  /** The parser returns exactly the printed cookies, in order (section 4.2.1 of RFC 6265). */
  lemma {:induction false} CookieRoundTrip(cookies: seq<Cookie>)
    requires Sendable(cookies)
    ensures CookiesIn(PrintCookies(cookies)) == cookies
  {
    if |cookies| == 1 {
      assert cookies == [cookies[0]];
      PrintOne(cookies[0]);
      LastCookieRead(cookies[0]);
    } else if cookies != [] {
      var tail := cookies[1..];
      SendableRest(cookies);
      PrintMore(cookies);
      FirstCookieRead(cookies[0], PrintCookies(tail));
      CookieRoundTrip(tail);
      assert [cookies[0]] + tail == cookies;
    }
  }

  // ----- the automaton

  /** The automaton's invariant: the cookies found, and the meaning of the open part followed
      by the text still to come, make up the meaning of the whole line. */
  ghost predicate Reading(line: string, lookingForName: bool, name: string, buffer: string,
                          rest: string, found: seq<Cookie>)
  {
    if lookingForName then
      && '=' !in buffer && (buffer != [] ==> buffer[0] != ' ')
      && CookiesIn(line) == found + CookiesIn(buffer + rest)
    else
      && ValueEnd(buffer + rest) >= |buffer|
      && CookiesIn(line) == found + CookiesAfterName(name, buffer + rest)
  }

  lemma ReadNameEnd(line: string, name: string, buffer: string, rest: string, found: seq<Cookie>)
    requires Reading(line, true, name, buffer, "=" + rest, found)
    ensures Reading(line, false, buffer, [], rest, found)
  {
    Regroup(buffer, "=", rest);
    NameRead(buffer, rest);
    assert [] + rest == rest;
  }

  lemma ReadNameChar(line: string, name: string, buffer: string, c: char, rest: string,
                     found: seq<Cookie>)
    requires c != '='
    requires Reading(line, true, name, buffer, [c] + rest, found)
    ensures if c != ' ' || buffer != [] then Reading(line, true, name, buffer + [c], rest, found)
            else Reading(line, true, name, buffer, rest, found)
  {
    if c != ' ' || buffer != [] {
      Regroup(buffer, [c], rest);
    } else {
      assert buffer + ([c] + rest) == " " + rest && buffer + rest == rest;
      SkipOneSpace(rest);
    }
  }

  lemma ReadValueChar(line: string, name: string, buffer: string, c: char, rest: string,
                      found: seq<Cookie>)
    requires Reading(line, false, name, buffer, [c] + rest, found)
    ensures if c == ';' && (rest == [] || rest[0] == ' ')
            then Reading(line, true, [], [], rest, found + [NewCookie(name, buffer)])
            else Reading(line, false, name, buffer + [c], rest, found)
  {
    var text := buffer + ([c] + rest);
    Regroup(buffer, [c], rest);
    assert text[|buffer|] == c && text[|buffer| + 1..] == rest;
    var end := ValueEnd(text);
    assert StopsAt(text, |buffer|) <==> c == ';' && (rest == [] || rest[0] == ' ');
    if StopsAt(text, |buffer|) {
      assert end == |buffer|;
      assert text[..|buffer|] == buffer && [] + rest == rest;
    } else {
      assert end != |buffer|;
    }
  }

  lemma ReadEnd(line: string, lookingForName: bool, name: string, buffer: string,
                found: seq<Cookie>)
    requires Reading(line, lookingForName, name, buffer, [], found)
    ensures CookiesIn(line) ==
            found + if lookingForName || buffer == [] then [] else [NewCookie(name, buffer)]
  {
    assert buffer + [] == buffer;
    if lookingForName {
      assert SkipSpaces(buffer) == buffer;
      IndexOfIs(buffer, '=', |buffer|);
    }
  }

  /** One character inside a value: keep it, or close the cookie. */
  method ReadInValue(cookies: CookieList, line: string, index: nat, name: string, buffer: string,
                     added: bool, ghost found: seq<Cookie>)
    returns (lookingForName: bool, newName: string, newBuffer: string, newAdded: bool,
             ghost newFound: seq<Cookie>)
    requires index < |line| && added == (found != [])
    requires Reading(line, false, name, buffer, line[index..], found)
    modifies cookies
    ensures Reading(line, lookingForName, newName, newBuffer, line[index + 1..], newFound)
    ensures newAdded == (newFound != [])
    ensures found <= newFound && cookies.cookies == old(cookies.cookies) + newFound[|found|..]
  {
    var character := line[index];
    FromIndex(line, index);
    ReadValueChar(line, name, buffer, character, line[index + 1..], found);
    if character == ';' && (index == |line| - 1 || line[index + 1] == ' ') {
      lookingForName, newName, newBuffer := true, [], [];
      newAdded := cookies.Add(NewCookie(name, buffer));
      newFound := found + [NewCookie(name, buffer)];
    } else {
      lookingForName, newName, newBuffer := false, name, buffer + [character];
      newAdded, newFound := added, found;
    }
  }

  /** One character before the '=' of a name: skip a leading space, keep it, or end the name. */
  method ReadInName(line: string, index: nat, name: string, buffer: string, ghost found: seq<Cookie>)
    returns (lookingForName: bool, newName: string, newBuffer: string)
    requires index < |line| && Reading(line, true, name, buffer, line[index..], found)
    ensures Reading(line, lookingForName, newName, newBuffer, line[index + 1..], found)
  {
    var character := line[index];
    lookingForName, newName, newBuffer := true, name, buffer;
    FromIndex(line, index);
    if character == '=' {
      ReadNameEnd(line, name, buffer, line[index + 1..], found);
      lookingForName, newName, newBuffer := false, buffer, [];
    } else {
      ReadNameChar(line, name, buffer, character, line[index + 1..], found);
      if character != ' ' || buffer != [] {
        newBuffer := buffer + [character];
      }
    }
  }

  lemma ReadStart(line: string)
    ensures Reading(line, true, [], [], line, [])
  {
    assert [] + line == line;
  }

  /** hs_parser_parse_cookie_header: one pass with a flag and a buffer. It appends the cookies
      of the line in order and reports whether there was any. */
  method ParseCookieHeader(cookies: CookieList, line: string) returns (added: bool)
    modifies cookies
    ensures cookies.cookies == old(cookies.cookies) + CookiesIn(line)
    ensures added <==> CookiesIn(line) != []
  {
    var length := |line|;
    added := false;
    var buffer, name := [], [];
    var lookingForName := true;
    ghost var found: seq<Cookie> := [];
    ReadStart(line);
    assert line[0..] == line;
    for index := 0 to length
      invariant cookies.cookies == old(cookies.cookies) + found
      invariant added == (found != [])
      invariant Reading(line, lookingForName, name, buffer, line[index..], found)
    {
      if lookingForName {
        lookingForName, name, buffer := ReadInName(line, index, name, buffer, found);
      } else {
        lookingForName, name, buffer, added, found :=
          ReadInValue(cookies, line, index, name, buffer, added, found);
      }
    }
    ReadEnd(line, lookingForName, name, buffer, found);
    if !lookingForName && buffer != [] {
      added := cookies.Add(NewCookie(name, buffer));
    }
  }
}
