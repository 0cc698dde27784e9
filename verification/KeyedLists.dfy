/** The header/query pair array and the cookie list: vectors of keyed entries, in insertion order. */
module KeyedLists {
  import opened Text

  datatype Pair = Pair(key: string, value: Option<string>)

  datatype SameSite = SameSiteNone | SameSiteStrict | SameSiteLax

  datatype Cookie = Cookie(
    name: string,
    value: string,
    expires: Option<string>,
    maxAge: int,
    secure: bool,
    httpOnly: bool,
    domain: Option<string>,
    path: Option<string>,
    sameSite: SameSite)

  /** hs_types_cookie_new, with the name and value every stored cookie has. */
  function NewCookie(name: string, value: string): Cookie {
    Cookie(name, value, None, -1, false, false, None, None, SameSiteLax)
  }

  // ----- what the containers mean

  /** The value a reader gets for `key`: that of the first entry, which may itself be missing. */
  function Lookup(pairs: seq<Pair>, key: string): Option<string> {
    if pairs == [] then None
    else if pairs[0].key == key then pairs[0].value
    else Lookup(pairs[1..], key)
  }

  /** The entries with other keys, in order. */
  function Without(pairs: seq<Pair>, key: string): seq<Pair> {
    if pairs == [] then []
    else (if pairs[0].key == key then [] else [pairs[0]]) + Without(pairs[1..], key)
  }

  function LookupCookie(cookies: seq<Cookie>, name: string): Option<Cookie> {
    if cookies == [] then None
    else if cookies[0].name == name then Some(cookies[0])
    else LookupCookie(cookies[1..], name)
  }

  function WithoutCookie(cookies: seq<Cookie>, name: string): seq<Cookie> {
    if cookies == [] then []
    else (if cookies[0].name == name then [] else [cookies[0]]) + WithoutCookie(cookies[1..], name)
  }

  ghost predicate FirstAt(pairs: seq<Pair>, key: string, i: nat) {
    i < |pairs| && pairs[i].key == key && forall j :: 0 <= j < i ==> pairs[j].key != key
  }

  /** A lookup finds the value of the first entry with the key. */
  lemma {:induction false} LookupIsFirst(pairs: seq<Pair>, key: string, i: nat)
    requires FirstAt(pairs, key, i)
    ensures Lookup(pairs, key) == pairs[i].value
  {
    if i > 0 {
      assert forall j :: 0 < j < |pairs| ==> pairs[j] == pairs[1..][j - 1];
      LookupIsFirst(pairs[1..], key, i - 1);
    }
  }

  /** Without an entry it finds nothing; what it does find stands in the first entry. */
  lemma {:induction false} LookupFinds(pairs: seq<Pair>, key: string)
    ensures (forall p :: p in pairs ==> p.key != key) ==> Lookup(pairs, key) == None
    ensures Lookup(pairs, key).Some? ==> exists i: nat :: FirstAt(pairs, key, i)
  {
    if pairs != [] {
      if pairs[0].key == key {
        assert FirstAt(pairs, key, 0);
      } else {
        LookupFinds(pairs[1..], key);
        if Lookup(pairs[1..], key).Some? {
          var i: nat :| FirstAt(pairs[1..], key, i);
          assert forall j :: 0 < j < |pairs| ==> pairs[j] == pairs[1..][j - 1];
          assert FirstAt(pairs, key, i + 1);
        }
      }
    }
  }

  ghost predicate FirstNamed(cookies: seq<Cookie>, name: string, i: nat) {
    i < |cookies| && cookies[i].name == name && forall j :: 0 <= j < i ==> cookies[j].name != name
  }

  lemma {:induction false} LookupCookieIsFirst(cookies: seq<Cookie>, name: string, i: nat)
    requires FirstNamed(cookies, name, i)
    ensures LookupCookie(cookies, name) == Some(cookies[i])
  {
    if i > 0 {
      assert forall j :: 0 < j < |cookies| ==> cookies[j] == cookies[1..][j - 1];
      LookupCookieIsFirst(cookies[1..], name, i - 1);
    }
  }

  lemma {:induction false} LookupCookieFinds(cookies: seq<Cookie>, name: string)
    ensures LookupCookie(cookies, name).None? <==> forall c :: c in cookies ==> c.name != name
  {
    if cookies != [] { LookupCookieFinds(cookies[1..], name); }
  }

  /** The removal is a filter: it works entry by entry, and drops exactly those with the key. */
  lemma {:induction false} WithoutIsFilter(a: seq<Pair>, p: Pair, b: seq<Pair>, key: string)
    ensures Without(a + [p] + b, key) == Without(a, key) + (if p.key == key then [] else [p]) + Without(b, key)
  {
    var all := a + [p] + b;
    if a == [] {
      assert all[0] == p && all[1..] == b;
    } else {
      assert all[0] == a[0] && all[1..] == a[1..] + [p] + b;
      WithoutIsFilter(a[1..], p, b, key);
    }
  }

  lemma {:induction false} WithoutCookieIsFilter(a: seq<Cookie>, c: Cookie, b: seq<Cookie>, name: string)
    ensures WithoutCookie(a + [c] + b, name) ==
            WithoutCookie(a, name) + (if c.name == name then [] else [c]) + WithoutCookie(b, name)
  {
    var all := a + [c] + b;
    if a == [] {
      assert all[0] == c && all[1..] == b;
    } else {
      assert all[0] == a[0] && all[1..] == a[1..] + [c] + b;
      WithoutCookieIsFilter(a[1..], c, b, name);
    }
  }

  /** After a removal the key is gone and every other key reads as before. */
  lemma {:induction false} RemovalIsLocal(pairs: seq<Pair>, key: string, other: string)
    ensures forall p :: p in Without(pairs, key) ==> p.key != key
    ensures Lookup(Without(pairs, key), key) == None
    ensures other != key ==> Lookup(Without(pairs, key), other) == Lookup(pairs, other)
  {
    if pairs != [] {
      RemovalIsLocal(pairs[1..], key, other);
      var rest := Without(pairs[1..], key);
      assert ([pairs[0]] + rest)[1..] == rest;
      assert [] + rest == rest;
    }
  }

  /** Appending an entry changes the lookup of its own key only, and only if it was absent before. */
  lemma {:induction false} AdditionIsLocal(pairs: seq<Pair>, added: Pair, key: string)
    ensures Lookup(pairs + [added], key) ==
            if added.key == key && (forall p :: p in pairs ==> p.key != key)
            then added.value else Lookup(pairs, key)
  {
    if pairs != [] {
      assert (pairs + [added])[1..] == pairs[1..] + [added];
      AdditionIsLocal(pairs[1..], added, key);
      assert pairs == [pairs[0]] + pairs[1..];
    }
  }

  lemma {:induction false} CookieRemovalIsLocal(cookies: seq<Cookie>, name: string, other: string)
    ensures forall c :: c in WithoutCookie(cookies, name) ==> c.name != name
    ensures LookupCookie(WithoutCookie(cookies, name), name) == None
    ensures other != name ==>
              LookupCookie(WithoutCookie(cookies, name), other) == LookupCookie(cookies, other)
  {
    if cookies != [] {
      CookieRemovalIsLocal(cookies[1..], name, other);
      var rest := WithoutCookie(cookies[1..], name);
      assert ([cookies[0]] + rest)[1..] == rest;
      assert [] + rest == rest;
    }
  }

  /** Of a list whose front is untouched, entry `index` can be deleted or passed to the back. */
  lemma OneFromTheFront<T>(was: seq<T>, index: nat, kept: seq<T>)
    requires index < |was|
    ensures var now := was[..index + 1] + kept;
            && now[index] == was[index]
            && now[..index] + now[index + 1..] == was[..index] + kept
            && now == was[..index] + ([was[index]] + kept)
  {}

  lemma WithoutFrom(pairs: seq<Pair>, key: string, i: nat)
    requires i < |pairs|
    ensures Without(pairs[i..], key) ==
            (if pairs[i].key == key then [] else [pairs[i]]) + Without(pairs[i + 1..], key)
  {
    assert pairs[i..][1..] == pairs[i + 1..];
  }

  lemma WithoutCookieFrom(cookies: seq<Cookie>, name: string, i: nat)
    requires i < |cookies|
    ensures WithoutCookie(cookies[i..], name) ==
            (if cookies[i].name == name then [] else [cookies[i]]) + WithoutCookie(cookies[i + 1..], name)
  {
    assert cookies[i..][1..] == cookies[i + 1..];
  }

  class PairArray {
    var pairs: seq<Pair>

    constructor ()
      ensures pairs == []
    {
      pairs := [];
    }

    /** hs_types_array_string_pair_add: the vector grows by one entry at its end. */
    method Add(key: string, value: Option<string>)
      modifies this
      ensures pairs == old(pairs) + [Pair(key, value)]
    {
      pairs := pairs + [Pair(key, value)];
    }

    /** hs_types_array_string_pair_get_by_key: a scan for the first entry. */
    method GetByKey(key: string) returns (value: Option<string>)
      ensures value == Lookup(pairs, key)
    {
      for index := 0 to |pairs|
        invariant Lookup(pairs, key) == Lookup(pairs[index..], key)
      {
        if pairs[index].key == key {
          return pairs[index].value;
        }
      }
      value := None;
    }

    /** hs_types_array_string_pair_remove_by_key: one backward pass, deleting in place. */
    method RemoveByKey(key: string)
      modifies this
      ensures pairs == Without(old(pairs), key)
    {
      ghost var was := pairs;
      var count := |pairs|;
      if count == 0 {
        return;
      }
      var index := count - 1;
      while true
        invariant 0 <= index < |was|
        invariant pairs == was[..index + 1] + Without(was[index + 1..], key)
        decreases index
      {
        ghost var kept := Without(was[index + 1..], key);
        WithoutFrom(was, key, index);
        OneFromTheFront(was, index, kept);
        if pairs[index].key == key {
          pairs := pairs[..index] + pairs[index + 1..];
          assert [] + kept == kept;
        }
        if index == 0 {
          assert was[0..] == was;
          return;
        }
        index := index - 1;
      }
    }
  }

  class CookieList {
    var cookies: seq<Cookie>

    constructor ()
      ensures cookies == []
    {
      cookies := [];
    }

    /** hs_types_cookies_add, for a cookie that has a name and a value. */
    method Add(cookie: Cookie) returns (added: bool)
      modifies this
      ensures added && cookies == old(cookies) + [cookie]
    {
      cookies := cookies + [cookie];
      added := true;
    }

    /** hs_types_cookies_get_by_name. */
    method GetByName(name: string) returns (cookie: Option<Cookie>)
      ensures cookie == LookupCookie(cookies, name)
    {
      for index := 0 to |cookies|
        invariant LookupCookie(cookies, name) == LookupCookie(cookies[index..], name)
      {
        if cookies[index].name == name {
          return Some(cookies[index]);
        }
      }
      cookie := None;
    }

    /** hs_types_cookies_remove_by_name. */
    method RemoveByName(name: string)
      modifies this
      ensures cookies == WithoutCookie(old(cookies), name)
    {
      ghost var was := cookies;
      var count := |cookies|;
      if count == 0 {
        return;
      }
      var index := count - 1;
      while true
        invariant 0 <= index < |was|
        invariant cookies == was[..index + 1] + WithoutCookie(was[index + 1..], name)
        decreases index
      {
        ghost var kept := WithoutCookie(was[index + 1..], name);
        WithoutCookieFrom(was, name, index);
        OneFromTheFront(was, index, kept);
        if cookies[index].name == name {
          cookies := cookies[..index] + cookies[index + 1..];
          assert [] + kept == kept;
        }
        if index == 0 {
          assert was[0..] == was;
          return;
        }
        index := index - 1;
      }
    }
  }
}
