/** Character-level vocabulary shared by the parsers, the writer and the router:
    searching, letter case, and decimal numerals. */
module Text {

  datatype Option<+T> = None | Some(value: T)

  const CRLF: string := "\r\n"

  /** What a C string can hold: a NUL would end it. */
  predicate NulFree(s: string) { forall i :: 0 <= i < |s| ==> s[i] != '\0' }

  type CText = s: string | NulFree(s) witness ""

  /** What fits a C int. */
  const INT_LIMIT: nat := 0x8000_0000

  /** The position of the first `c` in `s`, or |s| when there is none (C's strchr). */
  function IndexOf(s: string, c: char): (i: nat)
    ensures i <= |s|
    ensures c !in s[..i]
    ensures i < |s| ==> s[i] == c
  {
    if s == [] || s[0] == c then 0 else
      assert s[..1 + IndexOf(s[1..], c)] == [s[0]] + s[1..][..IndexOf(s[1..], c)];
      1 + IndexOf(s[1..], c)
  }

  lemma IndexOfIs(s: string, c: char, i: nat)
    requires i <= |s| && c !in s[..i] && (i < |s| ==> s[i] == c)
    ensures IndexOf(s, c) == i
  {
    var j := IndexOf(s, c);
    assert forall k :: 0 <= k < i ==> s[k] == s[..i][k];
    assert forall k :: 0 <= k < j ==> s[k] == s[..j][k];
  }

  /** Does the two-character sequence `a` `b` stand at position `i`? */
  predicate PairAt(s: string, i: int, a: char, b: char) {
    0 <= i < |s| - 1 && s[i] == a && s[i + 1] == b
  }

  ghost predicate HasPair(s: string, a: char, b: char) {
    exists i: nat :: PairAt(s, i, a, b)
  }

  /** The position of the first `a` `b` in `s`, or |s| when there is none. */
  function FirstPair(s: string, a: char, b: char): (i: nat)
    ensures i <= |s|
    ensures i < |s| <==> HasPair(s, a, b)
    ensures i < |s| ==> PairAt(s, i, a, b)
    ensures forall j: nat :: j < i ==> !PairAt(s, j, a, b)
  {
    if |s| < 2 then |s|
    else if s[0] == a && s[1] == b then assert PairAt(s, 0, a, b); 0
    else
      var i := FirstPair(s[1..], a, b);
      assert forall j: nat :: PairAt(s, j + 1, a, b) <==> PairAt(s[1..], j, a, b);
      assert forall j: nat :: PairAt(s, j, a, b) ==> j > 0 && PairAt(s[1..], j - 1, a, b);
      1 + i
  }

  lemma FirstPairIs(s: string, a: char, b: char, i: nat)
    requires PairAt(s, i, a, b)
    requires forall j: nat :: j < i ==> !PairAt(s, j, a, b)
    ensures FirstPair(s, a, b) == i
  {
    var j := FirstPair(s, a, b);
  }

  /** A text without the pair, followed by the pair, has its first pair at the joint. */
  lemma FirstPairAfter(s: string, a: char, b: char, rest: string)
    requires a != b && !HasPair(s, a, b)
    ensures FirstPair(s + [a, b] + rest, a, b) == |s|
  {
    var t := s + [a, b] + rest;
    forall j: nat | j < |s| ensures !PairAt(t, j, a, b) {
      assert !PairAt(s, j, a, b);
    }
    assert PairAt(t, |s|, a, b);
    FirstPairIs(t, a, b, |s|);
  }

  lemma FromIndex(s: string, i: nat)
    requires i < |s|
    ensures s[i..] == [s[i]] + s[i + 1..]
  {}

  lemma Regroup(a: string, b: string, c: string)
    ensures a + (b + c) == (a + b) + c
  {}

  function LowerChar(c: char): char {
    if 'A' <= c <= 'Z' then c + 32 as char else c
  }

  function Lower(s: string): (r: string)
    ensures |r| == |s|
    ensures forall i :: 0 <= i < |s| ==> r[i] == LowerChar(s[i])
  {
    seq(|s|, i requires 0 <= i < |s| => LowerChar(s[i]))
  }

  /** Lower-casing maps the 26 capital letters to their small ones and nothing else. */
  lemma LowerCharMeans(c: char, i: nat)
    requires i < 26
    ensures c == "ABCDEFGHIJKLMNOPQRSTUVWXYZ"[i] ==> LowerChar(c) == "abcdefghijklmnopqrstuvwxyz"[i]
    ensures c !in "ABCDEFGHIJKLMNOPQRSTUVWXYZ" ==> LowerChar(c) == c
  {
    assert 'A' <= c <= 'Z' ==> c == "ABCDEFGHIJKLMNOPQRSTUVWXYZ"[c as int - 'A' as int];
  }

  // ----- decimal numerals

  function Digit(d: nat): char
    requires d < 10
  {
    '0' + d as char
  }

  predicate IsDigit(c: char) { '0' <= c <= '9' }

  predicate AllDigits(s: string) { forall i :: 0 <= i < |s| ==> IsDigit(s[i]) }

  /** The numeral that stringbuffer_append_unsigned_int and its siblings write. */
  function Decimal(n: nat): (s: string)
    ensures |s| > 0 && AllDigits(s)
  {
    if n < 10 then [Digit(n)] else Decimal(n / 10) + [Digit(n % 10)]
  }

  /** stringbuffer_append_int. */
  function DecimalInt(n: int): string {
    if n < 0 then "-" + Decimal(-n) else Decimal(n)
  }

  predicate IsSpace(c: char) { c == ' ' || ('\t' <= c <= '\r') }

  /** The value of the leading digits of `s`, continuing from `acc`. */
  function DigitsValue(s: string, acc: nat): nat {
    if s == [] || !IsDigit(s[0]) then acc
    else DigitsValue(s[1..], 10 * acc + (s[0] as int - '0' as int))
  }

  /** C's atoi, on numerals that fit its result type. */
  function Atoi(s: string): int {
    if s == [] then 0
    else if IsSpace(s[0]) then Atoi(s[1..])
    else if s[0] == '-' then 0 - DigitsValue(s[1..], 0)
    else if s[0] == '+' then DigitsValue(s[1..], 0)
    else DigitsValue(s, 0)
  }

  lemma {:induction false} DigitsValueAppend(s: string, t: string, acc: nat)
    requires AllDigits(s)
    ensures DigitsValue(s + t, acc) == DigitsValue(t, DigitsValue(s, acc))
  {
    if s == [] {
      assert s + t == t;
    } else {
      assert (s + t)[1..] == s[1..] + t;
      DigitsValueAppend(s[1..], t, 10 * acc + (s[0] as int - '0' as int));
    }
  }

  lemma {:induction false} DecimalValue(n: nat)
    ensures DigitsValue(Decimal(n), 0) == n
  {
    if n >= 10 {
      DecimalValue(n / 10);
      DigitsValueAppend(Decimal(n / 10), [Digit(n % 10)], 0);
    }
  }

  /** Reading a printed number gives the number back. */
  lemma AtoiDecimal(n: nat)
    ensures Atoi(Decimal(n)) == n
  {
    DecimalValue(n);
    assert IsDigit(Decimal(n)[0]);
  }

  /** A printed number has no leading zero, and its digits count in tens. */
  lemma {:induction false} DecimalIsPositional(n: nat)
    ensures n < 10 ==> Decimal(n) == ["0123456789"[n]]
    ensures n >= 10 ==> Decimal(n) == Decimal(n / 10) + ["0123456789"[n % 10]] && Decimal(n)[0] != '0'
  {
    if n >= 10 {
      DecimalIsPositional(n / 10);
      assert Decimal(n)[0] == Decimal(n / 10)[0];
    }
  }

  /** atoi skips leading white space, takes a sign, and reads digits up to the first character
      that is none. */
  lemma {:induction false} AtoiReads(spaces: string, sign: string, n: nat, rest: string)
    requires (forall i :: 0 <= i < |spaces| ==> IsSpace(spaces[i])) && (rest != [] ==> !IsDigit(rest[0]))
    requires sign == "" || sign == "+" || sign == "-"
    ensures Atoi(spaces + sign + Decimal(n) + rest) == if sign == "-" then -(n as int) else n as int
  {
    var s := spaces + sign + Decimal(n) + rest;
    if spaces != [] {
      assert s[1..] == spaces[1..] + sign + Decimal(n) + rest && s[0] == spaces[0];
      AtoiReads(spaces[1..], sign, n, rest);
    } else {
      var digits := Decimal(n) + rest;
      DigitsValueAppend(Decimal(n), rest, 0);
      DecimalValue(n);
      assert IsDigit(Decimal(n)[0]) && digits[0] == Decimal(n)[0];
      if sign == "" { assert s == digits; } else { assert s[0] == sign[0] && s[1..] == digits; }
    }
  }

  // ----- text that is safe inside one header line

  predicate IsPlain(c: char) { c != '\r' && c != '\n' && c != '\0' }

  /** No line break inside, and no NUL. */
  predicate OneLine(s: string) { forall i :: 0 <= i < |s| ==> IsPlain(s[i]) }

  /** One line, and nothing a header reader would take for the key/value separator. */
  ghost predicate ValueText(s: string) { OneLine(s) && !HasPair(s, ':', ' ') }

  lemma OneLineHasNoBreak(s: string)
    requires OneLine(s)
    ensures !HasPair(s, '\r', '\n')
  {}

  /** Value texts can be joined, unless the joint itself reads ": ". */
  lemma ValueTextJoin(s: string, t: string)
    requires ValueText(s) && ValueText(t)
    requires s == [] || t == [] || s[|s| - 1] != ':' || t[0] != ' '
    ensures ValueText(s + t)
  {
    forall i: nat ensures !PairAt(s + t, i, ':', ' ') {
      assert !PairAt(s, i, ':', ' ');
      assert !PairAt(t, i - |s|, ':', ' ');
      if i >= |s| {
        var k: nat := i - |s|;
        assert !PairAt(t, k, ':', ' ');
      }
    }
  }

  lemma {:induction false} DecimalIsValueText(n: nat)
    ensures ValueText(Decimal(n))
  {
    var s := Decimal(n);
    forall i | 0 <= i < |s| ensures IsPlain(s[i]) && s[i] != ':' {
      assert IsDigit(s[i]);
    }
  }
}
