/** Header lines: "key: value", read with the LAST ": " of the line as the separator. */
module HeaderLine {
  import opened Text
  import opened KeyedLists

  /** The last ": " that starts before position `n`, not counting one at the very start;
      0 when there is none. */
  function LastSeparator(line: string, n: nat): (i: nat)
    ensures i == 0 || (i < n && PairAt(line, i, ':', ' '))
    ensures forall j: nat :: i < j < n ==> !PairAt(line, j, ':', ' ')
  {
    if n == 0 then 0
    else if PairAt(line, n - 1, ':', ' ') then n - 1
    else LastSeparator(line, n - 1)
  }

  function HeaderOf(line: string): Option<Pair> {
    var i := LastSeparator(line, |line|);
    if i == 0 then None
    else Some(Pair(Lower(line[..i]), if i + 2 < |line| then Some(line[i + 2..]) else None))
  }

  function ValueOr(value: Option<string>): string {
    match value case None => "" case Some(v) => v
  }

  /** `line` is a printed header whose key reads `header.key` in lower case. */
  ghost predicate Prints(line: string, header: Pair, key: string) {
    && key != []
    && Lower(key) == header.key
    && header.value != Some("")
    && !HasPair(ValueOr(header.value), ':', ' ')
    && line == key + ": " + ValueOr(header.value)
  }

  /** Printing a header and reading the line returns it (section 3.2 of RFC 7230); an empty
      value comes back as a missing one. */
  lemma HeaderRoundTrip(key: string, value: string)
    requires key != [] && !HasPair(value, ':', ' ')
    ensures HeaderOf(key + ": " + value) ==
            Some(Pair(Lower(key), if value == [] then None else Some(value)))
  {
    var line := key + ": " + value;
    var i := LastSeparator(line, |line|);
    assert PairAt(line, |key|, ':', ' ');
    forall j: nat | |key| < j ensures !PairAt(line, j, ':', ' ') {
      if j >= |key| + 2 {
        var k: nat := j - |key| - 2;
        assert !PairAt(value, k, ':', ' ');
      }
    }
    assert i == |key|;
    assert line[..i] == key && line[i + 2..] == value;
  }

  /** A header is returned exactly when the line is the print of one, and it is that one. */
  lemma HeaderReconstructs(line: string, header: Pair)
    ensures HeaderOf(line) == Some(header) <==> exists key :: Prints(line, header, key)
  {
    if HeaderOf(line) == Some(header) {
      var i := LastSeparator(line, |line|);
      var value := ValueOr(header.value);
      forall j: nat ensures !PairAt(value, j, ':', ' ') {
        assert !PairAt(line, i + 2 + j, ':', ' ');
      }
      assert line == line[..i] + ": " + value;
      assert Prints(line, header, line[..i]);
    }
    if key :| Prints(line, header, key) {
      HeaderRoundTrip(key, ValueOr(header.value));
    }
  }

  /** No header comes back exactly when ": " occurs nowhere but at the start of the line. */
  lemma HeaderRejects(line: string)
    ensures HeaderOf(line) == None <==> forall j: nat :: j > 0 ==> !PairAt(line, j, ':', ' ')
  {
    var i := LastSeparator(line, |line|);
    assert forall j: nat :: j >= |line| ==> !PairAt(line, j, ':', ' ');
  }

  /** hs_parser_parse_header. */
  method ParseHeader(line: string) returns (header: Option<Pair>)
    ensures header == HeaderOf(line)
  {
    var length := |line|;
    if length < 3 {
      return None;
    }
    var endIndex := 0;
    for index := 0 to length - 1
      invariant endIndex == LastSeparator(line, index)
    {
      if line[index] == ':' && line[index + 1] == ' ' {
        endIndex := index;
      }
    }
    if endIndex == 0 {
      return None;
    }
    var key := Lower(line[..endIndex]);
    var value := None;
    if length > endIndex + 2 {
      value := Some(line[endIndex + 2..]);
    }
    header := Some(Pair(key, value));
  }
}
