/** The query string: "k1=v1&k2&k3=v3". */
module QueryString {
  import opened Text
  import opened KeyedLists

  /** The pieces of `text` between separators; one more piece than there are separators. */
  function Split(text: string, c: char): (pieces: seq<string>)
    ensures |pieces| > 0
    decreases |text|
  {
    var i := IndexOf(text, c);
    if i == |text| then [text] else [text[..i]] + Split(text[i + 1..], c)
  }

  function Join(pieces: seq<string>, c: char): string
    requires |pieces| > 0
  {
    if |pieces| == 1 then pieces[0] else pieces[0] + [c] + Join(pieces[1..], c)
  }

  lemma SplitFirst(piece: string, c: char, rest: string)
    requires c !in piece
    ensures Split(piece + [c] + rest, c) == [piece] + Split(rest, c)
  {
    var text := piece + [c] + rest;
    assert text[..|piece|] == piece && text[|piece| + 1..] == rest;
    IndexOfIs(text, c, |piece|);
  }

  lemma SplitOne(piece: string, c: char)
    requires c !in piece
    ensures Split(piece, c) == [piece]
  {
    assert piece[..|piece|] == piece;
    IndexOfIs(piece, c, |piece|);
  }

  /** Splitting and joining are inverse to each other on pieces without the separator. */
  lemma {:induction false} SplitJoin(pieces: seq<string>, c: char)
    requires |pieces| > 0 && forall p :: p in pieces ==> c !in p
    ensures Split(Join(pieces, c), c) == pieces
  {
    assert pieces[0] in pieces;
    if |pieces| == 1 {
      SplitOne(pieces[0], c);
    } else {
      var tail := pieces[1..];
      SplitFirst(pieces[0], c, Join(tail, c));
      SplitJoin(tail, c);
      assert pieces == [pieces[0]] + tail;
    }
  }

  lemma {:induction false} JoinSplit(text: string, c: char)
    ensures Join(Split(text, c), c) == text && forall p :: p in Split(text, c) ==> c !in p
    decreases |text|
  {
    var i := IndexOf(text, c);
    if i < |text| {
      var tail := Split(text[i + 1..], c);
      JoinSplit(text[i + 1..], c);
      assert ([text[..i]] + tail)[1..] == tail;
      assert text == text[..i] + [c] + text[i + 1..];
    }
  }

  /** One segment: the key up to the first '=', and a value unless it is empty or absent. */
  function PairOf(segment: string): Pair {
    var i := IndexOf(segment, '=');
    Pair(segment[..i], if i + 1 < |segment| then Some(segment[i + 1..]) else None)
  }

  function DropEmptyLast(pieces: seq<string>): seq<string> {
    if pieces != [] && pieces[|pieces| - 1] == [] then pieces[..|pieces| - 1] else pieces
  }

  function PairsOf(segments: seq<string>): seq<Pair> {
    if segments == [] then [] else [PairOf(segments[0])] + PairsOf(segments[1..])
  }

  /** What a query string means. */
  function QueryPairs(query: string): seq<Pair> {
    PairsOf(DropEmptyLast(Split(query, '&')))
  }

  /** What each segment means: without '=', a key; else the text before the first '=' is the key
      and the text after it the value, an empty one counting as missing. */
  lemma SegmentMeans(key: string, value: string)
    requires '=' !in key
    ensures PairOf(key) == Pair(key, None)
    ensures PairOf(key + "=" + value) == Pair(key, if value == [] then None else Some(value))
  {
    assert key[..|key|] == key;
    IndexOfIs(key, '=', |key|);
    var s := key + "=" + value;
    assert s[..|key|] == key && s[|key| + 1..] == value;
    IndexOfIs(s, '=', |key|);
  }

  // ----- printing

  function Segment(pair: Pair): string {
    pair.key + (match pair.value case None => [] case Some(v) => "=" + v)
  }

  function Segments(pairs: seq<Pair>): (r: seq<string>)
    ensures |r| == |pairs|
  {
    if pairs == [] then [] else [Segment(pairs[0])] + Segments(pairs[1..])
  }

  function PrintQuery(pairs: seq<Pair>): string {
    if pairs == [] then [] else Join(Segments(pairs), '&')
  }

  predicate Printable(pair: Pair) {
    && '&' !in pair.key && '=' !in pair.key
    && (pair.value.Some? ==> pair.value.value != [] && '&' !in pair.value.value)
  }

  lemma PairOfSegment(pair: Pair)
    requires Printable(pair)
    ensures PairOf(Segment(pair)) == pair && '&' !in Segment(pair)
    ensures Segment(pair) == [] <==> pair == Pair([], None)
  {
    var s := Segment(pair);
    assert s[..|pair.key|] == pair.key;
    IndexOfIs(s, '=', |pair.key|);
    if pair.value.Some? {
      assert s[|pair.key| + 1..] == pair.value.value;
    }
  }

  lemma {:induction false} PairsOfSegments(pairs: seq<Pair>)
    requires forall p :: p in pairs ==> Printable(p)
    ensures PairsOf(Segments(pairs)) == pairs
    ensures forall s :: s in Segments(pairs) ==> '&' !in s
    ensures pairs != [] ==> Segments(pairs)[|pairs| - 1] == Segment(pairs[|pairs| - 1])
  {
    if pairs != [] {
      PairOfSegment(pairs[0]);
      PairsOfSegments(pairs[1..]);
      assert Segments(pairs)[1..] == Segments(pairs[1..]);
      assert pairs == [pairs[0]] + pairs[1..];
    }
  }

  lemma {:induction false} PairsOfLength(segments: seq<string>)
    ensures |PairsOf(segments)| == |segments|
  {
    if segments != [] { PairsOfLength(segments[1..]); }
  }

  lemma PrintedSplits(pairs: seq<Pair>)
    requires pairs != [] && forall p :: p in pairs ==> Printable(p)
    ensures QueryPairs(PrintQuery(pairs)) == PairsOf(DropEmptyLast(Segments(pairs)))
  {
    PairsOfSegments(pairs);
    SplitJoin(Segments(pairs), '&');
  }

  lemma LastSegment(pairs: seq<Pair>)
    requires pairs != [] && forall p :: p in pairs ==> Printable(p)
    ensures Segments(pairs)[|pairs| - 1] == [] <==> pairs[|pairs| - 1] == Pair([], None)
  {
    PairsOfSegments(pairs);
    assert pairs[|pairs| - 1] in pairs;
    PairOfSegment(pairs[|pairs| - 1]);
  }

  /** Parsing a printed list returns the list, exactly unless it ends in a bare empty key
      (section 3.4 of RFC 3986). */
  lemma QueryRoundTrip(pairs: seq<Pair>)
    requires pairs != [] && forall p :: p in pairs ==> Printable(p)
    ensures QueryPairs(PrintQuery(pairs)) == pairs <==> pairs[|pairs| - 1] != Pair([], None)
  {
    var segments := Segments(pairs);
    PrintedSplits(pairs);
    LastSegment(pairs);
    if segments[|segments| - 1] == [] {
      PairsOfLength(segments[..|segments| - 1]);
    } else {
      PairsOfSegments(pairs);
    }
  }

  // ----- the automaton

  /** The meaning of what is still to be read, when it starts inside a segment. */
  lemma {:induction false} QueryStep(segment: string, rest: string)
    requires '&' !in segment
    ensures QueryPairs(segment + "&" + rest) == [PairOf(segment)] + QueryPairs(rest)
  {
    SplitFirst(segment, '&', rest);
    var tail := Split(rest, '&');
    assert DropEmptyLast([segment] + tail) == [segment] + DropEmptyLast(tail);
    assert ([segment] + DropEmptyLast(tail))[1..] == DropEmptyLast(tail);
  }

  lemma QueryLast(segment: string)
    requires '&' !in segment
    ensures QueryPairs(segment) == if segment == [] then [] else [PairOf(segment)]
  {
    SplitOne(segment, '&');
    assert segment == [] ==> DropEmptyLast([segment]) == [];
    assert segment != [] ==> PairsOf([segment]) == [PairOf(segment)] + PairsOf([segment][1..]);
  }

  /** The segment read so far, rebuilt from the automaton's registers. */
  function SegmentSoFar(lookForKey: bool, key: string, buffer: string): string {
    if lookForKey then buffer else key + "=" + buffer
  }

  /** The entry the automaton adds when a segment ends. */
  function PairSoFar(lookForKey: bool, key: string, buffer: string): Pair {
    if lookForKey then Pair(buffer, None)
    else Pair(key, if buffer == [] then None else Some(buffer))
  }

  lemma PairOfSoFar(lookForKey: bool, key: string, buffer: string)
    requires if lookForKey then '=' !in buffer else '=' !in key
    ensures PairOf(SegmentSoFar(lookForKey, key, buffer)) == PairSoFar(lookForKey, key, buffer)
  {
    var s := SegmentSoFar(lookForKey, key, buffer);
    var k := if lookForKey then buffer else key;
    assert s[..|k|] == k;
    IndexOfIs(s, '=', |k|);
    if !lookForKey { assert s[|key| + 1..] == buffer; }
  }

  /** The automaton's invariant: the entries added, and the meaning of the open segment
      followed by the text still to come, make up the meaning of the whole. */
  ghost predicate Reading(query: string, lookForKey: bool, key: string, buffer: string,
                          rest: string, pairs: seq<Pair>)
  {
    && '&' !in key && '&' !in buffer
    && (if lookForKey then '=' !in buffer else '=' !in key)
    && pairs + QueryPairs(SegmentSoFar(lookForKey, key, buffer) + rest) == QueryPairs(query)
  }

  lemma ReadSeparator(query: string, lookForKey: bool, key: string, buffer: string,
                      rest: string, pairs: seq<Pair>)
    requires Reading(query, lookForKey, key, buffer, "&" + rest, pairs)
    ensures Reading(query, true, [], [], rest, pairs + [PairSoFar(lookForKey, key, buffer)])
  {
    var sofar := SegmentSoFar(lookForKey, key, buffer);
    PairOfSoFar(lookForKey, key, buffer);
    Regroup(sofar, "&", rest);
    QueryStep(sofar, rest);
    assert SegmentSoFar(true, [], []) + rest == rest;
  }

  lemma ReadEquals(query: string, key: string, buffer: string, rest: string, pairs: seq<Pair>)
    requires Reading(query, true, key, buffer, "=" + rest, pairs)
    ensures Reading(query, false, buffer, [], rest, pairs)
  {
    Regroup(buffer, "=", rest);
    assert buffer + "=" + [] == buffer + "=";
  }

  lemma ReadOther(query: string, lookForKey: bool, key: string, buffer: string, c: char,
                  rest: string, pairs: seq<Pair>)
    requires c != '&' && (lookForKey ==> c != '=')
    requires Reading(query, lookForKey, key, buffer, [c] + rest, pairs)
    ensures Reading(query, lookForKey, key, buffer + [c], rest, pairs)
  {
    Regroup(SegmentSoFar(lookForKey, key, buffer), [c], rest);
    if !lookForKey { Regroup(key + "=", buffer, [c]); }
  }

  lemma ReadEnd(query: string, lookForKey: bool, key: string, buffer: string, pairs: seq<Pair>)
    requires Reading(query, lookForKey, key, buffer, [], pairs)
    ensures QueryPairs(query) ==
            pairs + if lookForKey && buffer == [] then [] else [PairSoFar(lookForKey, key, buffer)]
  {
    var sofar := SegmentSoFar(lookForKey, key, buffer);
    PairOfSoFar(lookForKey, key, buffer);
    assert sofar + [] == sofar;
    QueryLast(sofar);
  }

  /** hs_parser_parse_query_string. */
  method ParseQueryString(query: string) returns (found: PairArray?)
    ensures found == null <==> query == []
    ensures found != null ==> fresh(found) && found.pairs == QueryPairs(query)
  {
    if query == [] {
      return null;
    }
    var result := new PairArray();
    var buffer, key := [], [];
    var lookForKey := true;
    assert query[0..] == query && [] + query == query;
    for index := 0 to |query|
      invariant Reading(query, lookForKey, key, buffer, query[index..], result.pairs)
    {
      var character := query[index];
      ghost var rest := query[index + 1..];
      FromIndex(query, index);
      if lookForKey {
        if character == '&' {
          ReadSeparator(query, true, key, buffer, rest, result.pairs);
          key, buffer := buffer, [];
          result.Add(key, None);
          key := [];
        } else if character == '=' {
          ReadEquals(query, key, buffer, rest, result.pairs);
          key, buffer := buffer, [];
          lookForKey := false;
        } else {
          ReadOther(query, true, key, buffer, character, rest, result.pairs);
          buffer := buffer + [character];
        }
      } else {
        if character == '&' {
          ReadSeparator(query, false, key, buffer, rest, result.pairs);
          var value := None;
          if buffer != [] {
            value := Some(buffer);
            buffer := [];
          }
          result.Add(key, value);
          key := [];
          lookForKey := true;
        } else {
          ReadOther(query, false, key, buffer, character, rest, result.pairs);
          buffer := buffer + [character];
        }
      }
    }
    ReadEnd(query, lookForKey, key, buffer, result.pairs);
    if lookForKey {
      if buffer != [] {
        result.Add(buffer, None);
      }
    } else {
      result.Add(key, if buffer != [] then Some(buffer) else None);
    }
    found := result;
  }
}
