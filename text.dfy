/**
  The two string methods the list handlers apply to the `select` and `sort` query
  parameters: `String.prototype.split` with a one-character separator and
  `Array.prototype.join`.
*/
module Text {

  /** s.split(sep) for a one-character separator: the pieces between separators, in order.
      An empty input gives one empty piece, as in JavaScript. */
  function Split(s: string, sep: char): (parts: seq<string>)
    ensures |parts| >= 1
    ensures forall k :: 0 <= k < |parts| ==> sep !in parts[k]
  {
    if s == [] then [""]
    else
      var rest := Split(s[1..], sep);
      if s[0] == sep then [""] + rest
      else [[s[0]] + rest[0]] + rest[1..]
  }

  /** parts.join(sep): the pieces with sep between each two neighbours. */
  function Join(parts: seq<string>, sep: string): string {
    if parts == [] then ""
    else if |parts| == 1 then parts[0]
    else parts[0] + sep + Join(parts[1..], sep)
  }

  /** The input with every occurrence of one character replaced by another. */
  function ReplaceChar(s: string, from: char, to: char): (r: string)
    ensures |r| == |s|
    ensures forall i :: 0 <= i < |s| ==> r[i] == if s[i] == from then to else s[i]
  {
    if s == [] then [] else [if s[0] == from then to else s[0]] + ReplaceChar(s[1..], from, to)
  }

  /** Joining the pieces of a split with a one-character string puts that character
      where each separator was. */
  lemma {:induction false} JoinSplit(s: string, sep: char, glue: char)
    ensures Join(Split(s, sep), [glue]) == ReplaceChar(s, sep, glue)
  {
    if s != [] {
      var rest := Split(s[1..], sep);
      JoinSplit(s[1..], sep, glue);
      if s[0] == sep {
        assert Split(s, sep) == [""] + rest;
        assert ([""] + rest)[1..] == rest;
      } else {
        var parts := Split(s, sep);
        assert parts == [[s[0]] + rest[0]] + rest[1..];
        if |rest| == 1 {
          assert Join(parts, [glue]) == [s[0]] + rest[0];
        } else {
          assert parts[1..] == rest[1..];
          assert Join(parts, [glue]) == [s[0]] + (rest[0] + [glue] + Join(rest[1..], [glue]));
        }
      }
    }
  }

  /** Round trip: joining the pieces of a split with the same separator gives the input back. */
  lemma SplitJoinRoundTrip(s: string, sep: char)
    ensures Join(Split(s, sep), [sep]) == s
  {
    JoinSplit(s, sep, sep);
    assert ReplaceChar(s, sep, sep) == s;
  }

  /** s.split(',').join(' '): the comma-separated field list in the space-separated
      form the query builder expects. */
  function CommasToSpaces(s: string): (r: string)
    ensures r == ReplaceChar(s, ',', ' ')
    ensures |r| == |s| && ',' !in r
    ensures forall i :: 0 <= i < |s| ==> r[i] == (if s[i] == ',' then ' ' else s[i])
  {
    JoinSplit(s, ',', ' ');
    Join(Split(s, ','), " ")
  }

  lemma {:induction false} ReplaceAppend(a: string, b: string, from: char, to: char)
    ensures ReplaceChar(a + b, from, to) == ReplaceChar(a, from, to) + ReplaceChar(b, from, to)
  {
    if a != [] {
      assert (a + b)[1..] == a[1..] + b;
      ReplaceAppend(a[1..], b, from, to);
    } else {
      assert a + b == b;
    }
  }

  lemma {:induction false} ReplaceAbsent(s: string, from: char, to: char)
    requires from !in s
    ensures ReplaceChar(s, from, to) == s
  {
    if s != [] {
      ReplaceAbsent(s[1..], from, to);
    }
  }

  /** A two-field list such as `name,description` becomes `name description`. */
  lemma TwoFields(a: string, b: string)
    requires ',' !in a && ',' !in b
    ensures CommasToSpaces(a + "," + b) == a + " " + b
  {
    ReplaceAppend(a + ",", b, ',', ' ');
    ReplaceAppend(a, ",", ',', ' ');
    ReplaceAbsent(a, ',', ' ');
    ReplaceAbsent(b, ',', ' ');
    assert ReplaceChar(",", ',', ' ') == " ";
  }
}
