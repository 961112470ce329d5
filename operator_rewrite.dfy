/**
  The operator macro of the list handlers: in the serialised filter, every whole-word
  `gt`, `gte`, `lt`, `lte` or `in` gains a `$` prefix, turning `{"averageCost":{"gte":"1000"}}`
  into the query-language form `{"averageCost":{"$gte":"1000"}}`. The source writes it as
  a global regular-expression replacement of `\b(gt|gte|lt|lte|in)\b` by `$` followed by
  the match; `\b` and the word characters are those of section 22.2 of ECMA-262.
*/
module OperatorRewrite {
  import opened Wrappers
  import opened Strings

  /** The regular-expression word characters: letters, digits and the underscore. */
  predicate IsWordChar(c: char) {
    ('A' <= c <= 'Z') || ('a' <= c <= 'z') || ('0' <= c <= '9') || c == '_'
  }

  /** `\b` holds between positions i-1 and i when exactly one of the two characters is a
      word character; outside the string counts as a non-word character. */
  predicate IsBoundary(s: string, i: int)
    requires 0 <= i <= |s|
  {
    (i > 0 && IsWordChar(s[i - 1])) != (i < |s| && IsWordChar(s[i]))
  }

  /** The alternatives of the pattern, in the order the pattern tries them. */
  const Operators: seq<string> := ["gt", "gte", "lt", "lte", "in"]

  /** The pattern `\b op \b` matches at position i. */
  predicate MatchesAt(s: string, i: int, op: string)
    requires 0 <= i <= |s|
  {
    IsBoundary(s, i) && i + |op| <= |s| && s[i..i + |op|] == op && IsBoundary(s, i + |op|)
  }

  /** A whole-word operator starts at position i (whichever alternative it is). */
  predicate StartsOperator(s: string, i: int)
    requires 0 <= i <= |s|
  {
    exists k :: 0 <= k < |Operators| && MatchesAt(s, i, Operators[k])
  }

  /** Alternatives k, k+1, ... tried in order at position i; the first that matches wins,
      as in the backtracking semantics of the disjunction. */
  function MatchFrom(s: string, i: int, k: nat): (r: Option<string>)
    requires 0 <= i <= |s| && k <= |Operators|
    ensures r.Some? ==> r.value in Operators && MatchesAt(s, i, r.value)
    ensures r.None? ==> forall j :: k <= j < |Operators| ==> !MatchesAt(s, i, Operators[j])
    decreases |Operators| - k
  {
    if k == |Operators| then None
    else if MatchesAt(s, i, Operators[k]) then Some(Operators[k])
    else MatchFrom(s, i, k + 1)
  }

  /** The global replacement, scanning from position i: at a match, emit `$` and the
      matched text and resume after it; otherwise copy one character. */
  function RewriteFrom(s: string, i: nat): string
    requires i <= |s|
    decreases |s| - i
  {
    if i == |s| then []
    else match MatchFrom(s, i, 0)
      case Some(op) => "$" + op + RewriteFrom(s, i + |op|)
      case None => [s[i]] + RewriteFrom(s, i + 1)
  }

  function Rewrite(s: string): string {
    RewriteFrom(s, 0)
  }

  // ---------------------------------------------------------------------------
  // A position-wise reference: a `$` in front of every operator start.

  /** The characters of s from position i on, each preceded by `$` when an operator
      starts there. */
  function MarkFrom(s: string, i: nat): string
    requires i <= |s|
    decreases |s| - i
  {
    if i == |s| then []
    else (if StartsOperator(s, i) then "$" else "") + [s[i]] + MarkFrom(s, i + 1)
  }

  /** Number of positions from i on where an operator starts. */
  function OperatorCount(s: string, i: nat): nat
    requires i <= |s|
    decreases |s| - i
  {
    if i == |s| then 0 else (if StartsOperator(s, i) then 1 else 0) + OperatorCount(s, i + 1)
  }

  /** The input with every `$` deleted. */
  function EraseDollars(s: string): string {
    if s == [] then [] else (if s[0] == '$' then "" else [s[0]]) + EraseDollars(s[1..])
  }

  lemma OperatorsAreWords(k: nat, j: nat)
    requires k < |Operators| && j < |Operators[k]|
    ensures IsWordChar(Operators[k][j]) && 'a' <= Operators[k][j] <= 'z'
  {
  }

  /** A non-empty run of word characters. */
  predicate IsWord(w: string) {
    w != [] && forall j :: 0 <= j < |w| ==> IsWordChar(w[j])
  }

  lemma OperatorIsWord(op: string)
    requires op in Operators
    ensures IsWord(op)
  {
    var k :| 0 <= k < |Operators| && Operators[k] == op;
    forall j | 0 <= j < |op| ensures IsWordChar(op[j]) {
      OperatorsAreWords(k, j);
    }
  }

  /** The first alternative that matches exists exactly when some alternative matches. */
  lemma MatchFromStarts(s: string, i: nat)
    requires i <= |s|
    ensures MatchFrom(s, i, 0).Some? <==> StartsOperator(s, i)
  {
    if StartsOperator(s, i) {
      var k :| 0 <= k < |Operators| && MatchesAt(s, i, Operators[k]);
    }
  }

  /** No operator starts strictly inside a matched operator: the character before such a
      position and the one at it are both letters, so there is no `\b` there. */
  lemma NoStartInside(s: string, i: nat, op: string, j: nat)
    requires i <= |s| && IsWord(op) && MatchesAt(s, i, op)
    requires i < j < i + |op|
    ensures !StartsOperator(s, j)
  {
    assert s[j - 1] == op[j - 1 - i] && s[j] == op[j - i];
  }

  /** Across a stretch without operator starts, the reference copies the text unchanged. */
  lemma {:induction false} MarkSkips(s: string, i: nat, j: nat)
    requires i <= j <= |s|
    requires forall m :: i <= m < j ==> !StartsOperator(s, m)
    ensures MarkFrom(s, i) == s[i..j] + MarkFrom(s, j)
    decreases j - i
  {
    if i < j {
      assert !StartsOperator(s, i);
      assert MarkFrom(s, i) == [s[i]] + MarkFrom(s, i + 1);
      MarkSkips(s, i + 1, j);
      assert s[i..j] == [s[i]] + s[i + 1..j];
    }
  }

  /** Over a matched operator the reference emits `$` and the operator, then goes on
      after it. */
  lemma MarkOverMatch(s: string, i: nat, op: string)
    requires i < |s| && op in Operators && MatchesAt(s, i, op)
    ensures MarkFrom(s, i) == "$" + op + MarkFrom(s, i + |op|)
  {
    var e := i + |op|;
    MarkAtMatch(s, i, op);
    MarkInsideMatch(s, i, op);
    assert op == [s[i]] + s[i + 1..e] by {
      assert op == s[i..e];
    }
    Regroup4("$", [s[i]], s[i + 1..e], MarkFrom(s, e));
  }

  lemma MarkAtMatch(s: string, i: nat, op: string)
    requires i < |s| && op in Operators && MatchesAt(s, i, op)
    ensures MarkFrom(s, i) == "$" + [s[i]] + MarkFrom(s, i + 1)
  {
    var k :| 0 <= k < |Operators| && Operators[k] == op;
    assert StartsOperator(s, i);
  }

  lemma MarkInsideMatch(s: string, i: nat, op: string)
    requires i < |s| && op in Operators && MatchesAt(s, i, op)
    ensures MarkFrom(s, i + 1) == s[i + 1..i + |op|] + MarkFrom(s, i + |op|)
  {
    OperatorIsWord(op);
    forall m | i + 1 <= m < i + |op| ensures !StartsOperator(s, m) {
      NoStartInside(s, i, op, m);
    }
    MarkSkips(s, i + 1, i + |op|);
  }

  /** The scan of the global replacement inserts `$` exactly in front of every operator
      start: skipping over a match loses no operator, since none starts inside one. */
  lemma {:induction false} RewriteFromIsMark(s: string, i: nat)
    requires i <= |s|
    ensures RewriteFrom(s, i) == MarkFrom(s, i)
    decreases |s| - i
  {
    if i < |s| {
      MatchFromStarts(s, i);
      var r := MatchFrom(s, i, 0);
      if r.Some? {
        MarkOverMatch(s, i, r.value);
        RewriteFromIsMark(s, i + |r.value|);
      } else {
        assert !StartsOperator(s, i);
        assert MarkFrom(s, i) == [s[i]] + MarkFrom(s, i + 1);
        RewriteFromIsMark(s, i + 1);
      }
    }
  }

  lemma RewriteIsMark(s: string)
    ensures Rewrite(s) == MarkFrom(s, 0)
  {
    RewriteFromIsMark(s, 0);
  }

  // ---------------------------------------------------------------------------
  // The rewrite only inserts `$` characters.

  lemma {:induction false} MarkLength(s: string, i: nat)
    requires i <= |s|
    ensures |MarkFrom(s, i)| == |s| - i + OperatorCount(s, i)
    decreases |s| - i
  {
    if i < |s| {
      MarkLength(s, i + 1);
    }
  }

  /** The output is longer than the input by the number of whole-word operators. */
  lemma RewriteLength(s: string)
    ensures |Rewrite(s)| == |s| + OperatorCount(s, 0)
  {
    RewriteIsMark(s);
    MarkLength(s, 0);
  }

  lemma {:induction false} EraseAppend(a: string, b: string)
    ensures EraseDollars(a + b) == EraseDollars(a) + EraseDollars(b)
  {
    if a != [] {
      assert (a + b)[1..] == a[1..] + b;
      EraseAppend(a[1..], b);
    } else {
      assert a + b == b;
    }
  }

  lemma {:induction false} MarkErase(s: string, i: nat)
    requires i <= |s|
    ensures EraseDollars(MarkFrom(s, i)) == EraseDollars(s[i..])
    decreases |s| - i
  {
    if i < |s| {
      MarkErase(s, i + 1);
      var d := if StartsOperator(s, i) then "$" else "";
      EraseAppend(d + [s[i]], MarkFrom(s, i + 1));
      EraseAppend(d, [s[i]]);
      assert s[i..] == [s[i]] + s[i + 1..];
      EraseAppend([s[i]], s[i + 1..]);
    }
  }

  /** Deleting every `$` from the output gives what deleting every `$` from the input
      gives: nothing but `$` characters is ever inserted, and nothing is removed. */
  lemma RewriteErase(s: string)
    ensures EraseDollars(Rewrite(s)) == EraseDollars(s)
  {
    RewriteIsMark(s);
    MarkErase(s, 0);
    assert s[0..] == s;
  }

  lemma {:induction false} EraseNoDollar(s: string)
    requires '$' !in s
    ensures EraseDollars(s) == s
  {
    if s != [] {
      EraseNoDollar(s[1..]);
    }
  }

  /** On text without `$` of its own (a serialised filter whose keys and values hold
      none), deleting the inserted `$`s gives the input back. */
  lemma RewriteInverse(s: string)
    requires '$' !in s
    ensures EraseDollars(Rewrite(s)) == s
  {
    RewriteErase(s);
    EraseNoDollar(s);
  }

  /** The rewrite changes the text exactly when it holds a whole-word operator. */
  lemma RewriteUnchanged(s: string)
    ensures Rewrite(s) == s <==> OperatorCount(s, 0) == 0
  {
    RewriteLength(s);
    if OperatorCount(s, 0) == 0 {
      NoCountNoStart(s, 0);
      RewriteIsMark(s);
      MarkSkips(s, 0, |s|);
      assert s[0..|s|] == s;
    }
  }

  lemma {:induction false} NoCountNoStart(s: string, i: nat)
    requires i <= |s| && OperatorCount(s, i) == 0
    ensures forall m :: i <= m < |s| ==> !StartsOperator(s, m)
    decreases |s| - i
  {
    if i < |s| {
      NoCountNoStart(s, i + 1);
    }
  }

  // ---------------------------------------------------------------------------
  // Locality: the rewrite works piecewise on text cut where no word spans the cut.

  /** No word runs across the junction of x and y. */
  predicate Separated(x: string, y: string) {
    x == [] || y == [] || !IsWordChar(x[|x| - 1]) || !IsWordChar(y[0])
  }

  /** Every character of a match is a word character. */
  lemma MatchIsWord(s: string, i: nat, op: string, j: nat)
    requires i <= |s| && IsWord(op) && MatchesAt(s, i, op) && i <= j < i + |op|
    ensures IsWordChar(s[j])
  {
    assert s[j] == op[j - i];
  }

  /** A match in x + y that starts in x ends within x. */
  lemma MatchStaysLeft(x: string, y: string, m: nat, op: string)
    requires Separated(x, y) && m < |x| && IsWord(op)
    requires MatchesAt(x + y, m, op) || MatchesAt(x, m, op)
    ensures m + |op| <= |x|
    ensures m + |op| == |x| ==> IsWordChar(x[|x| - 1]) && (y == [] || !IsWordChar(y[0]))
  {
    var s := x + y;
    var e := m + |op|;
    if MatchesAt(s, m, op) {
      if e > |x| {
        MatchIsWord(s, m, op, |x| - 1);
        MatchIsWord(s, m, op, |x|);
        assert false;
      }
    }
    if e == |x| {
      if MatchesAt(s, m, op) {
        MatchIsWord(s, m, op, |x| - 1);
      } else {
        MatchIsWord(x, m, op, |x| - 1);
      }
    }
  }

  lemma MatchLocalLeft(x: string, y: string, m: nat, op: string)
    requires Separated(x, y) && m < |x| && IsWord(op)
    ensures MatchesAt(x + y, m, op) <==> MatchesAt(x, m, op)
  {
    var s := x + y;
    var e := m + |op|;
    if MatchesAt(s, m, op) || MatchesAt(x, m, op) {
      MatchStaysLeft(x, y, m, op);
      assert s[m..e] == x[m..e];
      assert IsBoundary(s, m) == IsBoundary(x, m);
      assert IsBoundary(s, e) == IsBoundary(x, e);
    }
  }

  lemma MatchLocalRight(x: string, y: string, m: nat, op: string)
    requires Separated(x, y) && m < |y| && IsWord(op)
    ensures MatchesAt(x + y, |x| + m, op) <==> MatchesAt(y, m, op)
  {
    var s := x + y;
    var i := |x| + m;
    var e := m + |op|;
    if MatchesAt(s, i, op) || MatchesAt(y, m, op) {
      assert IsWordChar(y[m]) by {
        assert s[i] == y[m];
        if MatchesAt(s, i, op) {
          MatchIsWord(s, i, op, i);
        } else {
          MatchIsWord(y, m, op, m);
        }
      }
      if m == 0 {
        BoundaryJoin(x, y);
      } else {
        BoundaryShift(x, y, m);
      }
      if e <= |y| {
        assert s[i..i + |op|] == y[m..e];
        BoundaryShift(x, y, e);
        assert |x| + e == i + |op|;
      }
      MatchesAtSame(s, i, y, m, op);
    }
  }

  /** Two positions with the same boundaries and the same text match the same operator. */
  lemma MatchesAtSame(s: string, i: nat, t: string, j: nat, op: string)
    requires i <= |s| && j <= |t|
    requires IsBoundary(s, i) == IsBoundary(t, j)
    requires i + |op| <= |s| <==> j + |op| <= |t|
    requires i + |op| <= |s| ==> s[i..i + |op|] == t[j..j + |op|]
    requires i + |op| <= |s| ==> IsBoundary(s, i + |op|) == IsBoundary(t, j + |op|)
    ensures MatchesAt(s, i, op) == MatchesAt(t, j, op)
  {
  }

  /** Inside y, the word boundaries of x + y are those of y. */
  lemma BoundaryShift(x: string, y: string, j: nat)
    requires 0 < j <= |y|
    ensures IsBoundary(x + y, |x| + j) == IsBoundary(y, j)
  {
    assert (x + y)[|x| + j - 1] == y[j - 1];
    if j < |y| {
      assert (x + y)[|x| + j] == y[j];
    }
  }

  /** Where no word runs across the junction, a word starting y starts at a boundary of
      x + y too. */
  lemma BoundaryJoin(x: string, y: string)
    requires Separated(x, y) && y != [] && IsWordChar(y[0])
    ensures IsBoundary(x + y, |x|) == IsBoundary(y, 0)
  {
    assert (x + y)[|x|] == y[0];
    if x != [] {
      assert (x + y)[|x| - 1] == x[|x| - 1];
    }
  }

  lemma StartsLocalLeft(x: string, y: string, m: nat)
    requires Separated(x, y) && m < |x|
    ensures StartsOperator(x + y, m) <==> StartsOperator(x, m)
  {
    forall k | 0 <= k < |Operators| ensures MatchesAt(x + y, m, Operators[k]) <==> MatchesAt(x, m, Operators[k]) {
      OperatorIsWord(Operators[k]);
      MatchLocalLeft(x, y, m, Operators[k]);
    }
  }

  lemma StartsLocalRight(x: string, y: string, m: nat)
    requires Separated(x, y) && m < |y|
    ensures StartsOperator(x + y, |x| + m) <==> StartsOperator(y, m)
  {
    forall k | 0 <= k < |Operators| ensures MatchesAt(x + y, |x| + m, Operators[k]) <==> MatchesAt(y, m, Operators[k]) {
      OperatorIsWord(Operators[k]);
      MatchLocalRight(x, y, m, Operators[k]);
    }
  }

  lemma {:induction false} MarkConcatRight(x: string, y: string, m: nat)
    requires Separated(x, y) && m <= |y|
    ensures MarkFrom(x + y, |x| + m) == MarkFrom(y, m)
    decreases |y| - m
  {
    if m < |y| {
      assert (x + y)[|x| + m] == y[m];
      StartsLocalRight(x, y, m);
      MarkConcatRight(x, y, m + 1);
      MarkPrefixStep(x + y, |x| + m, y, m, []);
    }
  }

  lemma {:induction false} MarkConcatLeft(x: string, y: string, m: nat)
    requires Separated(x, y) && m <= |x|
    ensures MarkFrom(x + y, m) == MarkFrom(x, m) + MarkFrom(y, 0)
    decreases |x| - m
  {
    if m < |x| {
      assert (x + y)[m] == x[m];
      StartsLocalLeft(x, y, m);
      MarkConcatLeft(x, y, m + 1);
      MarkPrefixStep(x + y, m, x, m, MarkFrom(y, 0));
    } else {
      MarkConcatRight(x, y, 0);
    }
  }

  /** Positions of s and t that hold the same character and agree on whether an operator
      starts there are marked alike, whatever follows. */
  lemma MarkPrefixStep(s: string, i: nat, t: string, j: nat, rest: string)
    requires i < |s| && j < |t| && s[i] == t[j]
    requires StartsOperator(s, i) == StartsOperator(t, j)
    requires MarkFrom(s, i + 1) == MarkFrom(t, j + 1) + rest
    ensures MarkFrom(s, i) == MarkFrom(t, j) + rest
  {
    var c := if StartsOperator(t, j) then "$" else "";
    Regroup(c + [t[j]], MarkFrom(t, j + 1), rest);
  }

  /** Text cut where no word spans the cut is rewritten piece by piece. */
  lemma RewriteConcat(x: string, y: string)
    requires Separated(x, y)
    ensures Rewrite(x + y) == Rewrite(x) + Rewrite(y)
  {
    RewriteIsMark(x + y);
    RewriteIsMark(x);
    RewriteIsMark(y);
    MarkConcatLeft(x, y, 0);
  }

  // ---------------------------------------------------------------------------
  // What happens to operators, to other words and to punctuation.

  /** An operator on its own gains its `$`. */
  lemma RewriteOperator(op: string)
    requires op in Operators
    ensures Rewrite(op) == "$" + op
  {
    var k :| 0 <= k < |Operators| && Operators[k] == op;
    OperatorsAreWords(k, 0);
    OperatorsAreWords(k, |op| - 1);
    assert op[0..|op|] == op;
    assert MatchesAt(op, 0, op);
    MarkOverMatch(op, 0, op);
    RewriteIsMark(op);
  }

  /** A whole-word `gt|gte|lt|lte|in` between non-word characters (or the ends of the
      text) becomes `$gt|$gte|$lt|$lte|$in`, and the text on either side is rewritten on
      its own. */
  lemma RewriteFlankedOperator(a: string, op: string, b: string)
    requires op in Operators
    requires a == [] || !IsWordChar(a[|a| - 1])
    requires b == [] || !IsWordChar(b[0])
    ensures Rewrite(a + op + b) == Rewrite(a) + "$" + op + Rewrite(b)
  {
    var r := Rewrite(op + b);
    assert r == "$" + op + Rewrite(b) by {
      RewriteConcat(op, b);
      RewriteOperator(op);
    }
    assert Rewrite(a + (op + b)) == Rewrite(a) + r by {
      RewriteConcat(a, op + b);
    }
    Regroup(a, op, b);
    Regroup4(Rewrite(a), "$", op, Rewrite(b));
  }

  /** A word that is not itself an operator is left alone, even when an operator is
      part of it (`length`, `index`, `gtx`). */
  lemma RewritePlainWord(w: string)
    requires w != [] && w !in Operators
    requires forall i :: 0 <= i < |w| ==> IsWordChar(w[i])
    ensures Rewrite(w) == w
  {
    forall m, k | 0 <= m < |w| && 0 <= k < |Operators| ensures !MatchesAt(w, m, Operators[k]) {
      if MatchesAt(w, m, Operators[k]) {
        MatchInWord(w, m, Operators[k]);
      }
    }
    NoStartNoCount(w, 0);
    RewriteUnchanged(w);
  }

  /** Inside a single word the only boundaries are its two ends, so a match there is
      the whole word. */
  lemma MatchInWord(w: string, m: nat, op: string)
    requires m <= |w| && forall i :: 0 <= i < |w| ==> IsWordChar(w[i])
    requires op != [] && MatchesAt(w, m, op)
    ensures m == 0 && w == op
  {
    assert IsWordChar(w[m]);
    assert m == 0;
    assert IsWordChar(w[|op| - 1]);
    assert w[0..|w|] == w;
  }

  /** Text without word characters (JSON punctuation and quotes) is left alone. */
  lemma RewritePunctuation(p: string)
    requires forall i :: 0 <= i < |p| ==> !IsWordChar(p[i])
    ensures Rewrite(p) == p
  {
    assert forall m :: 0 <= m < |p| ==> !StartsOperator(p, m);
    NoStartNoCount(p, 0);
    RewriteUnchanged(p);
  }

  lemma {:induction false} NoStartNoCount(s: string, i: nat)
    requires i <= |s|
    requires forall m :: i <= m < |s| ==> !StartsOperator(s, m)
    ensures OperatorCount(s, i) == 0
    decreases |s| - i
  {
    if i < |s| {
      NoStartNoCount(s, i + 1);
    }
  }

  // ---------------------------------------------------------------------------
  // The rewrite is not idempotent.

  lemma {:induction false} CountHasStart(s: string, i: nat)
    requires i <= |s| && OperatorCount(s, i) > 0
    ensures exists m :: i <= m < |s| && StartsOperator(s, m)
    decreases |s| - i
  {
    if !StartsOperator(s, i) {
      CountHasStart(s, i + 1);
    }
  }

  /** Text that starts with a non-word character starts the same way after the rewrite. */
  lemma RewriteKeepsFirst(z: string)
    requires z != [] && !IsWordChar(z[0])
    ensures Rewrite(z) != [] && Rewrite(z)[0] == z[0]
  {
    RewriteIsMark(z);
    assert MarkFrom(z, 0) == [z[0]] + MarkFrom(z, 1);
  }

  /** Rewriting the output again changes it again exactly when the input held a
      whole-word operator: a `$` is not a word character, so `$gte` still has a word
      boundary in front of `g`. */
  lemma RewriteIdempotentIff(s: string)
    ensures Rewrite(Rewrite(s)) == Rewrite(s) <==> OperatorCount(s, 0) == 0
  {
    if OperatorCount(s, 0) == 0 {
      RewriteUnchanged(s);
    } else {
      CountHasStart(s, 0);
      var p :| 0 <= p < |s| && StartsOperator(s, p);
      var k :| 0 <= k < |Operators| && MatchesAt(s, p, Operators[k]);
      RewriteAgainGrows(s, p, Operators[k]);
    }
  }

  /** The output of a text with an operator at position p is the operator with a `$`
      before it, flanked by the rewritten text on either side. */
  lemma SplitAtOperator(s: string, p: nat, op: string)
    requires p < |s| && op in Operators && MatchesAt(s, p, op)
    ensures var x, z := s[..p], s[p + |op|..];
      && s == x + op + z
      && (x == [] || !IsWordChar(x[|x| - 1]))
      && (z == [] || !IsWordChar(z[0]))
  {
    var e := p + |op|;
    var x, z := s[..p], s[e..];
    assert s == x + op + z by {
      assert s[p..e] == op;
      assert s == s[..p] + s[p..e] + s[e..];
    }
    OperatorIsWord(op);
    MatchIsWord(s, p, op, p);
    MatchIsWord(s, p, op, e - 1);
    assert x == [] || !IsWordChar(x[|x| - 1]);
    assert z == [] || !IsWordChar(z[0]);
  }

  /** Rewriting the output again adds at least one more `$`. */
  lemma RewriteAgainGrows(s: string, p: nat, op: string)
    requires p < |s| && op in Operators && MatchesAt(s, p, op)
    ensures |Rewrite(Rewrite(s))| > |Rewrite(s)|
  {
    var x, z := s[..p], s[p + |op|..];
    SplitAtOperator(s, p, op);
    var a, b := Rewrite(x) + "$", Rewrite(z);
    var t := Rewrite(s);
    assert t == a + op + b by {
      RewriteFlankedOperator(x, op, z);
    }
    assert b == [] || !IsWordChar(b[0]) by {
      if z != [] {
        RewriteKeepsFirst(z);
      }
    }
    assert a != [] && a[|a| - 1] == '$';
    RewriteFlankedOperator(a, op, b);
    RewriteLength(a);
    RewriteLength(b);
  }

  /** The smallest witness: `gt` becomes `$gt`, and then `$$gt`. */
  lemma RewriteTwice()
    ensures Rewrite("gt") == "$gt"
    ensures Rewrite(Rewrite("gt")) == "$$gt"
  {
    RewriteOperator("gt");
    assert "$gt" == "$" + "gt";
    RewriteConcat("$", "gt");
    RewritePunctuation("$");
  }

  // ---------------------------------------------------------------------------
  // Examples on serialised filters.

  /** Punctuation, a plain word, punctuation: all left alone. */
  lemma RewriteQuotedWord(p1: string, w: string, p2: string)
    requires forall i :: 0 <= i < |p1| ==> !IsWordChar(p1[i])
    requires forall i :: 0 <= i < |p2| ==> !IsWordChar(p2[i])
    requires w != [] && w !in Operators && forall i :: 0 <= i < |w| ==> IsWordChar(w[i])
    ensures Rewrite(p1 + w + p2) == p1 + w + p2
  {
    RewritePunctuation(p1);
    RewritePunctuation(p2);
    RewritePlainWord(w);
    RewriteConcat(p1, w);
    RewriteConcat(p1 + w, p2);
  }

  lemma RewriteCostKeyPart()
    ensures Rewrite("{\"averageCost\":{\"") == "{\"averageCost\":{\""
  {
    var w := "averageCost";
    assert forall i :: 0 <= i < |w| ==> IsWordChar(w[i]);
    assert "{\"averageCost\":{\"" == "{\"" + w + "\":{\"";
    RewriteQuotedWord("{\"", w, "\":{\"");
  }

  lemma RewriteCostValuePart()
    ensures Rewrite("\":\"1000\"}}") == "\":\"1000\"}}"
  {
    var w := "1000";
    assert forall i :: 0 <= i < |w| ==> IsWordChar(w[i]);
    assert "\":\"1000\"}}" == "\":\"" + w + "\"}}";
    RewriteQuotedWord("\":\"", w, "\"}}");
  }

  /** `averageCost[gte]=1000` arrives as `{"averageCost":{"gte":"1000"}}` and leaves as the
      operator query `{"averageCost":{"$gte":"1000"}}`. */
  lemma RewriteAverageCostExample()
    ensures Rewrite("{\"averageCost\":{\"gte\":\"1000\"}}") == "{\"averageCost\":{\"$gte\":\"1000\"}}"
  {
    var a := "{\"averageCost\":{\"";
    var b := "\":\"1000\"}}";
    assert a + "gte" + b == "{\"averageCost\":{\"gte\":\"1000\"}}" by {}
    assert a + "$" + "gte" + b == "{\"averageCost\":{\"$gte\":\"1000\"}}" by {}
    assert Rewrite(a + "gte" + b) == a + "$" + "gte" + b by {
      RewriteCostKeyPart();
      RewriteCostValuePart();
      RewriteFlankedOperator(a, "gte", b);
    }
  }

  /** Words that merely contain an operator are untouched. */
  lemma RewriteEmbeddedExamples()
    ensures Rewrite("length") == "length"
    ensures Rewrite("index") == "index"
  {
    var w1, w2 := "length", "index";
    assert forall i :: 0 <= i < |w1| ==> IsWordChar(w1[i]);
    assert forall i :: 0 <= i < |w2| ==> IsWordChar(w2[i]);
    RewritePlainWord(w1);
    RewritePlainWord(w2);
  }

  lemma RewriteNameKeyPart()
    ensures Rewrite("{\"name\":\"") == "{\"name\":\""
  {
    var w := "name";
    assert forall i :: 0 <= i < |w| ==> IsWordChar(w[i]);
    assert "{\"name\":\"" == "{\"" + w + "\":\"";
    RewriteQuotedWord("{\"", w, "\":\"");
  }

  /** The macro does not tell keys and operators from values: a filter value that is the
      word `in` is rewritten too. */
  lemma RewriteValueFalsePositive()
    ensures Rewrite("{\"name\":\"in\"}") == "{\"name\":\"$in\"}"
  {
    var a := "{\"name\":\"";
    var b := "\"}";
    assert a + "in" + b == "{\"name\":\"in\"}" by {}
    assert a + "$" + "in" + b == "{\"name\":\"$in\"}" by {}
    assert Rewrite(a + "in" + b) == a + "$" + "in" + b by {
      RewriteNameKeyPart();
      RewritePunctuation(b);
      RewriteFlankedOperator(a, "in", b);
    }
  }
}
