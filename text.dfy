/**
 * Splitting and joining of text lines: Python's `str.split(sep)` and
 * `sep.join(fields)` on a single separator character, and splitting into
 * whitespace-separated tokens as an input stream's `>>` or Python's
 * `str.split()` does.
 */
module Text {

  /** No character of `s` is in `seps`. */
  predicate Free(s: string, seps: set<char>)
  {
    forall i :: 0 <= i < |s| ==> s[i] !in seps
  }

  /**
   * Splits `s` at every character in `seps`. Like Python's `str.split(sep)`,
   * the result always has at least one field, adjacent separators give empty
   * fields, and no field contains a separator.
   */
  function Split(s: string, seps: set<char>): (fields: seq<string>)
    ensures |fields| >= 1
    ensures forall k :: 0 <= k < |fields| ==> Free(fields[k], seps)
  {
    if s == [] then [""]
    else if s[0] in seps then [""] + Split(s[1..], seps)
    else
      var rest := Split(s[1..], seps);
      [[s[0]] + rest[0]] + rest[1..]
  }

  /** Python's `sep.join(fields)`. */
  function Join(fields: seq<string>, sep: char): string
  {
    if fields == [] then ""
    else if |fields| == 1 then fields[0]
    else fields[0] + [sep] + Join(fields[1..], sep)
  }

  /** Joining the fields of a split restores the line. */
  lemma {:induction false} JoinSplit(s: string, sep: char)
    ensures Join(Split(s, {sep}), sep) == s
  {
    if s == [] {
    } else if s[0] == sep {
      JoinSplit(s[1..], sep);
      var rest := Split(s[1..], {sep});
      assert Join([""] + rest, sep) == "" + [sep] + Join(rest, sep);
    } else {
      JoinSplit(s[1..], sep);
      var rest := Split(s[1..], {sep});
      if |rest| == 1 {
        assert Split(s, {sep}) == [[s[0]] + rest[0]];
      } else {
        var fields := Split(s, {sep});
        assert fields[1..] == rest[1..];
        assert Join(fields, sep) == [s[0]] + rest[0] + [sep] + Join(rest[1..], sep);
      }
    }
  }

  /** Splitting a join of separator-free fields gives the fields back. */
  lemma {:induction false} SplitJoin(fields: seq<string>, sep: char)
    requires |fields| >= 1
    requires forall k :: 0 <= k < |fields| ==> Free(fields[k], {sep})
    ensures Split(Join(fields, sep), {sep}) == fields
  {
    if |fields| == 1 {
      SplitFree(fields[0], {sep});
    } else {
      SplitJoin(fields[1..], sep);
      SplitPrefix(fields[0], Join(fields[1..], sep), sep, {sep});
      assert Join(fields, sep) == fields[0] + [sep] + Join(fields[1..], sep);
      assert [fields[0]] + fields[1..] == fields;
    }
  }

  /** A separator-free string splits into itself alone. */
  lemma {:induction false} SplitFree(s: string, seps: set<char>)
    requires Free(s, seps)
    ensures Split(s, seps) == [s]
  {
    if s != [] {
      SplitFree(s[1..], seps);
      assert [s[0]] + s[1..] == s;
    }
  }

  /** A separator-free `head` followed by a separator is split off as the first field. */
  lemma {:induction false} SplitPrefix(head: string, tail: string, sep: char, seps: set<char>)
    requires sep in seps && Free(head, seps)
    ensures Split(head + [sep] + tail, seps) == [head] + Split(tail, seps)
  {
    if head == [] {
      assert head + [sep] + tail == [sep] + tail;
      assert ([sep] + tail)[1..] == tail;
    } else {
      SplitPrefix(head[1..], tail, sep, seps);
      assert (head + [sep] + tail)[1..] == head[1..] + [sep] + tail;
      assert [head[0]] + head[1..] == head;
    }
  }

  /** The whitespace characters that separate tokens, as C++ `isspace` and stream extraction skip them: space, tab, line feed, vertical tab, form feed and carriage return. */
  const Whitespace: set<char> := {' ', '\t', '\n', 11 as char, 12 as char, '\r'}

  /** The non-empty fields of `fields`, in order. */
  function NonEmpty(fields: seq<string>): (r: seq<string>)
    ensures |r| <= |fields|
    ensures forall k :: 0 <= k < |r| ==> r[k] != [] && r[k] in fields
  {
    if fields == [] then []
    else if fields[0] == [] then NonEmpty(fields[1..])
    else [fields[0]] + NonEmpty(fields[1..])
  }

  /** The whitespace-separated tokens of a line: non-empty and whitespace-free. */
  function Tokens(line: string): (r: seq<string>)
    ensures forall k :: 0 <= k < |r| ==> r[k] != [] && Free(r[k], Whitespace)
  {
    NonEmpty(Split(line, Whitespace))
  }

  /** A line is blank when it has no tokens. */
  predicate IsBlank(line: string)
  {
    Tokens(line) == []
  }

  /** Dropping empty fields distributes over concatenation. */
  lemma {:induction false} NonEmptyAppend(a: seq<string>, b: seq<string>)
    ensures NonEmpty(a + b) == NonEmpty(a) + NonEmpty(b)
  {
    if a != [] {
      NonEmptyAppend(a[1..], b);
      assert (a + b)[1..] == a[1..] + b;
    } else {
      assert a + b == b;
    }
  }

  /** Tokens of single-space-joined tokens are those tokens. */
  lemma {:induction false} TokensJoin(tokens: seq<string>)
    requires |tokens| >= 1
    requires forall k :: 0 <= k < |tokens| ==> tokens[k] != [] && Free(tokens[k], Whitespace)
    ensures Tokens(Join(tokens, ' ')) == tokens
  {
    if |tokens| == 1 {
      SplitFree(tokens[0], Whitespace);
    } else {
      TokensJoin(tokens[1..]);
      SplitPrefix(tokens[0], Join(tokens[1..], ' '), ' ', Whitespace);
      NonEmptyAppend([tokens[0]], Split(Join(tokens[1..], ' '), Whitespace));
      assert [tokens[0]] + tokens[1..] == tokens;
    }
  }

  /** Joining one more field adds a separator and that field. */
  lemma {:induction false} AppendOne(a: seq<string>, x: string, sep: char)
    requires |a| >= 1
    ensures Join(a + [x], sep) == Join(a, sep) + [sep] + x
  {
    if |a| > 1 {
      AppendOne(a[1..], x, sep);
      assert (a + [x])[1..] == a[1..] + [x];
    }
  }

  /** `s` ends with `suffix`. */
  predicate EndsWith(s: string, suffix: string)
  {
    |suffix| <= |s| && s[|s| - |suffix|..] == suffix
  }

  /** A separator followed by a separator-free `x` at the end of a line splits off `x` as the last field. */
  lemma {:induction false} SplitSuffix(s: string, x: string, sep: char)
    requires Free(x, {sep})
    ensures Split(s + [sep] + x, {sep}) == Split(s, {sep}) + [x]
  {
    if s == [] {
      assert s + [sep] + x == [sep] + x;
      assert ([sep] + x)[1..] == x;
      SplitFree(x, {sep});
    } else {
      assert (s + [sep] + x)[1..] == s[1..] + [sep] + x;
      SplitSuffix(s[1..], x, sep);
      if s[0] != sep {
        var r := Split(s[1..], {sep});
        assert (r + [x])[0] == r[0];
        assert (r + [x])[1..] == r[1..] + [x];
      }
    }
  }

  /** The last field of a split is the whole line or follows the last separator. */
  lemma LastFieldForm(s: string, sep: char)
    ensures var f := Split(s, {sep});
      s == f[|f| - 1] || EndsWith(s, [sep] + f[|f| - 1])
  {
    var f := Split(s, {sep});
    var n := |f|;
    JoinSplit(s, sep);
    if n > 1 {
      assert f == f[..n - 1] + [f[n - 1]];
      AppendOne(f[..n - 1], f[n - 1], sep);
      assert s == Join(f[..n - 1], sep) + ([sep] + f[n - 1]);
    }
  }

  /**
   * Python's `s.split(sep)[-1] == x`, for a separator-free `x`: `s` is `x`
   * itself or ends with the separator followed by `x`.
   */
  lemma LastField(s: string, sep: char, x: string)
    requires Free(x, {sep})
    ensures var f := Split(s, {sep});
      f[|f| - 1] == x <==> s == x || EndsWith(s, [sep] + x)
  {
    if s == x {
      SplitFree(x, {sep});
    } else if EndsWith(s, [sep] + x) {
      var p := s[..|s| - |x| - 1];
      assert s == p + [sep] + x;
      SplitSuffix(p, x, sep);
    } else {
      LastFieldForm(s, sep);
    }
  }
}
