/** Options and substring facts shared by the modules of the model. */
module Strings {

  datatype Option<+T> = None | Some(value: T)

  /** v stands in s with its first character at index i. */
  predicate OccursAt(v: string, s: string, i: nat) {
    i + |v| <= |s| && s[i..i + |v|] == v
  }

  /** v is a contiguous substring of s. */
  ghost predicate Occurs(v: string, s: string) {
    exists i: nat :: OccursAt(v, s, i)
  }

  lemma OccursInContext(v: string, pre: string, s: string, post: string)
    requires Occurs(v, s)
    ensures Occurs(v, pre + s + post)
  {
    var i: nat :| OccursAt(v, s, i);
    var whole := pre + s + post;
    assert whole[|pre| + i..|pre| + i + |v|] == s[i..i + |v|];
    assert OccursAt(v, whole, |pre| + i);
  }

  lemma OccursTransitive(u: string, v: string, s: string)
    requires Occurs(u, v) && Occurs(v, s)
    ensures Occurs(u, s)
  {
    var i: nat :| OccursAt(v, s, i);
    assert s == s[..i] + v + s[i + |v|..];
    OccursInContext(u, s[..i], v, s[i + |v|..]);
  }

  predicate IsSpace(c: char) {
    || '\t' <= c <= '\r' || c == ' ' || c == '\U{00A0}' || c == '\U{1680}'
    || '\U{2000}' <= c <= '\U{200A}' || c == '\U{2028}' || c == '\U{2029}' || c == '\U{202F}'
    || c == '\U{205F}' || c == '\U{3000}' || c == '\U{FEFF}'
  }

  /** Nothing is left after trimming. */
  predicate Blank(s: string) {
    forall i :: 0 <= i < |s| ==> IsSpace(s[i])
  }

  /** The pieces of s between the separators; always at least one. */
  function Split(s: string, separator: char): (pieces: seq<string>)
    ensures |pieces| >= 1
  {
    if s == "" then [""]
    else if s[0] == separator then [""] + Split(s[1..], separator)
    else
      var rest := Split(s[1..], separator);
      [[s[0]] + rest[0]] + rest[1..]
  }

  function Join(pieces: seq<string>, separator: char): string
    requires pieces != []
  {
    if |pieces| == 1 then pieces[0] else pieces[0] + [separator] + Join(pieces[1..], separator)
  }

  lemma {:induction false} JoinSplit(s: string, separator: char)
    ensures Join(Split(s, separator), separator) == s
  {
    if s != "" {
      var rest := Split(s[1..], separator);
      JoinSplit(s[1..], separator);
      assert s == [s[0]] + s[1..];
      if s[0] == separator {
        assert Split(s, separator)[1..] == rest;
      } else {
        assert Split(s, separator)[1..] == rest[1..];
        if |rest| > 1 {
          assert Join(rest, separator) == rest[0] + [separator] + Join(rest[1..], separator);
        }
      }
    }
  }

  function Onto(c: char, separator: char, pieces: seq<string>): seq<string>
    requires pieces != []
  {
    if c == separator then [""] + pieces else [[c] + pieces[0]] + pieces[1..]
  }

  lemma SplitCons(c: char, s: string, separator: char)
    ensures Split([c] + s, separator) == Onto(c, separator, Split(s, separator))
  {
    assert ([c] + s)[1..] == s;
  }

  lemma {:induction false} SplitAppend(a: string, separator: char, b: string)
    ensures Split(a + [separator] + b, separator) == Split(a, separator) + Split(b, separator)
  {
    if a == "" {
      assert a + [separator] + b == [separator] + b;
      SplitCons(separator, b, separator);
    } else {
      var c, rest := a[0], a[1..];
      SplitAppend(rest, separator, b);
      assert a == [c] + rest && a + [separator] + b == [c] + (rest + [separator] + b);
      SplitCons(c, rest, separator);
      SplitCons(c, rest + [separator] + b, separator);
      OntoAppend(c, separator, Split(rest, separator), Split(b, separator));
    }
  }

  lemma OntoAppend(c: char, separator: char, left: seq<string>, right: seq<string>)
    requires left != []
    ensures Onto(c, separator, left + right) == Onto(c, separator, left) + right
  {
  }

  lemma {:induction false} SplitWhole(s: string, separator: char)
    requires separator !in s
    ensures Split(s, separator) == [s]
  {
    if s != "" {
      SplitWhole(s[1..], separator);
      assert s == [s[0]] + s[1..];
    }
  }

  lemma {:induction false} JoinLast(pieces: seq<string>, separator: char)
    requires |pieces| > 1
    ensures Join(pieces, separator) == Join(pieces[..|pieces| - 1], separator) + [separator] + pieces[|pieces| - 1]
  {
    var init := pieces[..|pieces| - 1];
    if |pieces| > 2 {
      JoinLast(pieces[1..], separator);
      assert init[1..] == pieces[1..][..|pieces| - 2];
    }
  }

  /** The last piece is empty exactly when the text is empty or ends with the separator. */
  lemma LastPieceEmptyIff(s: string, separator: char)
    ensures var pieces := Split(s, separator);
            pieces[|pieces| - 1] == "" <==> s == "" || s[|s| - 1] == separator
  {
    var pieces := Split(s, separator);
    JoinSplit(s, separator);
    if |pieces| > 1 { JoinLast(pieces, separator); }
    if s != "" && s[|s| - 1] == separator {
      assert s == s[..|s| - 1] + [separator] + "";
      SplitAppend(s[..|s| - 1], separator, "");
    }
  }

  predicate EndsWith(s: string, suffix: string) {
    |s| >= |suffix| && s[|s| - |suffix|..] == suffix
  }

  /** The last piece is a given text exactly when the whole is it or ends with it after a separator. */
  lemma LastPieceIs(s: string, separator: char, last: string)
    requires separator !in last
    ensures var pieces := Split(s, separator);
            pieces[|pieces| - 1] == last <==> s == last || EndsWith(s, [separator] + last)
    ensures EndsWith(s, [separator] + last) ==>
            Split(s, separator) == Split(s[..|s| - |last| - 1], separator) + [last]
  {
    var pieces := Split(s, separator);
    SplitWhole(last, separator);
    if EndsWith(s, [separator] + last) {
      var before := s[..|s| - |last| - 1];
      assert s == before + [separator] + last;
      SplitAppend(before, separator, last);
    } else if pieces[|pieces| - 1] == last {
      JoinSplit(s, separator);
      if |pieces| > 1 {
        JoinLast(pieces, separator);
        EndsAfter(Join(pieces[..|pieces| - 1], separator), [separator], last);
      }
    }
  }

  lemma EndsAfter(a: string, b: string, c: string)
    ensures EndsWith(a + b + c, b + c)
  {
  }

  /** The last path component. */
  function Basename(path: string): string {
    var pieces := Split(path, '/');
    pieces[|pieces| - 1]
  }
}
