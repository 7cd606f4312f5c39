/**
 * The centralized secret redactor (src/ops/redaction.js).
 *
 * Known secret values are replaced one after another, longest first, each by a
 * global literal replacement. The theorems say what survives all those passes.
 */
module Redaction {
  import opened Strings

  const PLACEHOLDER: string := "[REDACTED]"
  const MIN_SECRET_LENGTH: nat := 4

  datatype Redactor = Redactor(values: seq<string>, names: set<string>, isSecretValue: Option<string -> bool>)

  /** A serializable value: a string, an array, an object with its fields in order, or anything else. */
  datatype Value = Str(text: string) | Arr(items: seq<Value>) | Obj(fields: seq<Field>) | Scalar(id: int)
  datatype Field = Field(key: string, value: Value)

  // ---------------------------------------------------------------- construction

  /** The candidates kept: long enough, first occurrence only, in the given order. */
  function Selected(candidates: seq<string>): (kept: seq<string>)
    ensures forall v :: v in kept <==> v in candidates && |v| >= MIN_SECRET_LENGTH
    ensures forall i, j :: 0 <= i < j < |kept| ==> kept[i] != kept[j]
  {
    if candidates == [] then [] else
      var kept := Selected(candidates[..|candidates| - 1]);
      var v := candidates[|candidates| - 1];
      assert candidates == candidates[..|candidates| - 1] + [v];
      if |v| < MIN_SECRET_LENGTH || v in kept then kept else kept + [v]
  }

  /** Puts v behind every element at least as long as it, as a stable descending sort does. */
  function InsertByLength(sorted: seq<string>, v: string): (r: seq<string>)
    requires forall i, j :: 0 <= i < j < |sorted| ==> |sorted[i]| >= |sorted[j]|
    ensures forall i, j :: 0 <= i < j < |r| ==> |r[i]| >= |r[j]|
    ensures multiset(r) == multiset(sorted) + multiset{v}
  {
    if sorted == [] then [v]
    else if |sorted[0]| < |v| then [v] + sorted
    else
      var rest := InsertByLength(sorted[1..], v);
      InsertKeepsHead(sorted, v, rest);
      [sorted[0]] + rest
  }

  lemma InsertKeepsHead(sorted: seq<string>, v: string, rest: seq<string>)
    requires sorted != [] && |sorted[0]| >= |v|
    requires forall i, j :: 0 <= i < j < |sorted| ==> |sorted[i]| >= |sorted[j]|
    requires multiset(rest) == multiset(sorted[1..]) + multiset{v}
    ensures forall i :: 0 <= i < |rest| ==> |sorted[0]| >= |rest[i]|
    ensures multiset([sorted[0]] + rest) == multiset(sorted) + multiset{v}
  {
    assert sorted == [sorted[0]] + sorted[1..];
    forall i | 0 <= i < |rest| ensures |sorted[0]| >= |rest[i]| {
      assert rest[i] in multiset(rest);
    }
  }

  function LongestFirst(values: seq<string>): (r: seq<string>)
    ensures forall i, j :: 0 <= i < j < |r| ==> |r[i]| >= |r[j]|
    ensures multiset(r) == multiset(values)
  {
    if values == [] then [] else
      assert values == values[..|values| - 1] + [values[|values| - 1]];
      InsertByLength(LongestFirst(values[..|values| - 1]), values[|values| - 1])
  }

  /** createRedactor: the selection loop, then the sort. */
  method CreateRedactor(secretValues: seq<string>, secretNames: seq<string>, isSecretValue: Option<string -> bool>)
    returns (r: Redactor)
    ensures r == Created(secretValues, (set n | n in secretNames && |n| > 0), isSecretValue)
  {
    var values: seq<string> := [];
    var seen: set<string> := {};
    for i := 0 to |secretValues|
      invariant values == Selected(secretValues[..i])
      invariant seen == set v | v in values
    {
      var v := secretValues[i];
      assert secretValues[..i + 1][..i] == secretValues[..i];
      if |v| >= MIN_SECRET_LENGTH && v !in seen {
        seen := seen + {v};
        values := values + [v];
      }
    }
    assert secretValues[..|secretValues|] == secretValues;
    var names := set n | n in secretNames && |n| > 0;
    r := Redactor(LongestFirst(values), names, isSecretValue);
  }

  // ---------------------------------------------------------------- strings

  /** Global literal replacement: leftmost matches, none overlapping. */
  function ReplaceAll(s: string, v: string): string
    requires v != ""
  {
    if |s| < |v| then s
    else if v <= s then PLACEHOLDER + ReplaceAll(s[|v|..], v)
    else [s[0]] + ReplaceAll(s[1..], v)
  }

  predicate NoneEmpty(values: seq<string>) {
    forall i :: 0 <= i < |values| ==> values[i] != ""
  }

  function RedactAll(values: seq<string>, s: string): string
    requires NoneEmpty(values)
  {
    if values == [] then s else RedactAll(values[1..], ReplaceAll(s, values[0]))
  }

  ghost predicate ValidRedactor(r: Redactor) {
    forall i :: 0 <= i < |r.values| ==> |r.values[i]| >= MIN_SECRET_LENGTH
  }

  function RedactText(r: Redactor, s: string): string
    requires ValidRedactor(r)
  {
    if s == "" then s else
      var out := RedactAll(r.values, s);
      if r.isSecretValue.Some? && out == s && |s| >= MIN_SECRET_LENGTH && r.isSecretValue.value(s)
      then PLACEHOLDER else out
  }

  /** redactString: one pass per known value, then the whole-string predicate. */
  method RedactString(r: Redactor, s: string) returns (text: string)
    requires ValidRedactor(r)
    ensures text == RedactText(r, s)
  {
    if s == "" { return s; }
    var out := s;
    for i := 0 to |r.values|
      invariant RedactAll(r.values, s) == RedactAll(r.values[i..], out)
    {
      out := ReplaceAll(out, r.values[i]);
      assert r.values[i..][1..] == r.values[i + 1..];
    }
    if r.isSecretValue.Some? && out == s {
      if |s| >= MIN_SECRET_LENGTH && r.isSecretValue.value(s) { return PLACEHOLDER; }
    }
    return out;
  }

  /** redactValue: structural copy; object keys are kept, their values redacted. */
  function RedactValue(r: Redactor, value: Value, keyIsSecret: bool): Value
    requires ValidRedactor(r)
  {
    match value
    case Str(s) => if keyIsSecret && |s| > 0 then Str(PLACEHOLDER) else Str(RedactText(r, s))
    case Arr(items) => Arr(seq(|items|, i requires 0 <= i < |items| => RedactValue(r, items[i], false)))
    case Obj(fields) =>
      Obj(seq(|fields|, i requires 0 <= i < |fields| =>
        Field(fields[i].key, RedactValue(r, fields[i].value, fields[i].key in r.names))))
    case Scalar(_) => value
  }

  function Redact(r: Redactor, value: Value): Value
    requires ValidRedactor(r)
  {
    RedactValue(r, value, false)
  }

  // ---------------------------------------------------------------- the guarantee

  /** Laid over the placeholder with v[0] at index k, v agrees with it wherever both have a character. */
  predicate AgreesAt(v: string, k: int) {
    forall i :: 0 <= i < |PLACEHOLDER| && k <= i < k + |v| ==> PLACEHOLDER[i] == v[i - k]
  }

  /** Some non-empty overlap of v with the placeholder agrees, so a replacement can help to spell v. */
  predicate Overlaps(v: string) {
    exists k :: -|v| < k < |PLACEHOLDER| && AgreesAt(v, k)
  }

  /** A suffix of v that starts the replaced text also starts the text it came from. */
  lemma {:induction false} SuffixIsOriginal(v: string, m: nat, s: string, w: string)
    requires w != "" && m <= |v|
    requires v[m..] <= ReplaceAll(s, w)
    ensures Overlaps(v) || v[m..] <= s
    decreases |s|
  {
    if m < |v| && |s| >= |w| {
      if w <= s {
        var k: int := 0 - m;
        forall i: int | 0 <= i < |PLACEHOLDER| && k <= i < k + |v| ensures PLACEHOLDER[i] == v[i - k] {
          assert v[m..][i] == ReplaceAll(s, w)[i];
        }
        assert AgreesAt(v, k);
      } else {
        assert v[m + 1..] == v[m..][1..];
        assert ReplaceAll(s, w)[1..] == ReplaceAll(s[1..], w);
        SuffixIsOriginal(v, m + 1, s[1..], w);
        assert v[m..][0] == s[0];
      }
    }
  }

  lemma MeetsPlaceholder(v: string, rest: string, j: nat)
    requires v != "" && j < |PLACEHOLDER| && OccursAt(v, PLACEHOLDER + rest, j)
    ensures Overlaps(v)
  {
    var out := PLACEHOLDER + rest;
    forall i | 0 <= i < |PLACEHOLDER| && j <= i < j + |v| ensures PLACEHOLDER[i] == v[i - j] {
      assert out[j..j + |v|][i - j] == out[i];
    }
    assert AgreesAt(v, j);
  }

  lemma OccursBehind(v: string, before: string, rest: string, j: nat)
    requires |before| <= j && OccursAt(v, before + rest, j)
    ensures OccursAt(v, rest, j - |before|)
  {
    assert (before + rest)[j..j + |v|] == rest[j - |before|..j - |before| + |v|];
  }

  lemma OccursInSuffix(v: string, s: string, k: nat)
    requires k <= |s| && Occurs(v, s[k..])
    ensures Occurs(v, s)
  {
    OccursInContext(v, s[..k], s[k..], "");
    assert s[..k] + s[k..] + "" == s;
  }

  /** Replacing w creates no occurrence of v, and leaves none of w itself. */
  lemma {:induction false} OccurrenceIsOriginal(v: string, s: string, w: string, j: nat)
    requires v != "" && w != ""
    requires OccursAt(v, ReplaceAll(s, w), j)
    ensures Overlaps(v) || (v != w && Occurs(v, s))
    decreases |s|
  {
    if |s| < |w| {
      assert OccursAt(v, s, j);
    } else if w <= s {
      var rest := ReplaceAll(s[|w|..], w);
      if j < |PLACEHOLDER| {
        MeetsPlaceholder(v, rest, j);
      } else {
        OccursBehind(v, PLACEHOLDER, rest, j);
        OccurrenceIsOriginal(v, s[|w|..], w, j - |PLACEHOLDER|);
        if !Overlaps(v) { OccursInSuffix(v, s, |w|); }
      }
    } else if j > 0 {
      OccursBehind(v, [s[0]], ReplaceAll(s[1..], w), j);
      OccurrenceIsOriginal(v, s[1..], w, j - 1);
      if !Overlaps(v) { OccursInSuffix(v, s, 1); }
    } else {
      assert v[0..] == v;
      SuffixIsOriginal(v, 0, s, w);
      assert v <= s ==> OccursAt(v, s, 0);
    }
  }

  /** Once removed, or never there, v does not come back whatever is replaced afterwards. */
  lemma {:induction false} StaysAbsent(values: seq<string>, s: string, v: string)
    requires v != "" && !Overlaps(v) && !Occurs(v, s)
    requires NoneEmpty(values)
    ensures !Occurs(v, RedactAll(values, s))
  {
    if values != [] {
      var s' := ReplaceAll(s, values[0]);
      if Occurs(v, s') {
        var j: nat :| OccursAt(v, s', j);
        OccurrenceIsOriginal(v, s, values[0], j);
      }
      StaysAbsent(values[1..], s', v);
    }
  }

  /** The string core of the guarantee, for a single secret and any other secrets around it. */
  lemma {:induction false} KnownSecretIsRemoved(values: seq<string>, s: string, v: string)
    requires v in values && !Overlaps(v)
    requires NoneEmpty(values)
    ensures !Occurs(v, RedactAll(values, s))
  {
    var s' := ReplaceAll(s, values[0]);
    if v == values[0] {
      if Occurs(v, s') {
        var j: nat :| OccursAt(v, s', j);
        OccurrenceIsOriginal(v, s, v, j);
      }
      StaysAbsent(values[1..], s', v);
    } else {
      KnownSecretIsRemoved(values[1..], s', v);
    }
  }

  lemma PlaceholderIsClean(v: string)
    requires v != "" && !Overlaps(v)
    ensures !Occurs(v, PLACEHOLDER)
  {
    forall k: nat | OccursAt(v, PLACEHOLDER, k) ensures AgreesAt(v, k) {
      forall i | 0 <= i < |PLACEHOLDER| && k <= i < k + |v| ensures PLACEHOLDER[i] == v[i - k] {
        assert PLACEHOLDER[k..k + |v|][i - k] == PLACEHOLDER[i];
      }
    }
  }

  /** No string anywhere in the value contains v (object keys are not values). */
  ghost predicate Free(v: string, value: Value) {
    match value
    case Str(s) => !Occurs(v, s)
    case Arr(items) => forall i :: 0 <= i < |items| ==> Free(v, items[i])
    case Obj(fields) => forall i :: 0 <= i < |fields| ==> Free(v, fields[i].value)
    case Scalar(_) => true
  }

  lemma {:induction false} RedactedValueIsFree(r: Redactor, value: Value, keyIsSecret: bool, v: string)
    requires ValidRedactor(r) && v in r.values && !Overlaps(v)
    ensures Free(v, RedactValue(r, value, keyIsSecret))
  {
    match value
    case Str(s) =>
      PlaceholderIsClean(v);
      KnownSecretIsRemoved(r.values, s, v);
    case Arr(items) =>
      forall i | 0 <= i < |items| ensures Free(v, RedactValue(r, items[i], false)) {
        RedactedValueIsFree(r, items[i], false, v);
      }
    case Obj(fields) =>
      forall i | 0 <= i < |fields|
        ensures Free(v, RedactValue(r, fields[i].value, fields[i].key in r.names))
      {
        RedactedValueIsFree(r, fields[i].value, fields[i].key in r.names, v);
      }
    case Scalar(_) =>
  }

  lemma SameMembers(a: seq<string>, b: seq<string>)
    requires multiset(a) == multiset(b)
    ensures forall v :: v in a <==> v in b
  {
    forall v ensures v in a <==> v in b {
      assert v in a <==> v in multiset(a);
      assert v in b <==> v in multiset(b);
    }
  }

  /** The redactor createRedactor builds. */
  function Created(secretValues: seq<string>, names: set<string>, isSecretValue: Option<string -> bool>): (r: Redactor)
    ensures ValidRedactor(r)
    ensures forall v :: v in r.values <==> v in secretValues && |v| >= MIN_SECRET_LENGTH
  {
    var selected := Selected(secretValues);
    SameMembers(LongestFirst(selected), selected);
    Redactor(LongestFirst(selected), names, isSecretValue)
  }

  /**
   * The main guarantee: in the output of a redactor that knows v, for every nested
   * input and whatever else the redactor knows, no string value contains v.
   */
  lemma {:induction false} NoKnownSecretSurvives(secretValues: seq<string>, names: set<string>,
                                                 isSecretValue: Option<string -> bool>,
                              value: Value, v: string)
    requires v in secretValues && |v| >= MIN_SECRET_LENGTH && !Overlaps(v)
    ensures Free(v, Redact(Created(secretValues, names, isSecretValue), value))
  {
    RedactedValueIsFree(Created(secretValues, names, isSecretValue), value, false, v);
  }

  /** The plain-words condition implies the exact one. */
  lemma BracketFreeIsSafe(v: string)
    requires |v| >= MIN_SECRET_LENGTH && '[' !in v && ']' !in v && !Occurs(v, "REDACTED")
    ensures !Overlaps(v)
  {
    forall k | -|v| < k < |PLACEHOLDER| ensures !AgreesAt(v, k) {
      if k <= 0 {
        assert PLACEHOLDER[0] != v[0 - k];
      } else if k + |v| > 9 {
        assert PLACEHOLDER[9] != v[9 - k];
      } else {
        var word := "REDACTED";
        assert !OccursAt(v, word, k - 1);
        var i :| 0 <= i < |v| && word[k - 1..k - 1 + |v|][i] != v[i];
        assert PLACEHOLDER == "[" + word + "]";
        assert PLACEHOLDER[i + k] != v[i];
        assert PLACEHOLDER[i + k] != v[(i + k) - k];
      }
    }
  }

  // ---------------------------------------------------------------- the guarantee is exact

  lemma {:induction false} AbsentIsUnchanged(s: string, v: string)
    requires v != "" && !Occurs(v, s)
    ensures ReplaceAll(s, v) == s
  {
    if |s| >= |v| {
      assert !OccursAt(v, s, 0);
      forall j: nat | OccursAt(v, s[1..], j) ensures OccursAt(v, s, j + 1) {
        assert s[1..][j..j + |v|] == s[j + 1..j + 1 + |v|];
      }
      AbsentIsUnchanged(s[1..], v);
    }
  }

  lemma OccursInTail(v: string, s: string, i: nat)
    requires s != ""
    ensures OccursAt(v, s[1..], i) <==> OccursAt(v, s, i + 1)
  {
    if i + 1 + |v| <= |s| { assert s[1..][i..i + |v|] == s[i + 1..i + 1 + |v|]; }
  }

  ghost predicate FirstAt(v: string, s: string, k: nat) {
    OccursAt(v, s, k) && forall i: nat :: i < k ==> !OccursAt(v, s, i)
  }

  lemma FirstInTail(v: string, s: string, k: nat)
    requires v != "" && k > 0 && FirstAt(v, s, k)
    ensures FirstAt(v, s[1..], k - 1)
    ensures !OccursAt(v, s, 0) && |v| <= |s| && s[1..][k - 1 + |v|..] == s[k + |v|..]
  {
    OccursInTail(v, s, k - 1);
    forall i: nat | i < k - 1 ensures !OccursAt(v, s[1..], i) {
      OccursInTail(v, s, i);
    }
  }

  /** Up to index k the text is kept, v there is replaced, and what follows is searched on its own. */
  ghost predicate ReplacedAt(s: string, v: string, k: nat)
    requires v != ""
  {
    k + |v| <= |s| && ReplaceAll(s, v) == s[..k] + "[REDACTED]" + ReplaceAll(s[k + |v|..], v)
  }

  /** The first occurrence of a value is replaced, and the search goes on behind it. */
  lemma {:induction false} FirstOccurrenceIsReplaced(s: string, v: string, k: nat)
    requires v != "" && FirstAt(v, s, k)
    ensures ReplacedAt(s, v, k)
    decreases k
  {
    if k > 0 {
      FirstInTail(v, s, k);
      FirstOccurrenceIsReplaced(s[1..], v, k - 1);
      ReplacedBehind(s, v, k);
    } else {
      ReplaceHits(s, v);
    }
  }

  lemma ReplacedBehind(s: string, v: string, k: nat)
    requires v != "" && |v| <= |s| && k > 0 && !OccursAt(v, s, 0) && ReplacedAt(s[1..], v, k - 1)
    ensures ReplacedAt(s, v, k)
  {
    ReplaceSkips(s, v);
    assert s[1..][k - 1 + |v|..] == s[k + |v|..];
    PrependHead(s, k, PLACEHOLDER, ReplaceAll(s[k + |v|..], v));
  }

  lemma PrependHead(s: string, k: nat, mid: string, tail: string)
    requires 0 < k <= |s|
    ensures [s[0]] + (s[1..][..k - 1] + mid + tail) == s[..k] + mid + tail
  {
    assert [s[0]] + s[1..][..k - 1] == s[..k];
  }

  lemma ReplaceHits(s: string, v: string)
    requires v != "" && OccursAt(v, s, 0)
    ensures ReplacedAt(s, v, 0)
  {
    assert s[..0] == "";
  }

  lemma ReplaceSkips(s: string, v: string)
    requires v != "" && |v| <= |s| && !OccursAt(v, s, 0)
    ensures ReplaceAll(s, v) == [s[0]] + ReplaceAll(s[1..], v)
  {
  }

  lemma RunIsFirst(x: string, w: string, y: string)
    requires |x| < |w| && (x != "" ==> w[0] != x[|x| - 1])
    requires forall i :: 0 <= i < |w| ==> w[i] == w[0]
    ensures FirstAt(w, x + w + y, |x|)
  {
    var s := x + w + y;
    forall i: nat | i < |x| ensures !OccursAt(w, s, i) {
      assert s[i..i + |w|][|x| - 1 - i] == s[|x| - 1] != w[|x| - 1 - i];
    }
    assert s[|x|..|x| + |w|] == w;
    assert OccursAt(w, s, |x|);
  }

  lemma CutAround(x: string, w: string, y: string)
    ensures (x + w + y)[..|x|] == x && (x + w + y)[|x| + |w|..] == y
  {
  }

  /** A run of one character, unlike the last character before it, is found just where it stands. */
  lemma {:induction false} RunIsReplaced(x: string, w: string, y: string)
    requires |x| < |w| && |y| < |w|
    requires x != "" ==> w[0] != x[|x| - 1]
    requires forall i :: 0 <= i < |w| ==> w[i] == w[0]
    ensures ReplaceAll(x + w + y, w) == x + PLACEHOLDER + y
  {
    RunIsFirst(x, w, y);
    FirstOccurrenceIsReplaced(x + w + y, w, |x|);
    CutAround(x, w, y);
  }

  /** The run stops every occurrence of v: it is no longer than v and starts and ends unlike it. */
  lemma RunHidesSecret(x: string, w: string, y: string, v: string)
    requires |x| < |v| && |y| < |v| == |w|
    requires forall i :: 0 <= i < |w| ==> w[i] == w[0]
    requires w[0] != v[0] && w[0] != v[|v| - 1]
    ensures !Occurs(v, x + w + y)
  {
    var s := x + w + y;
    forall i: nat | i + |v| <= |s| ensures !OccursAt(v, s, i) {
      var last := i + |v| - 1;
      if i < |x| {
        assert s[i..i + |v|][|v| - 1] == s[last] == w[last - |x|];
      } else {
        assert s[i..i + |v|][0] == s[i] == w[i - |x|];
      }
    }
  }

  function OtherThan(a: char, b: char, c: char): (d: char)
    ensures d != a && d != b && d != c
  {
    if 'a' != a && 'a' != b && 'a' != c then 'a'
    else if 'b' != a && 'b' != b && 'b' != c then 'b'
    else if 'c' != a && 'c' != b && 'c' != c then 'c'
    else 'd'
  }

  lemma SelectsTwo(v: string, w: string)
    requires v != w && |v| == |w| >= MIN_SECRET_LENGTH
    ensures Selected([v, w]) == [v, w]
  {
    var one, two := [v], [v, w];
    assert two[..1] == one && one[..0] == [];
    assert Selected(one) == one;
  }

  lemma InsertsAfter(v: string, w: string)
    requires |v| == |w|
    ensures InsertByLength([v], w) == [v, w]
  {
    assert [v][1..] == [];
    assert InsertByLength([], w) == [w];
  }

  lemma SortsTwo(v: string, w: string)
    requires |v| == |w|
    ensures LongestFirst([v, w]) == [v, w]
  {
    var one, two := [v], [v, w];
    assert two[..1] == one && one[..0] == [];
    assert LongestFirst(one[..0]) == [];
    assert LongestFirst(one) == InsertByLength([], v) == one;
    assert LongestFirst(two) == InsertByLength(one, w);
    InsertsAfter(v, w);
  }

  lemma {:induction false} CreatedFromTwo(v: string, w: string)
    requires v != w && |v| == |w| >= MIN_SECRET_LENGTH
    ensures Created([v, w], {}, None) == Redactor([v, w], {}, None)
  {
    SelectsTwo(v, w);
    SortsTwo(v, w);
  }

  lemma TwoPasses(v: string, w: string, s: string)
    requires v != "" && w != ""
    ensures RedactAll([v, w], s) == ReplaceAll(ReplaceAll(s, v), w)
  {
    assert [v, w][1..] == [w] && [w][1..] == [];
    assert RedactAll([w], ReplaceAll(s, v)) == RedactAll([], ReplaceAll(ReplaceAll(s, v), w));
  }

  /** What the redactor that knows just v and w does to a string. */
  lemma {:induction false} TwoSecrets(v: string, w: string, s: string)
    requires v != w && |v| == |w| >= MIN_SECRET_LENGTH && s != ""
    ensures RedactText(Created([v, w], {}, None), s) == ReplaceAll(ReplaceAll(s, v), w)
  {
    CreatedFromTwo(v, w);
    TwoPasses(v, w, s);
  }

  /** v stands around the placeholder when it agrees with it at k. */
  lemma StandsAround(v: string, k: int, x: string, y: string)
    requires v != "" && -|v| < k < |PLACEHOLDER| && AgreesAt(v, k)
    requires x == if k < 0 then v[..0 - k] else ""
    requires y == if k + |v| > |PLACEHOLDER| then v[|PLACEHOLDER| - k..] else ""
    ensures Occurs(v, x + PLACEHOLDER + y)
  {
    var out := x + PLACEHOLDER + y;
    var at: nat := if k < 0 then 0 else k;
    assert at + |v| <= |out|;
    forall i | 0 <= i < |v| ensures out[at..at + |v|][i] == v[i] {
      if 0 <= i + k < |PLACEHOLDER| {
        assert PLACEHOLDER[i + k] == v[(i + k) - k];
      }
    }
    assert OccursAt(v, out, at);
  }

  /** A secret that overlaps the placeholder does leak: another known secret completes it. */
  lemma OverlappingSecretLeaks(v: string) returns (w: string, s: string)
    requires |v| >= MIN_SECRET_LENGTH && Overlaps(v)
    ensures Occurs(v, RedactText(Created([v, w], {}, None), s))
  {
    var k :| -|v| < k < |PLACEHOLDER| && AgreesAt(v, k);
    var x := if k < 0 then v[..0 - k] else "";
    var y := if k + |v| > |PLACEHOLDER| then v[|PLACEHOLDER| - k..] else "";
    var c := OtherThan(v[0], v[|v| - 1], if x == "" then v[0] else x[|x| - 1]);
    w := seq(|v|, _ => c);
    s := x + w + y;
    assert w[0] != v[0];
    RunHidesSecret(x, w, y, v);
    AbsentIsUnchanged(s, v);
    RunIsReplaced(x, w, y);
    TwoSecrets(v, w, s);
    StandsAround(v, k, x, y);
  }

  lemma SafeWithRedactor(r: Redactor, s: string, v: string)
    requires ValidRedactor(r) && r.isSecretValue.None? && v in r.values && !Overlaps(v)
    ensures !Occurs(v, RedactText(r, s))
  {
    KnownSecretIsRemoved(r.values, s, v);
  }

  /** The redactor that knows the given values leaves no v in the text. */
  ghost predicate Removed(v: string, others: seq<string>, s: string) {
    !Occurs(v, RedactText(Created(others, {}, None), s))
  }

  lemma SafeInText(others: seq<string>, s: string, v: string)
    requires |v| >= 4 && v in others && !Overlaps(v)
    ensures Removed(v, others, s)
  {
    SafeWithRedactor(Created(others, {}, None), s, v);
  }

  /**
   * A secret is safe with every redactor that knows it, on every string, exactly when
   * it has no agreeing overlap with the placeholder.
   */
  lemma SafeIffNoOverlap(v: string)
    requires |v| >= 4
    ensures (forall others: seq<string>, s: string :: v in others ==> Removed(v, others, s)) <==> !Overlaps(v)
  {
    if Overlaps(v) {
      var w, s := OverlappingSecretLeaks(v);
      assert v in [v, w] && !Removed(v, [v, w], s);
    } else {
      forall others: seq<string>, s: string | v in others ensures Removed(v, others, s) {
        SafeInText(others, s, v);
      }
    }
  }

  // ---------------------------------------------------------------- what is left alone

  /** Every string holds no known secret and stands under no secret name. */
  ghost predicate Untouched(r: Redactor, value: Value, keyIsSecret: bool) {
    match value
    case Str(s) => (keyIsSecret ==> s == "") && forall i :: 0 <= i < |r.values| ==> !Occurs(r.values[i], s)
    case Arr(items) => forall i :: 0 <= i < |items| ==> Untouched(r, items[i], false)
    case Obj(fields) => forall i :: 0 <= i < |fields| ==> Untouched(r, fields[i].value, fields[i].key in r.names)
    case Scalar(_) => true
  }

  lemma {:induction false} AbsentAreUnchanged(values: seq<string>, s: string)
    requires NoneEmpty(values) && forall i :: 0 <= i < |values| ==> !Occurs(values[i], s)
    ensures RedactAll(values, s) == s
  {
    if values != [] {
      AbsentIsUnchanged(s, values[0]);
      AbsentAreUnchanged(values[1..], s);
    }
  }

  /** Without a whole-string predicate, a value that holds no secret comes back identical. */
  lemma {:induction false} CleanValueIsUnchanged(r: Redactor, value: Value, keyIsSecret: bool)
    requires ValidRedactor(r) && r.isSecretValue.None? && Untouched(r, value, keyIsSecret)
    ensures RedactValue(r, value, keyIsSecret) == value
  {
    match value
    case Str(s) => AbsentAreUnchanged(r.values, s);
    case Arr(items) =>
      forall i | 0 <= i < |items| ensures RedactValue(r, items[i], false) == items[i] {
        CleanValueIsUnchanged(r, items[i], false);
      }
    case Obj(fields) =>
      forall i | 0 <= i < |fields|
        ensures RedactValue(r, fields[i].value, fields[i].key in r.names) == fields[i].value
      {
        CleanValueIsUnchanged(r, fields[i].value, fields[i].key in r.names);
      }
    case Scalar(_) =>
  }

  ghost predicate NoneOverlaps(values: seq<string>) {
    forall i :: 0 <= i < |values| ==> !Overlaps(values[i])
  }

  lemma {:induction false} PlaceholderIsUnchanged(values: seq<string>)
    requires NoneEmpty(values) && NoneOverlaps(values)
    ensures RedactAll(values, PLACEHOLDER) == PLACEHOLDER
  {
    forall i | 0 <= i < |values| ensures !Occurs(values[i], PLACEHOLDER) {
      PlaceholderIsClean(values[i]);
    }
    AbsentAreUnchanged(values, PLACEHOLDER);
  }

  /** Redacting twice changes a string only where the predicate fires on the first result. */
  lemma SecondPassIff(r: Redactor, s: string)
    requires ValidRedactor(r) && NoneOverlaps(r.values)
    ensures var out := RedactText(r, s);
            RedactText(r, out) == out <==>
            !(r.isSecretValue.Some? && out != PLACEHOLDER && |out| >= MIN_SECRET_LENGTH && r.isSecretValue.value(out))
  {
    var out := RedactAll(r.values, s);
    forall i | 0 <= i < |r.values| ensures !Occurs(r.values[i], out) {
      KnownSecretIsRemoved(r.values, s, r.values[i]);
    }
    AbsentAreUnchanged(r.values, out);
    PlaceholderIsUnchanged(r.values);
  }

  lemma {:induction false} RedactValueIdempotent(r: Redactor, value: Value, keyIsSecret: bool)
    requires ValidRedactor(r) && NoneOverlaps(r.values) && r.isSecretValue.None?
    ensures var once := RedactValue(r, value, keyIsSecret);
            RedactValue(r, once, keyIsSecret) == once
  {
    match value
    case Str(s) => SecondPassIff(r, s);
    case Arr(items) =>
      forall i | 0 <= i < |items|
        ensures var once := RedactValue(r, items[i], false); RedactValue(r, once, false) == once
      {
        RedactValueIdempotent(r, items[i], false);
      }
    case Obj(fields) =>
      forall i | 0 <= i < |fields|
        ensures var secret := fields[i].key in r.names;
                var once := RedactValue(r, fields[i].value, secret);
                RedactValue(r, once, secret) == once
      {
        RedactValueIdempotent(r, fields[i].value, fields[i].key in r.names);
      }
    case Scalar(_) =>
  }

  lemma {:induction false} SecretBecomesPlaceholder(values: seq<string>, v: string)
    requires NoneEmpty(values) && NoneOverlaps(values) && v in values
    requires forall i, j :: 0 <= i < j < |values| ==> |values[i]| >= |values[j]|
    ensures RedactAll(values, v) == PLACEHOLDER
  {
    var w := values[0];
    if w == v {
      assert v[|v|..] == "";
      assert ReplaceAll(v, v) == PLACEHOLDER + "" == PLACEHOLDER;
      PlaceholderIsUnchanged(values[1..]);
    } else {
      forall i: nat ensures !OccursAt(w, v, i) {
        assert i == 0 && |w| == |v| ==> v[i..i + |w|] == v;
      }
      AbsentIsUnchanged(v, w);
      SecretBecomesPlaceholder(values[1..], v);
    }
  }

  /** Longest first pays off: a whole known secret becomes one placeholder, even if a shorter secret lies inside it. */
  lemma {:induction false} WholeSecretBecomesPlaceholder(secretValues: seq<string>,
                                                         isSecretValue: Option<string -> bool>, v: string)
    requires v in secretValues && |v| >= MIN_SECRET_LENGTH
    requires forall u :: u in secretValues && |u| >= MIN_SECRET_LENGTH ==> !Overlaps(u)
    ensures RedactText(Created(secretValues, {}, isSecretValue), v) == PLACEHOLDER
  {
    var r := Created(secretValues, {}, isSecretValue);
    forall i | 0 <= i < |r.values| ensures !Overlaps(r.values[i]) {
      assert r.values[i] in r.values;
    }
    SecretBecomesPlaceholder(r.values, v);
    PlaceholderIsClean(v);
    assert OccursAt(v, v, 0);
  }

  // ---------------------------------------------------------------- masking by name, and what stays in shape

  /** Every field with a secret name that holds a string holds an empty one or the placeholder, at any depth. */
  predicate Masked(names: set<string>, value: Value) {
    match value
    case Str(_) => true
    case Arr(items) => forall i :: 0 <= i < |items| ==> Masked(names, items[i])
    case Obj(fields) =>
      forall i :: 0 <= i < |fields| ==>
        && Masked(names, fields[i].value)
        && (fields[i].key in names && fields[i].value.Str? ==> fields[i].value.text in ["", "[REDACTED]"])
    case Scalar(_) => true
  }

  /** The same keys in order, the same lengths, the same scalars, and an empty string where one was. */
  predicate SameShape(a: Value, b: Value) {
    match a
    case Str(s) => b.Str? && (s == "" <==> b.text == "")
    case Arr(items) =>
      && b.Arr? && |b.items| == |items|
      && forall i :: 0 <= i < |items| ==> SameShape(items[i], b.items[i])
    case Obj(fields) =>
      && b.Obj? && |b.fields| == |fields|
      && forall i :: 0 <= i < |fields| ==>
           fields[i].key == b.fields[i].key && SameShape(fields[i].value, b.fields[i].value)
    case Scalar(_) => a == b
  }

  lemma {:induction false} RedactAllEmptyIff(values: seq<string>, s: string)
    requires NoneEmpty(values)
    ensures RedactAll(values, s) == "" <==> s == ""
  {
    if values != [] { RedactAllEmptyIff(values[1..], ReplaceAll(s, values[0])); }
  }

  lemma {:induction false} RedactionMasks(r: Redactor, names: set<string>, value: Value, keyIsSecret: bool)
    requires ValidRedactor(r) && names <= r.names
    ensures Masked(names, RedactValue(r, value, keyIsSecret))
    ensures SameShape(value, RedactValue(r, value, keyIsSecret))
  {
    match value
    case Str(s) => RedactAllEmptyIff(r.values, s);
    case Arr(items) =>
      forall i | 0 <= i < |items|
        ensures Masked(names, RedactValue(r, items[i], false))
        ensures SameShape(items[i], RedactValue(r, items[i], false))
      {
        RedactionMasks(r, names, items[i], false);
      }
    case Obj(fields) =>
      forall i | 0 <= i < |fields|
        ensures Masked(names, RedactValue(r, fields[i].value, fields[i].key in r.names))
        ensures SameShape(fields[i].value, RedactValue(r, fields[i].value, fields[i].key in r.names))
      {
        RedactionMasks(r, names, fields[i].value, fields[i].key in r.names);
      }
    case Scalar(_) =>
  }

  /**
   * Every redactor, on every nested input: a string under a secret name comes out as the placeholder, or empty
   * if it was, and everything else keeps its shape.
   */
  lemma SecretFieldsAreMasked(secretValues: seq<string>, names: set<string>, isSecretValue: Option<string -> bool>,
                              value: Value)
    ensures var out := Redact(Created(secretValues, names, isSecretValue), value);
            Masked(names, out) && SameShape(value, out)
  {
    RedactionMasks(Created(secretValues, names, isSecretValue), names, value, false);
  }

  /**
   * A text that holds no known value of at least four characters is replaced as a whole exactly when it has
   * four characters itself and the predicate fires; otherwise it is left alone.
   */
  lemma {:induction false} PredicateDecides(secretValues: seq<string>, names: set<string>,
                                            isSecretValue: Option<string -> bool>,
                         s: string)
    requires forall v :: v in secretValues && |v| >= 4 ==> !Occurs(v, s)
    ensures RedactText(Created(secretValues, names, isSecretValue), s)
            == if isSecretValue.Some? && |s| >= 4 && isSecretValue.value(s) then "[REDACTED]" else s
  {
    var r := Created(secretValues, names, isSecretValue);
    forall i | 0 <= i < |r.values| ensures !Occurs(r.values[i], s) {
      assert r.values[i] in r.values;
    }
    AbsentAreUnchanged(r.values, s);
  }

  /** Once a known value has been replaced in a text the predicate is no longer asked. */
  lemma PredicateIsNotAsked(r: Redactor, s: string)
    requires ValidRedactor(r) && RedactAll(r.values, s) != s
    ensures RedactText(r, s) == RedactText(r.(isSecretValue := None), s)
  {
  }

  // ---------------------------------------------------------------- values of the same length

  function OfLength(values: seq<string>, n: nat): seq<string> {
    if values == [] then [] else (if |values[0]| == n then [values[0]] else []) + OfLength(values[1..], n)
  }

  lemma {:induction false} OfLengthSnoc(values: seq<string>, v: string, n: nat)
    ensures OfLength(values + [v], n) == OfLength(values, n) + if |v| == n then [v] else []
  {
    if values == [] {
      assert values + [v] == [v] && [v][1..] == [];
    } else {
      assert (values + [v])[1..] == values[1..] + [v];
      OfLengthSnoc(values[1..], v, n);
    }
  }

  lemma {:induction false} NoneOfLength(values: seq<string>, n: nat)
    requires forall i :: 0 <= i < |values| ==> |values[i]| < n
    ensures OfLength(values, n) == []
  {
    if values != [] { NoneOfLength(values[1..], n); }
  }

  lemma OfLengthCons(v: string, values: seq<string>, n: nat)
    ensures OfLength([v] + values, n) == (if |v| == n then [v] else []) + OfLength(values, n)
  {
    assert ([v] + values)[1..] == values;
  }

  lemma FirstIsAdded(sorted: seq<string>, v: string, n: nat)
    requires forall i :: 0 <= i < |sorted| ==> |sorted[i]| < |v|
    ensures OfLength([v] + sorted, n) == OfLength(sorted, n) + if |v| == n then [v] else []
  {
    OfLengthCons(v, sorted, n);
    if |v| == n { NoneOfLength(sorted, n); }
  }

  lemma LaterIsAdded(head: string, sorted: seq<string>, next: seq<string>, added: seq<string>, n: nat)
    requires OfLength(next, n) == OfLength(sorted, n) + added
    ensures OfLength([head] + next, n) == OfLength([head] + sorted, n) + added
  {
    OfLengthCons(head, next, n);
    OfLengthCons(head, sorted, n);
    Regroup(if |head| == n then [head] else [], OfLength(sorted, n), added);
  }

  lemma {:induction false} InsertGoesBehindEquals(sorted: seq<string>, v: string, n: nat)
    requires forall i, j :: 0 <= i < j < |sorted| ==> |sorted[i]| >= |sorted[j]|
    ensures OfLength(InsertByLength(sorted, v), n) == OfLength(sorted, n) + if |v| == n then [v] else []
  {
    if sorted == [] || |sorted[0]| < |v| {
      InsertInFront(sorted, v);
      FirstIsAdded(sorted, v, n);
    } else {
      InsertGoesBehindEquals(sorted[1..], v, n);
      InsertBehindHead(sorted, v);
      LaterIsAdded(sorted[0], sorted[1..], InsertByLength(sorted[1..], v), if |v| == n then [v] else [], n);
      assert sorted == [sorted[0]] + sorted[1..];
    }
  }

  lemma InsertInFront(sorted: seq<string>, v: string)
    requires forall i, j :: 0 <= i < j < |sorted| ==> |sorted[i]| >= |sorted[j]|
    requires sorted == [] || |sorted[0]| < |v|
    ensures InsertByLength(sorted, v) == [v] + sorted
    ensures forall i :: 0 <= i < |sorted| ==> |sorted[i]| < |v|
  {
    if sorted == [] { assert [v] + sorted == [v]; }
  }

  lemma Regroup(a: seq<string>, b: seq<string>, c: seq<string>)
    ensures a + (b + c) == a + b + c
  {
  }

  lemma InsertBehindHead(sorted: seq<string>, v: string)
    requires forall i, j :: 0 <= i < j < |sorted| ==> |sorted[i]| >= |sorted[j]|
    requires sorted != [] && |sorted[0]| >= |v|
    ensures InsertByLength(sorted, v) == [sorted[0]] + InsertByLength(sorted[1..], v)
  {
  }

  lemma LongestFirstSnoc(values: seq<string>, v: string)
    ensures LongestFirst(values + [v]) == InsertByLength(LongestFirst(values), v)
  {
    assert (values + [v])[..|values|] == values;
  }

  /** Known values of the same length are tried in the order they are kept in, which is that of the candidates. */
  lemma {:induction false} LongestFirstIsStable(values: seq<string>, n: nat)
    ensures OfLength(LongestFirst(values), n) == OfLength(values, n)
  {
    if values != [] {
      var front, last := values[..|values| - 1], values[|values| - 1];
      assert values == front + [last];
      LongestFirstIsStable(front, n);
      LongestFirstSnoc(front, last);
      InsertGoesBehindEquals(LongestFirst(front), last, n);
      OfLengthSnoc(front, last, n);
    }
  }

  /** One more candidate is kept behind the others exactly if it has four characters and is new. */
  lemma SelectedGrows(candidates: seq<string>, v: string)
    ensures Selected(candidates + [v])
            == if |v| >= 4 && v !in candidates then Selected(candidates) + [v] else Selected(candidates)
  {
    assert (candidates + [v])[..|candidates|] == candidates;
  }
}
