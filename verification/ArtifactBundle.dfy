/**
 * The deployment artifact bundle and its paths (src/project/container-build.js).
 *
 * A bundle is the value its JSON text stands for. Base64 is the one of section 4 of RFC 4648.
 */
module ArtifactBundle {
  import opened Strings
  import opened TreeCodec

  const BUNDLE_VERSION := "aab-artifact/1"
  const UTF8 := "utf8"
  const BASE64 := "base64"

  datatype File = File(path: string, bytes: Bytes)

  /** One entry as parsed; a path that is no string is None. */
  datatype Entry = Entry(path: Option<string>, encoding: string, content: Text)

  /** What JSON.parse makes of artifact text: nothing, a value without a files array, or a bundle. */
  datatype Parsed = Unparseable | NoFiles(version: string) | Bundle(version: string, entries: seq<Entry>)

  datatype Code = ArtifactUnparseable | ArtifactUnsupported | ArtifactUnsafePath
  datatype Decoded = Files(files: seq<File>) | Refused(code: Code)

  // ---------------------------------------------------------------- base64

  type Sextet = v: int | 0 <= v < 0x40

  const PAD: Unit := 0x3D

  function Symbol(v: Sextet): Unit {
    if v < 26 then 0x41 + v
    else if v < 52 then 0x61 + (v - 26)
    else if v < 62 then 0x30 + (v - 52)
    else if v == 62 then 0x2B
    else 0x2F
  }

  /** The decoder also takes the URL-safe symbols of section 5 of RFC 4648. */
  function SymbolValue(u: Unit): Option<Sextet> {
    if 0x41 <= u < 0x5B then Some(u - 0x41)
    else if 0x61 <= u < 0x7B then Some(u - 0x61 + 26)
    else if 0x30 <= u < 0x3A then Some(u - 0x30 + 52)
    else if u == 0x2B || u == 0x2D then Some(62)
    else if u == 0x2F || u == 0x5F then Some(63)
    else None
  }

  function Symbols(vs: seq<Sextet>): Text {
    if vs == [] then [] else [Symbol(vs[0])] + Symbols(vs[1..])
  }

  function Sextets(b: Bytes): seq<Sextet> {
    if b == [] then []
    else if |b| == 1 then [b[0] / 4, b[0] % 4 * 16]
    else if |b| == 2 then [b[0] / 4, b[0] % 4 * 16 + b[1] / 16, b[1] % 16 * 4]
    else [b[0] / 4, b[0] % 4 * 16 + b[1] / 16, b[1] % 16 * 4 + b[2] / 64, b[2] % 64] + Sextets(b[3..])
  }

  function Padding(b: Bytes): Text {
    match |b| % 3
    case 1 => [PAD, PAD]
    case 2 => [PAD]
    case _ => []
  }

  /** buf.toString('base64') */
  function EncodeBase64(b: Bytes): Text {
    Symbols(Sextets(b)) + Padding(b)
  }

  /** The values up to the first padding symbol; whatever is not in the alphabet is skipped. */
  function Values(s: Text): seq<Sextet> {
    if s == [] || s[0] == PAD then []
    else if SymbolValue(s[0]).Some? then [SymbolValue(s[0]).value] + Values(s[1..])
    else Values(s[1..])
  }

  /** What two neighbouring values say about the byte they share. */
  function First(v: int, w: int): int { v * 4 + w / 16 }
  function Second(v: int, w: int): int { v % 16 * 16 + w / 4 }
  function Third(v: int, w: int): int { v % 4 * 64 + w }

  function Octets(vs: seq<Sextet>): Bytes {
    if |vs| < 2 then []
    else if |vs| == 2 then [First(vs[0], vs[1])]
    else if |vs| == 3 then [First(vs[0], vs[1]), Second(vs[1], vs[2])]
    else [First(vs[0], vs[1]), Second(vs[1], vs[2]), Third(vs[2], vs[3])] + Octets(vs[4..])
  }

  /** Buffer.from(s, 'base64') */
  function DecodeBase64(s: Text): Bytes {
    Octets(Values(s))
  }

  lemma SymbolRoundTrip(v: Sextet)
    ensures SymbolValue(Symbol(v)) == Some(v) && Symbol(v) != PAD
  {
  }

  lemma {:induction false} ValuesOfSymbols(vs: seq<Sextet>, pad: Text)
    requires pad != [] ==> pad[0] == PAD
    ensures Values(Symbols(vs) + pad) == vs
  {
    var s := Symbols(vs) + pad;
    if vs != [] {
      ValuesOfSymbols(vs[1..], pad);
      SymbolRoundTrip(vs[0]);
      assert s[1..] == Symbols(vs[1..]) + pad;
    }
  }

  lemma Regroup(x: Byte, y: Byte, z: Byte)
    ensures First(x / 4, x % 4 * 16 + y / 16) == x
    ensures Second(x % 4 * 16 + y / 16, y % 16 * 4 + z / 64) == y
    ensures Third(y % 16 * 4 + z / 64, z % 64) == z
  {
    assert (x % 4 * 16 + y / 16) / 16 == x % 4 && (x % 4 * 16 + y / 16) % 16 == y / 16;
    assert (y % 16 * 4 + z / 64) / 4 == y % 16 && (y % 16 * 4 + z / 64) % 4 == z / 64;
  }

  lemma {:induction false} OctetsOfSextets(b: Bytes)
    ensures Octets(Sextets(b)) == b
  {
    if |b| >= 3 {
      OctetsOfSextets(b[3..]);
      Regroup(b[0], b[1], b[2]);
      assert Sextets(b)[4..] == Sextets(b[3..]);
    } else if |b| == 2 {
      Regroup(b[0], b[1], 0);
    } else if |b| == 1 {
      Regroup(b[0], 0, 0);
    }
  }

  /** Section 4 of RFC 4648: decoding inverts encoding on every byte sequence. */
  lemma Base64RoundTrip(b: Bytes)
    ensures DecodeBase64(EncodeBase64(b)) == b
  {
    ValuesOfSymbols(Sextets(b), Padding(b));
    OctetsOfSextets(b);
  }

  lemma {:induction false} SymbolsLength(vs: seq<Sextet>)
    ensures |Symbols(vs)| == |vs|
  {
    if vs != [] { SymbolsLength(vs[1..]); }
  }

  lemma {:induction false} SextetsLength(b: Bytes)
    ensures |Sextets(b)| == |b| + (|b| + 2) / 3
  {
    if |b| >= 3 { SextetsLength(b[3..]); }
  }

  /** Four symbols for every three bytes begun, padding included. */
  lemma Base64Length(b: Bytes)
    ensures |EncodeBase64(b)| == (|b| + 2) / 3 * 4
  {
    SymbolsLength(Sextets(b));
    SextetsLength(b);
  }

  // ---------------------------------------------------------------- paths

  predicate PlainPart(part: string) {
    part != "" && part != "." && part != ".."
  }

  predicate SafeCharacters(rel: string) {
    '\0' !in rel && '\\' !in rel && ':' !in rel
  }

  predicate IsSafeRelativePath(rel: string) {
    && rel != ""
    && SafeCharacters(rel)
    && rel[0] != '/'
    && var parts := Split(rel, '/'); forall i :: 0 <= i < |parts| ==> PlainPart(parts[i])
  }

  /** A directory is the list of its components from the root; path.resolve walks on from there. */
  type Location = seq<string>

  function Walk(base: Location, parts: seq<string>): Location
    decreases parts
  {
    if parts == [] then base
    else if parts[0] == "" || parts[0] == "." then Walk(base, parts[1..])
    else if parts[0] == ".." then Walk(if base == [] then [] else base[..|base| - 1], parts[1..])
    else Walk(base + [parts[0]], parts[1..])
  }

  function Resolve(base: Location, rel: string): Location {
    Walk(if rel != "" && rel[0] == '/' then [] else base, Split(rel, '/'))
  }

  lemma {:induction false} WalkPlain(base: Location, parts: seq<string>)
    requires forall i :: 0 <= i < |parts| ==> PlainPart(parts[i])
    ensures Walk(base, parts) == base + parts
    decreases parts
  {
    if parts != [] {
      assert PlainPart(parts[0]);
      WalkPlain(base + [parts[0]], parts[1..]);
      assert base + [parts[0]] + parts[1..] == base + parts;
    }
  }

  lemma {:induction false} WalkLength(base: Location, parts: seq<string>)
    ensures |Walk(base, parts)| <= |base| + |parts|
    ensures |Walk(base, parts)| == |base| + |parts| ==> forall i :: 0 <= i < |parts| ==> PlainPart(parts[i])
    decreases parts
  {
    if parts != [] {
      var next := if parts[0] == "" || parts[0] == "." then base
                  else if parts[0] == ".." then (if base == [] then [] else base[..|base| - 1])
                  else base + [parts[0]];
      WalkLength(next, parts[1..]);
      if |Walk(base, parts)| == |base| + |parts| {
        forall i | 0 <= i < |parts| ensures PlainPart(parts[i]) {
          if i > 0 { assert parts[i] == parts[1..][i - 1]; }
        }
      }
    }
  }

  lemma LeadingSlash(rel: string)
    requires rel != "" && rel[0] == '/'
    ensures Split(rel, '/')[0] == ""
  {
  }

  /** The accepted paths are the ones without a banned character that resolve part by part below any directory. */
  lemma SafeIff(base: Location, rel: string)
    ensures IsSafeRelativePath(rel) <==> SafeCharacters(rel) && Resolve(base, rel) == base + Split(rel, '/')
  {
    var parts := Split(rel, '/');
    if IsSafeRelativePath(rel) {
      WalkPlain(base, parts);
    } else if rel != "" && rel[0] == '/' {
      LeadingSlash(rel);
      WalkLength([], parts);
    } else {
      WalkLength(base, parts);
    }
  }

  /** An accepted path lies strictly inside its directory, and two accepted paths never share a place. */
  lemma AcceptedStaysInside(base: Location, rel: string, other: string)
    requires IsSafeRelativePath(rel) && IsSafeRelativePath(other)
    ensures base < Resolve(base, rel)
    ensures Resolve(base, rel) == Resolve(base, other) <==> rel == other
  {
    SafeIff(base, rel);
    SafeIff(base, other);
    var here, there := Resolve(base, rel), Resolve(base, other);
    assert here[|base|..] == Split(rel, '/') && there[|base|..] == Split(other, '/');
    JoinSplit(rel, '/');
    JoinSplit(other, '/');
  }

  // ---------------------------------------------------------------- order by path

  /** Characters compare as their UTF-16 code units do. */
  function Rank(c: char): int {
    var n: CodePoint := c as int;
    if n < 0x1_0000 then n * 0x1_0000 else var pair: seq<int> := SplitPair(n); pair[0] * 0x1_0000 + pair[1]
  }

  /** a < b on JavaScript strings. */
  predicate Less(a: string, b: string) {
    b != [] && (a == [] || Rank(a[0]) < Rank(b[0]) || (Rank(a[0]) == Rank(b[0]) && Less(a[1..], b[1..])))
  }

  lemma RankInjective(c: char, d: char)
    requires Rank(c) == Rank(d)
    ensures c == d
  {
    var m: CodePoint, n: CodePoint := c as int, d as int;
    if m >= 0x1_0000 && n >= 0x1_0000 {
      PairRoundTrip(m);
      PairRoundTrip(n);
    }
  }

  lemma {:induction false} LessIsTotal(a: string, b: string)
    ensures Less(a, b) || Less(b, a) || a == b
    ensures !(Less(a, b) && Less(b, a))
  {
    if a != [] && b != [] {
      LessIsTotal(a[1..], b[1..]);
      if Rank(a[0]) == Rank(b[0]) {
        RankInjective(a[0], b[0]);
        assert a == [a[0]] + a[1..] && b == [b[0]] + b[1..];
      }
    }
  }

  lemma {:induction false} LessIsTransitive(a: string, b: string, c: string)
    ensures Less(a, b) && Less(b, c) ==> Less(a, c)
  {
    if a != [] && b != [] && c != [] { LessIsTransitive(a[1..], b[1..], c[1..]); }
  }

  predicate Before(f: File, g: File) { Less(f.path, g.path) }

  /** Array.prototype.sort with the path comparison; it is stable. */
  function Insert(f: File, sorted: seq<File>): seq<File> {
    if sorted == [] || !Before(sorted[0], f) then [f] + sorted else [sorted[0]] + Insert(f, sorted[1..])
  }

  function SortByPath(files: seq<File>): seq<File> {
    if files == [] then [] else Insert(files[0], SortByPath(files[1..]))
  }

  predicate Ascending(files: seq<File>) {
    |files| < 2 || (!Before(files[1], files[0]) && Ascending(files[1..]))
  }

  predicate DistinctPaths(files: seq<File>) {
    files == [] || ((forall g :: g in files[1..] ==> g.path != files[0].path) && DistinctPaths(files[1..]))
  }

  lemma {:induction false} InsertKeeps(f: File, sorted: seq<File>)
    ensures multiset(Insert(f, sorted)) == multiset([f]) + multiset(sorted)
    ensures Ascending(sorted) ==> Ascending(Insert(f, sorted))
  {
    if sorted != [] {
      assert sorted == [sorted[0]] + sorted[1..];
      if Before(sorted[0], f) {
        InsertKeeps(f, sorted[1..]);
        LessIsTotal(sorted[0].path, f.path);
        assert Insert(f, sorted)[1..] == Insert(f, sorted[1..]);
      } else {
        assert Insert(f, sorted)[1..] == sorted;
      }
    }
  }

  /** Sorting permutes the files into path order. */
  lemma {:induction false} SortSorts(files: seq<File>)
    ensures multiset(SortByPath(files)) == multiset(files) && Ascending(SortByPath(files))
  {
    if files != [] {
      SortSorts(files[1..]);
      InsertKeeps(files[0], SortByPath(files[1..]));
      assert files == [files[0]] + files[1..];
    }
  }

  lemma {:induction false} LeastFirst(files: seq<File>, g: File)
    requires Ascending(files) && g in files
    ensures !Before(g, files[0])
  {
    if g == files[0] {
      LessIsTotal(g.path, g.path);
    } else {
      assert files == [files[0]] + files[1..];
      LeastFirst(files[1..], g);
      LessIsTotal(files[1].path, files[0].path);
      LessIsTotal(g.path, files[1].path);
      LessIsTransitive(g.path, files[0].path, files[1].path);
    }
  }

  lemma {:induction false} DistinctMeans(files: seq<File>, f: File, g: File)
    requires DistinctPaths(files) && f in files && g in files && f.path == g.path
    ensures f == g
  {
    assert files == [files[0]] + files[1..];
    if f in files[1..] && g in files[1..] {
      DistinctMeans(files[1..], f, g);
    }
  }

  lemma {:induction false} SameHead(a: seq<File>, b: seq<File>, all: seq<File>)
    requires Ascending(a) && Ascending(b) && a != [] && b != [] && a[0] in b && b[0] in a
    requires DistinctPaths(all) && a[0] in all && b[0] in all
    ensures a[0] == b[0]
  {
    LeastFirst(a, b[0]);
    LeastFirst(b, a[0]);
    LessIsTotal(a[0].path, b[0].path);
    DistinctMeans(all, a[0], b[0]);
  }

  lemma TailsAgree(a: seq<File>, b: seq<File>)
    requires a != [] && b != [] && a[0] == b[0] && multiset(a) == multiset(b)
    ensures multiset(a[1..]) == multiset(b[1..])
  {
    assert a == [a[0]] + a[1..] && b == [b[0]] + b[1..];
    assert multiset(a) - multiset{a[0]} == multiset(a[1..]);
    assert multiset(b) - multiset{b[0]} == multiset(b[1..]);
  }

  lemma SameLength(a: seq<File>, b: seq<File>)
    requires multiset(a) == multiset(b)
    ensures |a| == |b|
  {
    assert |multiset(a)| == |a| && |multiset(b)| == |b|;
  }

  /** Path order leaves no choice once the paths are distinct. */
  lemma {:induction false} OrderIsUnique(a: seq<File>, b: seq<File>, all: seq<File>)
    requires Ascending(a) && Ascending(b) && multiset(a) == multiset(b)
    requires DistinctPaths(all) && forall f :: f in a ==> f in all
    ensures a == b
  {
    SameLength(a, b);
    if a != [] {
      assert a[0] in multiset(b) && b[0] in multiset(a);
      SameHead(a, b, all);
      TailsAgree(a, b);
      OrderIsUnique(a[1..], b[1..], all);
      assert a == [a[0]] + a[1..] && b == [b[0]] + b[1..];
    }
  }

  // ---------------------------------------------------------------- the bundle

  /** Text exactly when decoding and encoding again loses nothing. */
  function EncodeFile(file: File): Entry {
    var text := Decode(file.bytes);
    if Encode(text) == file.bytes then Entry(Some(file.path), UTF8, text)
    else Entry(Some(file.path), BASE64, EncodeBase64(file.bytes))
  }

  function EncodeFiles(files: seq<File>): seq<Entry> {
    if files == [] then [] else [EncodeFile(files[0])] + EncodeFiles(files[1..])
  }

  function EncodeArtifactBundle(files: seq<File>): Parsed {
    Bundle(BUNDLE_VERSION, EncodeFiles(SortByPath(files)))
  }

  /** What a single entry is refused for, if anything. */
  function Objection(entry: Entry): Option<Code> {
    if entry.path.None? || !IsSafeRelativePath(entry.path.value) then Some(ArtifactUnsafePath)
    else if entry.encoding != UTF8 && entry.encoding != BASE64 then Some(ArtifactUnsupported)
    else None
  }

  function DecodeEntry(entry: Entry): File
    requires Objection(entry).None?
  {
    File(entry.path.value, if entry.encoding == BASE64 then DecodeBase64(entry.content) else Encode(entry.content))
  }

  function Prepend(files: seq<File>, rest: Decoded): Decoded {
    match rest
    case Refused(code) => Refused(code)
    case Files(more) => Files(files + more)
  }

  lemma PrependTwice(a: seq<File>, b: seq<File>, rest: Decoded)
    ensures Prepend(a, Prepend(b, rest)) == Prepend(a + b, rest)
  {
    if rest.Files? { assert a + (b + rest.files) == a + b + rest.files; }
  }

  /** The first entry objected to decides. */
  function DecodeEntries(entries: seq<Entry>): Decoded {
    if entries == [] then Files([])
    else if Objection(entries[0]).Some? then Refused(Objection(entries[0]).value)
    else
      Prepend([DecodeEntry(entries[0])], DecodeEntries(entries[1..]))
  }

  function DecodeBundle(parsed: Parsed): Decoded {
    match parsed
    case Unparseable => Refused(ArtifactUnparseable)
    case NoFiles(_) => Refused(ArtifactUnsupported)
    case Bundle(version, entries) =>
      if version != BUNDLE_VERSION then Refused(ArtifactUnsupported) else DecodeEntries(entries)
  }

  method DecodeArtifactBundle(parsed: Parsed) returns (result: Decoded)
    ensures result == DecodeBundle(parsed)
    ensures result.Files? ==> forall f :: f in result.files ==> IsSafeRelativePath(f.path)
  {
    if parsed.Unparseable? { return Refused(ArtifactUnparseable); }
    if parsed.version != BUNDLE_VERSION || parsed.NoFiles? { return Refused(ArtifactUnsupported); }
    var files: seq<File> := [];
    for i := 0 to |parsed.entries|
      invariant DecodeEntries(parsed.entries) == Prepend(files, DecodeEntries(parsed.entries[i..]))
      invariant forall f :: f in files ==> IsSafeRelativePath(f.path)
    {
      var entry := parsed.entries[i];
      assert parsed.entries[i..][0] == entry && parsed.entries[i..][1..] == parsed.entries[i + 1..];
      if entry.path.None? || entry.path.value == "" || !IsSafeRelativePath(entry.path.value) {
        return Refused(ArtifactUnsafePath);
      }
      if entry.encoding != UTF8 && entry.encoding != BASE64 { return Refused(ArtifactUnsupported); }
      var bytes := if entry.encoding == BASE64 then DecodeBase64(entry.content) else Encode(entry.content);
      var file := File(entry.path.value, bytes);
      PrependTwice(files, [file], DecodeEntries(parsed.entries[i + 1..]));
      files := files + [file];
    }
    return Files(files);
  }

  predicate AllSafe(files: seq<File>) {
    files == [] || (IsSafeRelativePath(files[0].path) && AllSafe(files[1..]))
  }

  lemma {:induction false} AllSafeMeans(files: seq<File>)
    ensures AllSafe(files) <==> forall f :: f in files ==> IsSafeRelativePath(f.path)
  {
    if files != [] {
      AllSafeMeans(files[1..]);
      assert files == [files[0]] + files[1..];
    }
  }

  lemma FileRoundTrip(file: File)
    ensures Objection(EncodeFile(file)) == if IsSafeRelativePath(file.path) then None else Some(ArtifactUnsafePath)
    ensures IsSafeRelativePath(file.path) ==> DecodeEntry(EncodeFile(file)) == file
  {
    Base64RoundTrip(file.bytes);
  }

  lemma {:induction false} FilesRoundTrip(files: seq<File>)
    ensures DecodeEntries(EncodeFiles(files)) == if AllSafe(files) then Files(files) else Refused(ArtifactUnsafePath)
  {
    if files != [] {
      var entries := EncodeFiles(files);
      FilesRoundTrip(files[1..]);
      FileRoundTrip(files[0]);
      assert entries[0] == EncodeFile(files[0]) && entries[1..] == EncodeFiles(files[1..]);
      assert files == [files[0]] + files[1..];
    }
  }

  /** Decoding gives back the same files with the same bytes, in path order, exactly when every path is safe. */
  lemma BundleRoundTrip(files: seq<File>)
    ensures var back := DecodeBundle(EncodeArtifactBundle(files));
            if forall f :: f in files ==> IsSafeRelativePath(f.path)
            then back.Files? && multiset(back.files) == multiset(files) && Ascending(back.files)
            else back == Refused(ArtifactUnsafePath)
  {
    var sorted := SortByPath(files);
    SortSorts(files);
    FilesRoundTrip(sorted);
    AllSafeMeans(sorted);
    assert forall f :: f in files <==> f in multiset(files);
    assert forall f :: f in sorted <==> f in multiset(sorted);
  }

  /** Two orderings of files with distinct paths have the same bundle. */
  lemma OrderIsIrrelevant(a: seq<File>, b: seq<File>)
    requires DistinctPaths(a) && multiset(a) == multiset(b)
    ensures EncodeArtifactBundle(a) == EncodeArtifactBundle(b)
  {
    SortSorts(a);
    SortSorts(b);
    assert forall f :: f in SortByPath(a) ==> f in multiset(SortByPath(a));
    OrderIsUnique(SortByPath(a), SortByPath(b), a);
  }

  /** With a path that occurs twice the stable sort keeps the order given, so the bundle depends on it. */
  lemma RepeatedPathKeepsOrder(path: string, x: Bytes, y: Bytes)
    ensures SortByPath([File(path, x), File(path, y)]) == [File(path, x), File(path, y)]
  {
    LessIsTotal(path, path);
    var second := [File(path, y)];
    assert [File(path, x), File(path, y)][1..] == second && second[1..] == [];
    assert SortByPath(second) == second;
  }

  // ---------------------------------------------------------------- log tails

  /** Index i of b is where a character starts, or the end. */
  predicate Boundary(b: Bytes, i: nat) {
    i == |b| || (i < |b| && !IsTail(b[i]))
  }

  lemma CharShape(c: Bytes)
    requires IsUtf8Char(c)
    ensures |c| <= 4 && !IsTail(c[0]) && forall k :: 0 < k < |c| ==> IsTail(c[k])
  {
  }

  /** The first character of well-formed text: one leading byte, then its tail. */
  lemma FirstChar(b: Bytes) returns (n: nat)
    requires WellFormed(b) && b != []
    ensures 1 <= n <= |b| && n <= 4 && WellFormed(b[n..])
    ensures forall k :: 0 <= k < n ==> (IsTail(b[k]) <==> k > 0)
  {
    n :| 1 <= n <= |b| && IsUtf8Char(b[..n]) && WellFormed(b[n..]);
    CharShape(b[..n]);
    assert forall k :: 0 <= k < n ==> b[..n][k] == b[k];
  }

  lemma SuffixOfSuffix(b: Bytes, n: nat, i: nat)
    requires n <= i <= |b| && WellFormed(b[n..][i - n..])
    ensures WellFormed(b[i..])
  {
    assert b[n..][i - n..] == b[i..];
  }

  /** Up to any later boundary there is a whole first character. */
  lemma {:induction false} FirstCharBefore(b: Bytes, i: nat) returns (n: nat)
    requires WellFormed(b) && Boundary(b, i) && 0 < i
    ensures 1 <= n <= i && WellFormed(b[n..]) && Boundary(b[n..], i - n)
  {
    n := FirstChar(b);
  }

  /** Well-formed text may be cut at every boundary. */
  lemma {:induction false} SuffixIsWellFormed(b: Bytes, i: nat)
    requires WellFormed(b) && Boundary(b, i)
    ensures WellFormed(b[i..])
    decreases |b|
  {
    if i == 0 {
      assert b[0..] == b;
    } else {
      var n := FirstCharBefore(b, i);
      SuffixIsWellFormed(b[n..], i - n);
      SuffixOfSuffix(b, n, i);
    }
  }

  /** The next boundary is at most three bytes away. */
  lemma {:induction false} BoundaryIsNear(b: Bytes, i: nat) returns (j: nat)
    requires WellFormed(b) && i <= |b|
    ensures i <= j <= i + 3 && Boundary(b, j)
    decreases |b|
  {
    if i == |b| { return i; }
    var n := FirstChar(b);
    if i == 0 { return 0; }
    if i >= n {
      var k := BoundaryIsNear(b[n..], i - n);
      return k + n;
    }
    if n < |b| { var next := FirstChar(b[n..]); }
    return n;
  }

  /**
   * The cut of logTail: at least `excess` bytes go, what is kept of well-formed text is well-formed,
   * so no replacement character appears in it, and at most three more bytes go than asked.
   */
  method CutTail(buf: Bytes, bytes: nat) returns (cut: nat)
    requires |buf| > bytes
    ensures |buf| - bytes <= cut <= |buf| && Boundary(buf, cut)
    ensures forall k :: |buf| - bytes <= k < cut ==> IsTail(buf[k])
    ensures WellFormed(buf) ==>
              cut <= |buf| - bytes + 3 && WellFormed(buf[cut..]) && Encode(Decode(buf[cut..])) == buf[cut..]
  {
    cut := |buf| - bytes;
    while cut < |buf| && IsTail(buf[cut])
      invariant |buf| - bytes <= cut <= |buf|
      invariant forall k :: |buf| - bytes <= k < cut ==> IsTail(buf[k])
    {
      cut := cut + 1;
    }
    ghost var kept := cut;
    if WellFormed(buf) {
      ghost var near := BoundaryIsNear(buf, |buf| - bytes);
      SuffixIsWellFormed(buf, kept);
      WellFormedRoundTrip(buf[kept..]);
    }
  }

  // ---------------------------------------------------------------- which bundles decode

  /** The entry has a safe path and one of the two encodings. */
  predicate Decodable(entry: Entry) {
    && entry.path.Some? && IsSafeRelativePath(entry.path.value)
    && (entry.encoding == "utf8" || entry.encoding == "base64")
  }

  /**
   * Entries decode if and only if each of them does, one file per entry in order; else the first that does not
   * decides.
   */
  lemma {:induction false} EntriesDecodeIff(entries: seq<Entry>)
    ensures DecodeEntries(entries).Files? <==> forall i :: 0 <= i < |entries| ==> Decodable(entries[i])
    ensures DecodeEntries(entries).Files? ==>
              var files := DecodeEntries(entries).files;
              && |files| == |entries|
              && forall i :: 0 <= i < |entries| ==> entries[i].path == Some(files[i].path)
    ensures DecodeEntries(entries).Refused? ==>
              exists i :: FirstBad(entries, i) && DecodeEntries(entries).code == CodeOf(entries[i])
  {
    if entries != [] {
      EntriesDecodeIff(entries[1..]);
      if Decodable(entries[0]) {
        assert forall i :: 0 < i < |entries| ==> entries[i] == entries[1..][i - 1];
        if DecodeEntries(entries[1..]).Refused? {
          var i :| FirstBad(entries[1..], i) && DecodeEntries(entries[1..]).code == CodeOf(entries[1..][i]);
          assert entries[i + 1] == entries[1..][i];
          assert FirstBad(entries, i + 1);
        }
      } else {
        assert FirstBad(entries, 0);
      }
    }
  }

  predicate FirstBad(entries: seq<Entry>, i: int) {
    0 <= i < |entries| && !Decodable(entries[i]) && forall j :: 0 <= j < i ==> Decodable(entries[j])
  }

  function CodeOf(entry: Entry): Code {
    if entry.path.Some? && IsSafeRelativePath(entry.path.value) then ArtifactUnsupported else ArtifactUnsafePath
  }

  /** A bundle decodes if and only if it parses, has the version and a list of files, and each of them decodes. */
  lemma BundleDecodesIff(parsed: Parsed)
    ensures DecodeBundle(parsed).Files? <==>
            && parsed.Bundle? && parsed.version == "aab-artifact/1"
            && forall i :: 0 <= i < |parsed.entries| ==> Decodable(parsed.entries[i])
    ensures parsed.Unparseable? ==> DecodeBundle(parsed) == Refused(ArtifactUnparseable)
    ensures parsed.NoFiles? || (parsed.Bundle? && parsed.version != "aab-artifact/1") ==>
              DecodeBundle(parsed) == Refused(ArtifactUnsupported)
  {
    if parsed.Bundle? { EntriesDecodeIff(parsed.entries); }
  }

  // ---------------------------------------------------------------- the base64 text itself

  /** The alphabet of section 4 of RFC 4648, in order; the decoder also reads the last two of section 5. */
  lemma AlphabetIs(v: Sextet)
    ensures v < 26 ==> Symbol(v) == 'A' as int + v
    ensures 26 <= v < 52 ==> Symbol(v) == 'a' as int + (v - 26)
    ensures 52 <= v < 62 ==> Symbol(v) == '0' as int + (v - 52)
    ensures (v == 62 ==> Symbol(v) == '+' as int) && (v == 63 ==> Symbol(v) == '/' as int)
    ensures SymbolValue('-' as int) == Some(62) && SymbolValue('_' as int) == Some(63) && PAD == '=' as int
  {
  }

  /** v with six more bits behind it. */
  function Behind(v: int, w: int): int { v * 64 + w }

  /** Three bytes are four symbols whose values, most significant first, spell the same 24 bits. */
  lemma BytesAreSymbols(x: Byte, y: Byte, z: Byte, rest: Bytes)
    ensures var vs := Sextets([x, y, z] + rest);
            && |vs| >= 4 && vs[4..] == Sextets(rest)
            && Behind(Behind(Behind(vs[0], vs[1]), vs[2]), vs[3]) == x * 65536 + y * 256 + z
  {
    assert ([x, y, z] + rest)[3..] == rest;
  }

  /** One or two bytes left over are filled up with zero bits on the right and marked by the padding. */
  lemma LeftoversArePadded(x: Byte, y: Byte)
    ensures |Sextets([x])| == 2 && Behind(Sextets([x])[0], Sextets([x])[1]) == x * 16
    ensures var vs := Sextets([x, y]); |vs| == 3 && Behind(Behind(vs[0], vs[1]), vs[2]) == x * 1024 + y * 4
    ensures Padding([x]) == ['=' as int, '=' as int] && Padding([x, y]) == ['=' as int]
  {
  }
}
