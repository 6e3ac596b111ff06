/** Firestore field paths: splitting, printing for the API, equality and order. */
module FieldPaths {
  import opened ByteStrings
  import opened Sequences

  const DOT: Byte := 46
  const BACKSLASH: Byte := 92
  const UNDERSCORE: Byte := 95
  const BACKTICK: Byte := 96

  /** The array holds `~*` + `/[]` and, being six long, the terminating NUL of the literal. */
  const INVALID_CHARS: Bytes := [126, 42, 47, 91, 93, 0]

  datatype FieldPath = FieldPath(parts: seq<Bytes>, valid: bool)

  /** The path that the constructor builds: valid when no part is empty. */
  function Path(parts: seq<Bytes>): FieldPath {
    FieldPath(parts, forall i :: 0 <= i < |parts| ==> parts[i] != [])
  }

  function InvalidFieldPath(): FieldPath {
    Path([[]])
  }

  method Construct(parts: seq<Bytes>) returns (p: FieldPath)
    ensures p == Path(parts)
    ensures p.parts == parts && (p.valid <==> [] !in parts)
  {
    for i := 0 to |parts|
      invariant forall j :: 0 <= j < i ==> parts[j] != []
    {
      if parts[i] == [] {
        return FieldPath(parts, false);
      }
    }
    return FieldPath(parts, true);
  }

  // ----- splitting

  /** `std::string::find` for one character; -1 stands for `npos`. */
  function IndexOf(s: Bytes, c: Byte): (k: int)
    ensures -1 <= k < |s|
    ensures k >= 0 ==> s[k] == c && c !in s[..k]
    ensures k == -1 ==> c !in s
  {
    if s == [] then -1
    else if s[0] == c then 0
    else
      var k := IndexOf(s[1..], c);
      assert s == [s[0]] + s[1..];
      assert k >= 0 ==> s[..k + 1] == [s[0]] + s[1..][..k];
      if k == -1 then -1 else k + 1
  }

  function Pieces(s: Bytes): seq<Bytes>
    decreases |s|
  {
    var k := IndexOf(s, DOT);
    if k == -1 then [s] else [s[..k]] + Pieces(s[k + 1..])
  }

  function Join(parts: seq<Bytes>): Bytes {
    if parts == [] then []
    else if |parts| == 1 then parts[0]
    else parts[0] + ([DOT] + Join(parts[1..]))
  }

  predicate DotFree(parts: seq<Bytes>) {
    forall i :: 0 <= i < |parts| ==> DOT !in parts[i]
  }

  method Split(text: Bytes) returns (parts: seq<Bytes>)
    ensures parts == Pieces(text)
  {
    hide Pieces;
    parts := [];
    var rest := text;
    var index := IndexOf(rest, DOT);
    while index != -1
      invariant index == IndexOf(rest, DOT)
      invariant parts + Pieces(rest) == Pieces(text)
      decreases |rest|
    {
      FirstPiece(rest);
      Associative(parts, [rest[..index]], Pieces(rest[index + 1..]));
      parts := parts + [rest[..index]];
      rest := rest[index + 1..];
      index := IndexOf(rest, DOT);
    }
    FirstPiece(rest);
    parts := parts + [rest];
  }

  lemma {:induction false} FirstPiece(s: Bytes)
    ensures var k := IndexOf(s, DOT); Pieces(s) == if k == -1 then [s] else [s[..k]] + Pieces(s[k + 1..])
  {
  }

  lemma {:induction false} JoinCons(part: Bytes, rest: seq<Bytes>)
    requires rest != []
    ensures Join([part] + rest) == part + ([DOT] + Join(rest))
  {
    assert ([part] + rest)[1..] == rest;
  }

  /** Splitting is inverted by joining with dots. */
  lemma {:induction false} JoinOfPieces(s: Bytes)
    ensures Pieces(s) != [] && Join(Pieces(s)) == s
    decreases |s|
  {
    hide Join;
    var k := IndexOf(s, DOT);
    if k != -1 {
      JoinOfPieces(s[k + 1..]);
      JoinCons(s[..k], Pieces(s[k + 1..]));
      SplitAround(s, k);
    } else {
      JoinOfOne(s);
    }
  }

  lemma {:induction false} JoinOfOne(part: Bytes)
    ensures Join([part]) == part
  {
  }

  lemma {:induction false} PiecesAreDotFree(s: Bytes)
    ensures DotFree(Pieces(s))
    decreases |s|
  {
    var k := IndexOf(s, DOT);
    if k != -1 {
      PiecesAreDotFree(s[k + 1..]);
    }
  }

  lemma {:induction false} IndexOfSeparator(a: Bytes, c: Byte, b: Bytes)
    requires c !in a
    ensures IndexOf(a + ([c] + b), c) == |a|
  {
    var s := a + ([c] + b);
    assert s[|a|] == c;
    assert forall i :: 0 <= i < |a| ==> s[i] == a[i];
  }

  lemma {:induction false} PiecesAtDot(part: Bytes, rest: Bytes)
    requires DOT !in part
    ensures Pieces(part + ([DOT] + rest)) == [part] + Pieces(rest)
  {
    IndexOfSeparator(part, DOT, rest);
    TakeDrop(part, [DOT] + rest);
    DropTwice(part + ([DOT] + rest), |part|, 1);
    TakeDrop([DOT], rest);
  }

  /** Splitting is determined by this: a text without '.' is one piece, and a '.' ends the piece before it. */
  lemma {:induction false} PiecesAreExact(part: Bytes, rest: Bytes)
    requires '.' as int !in part
    ensures Pieces(part) == [part]
    ensures Pieces(part + (['.' as int] + rest)) == [part] + Pieces(rest)
  {
    PiecesAtDot(part, rest);
  }

  /** Joining is inverted by splitting, for parts without dots. */
  lemma {:induction false} PiecesOfJoin(parts: seq<Bytes>)
    requires parts != [] && DotFree(parts)
    ensures Pieces(Join(parts)) == parts
  {
    if |parts| == 1 {
      assert Join(parts) == parts[0] && parts == [parts[0]];
    } else {
      hide Pieces;
      PiecesOfJoin(parts[1..]);
      PiecesAtDot(parts[0], Join(parts[1..]));
      assert parts == [parts[0]] + parts[1..];
    }
  }

  /** Splitting distributes over a dot. */
  lemma {:induction false} PiecesOfConcat(a: Bytes, b: Bytes)
    ensures Pieces(a + ([DOT] + b)) == Pieces(a) + Pieces(b)
    decreases |a|
  {
    var k := IndexOf(a, DOT);
    if k == -1 {
      PiecesAtDot(a, b);
    } else {
      var a0, a1 := a[..k], a[k + 1..];
      PiecesOfConcat(a1, b);
      assert Pieces(a) == [a0] + Pieces(a1);
      hide Pieces, IndexOf;
      PiecesAtDot(a0, a1 + ([DOT] + b));
      SplitAround(a, k);
      Associative(a0, [DOT] + a1, [DOT] + b);
      Associative([DOT], a1, [DOT] + b);
      Associative([a0], Pieces(a1), Pieces(b));
    }
  }

  // ----- FromString and Append

  predicate HasInvalid(s: Bytes) {
    exists i :: 0 <= i < |s| && s[i] in INVALID_CHARS
  }

  lemma {:induction false} InvalidIsExact(s: Bytes)
    ensures HasInvalid(s) <==>
            exists i :: 0 <= i < |s| && (s[i] == 0 || s[i] as char in "~*/[]")
  {
    if i :| 0 <= i < |s| && s[i] in INVALID_CHARS {
      assert s[i] == 0 || s[i] as char in "~*/[]";
    }
    if i :| 0 <= i < |s| && (s[i] == 0 || s[i] as char in "~*/[]") {
      assert s[i] in INVALID_CHARS;
    }
  }

  method InvalidCharacters(text: Bytes) returns (invalid: bool)
    ensures invalid <==> HasInvalid(text)
  {
    for i := 0 to |INVALID_CHARS|
      invariant forall c :: c in INVALID_CHARS[..i] ==> c !in text
    {
      var k := IndexOf(text, INVALID_CHARS[i]);
      if k != -1 {
        assert text[k] in INVALID_CHARS;
        return true;
      }
    }
    assert INVALID_CHARS[..|INVALID_CHARS|] == INVALID_CHARS;
    return false;
  }

  function Parsed(s: Bytes): FieldPath {
    if HasInvalid(s) then InvalidFieldPath() else Path(Pieces(s))
  }

  method FromString(text: Bytes) returns (p: FieldPath)
    ensures p == Parsed(text)
  {
    var invalid := InvalidCharacters(text);
    if invalid {
      return InvalidFieldPath();
    }
    var parts := Split(text);
    p := Construct(parts);
  }

  function Appended(a: FieldPath, b: FieldPath): FieldPath {
    if a.valid && b.valid then Path(a.parts + b.parts) else InvalidFieldPath()
  }

  method Append(a: FieldPath, b: FieldPath) returns (p: FieldPath)
    ensures p == Appended(a, b)
    ensures if a.valid && b.valid then p.parts == a.parts + b.parts else !p.valid
  {
    if a.valid && b.valid {
      var parts := a.parts;
      for i := 0 to |b.parts|
        invariant parts == a.parts + b.parts[..i]
      {
        parts := parts + [b.parts[i]];
      }
      assert b.parts[..|b.parts|] == b.parts;
      p := Construct(parts);
    } else {
      p := InvalidFieldPath();
      assert p.parts[0] == [];
    }
  }

  method AppendString(a: FieldPath, text: Bytes) returns (p: FieldPath)
    ensures p == Appended(a, Parsed(text))
  {
    var b := FromString(text);
    p := Append(a, b);
  }

  lemma {:induction false} HasInvalidOfConcat(a: Bytes, b: Bytes)
    ensures HasInvalid(a + ([DOT] + b)) <==> HasInvalid(a) || HasInvalid(b)
  {
    var s := a + ([DOT] + b);
    if i :| 0 <= i < |a| && a[i] in INVALID_CHARS {
      assert s[i] in INVALID_CHARS;
    }
    if i :| 0 <= i < |b| && b[i] in INVALID_CHARS {
      assert s[|a| + 1 + i] in INVALID_CHARS;
    }
    if i :| 0 <= i < |s| && s[i] in INVALID_CHARS {
      assert if i < |a| then s[i] == a[i] else i > |a| && s[i] == b[i - |a| - 1];
    }
  }

  /** Appending a string is the same as parsing the two strings joined by a dot. */
  lemma {:induction false} AppendIsParseOfConcat(a: Bytes, b: Bytes)
    ensures Appended(Parsed(a), Parsed(b)).valid == Parsed(a + ([DOT] + b)).valid
    ensures Parsed(a + ([DOT] + b)).valid ==> Appended(Parsed(a), Parsed(b)) == Parsed(a + ([DOT] + b))
    ensures Equal(Appended(Parsed(a), Parsed(b)), Parsed(a + ([DOT] + b)))
  {
    HasInvalidOfConcat(a, b);
    PiecesOfConcat(a, b);
    hide Pieces, HasInvalid, Join, Fields;
    PathOfConcat(Pieces(a), Pieces(b));
    assert InvalidFieldPath().parts[0] == [];
  }

  lemma {:induction false} PathOfConcat(a: seq<Bytes>, b: seq<Bytes>)
    ensures Path(a + b).valid <==> Path(a).valid && Path(b).valid
  {
    assert forall i :: 0 <= i < |a| ==> (a + b)[i] == a[i];
    assert forall i :: 0 <= i < |b| ==> (a + b)[|a| + i] == b[i];
  }

  // ----- printing

  predicate IsAlpha(c: Byte) {
    65 <= c <= 90 || 97 <= c <= 122
  }

  predicate IsAlnum(c: Byte) {
    IsAlpha(c) || 48 <= c <= 57
  }

  predicate IsSimpleFieldName(part: Bytes) {
    && part != []
    && (part[0] == UNDERSCORE || IsAlpha(part[0]))
    && forall i :: 0 <= i < |part| ==> part[i] == UNDERSCORE || IsAlnum(part[i])
  }

  predicate OccursAt(s: Bytes, find: Bytes, j: int) {
    0 <= j <= |s| - |find| && s[j..j + |find|] == find
  }

  /** `std::string::find` for a string from a position; -1 stands for `npos`. */
  function Find(s: Bytes, find: Bytes, from: nat): (k: int)
    ensures k == -1 || (from <= k && OccursAt(s, find, k))
    ensures forall j :: from <= j && (k == -1 || j < k) ==> !OccursAt(s, find, j)
    decreases |s| - from
  {
    if from + |find| > |s| then -1
    else if OccursAt(s, find, from) then from
    else if from == |s| then -1
    else Find(s, find, from + 1)
  }

  /** Replaces the occurrences from left to right, never looking inside a replacement. */
  function Substituted(s: Bytes, find: Bytes, replace: Bytes): Bytes
    requires find != []
    decreases |s|
  {
    if |s| < |find| then s
    else if s[..|find|] == find then replace + Substituted(s[|find|..], find, replace)
    else [s[0]] + Substituted(s[1..], find, replace)
  }

  lemma {:induction false} OccursAtSuffix(s: Bytes, n: nat, find: Bytes, j: nat)
    requires n <= |s|
    ensures OccursAt(s[n..], find, j) <==> OccursAt(s, find, n + j)
  {
    if n + j + |find| <= |s| {
      assert s[n..][j..j + |find|] == s[n + j..n + j + |find|];
    }
  }

  lemma {:induction false} SubstitutedSkips(s: Bytes, find: Bytes, replace: Bytes, n: nat)
    requires find != []
    requires n <= |s|
    requires forall j :: 0 <= j < n ==> !OccursAt(s, find, j)
    ensures Substituted(s, find, replace) == s[..n] + Substituted(s[n..], find, replace)
  {
    if n == 0 {
      assert s[..0] + Substituted(s[0..], find, replace) == Substituted(s, find, replace);
    } else if |s| < |find| {
      assert s == s[..n] + s[n..];
    } else {
      assert !OccursAt(s, find, 0);
      assert Substituted(s, find, replace) == [s[0]] + Substituted(s[1..], find, replace);
      hide Substituted;
      forall j | 0 <= j < n - 1 ensures !OccursAt(s[1..], find, j) {
        OccursAtSuffix(s, 1, find, j);
      }
      hide OccursAt;
      SubstitutedSkips(s[1..], find, replace, n - 1);
      DropTwice(s, 1, n - 1);
      TakeHead(s, n);
      Associative([s[0]], s[1..][..n - 1], Substituted(s[n..], find, replace));
    }
  }

  /** The first occurrence is replaced, and the text after it is treated in the same way. */
  lemma {:induction false} SubstitutedFirst(s: Bytes, find: Bytes, replace: Bytes, j: nat)
    requires find != [] && OccursAt(s, find, j)
    requires forall i :: 0 <= i < j ==> !OccursAt(s, find, i)
    ensures Substituted(s, find, replace) == s[..j] + (replace + Substituted(s[j + |find|..], find, replace))
  {
    SubstitutedSkips(s, find, replace, j);
    assert s[j..][..|find|] == find;
    DropTwice(s, j, |find|);
  }

  lemma {:induction false} ReplaceStep(front: Bytes, rest: Bytes, find: Bytes, replace: Bytes, j: nat)
    requires find != [] && OccursAt(rest, find, j)
    requires forall i :: 0 <= i < j ==> !OccursAt(rest, find, i)
    ensures front + Substituted(rest, find, replace)
         == front + rest[..j] + replace + Substituted(rest[j + |find|..], find, replace)
  {
    SubstitutedFirst(rest, find, replace, j);
    hide Substituted, OccursAt;
    Glue(front, rest[..j], front + rest[..j], replace, Substituted(rest[j + |find|..], find, replace));
  }

  lemma {:induction false} OccursAtRest(front: Bytes, rest: Bytes, find: Bytes)
    ensures forall j: nat :: OccursAt(front + rest, find, |front| + j) <==> OccursAt(rest, find, j)
  {
    TakeDrop(front, rest);
    forall j: nat ensures OccursAt(front + rest, find, |front| + j) <==> OccursAt(rest, find, j) {
      OccursAtSuffix(front + rest, |front|, find, j);
    }
  }

  lemma {:induction false} FoundInRest(front: Bytes, rest: Bytes, find: Bytes, found: nat)
    requires found == Find(front + rest, find, |front|)
    ensures found >= |front| && OccursAt(rest, find, found - |front|)
    ensures forall i :: 0 <= i < found - |front| ==> !OccursAt(rest, find, i)
  {
    OccursAtRest(front, rest, find);
    forall i | 0 <= i < found - |front| ensures !OccursAt(rest, find, i) {
      assert !OccursAt(front + rest, find, |front| + i);
    }
  }

  lemma {:induction false} NothingFound(front: Bytes, rest: Bytes, find: Bytes, replace: Bytes)
    requires find != [] && Find(front + rest, find, |front|) == -1
    ensures Substituted(rest, find, replace) == rest
  {
    OccursAtRest(front, rest, find);
    SubstitutedSkips(rest, find, replace, |rest|);
    assert rest[..|rest|] == rest && Substituted(rest[|rest|..], find, replace) == [];
  }

  method ReplaceAll(text: Bytes, find: Bytes, replace: Bytes) returns (result: Bytes)
    requires find != []
    ensures result == Substituted(text, find, replace)
  {
    hide Substituted, OccursAt;
    result := text;
    var found := Find(result, find, 0);
    ghost var front: Bytes, rest := [], text;
    while found != -1
      invariant result == front + rest
      invariant found == Find(result, find, |front|)
      invariant front + Substituted(rest, find, replace) == Substituted(text, find, replace)
      decreases |rest|
    {
      ghost var j := found - |front|;
      FoundInRest(front, rest, find, found);
      ReplaceStep(front, rest, find, replace, j);
      SliceOfConcat(front, rest, j);
      SliceOfConcat(front, rest, j + |find|);
      result := result[..found] + replace + result[found + |find|..];
      front, rest := front + rest[..j] + replace, rest[j + |find|..];
      found := found + |replace|;
      found := Find(result, find, found);
    }
    NothingFound(front, rest, find, replace);
  }

  /** One pass that escapes backslashes and backticks at the same time. */
  function Escape(part: Bytes): Bytes {
    if part == [] then []
    else (if part[0] in [BACKSLASH, BACKTICK] then [BACKSLASH, part[0]] else [part[0]]) + Escape(part[1..])
  }

  /** The two passes of the printer do not disturb each other. */
  lemma {:induction false} TwoPassesEscape(part: Bytes)
    ensures Substituted(Substituted(part, [BACKSLASH], [BACKSLASH, BACKSLASH]), [BACKTICK], [BACKSLASH, BACKTICK])
         == Escape(part)
  {
    if part != [] {
      TwoPassesEscape(part[1..]);
      var once := Substituted(part, [BACKSLASH], [BACKSLASH, BACKSLASH]);
      var rest := Substituted(part[1..], [BACKSLASH], [BACKSLASH, BACKSLASH]);
      assert part[..1] == [part[0]];
      if part[0] == BACKSLASH {
        assert once == [BACKSLASH, BACKSLASH] + rest;
        assert once[..1] == [BACKSLASH] && once[1..] == [BACKSLASH] + rest;
        assert once[1..][..1] == [BACKSLASH] && once[1..][1..] == rest;
      } else {
        assert once == [part[0]] + rest;
        assert once[..1] == [part[0]] && once[1..] == rest;
      }
    }
  }

  function Field(part: Bytes): Bytes {
    if IsSimpleFieldName(part) then part else [BACKTICK] + Escape(part) + [BACKTICK]
  }

  /** A name of the form [A-Za-z_][A-Za-z_0-9]*. */
  predicate PlainName(part: Bytes) {
    && part != []
    && !('0' <= part[0] as char <= '9')
    && forall i :: 0 <= i < |part| ==>
         var c := part[i] as char;
         'A' <= c <= 'Z' || 'a' <= c <= 'z' || '0' <= c <= '9' || c == '_'
  }

  /** Escaping puts a backslash before every backslash and every backtick, and changes nothing else. */
  lemma {:induction false} EscapeIsExact(c: Byte, rest: Bytes)
    ensures Escape([]) == []
    ensures Escape([c] + rest) ==
            (if c as char == '\\' || c as char == '`' then ['\\' as int, c] else [c]) + Escape(rest)
  {
    assert ([c] + rest)[1..] == rest;
  }

  /** Exactly the plain names are printed as they are; all others are escaped and put between backticks. */
  lemma {:induction false} FieldIsExact(part: Bytes)
    ensures Field(part) == part <==> PlainName(part)
    ensures !PlainName(part) ==> Field(part) == ['`' as int] + Escape(part) + ['`' as int]
  {
    if !IsSimpleFieldName(part) {
      EscapeIsNotShorter(part);
    }
  }

  lemma {:induction false} EscapeIsNotShorter(part: Bytes)
    ensures |Escape(part)| >= |part|
  {
    if part != [] {
      EscapeIsNotShorter(part[1..]);
    }
  }

  function Fields(parts: seq<Bytes>): seq<Bytes> {
    seq(|parts|, i requires 0 <= i < |parts| => Field(parts[i]))
  }

  /** The constructor accepts an empty list, but then the printer has no final period to drop. */
  predicate Printable(p: FieldPath) {
    p == Path(p.parts) && p.parts != []
  }

  function Repr(p: FieldPath): Bytes {
    if p.valid then Join(Fields(p.parts)) else []
  }

  /** The path of a text of plain names with dots between them is printed as that text. */
  lemma {:induction false} PlainTextIsPrinted(text: Bytes)
    requires forall i :: 0 <= i < |Pieces(text)| ==> PlainName(Pieces(text)[i])
    ensures Parsed(text).valid && Parsed(text).parts == Pieces(text) && Repr(Parsed(text)) == text
  {
    var parts := Pieces(text);
    PlainTextIsValid(text);
    forall i | 0 <= i < |parts| ensures Field(parts[i]) == parts[i] {
      FieldIsExact(parts[i]);
    }
    assert Fields(parts) == parts;
    JoinOfPieces(text);
  }

  lemma {:induction false} PlainNameIsValid(part: Bytes)
    requires PlainName(part)
    ensures !HasInvalid(part)
  {
    InvalidIsExact(part);
  }

  lemma {:induction false} PlainTextIsValid(text: Bytes)
    requires forall i :: 0 <= i < |Pieces(text)| ==> PlainName(Pieces(text)[i])
    ensures !HasInvalid(text)
    decreases |text|
  {
    hide PlainName, HasInvalid, IndexOf;
    var k := IndexOf(text, DOT);
    PlainNameIsValid(Pieces(text)[0]);
    if k != -1 {
      var rest := text[k + 1..];
      assert Pieces(text) == [text[..k]] + Pieces(rest);
      forall i | 0 <= i < |Pieces(rest)| ensures PlainName(Pieces(rest)[i]) {
        assert Pieces(text)[i + 1] == Pieces(rest)[i];
      }
      PlainTextIsValid(rest);
      SplitAround(text, k);
      HasInvalidOfConcat(text[..k], rest);
    }
  }

  method ToApiRepr(p: FieldPath) returns (s: Bytes)
    requires Printable(p)
    ensures s == Repr(p)
  {
    hide Field, WithFinalDot, Join, Escape;
    s := [];
    if p.valid {
      NoFieldsYet(p.parts);
      for i := 0 to |p.parts|
        invariant s == WithFinalDot(Fields(p.parts[..i]))
      {
        var part := p.parts[i];
        OneMoreField(p.parts, i);
        if IsSimpleFieldName(part) {
          s := s + (part + [DOT]);
        } else {
          var part1 := ReplaceAll(part, [BACKSLASH], [BACKSLASH, BACKSLASH]);
          var part2 := ReplaceAll(part1, [BACKTICK], [BACKSLASH, BACKTICK]);
          TwoPassesEscape(part);
          s := s + ([BACKTICK] + part2 + [BACKTICK, DOT]);
        }
      }
      assert p.parts[..|p.parts|] == p.parts;
      WithFinalDotIsJoin(Fields(p.parts));
      TakeDrop(Repr(p), [DOT]);
      s := s[..|s| - 1];
    }
  }

  lemma {:induction false} NoFieldsYet(parts: seq<Bytes>)
    ensures WithFinalDot(Fields(parts[..0])) == []
  {
  }

  /** What the printer adds for one more part. */
  lemma {:induction false} OneMoreField(parts: seq<Bytes>, i: nat)
    requires i < |parts|
    ensures WithFinalDot(Fields(parts[..i + 1])) == WithFinalDot(Fields(parts[..i])) +
              if IsSimpleFieldName(parts[i]) then parts[i] + [DOT]
              else [BACKTICK] + Escape(parts[i]) + [BACKTICK, DOT]
  {
    hide WithFinalDot, Escape;
    var field := Field(parts[i]);
    WithFinalDotAppend(Fields(parts[..i]), field);
    assert Fields(parts[..i + 1]) == Fields(parts[..i]) + [field];
    assert !IsSimpleFieldName(parts[i]) ==> field + [DOT] == [BACKTICK] + Escape(parts[i]) + [BACKTICK, DOT];
  }

  function WithFinalDot(fields: seq<Bytes>): Bytes {
    if fields == [] then [] else fields[0] + [DOT] + WithFinalDot(fields[1..])
  }

  lemma {:induction false} WithFinalDotAppend(fields: seq<Bytes>, last: Bytes)
    ensures WithFinalDot(fields + [last]) == WithFinalDot(fields) + (last + [DOT])
  {
    if fields == [] {
      assert fields + [last] == [last] && [last][1..] == [];
    } else {
      assert (fields + [last])[1..] == fields[1..] + [last];
      WithFinalDotAppend(fields[1..], last);
      Associative(fields[0] + [DOT], WithFinalDot(fields[1..]), last + [DOT]);
    }
  }

  lemma {:induction false} WithFinalDotIsJoin(fields: seq<Bytes>)
    requires fields != []
    ensures WithFinalDot(fields) == Join(fields) + [DOT]
  {
    if |fields| > 1 {
      WithFinalDotIsJoin(fields[1..]);
    }
  }

  // ----- reading the printed form back

  datatype Decoded<T> = Malformed | Decoded(value: T, rest: Bytes)

  /** The content of a quoted field, after its opening backtick. */
  function Unquote(s: Bytes): Decoded<Bytes>
    decreases |s|
  {
    if s == [] then Malformed
    else if s[0] == BACKTICK then Decoded([], s[1..])
    else if s[0] == BACKSLASH && |s| == 1 then Malformed
    else
      var skip := if s[0] == BACKSLASH then 1 else 0;
      var tail := Unquote(s[skip + 1..]);
      if tail.Malformed? then Malformed else tail.(value := [s[skip]] + tail.value)
  }

  function DecodeField(s: Bytes): Decoded<Bytes> {
    if s != [] && s[0] == BACKTICK then Unquote(s[1..])
    else
      var k := IndexOf(s, DOT);
      if k == -1 then Decoded(s, []) else Decoded(s[..k], s[k..])
  }

  function Decode(s: Bytes): Decoded<seq<Bytes>>
    decreases |s|
  {
    var field := DecodeField(s);
    if field.Malformed? then Malformed
    else if field.rest == [] then Decoded([field.value], [])
    else if field.rest[0] != DOT || |field.rest| > |s| then Malformed
    else
      var tail := Decode(field.rest[1..]);
      if tail.Malformed? then Malformed else tail.(value := [field.value] + tail.value)
  }

  lemma {:induction false} UnquoteOne(c: Byte, tail: Bytes)
    requires Unquote(tail).Decoded?
    ensures c !in [BACKSLASH, BACKTICK] ==>
              Unquote([c] + tail) == Decoded([c] + Unquote(tail).value, Unquote(tail).rest)
    ensures Unquote([BACKSLASH, c] + tail) == Decoded([c] + Unquote(tail).value, Unquote(tail).rest)
  {
    assert ([c] + tail)[1..] == tail && ([BACKSLASH, c] + tail)[2..] == tail;
  }

  lemma {:induction false} UnquoteOfEscape(part: Bytes, rest: Bytes)
    ensures Unquote(Escape(part) + ([BACKTICK] + rest)) == Decoded(part, rest)
  {
    var quote := [BACKTICK] + rest;
    if part == [] {
      assert Escape(part) + quote == quote && quote[1..] == rest;
    } else {
      hide Unquote;
      var first := if part[0] in [BACKSLASH, BACKTICK] then [BACKSLASH, part[0]] else [part[0]];
      UnquoteOfEscape(part[1..], rest);
      UnquoteOne(part[0], Escape(part[1..]) + quote);
      assert Escape(part) + quote == first + (Escape(part[1..]) + quote);
      assert part == [part[0]] + part[1..];
    }
  }

  lemma {:induction false} DecodeSimpleField(part: Bytes, rest: Bytes)
    requires IsSimpleFieldName(part)
    requires rest != [] ==> rest[0] == DOT
    ensures DecodeField(part + rest) == Decoded(part, rest)
  {
    hide IndexOf;
    assert (part + rest)[0] == part[0] != BACKTICK;
    if rest == [] {
      assert part + rest == part;
      assert IndexOf(part, DOT) == -1;
    } else {
      assert rest == [DOT] + rest[1..];
      IndexOfSeparator(part, DOT, rest[1..]);
      TakeDrop(part, rest);
    }
  }

  /** A printed field is recovered, whether the text ends after it or goes on with a dot. */
  lemma {:induction false} DecodeFieldOfField(part: Bytes, rest: Bytes)
    requires rest != [] ==> rest[0] == DOT
    ensures DecodeField(Field(part) + rest) == Decoded(part, rest)
  {
    if IsSimpleFieldName(part) {
      DecodeSimpleField(part, rest);
    } else {
      hide Unquote, Escape;
      UnquoteOfEscape(part, rest);
      Associative([BACKTICK] + Escape(part), [BACKTICK], rest);
      Associative([BACKTICK], Escape(part), [BACKTICK] + rest);
      TakeDrop([BACKTICK], Escape(part) + ([BACKTICK] + rest));
    }
  }

  lemma {:induction false} DecodeCons(part: Bytes, tail: Bytes)
    requires Decode(tail).Decoded?
    ensures Decode(Field(part) + ([DOT] + tail)) == Decoded([part] + Decode(tail).value, Decode(tail).rest)
  {
    hide DecodeField;
    DecodeFieldOfField(part, [DOT] + tail);
    TakeDrop([DOT], tail);
  }

  lemma {:induction false} DecodeOfOne(parts: seq<Bytes>)
    requires |parts| == 1
    ensures Decode(Join(Fields(parts))) == Decoded(parts, [])
  {
    hide DecodeField, Field;
    DecodeFieldOfField(parts[0], []);
    assert Field(parts[0]) + [] == Join(Fields(parts));
    assert parts == [parts[0]];
  }

  /** The printed form determines the parts. */
  lemma {:induction false} DecodeOfPrinted(parts: seq<Bytes>)
    requires parts != []
    ensures Decode(Join(Fields(parts))) == Decoded(parts, [])
  {
    if |parts| == 1 {
      DecodeOfOne(parts);
    } else {
      hide Decode, Field, Join;
      DecodeOfPrinted(parts[1..]);
      assert Fields(parts) == [Field(parts[0])] + Fields(parts[1..]);
      JoinCons(Field(parts[0]), Fields(parts[1..]));
      DecodeCons(parts[0], Join(Fields(parts[1..])));
      assert parts == [parts[0]] + parts[1..];
    }
  }

  // ----- comparison

  /** `operator==` compares printed forms. */
  predicate Equal(a: FieldPath, b: FieldPath) {
    Repr(a) == Repr(b)
  }

  /** `operator<` compares part lists, as a dictionary would. */
  predicate Before(a: FieldPath, b: FieldPath) {
    PartsBefore(a.parts, b.parts)
  }

  predicate PartsBefore(a: seq<Bytes>, b: seq<Bytes>) {
    b != [] && (a == [] || Less(a[0], b[0]) || (a[0] == b[0] && PartsBefore(a[1..], b[1..])))
  }

  /** The lists agree on their first `k` parts, and then `a` ends or has the smaller part. */
  predicate FirstPartDiffers(a: seq<Bytes>, b: seq<Bytes>, k: int) {
    && 0 <= k <= |a| && k < |b| && a[..k] == b[..k]
    && (k == |a| || Less(a[k], b[k]))
  }

  /** The order is decided by the first part in which the paths differ; a proper prefix comes first. */
  lemma {:induction false} BeforeIsFirstDifference(a: FieldPath, b: FieldPath)
    ensures Before(a, b) <==> exists k :: FirstPartDiffers(a.parts, b.parts, k)
  {
    if Before(a, b) {
      var k := DifferenceOf(a.parts, b.parts);
    }
    if k :| FirstPartDiffers(a.parts, b.parts, k) {
      DifferenceOrders(a.parts, b.parts, k);
    }
  }

  lemma {:induction false} DifferenceOf(a: seq<Bytes>, b: seq<Bytes>) returns (k: nat)
    requires PartsBefore(a, b)
    ensures FirstPartDiffers(a, b, k)
    decreases |a|
  {
    if a == [] || Less(a[0], b[0]) {
      k := 0;
    } else {
      k := DifferenceOf(a[1..], b[1..]);
      TakeHead(a, k + 1);
      TakeHead(b, k + 1);
      k := k + 1;
    }
  }

  lemma {:induction false} DifferenceOrders(a: seq<Bytes>, b: seq<Bytes>, k: nat)
    requires FirstPartDiffers(a, b, k)
    ensures PartsBefore(a, b)
    decreases k
  {
    if k > 0 {
      assert a[0] == a[..k][0] == b[..k][0] == b[0];
      assert a[1..][..k - 1] == a[..k][1..] && b[1..][..k - 1] == b[..k][1..];
      DifferenceOrders(a[1..], b[1..], k - 1);
    }
  }

  predicate BeforeOrEqual(a: FieldPath, b: FieldPath) {
    Before(a, b) || Equal(a, b)
  }

  predicate After(a: FieldPath, b: FieldPath) {
    !BeforeOrEqual(a, b)
  }

  predicate AfterOrEqual(a: FieldPath, b: FieldPath) {
    !Before(a, b)
  }

  /** The loop of `operator<`. */
  method IsBefore(a: FieldPath, b: FieldPath) returns (before: bool)
    ensures before == Before(a, b)
  {
    var minLength := if |a.parts| < |b.parts| then |a.parts| else |b.parts|;
    StrictTotalOrder();
    for i := 0 to minLength
      invariant PartsBefore(a.parts, b.parts) == PartsBefore(a.parts[i..], b.parts[i..])
    {
      if Less(a.parts[i], b.parts[i]) {
        return true;
      }
      if Less(b.parts[i], a.parts[i]) {
        return false;
      }
      assert a.parts[i..][1..] == a.parts[i + 1..] && b.parts[i..][1..] == b.parts[i + 1..];
    }
    if |a.parts| < |b.parts| {
      return true;
    }
    if |a.parts| > |b.parts| {
      return false;
    }
    return false;
  }

  /** Equality is equality of the parts, except that all invalid paths are equal. */
  lemma {:induction false} EqualIsExact(a: FieldPath, b: FieldPath)
    requires Printable(a) && Printable(b)
    ensures Equal(a, b) <==> (a.parts == b.parts || (!a.valid && !b.valid))
  {
    DecodeOfPrinted(a.parts);
    DecodeOfPrinted(b.parts);
    PrintedIsNotEmpty(a.parts);
    PrintedIsNotEmpty(b.parts);
  }

  lemma {:induction false} PrintedIsNotEmpty(parts: seq<Bytes>)
    requires parts != []
    ensures Join(Fields(parts)) != []
  {
    assert Fields(parts)[0] == Field(parts[0]) != [];
  }

  lemma {:induction false} PartsBeforeIrreflexive(a: seq<Bytes>)
    ensures !PartsBefore(a, a)
  {
    StrictTotalOrder();
    if a != [] {
      PartsBeforeIrreflexive(a[1..]);
    }
  }

  lemma {:induction false} PartsBeforeTransitive(a: seq<Bytes>, b: seq<Bytes>, c: seq<Bytes>)
    requires PartsBefore(a, b) && PartsBefore(b, c)
    ensures PartsBefore(a, c)
  {
    StrictTotalOrder();
    if a != [] && a[0] == b[0] == c[0] {
      PartsBeforeTransitive(a[1..], b[1..], c[1..]);
    }
  }

  lemma {:induction false} PartsBeforeTotal(a: seq<Bytes>, b: seq<Bytes>)
    ensures PartsBefore(a, b) || a == b || PartsBefore(b, a)
  {
    StrictTotalOrder();
    if a != [] && b != [] && a[0] == b[0] {
      PartsBeforeTotal(a[1..], b[1..]);
      assert a == [a[0]] + a[1..] && b == [b[0]] + b[1..];
    }
  }

  /** Exactly one of `a < b`, `a == b` and `b < a` holds. */
  predicate Trichotomy(a: FieldPath, b: FieldPath) {
    && (Before(a, b) || Equal(a, b) || Before(b, a))
    && !(Before(a, b) && Equal(a, b))
    && !(Before(b, a) && Equal(a, b))
    && !(Before(a, b) && Before(b, a))
  }

  /** The order by parts and the equality by print fit together unless both paths are invalid and differ. */
  lemma {:induction false} TrichotomyIsExact(a: FieldPath, b: FieldPath)
    requires Printable(a) && Printable(b)
    ensures Trichotomy(a, b) <==> (a.valid || b.valid || a.parts == b.parts)
  {
    EqualIsExact(a, b);
    PartsBeforeTotal(a.parts, b.parts);
    PartsBeforeIrreflexive(a.parts);
    if PartsBefore(a.parts, b.parts) && PartsBefore(b.parts, a.parts) {
      PartsBeforeTransitive(a.parts, b.parts, a.parts);
    }
  }

  /** On valid paths the six operators form one total order. */
  lemma {:induction false} ValidPathsAreTotallyOrdered(a: FieldPath, b: FieldPath, c: FieldPath)
    requires Printable(a) && Printable(b) && Printable(c)
    requires a.valid && b.valid && c.valid
    ensures BeforeOrEqual(a, b) || BeforeOrEqual(b, a)
    ensures BeforeOrEqual(a, b) && BeforeOrEqual(b, a) ==> Equal(a, b)
    ensures BeforeOrEqual(a, b) && BeforeOrEqual(b, c) ==> BeforeOrEqual(a, c)
    ensures Before(a, b) && Before(b, c) ==> Before(a, c)
    ensures After(a, b) <==> Before(b, a)
    ensures AfterOrEqual(a, b) <==> BeforeOrEqual(b, a)
  {
    TrichotomyIsExact(a, b);
    EqualIsExact(a, b);
    EqualIsExact(b, c);
    EqualIsExact(a, c);
    if Before(a, b) && Before(b, c) {
      PartsBeforeTransitive(a.parts, b.parts, c.parts);
    }
  }

  /** Two invalid paths can be equal and ordered at once. */
  lemma {:induction false} InvalidPathsAreNotOrdered()
    ensures var a, b := Path([[]]), Path([[], []]);
            Printable(a) && Printable(b) && Equal(a, b) && Before(a, b)
  {
    var one: seq<Bytes>, two: seq<Bytes> := [[]], [[], []];
    assert one[0] == [] && two[0] == [];
    assert one[1..] == [] && two[1..] == one;
  }
}
