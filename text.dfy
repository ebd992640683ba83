/**
 * String operations the handlers and views rely on: JavaScript's `trim`, `toLowerCase`,
 * `includes`, `split(",")`, `join`, the `/\/$/` rewrite of base URLs, and the e-mail pattern
 * `^[^\s@]+@[^\s@]+\.[^\s@]+$`.
 */
module Text {

  /** The code points JavaScript's `trim` strips and the regular-expression class `\s` matches. */
  predicate IsSpace(c: char) {
    || c == '\t' || c == '\n' || c == '\U{000B}' || c == '\U{000C}' || c == '\r' || c == ' '
    || c == '\U{00A0}' || c == '\U{1680}' || ('\U{2000}' <= c <= '\U{200A}')
    || c == '\U{2028}' || c == '\U{2029}' || c == '\U{202F}' || c == '\U{205F}'
    || c == '\U{3000}' || c == '\U{FEFF}'
  }

  predicate AllSpace(s: string) {
    forall i :: 0 <= i < |s| ==> IsSpace(s[i])
  }

  /** Neither end of `s` is white space. */
  predicate IsTrimmed(s: string) {
    s == [] || (!IsSpace(s[0]) && !IsSpace(s[|s| - 1]))
  }

  function TrimStart(s: string): (r: string)
    ensures |r| <= |s| && r == s[|s| - |r|..]
    ensures AllSpace(s[..|s| - |r|])
    ensures r == [] || !IsSpace(r[0])
  {
    if s != [] && IsSpace(s[0]) then TrimStart(s[1..]) else s
  }

  function TrimEnd(s: string): (r: string)
    ensures |r| <= |s| && r == s[..|r|]
    ensures AllSpace(s[|r|..])
    ensures r == [] || !IsSpace(r[|r| - 1])
  {
    if s != [] && IsSpace(s[|s| - 1]) then TrimEnd(s[..|s| - 1]) else s
  }

  /** `s.trim()`. */
  function Trim(s: string): (r: string)
    ensures IsTrimmed(r)
  {
    var t := TrimStart(s);
    var r := TrimEnd(t);
    assert r != [] ==> r[0] == t[0];
    r
  }

  /** A string whose ends are not white space is left alone by `trim`. */
  lemma TrimOfTrimmed(s: string)
    requires IsTrimmed(s)
    ensures Trim(s) == s
  {
  }

  /** `trim` yields the empty string exactly for blank input. */
  lemma {:induction false} TrimEmptyIffBlank(s: string)
    ensures Trim(s) == "" <==> AllSpace(s)
  {
    var t := TrimStart(s);
    if AllSpace(s) {
      TrimStartOfBlank(s);
    } else {
      var k :| 0 <= k < |s| && !IsSpace(s[k]);
      assert k >= |s| - |t|;
      assert t[k - (|s| - |t|)] == s[k];
      assert t != [] && !IsSpace(t[0]);
    }
  }

  lemma {:induction false} TrimStartOfBlank(s: string)
    requires AllSpace(s)
    ensures TrimStart(s) == ""
  {
    if s != [] {
      TrimStartOfBlank(s[1..]);
    }
  }

  /** ASCII case mapping: the part of `toLowerCase` the model interprets. */
  function LowerChar(c: char): (d: char)
    ensures !('A' <= d <= 'Z')
  {
    if 'A' <= c <= 'Z' then (c as int + 32) as char else c
  }

  /** Case mapping never turns a letter into white space or back. */
  lemma LowerCharSpace(c: char)
    ensures IsSpace(LowerChar(c)) <==> IsSpace(c)
  {
  }

  /** `s.toLowerCase()`, restricted to ASCII letters. */
  function Lower(s: string): (r: string)
    ensures |r| == |s|
    ensures forall i :: 0 <= i < |s| ==> r[i] == LowerChar(s[i])
  {
    if s == [] then [] else [LowerChar(s[0])] + Lower(s[1..])
  }

  lemma LowerIdempotent(s: string)
    ensures Lower(Lower(s)) == Lower(s)
  {
  }

  lemma {:induction false} LowerTrimStart(s: string)
    ensures Lower(TrimStart(s)) == TrimStart(Lower(s))
  {
    if s != [] {
      LowerCharSpace(s[0]);
      if IsSpace(s[0]) {
        LowerTrimStart(s[1..]);
        assert Lower(s) == [LowerChar(s[0])] + Lower(s[1..]);
      }
    }
  }

  lemma {:induction false} LowerTrimEnd(s: string)
    ensures Lower(TrimEnd(s)) == TrimEnd(Lower(s))
  {
    if s != [] {
      var n := |s| - 1;
      LowerCharSpace(s[n]);
      if IsSpace(s[n]) {
        LowerTrimEnd(s[..n]);
        assert s[..n] + [s[n]] == s;
        LowerAppend(s[..n], [s[n]]);
      }
    }
  }

  /** Lower-casing and trimming commute, so the order the handlers apply them in does not matter. */
  lemma LowerTrimCommute(s: string)
    ensures Lower(Trim(s)) == Trim(Lower(s))
  {
    LowerTrimStart(s);
    LowerTrimEnd(TrimStart(s));
  }

  /** `s.trim().toLowerCase()`: the normal form e-mail addresses, cities and professions are compared in. */
  function Normalize(s: string): (r: string)
    ensures IsTrimmed(r)
    ensures |r| <= |s|
  {
    LowerTrimCommute(s);
    Lower(Trim(s))
  }

  /** Normalizing twice is normalizing once. */
  lemma NormalizeIdempotent(s: string)
    ensures Normalize(Normalize(s)) == Normalize(s)
  {
    var n := Normalize(s);
    TrimOfTrimmed(n);
    LowerIdempotent(Trim(s));
  }

  /** `s.includes(sub)`. */
  predicate Contains(s: string, sub: string)
    decreases |s|
  {
    sub <= s || (s != [] && Contains(s[1..], sub))
  }

  /** A pattern longer than the text never occurs in it. */
  lemma {:induction false} ContainsLonger(s: string, sub: string)
    requires |s| < |sub|
    ensures !Contains(s, sub)
  {
    if s != [] {
      ContainsLonger(s[1..], sub);
    }
  }

  /** `sub` occurs in `s` starting at index `i`. */
  predicate OccursAt(s: string, sub: string, i: int) {
    0 <= i <= |s| - |sub| && s[i..i + |sub|] == sub
  }

  /** `Contains` holds exactly when `sub` occurs at some position of `s`. */
  lemma ContainsAt(s: string, sub: string)
    ensures Contains(s, sub) <==> exists i :: OccursAt(s, sub, i)
  {
    if Contains(s, sub) {
      ContainedOccurs(s, sub);
    }
    if exists i :: OccursAt(s, sub, i) {
      var i :| OccursAt(s, sub, i);
      OccurrenceContained(s, sub, i);
    }
  }

  lemma {:induction false} ContainedOccurs(s: string, sub: string)
    requires Contains(s, sub)
    ensures exists i :: OccursAt(s, sub, i)
    decreases |s|
  {
    if sub <= s {
      assert OccursAt(s, sub, 0);
    } else {
      ContainedOccurs(s[1..], sub);
      var i :| OccursAt(s[1..], sub, i);
      assert s[1..][i..i + |sub|] == s[i + 1..i + 1 + |sub|];
      assert OccursAt(s, sub, i + 1);
    }
  }

  lemma {:induction false} OccurrenceContained(s: string, sub: string, i: int)
    requires OccursAt(s, sub, i)
    ensures Contains(s, sub)
    decreases i
  {
    if i == 0 {
      assert sub == s[..|sub|];
    } else {
      assert s[1..][i - 1..i - 1 + |sub|] == s[i..i + |sub|];
      OccurrenceContained(s[1..], sub, i - 1);
    }
  }

  /** A pattern with a character the text lacks does not occur in it. */
  lemma NoChar(s: string, sub: string, k: nat)
    requires k < |sub| && sub[k] !in s
    ensures !Contains(s, sub)
  {
    ContainsAt(s, sub);
    forall i | 0 <= i <= |s| - |sub|
      ensures !OccursAt(s, sub, i)
    {
      assert s[i..i + |sub|][k] == s[i + k];
      assert s[i + k] in s;
    }
  }

  /** An occurrence in the left or right part is an occurrence in the concatenation. */
  lemma ContainsConcat(a: string, b: string, sub: string)
    requires Contains(a, sub) || Contains(b, sub)
    ensures Contains(a + b, sub)
  {
    ContainsAt(a, sub);
    ContainsAt(b, sub);
    ContainsAt(a + b, sub);
    if Contains(a, sub) {
      var i :| OccursAt(a, sub, i);
      assert (a + b)[i..i + |sub|] == sub;
      assert OccursAt(a + b, sub, i);
    } else {
      var i :| OccursAt(b, sub, i);
      assert (a + b)[|a| + i..|a| + i + |sub|] == sub;
      assert OccursAt(a + b, sub, |a| + i);
    }
  }

  /**
   * An occurrence of `sub` in `a + [sep] + b` that does not contain `sep` lies inside `a` or inside `b`.
   */
  lemma ContainsAcrossSeparator(a: string, sep: char, b: string, sub: string)
    requires sep !in sub
    requires Contains(a + [sep] + b, sub)
    ensures Contains(a, sub) || Contains(b, sub)
  {
    var s := a + [sep] + b;
    ContainsAt(s, sub);
    var i :| OccursAt(s, sub, i);
    OccursAcrossSeparator(a, sep, b, sub, i);
    if OccursAt(a, sub, i) {
      OccurrenceContained(a, sub, i);
    } else {
      OccurrenceContained(b, sub, i - |a| - 1);
    }
  }

  lemma OccursAcrossSeparator(a: string, sep: char, b: string, sub: string, i: int)
    requires sep !in sub
    requires OccursAt(a + [sep] + b, sub, i)
    ensures OccursAt(a, sub, i) || OccursAt(b, sub, i - |a| - 1)
  {
    var s := a + [sep] + b;
    var w := s[i..i + |sub|];
    assert s[|a|] == sep;
    assert i + |sub| <= |a| || i > |a| || sep in w;
    if i + |sub| <= |a| {
      assert a[i..i + |sub|] == s[i..i + |sub|];
    } else {
      assert b[i - |a| - 1..i - |a| - 1 + |sub|] == s[i..i + |sub|];
    }
  }

  /** `parts.join(sep)`. */
  function Join(parts: seq<string>, sep: char): string {
    if parts == [] then ""
    else if |parts| == 1 then parts[0]
    else parts[0] + [sep] + Join(parts[1..], sep)
  }

  lemma {:induction false} LowerAppend(a: string, b: string)
    ensures Lower(a + b) == Lower(a) + Lower(b)
  {
    assert forall i :: 0 <= i < |a + b| ==> Lower(a + b)[i] == (Lower(a) + Lower(b))[i];
  }

  /** The parts, each lower-cased. */
  function LowerAll(parts: seq<string>): (r: seq<string>)
    ensures |r| == |parts|
    ensures forall i :: 0 <= i < |parts| ==> r[i] == Lower(parts[i])
  {
    if parts == [] then [] else [Lower(parts[0])] + LowerAll(parts[1..])
  }

  /** Lower-casing a joined string lower-cases each part, as long as the separator is not a capital letter. */
  lemma {:induction false} LowerJoin(parts: seq<string>, sep: char)
    requires LowerChar(sep) == sep
    ensures Lower(Join(parts, sep)) == Join(LowerAll(parts), sep)
  {
    if |parts| > 1 {
      LowerJoin(parts[1..], sep);
      LowerAppend(parts[0] + [sep], Join(parts[1..], sep));
      LowerAppend(parts[0], [sep]);
      assert LowerAll(parts)[1..] == LowerAll(parts[1..]);
    }
  }

  /**
   * A non-empty pattern free of the separator occurs in the joined string exactly when it occurs
   * in one of the parts.
   */
  lemma {:induction false} ContainsInJoin(parts: seq<string>, sep: char, sub: string)
    requires sep !in sub && sub != ""
    ensures Contains(Join(parts, sep), sub) <==> exists i :: 0 <= i < |parts| && Contains(parts[i], sub)
  {
    if parts == [] {
      ContainsLonger("", sub);
    } else if |parts| > 1 {
      ContainsInJoin(parts[1..], sep, sub);
      var rest := Join(parts[1..], sep);
      if Contains(Join(parts, sep), sub) {
        ContainsAcrossSeparator(parts[0], sep, rest, sub);
        if Contains(rest, sub) {
          var i :| 0 <= i < |parts[1..]| && Contains(parts[1..][i], sub);
          assert Contains(parts[i + 1], sub);
        }
      }
      if exists i :: 0 <= i < |parts| && Contains(parts[i], sub) {
        var i :| 0 <= i < |parts| && Contains(parts[i], sub);
        if i == 0 {
          ContainsConcat(parts[0], [sep], sub);
          ContainsConcat(parts[0] + [sep], rest, sub);
        } else {
          assert Contains(parts[1..][i - 1], sub);
          ContainsConcat(parts[0] + [sep], rest, sub);
        }
      }
    }
  }

  /** `s.split(sep)`: the pieces between separators; always at least one piece. */
  function Split(s: string, sep: char): (r: seq<string>)
    ensures |r| >= 1
    ensures forall i :: 0 <= i < |r| ==> sep !in r[i]
  {
    if s == [] then [""]
    else
      var rest := Split(s[1..], sep);
      if s[0] == sep then [""] + rest
      else [[s[0]] + rest[0]] + rest[1..]
  }

  /** Splitting and joining back on the same separator restores the string. */
  lemma {:induction false} JoinSplit(s: string, sep: char)
    ensures Join(Split(s, sep), sep) == s
  {
    if s != [] {
      var rest := Split(s[1..], sep);
      JoinSplit(s[1..], sep);
      if s[0] != sep && |rest| > 1 {
        assert Join(rest, sep) == rest[0] + [sep] + Join(rest[1..], sep);
      }
    }
  }

  lemma {:induction false} SplitWithoutSeparator(x: string, sep: char)
    requires sep !in x
    ensures Split(x, sep) == [x]
  {
    if x != [] {
      SplitWithoutSeparator(x[1..], sep);
      assert [x[0]] + x[1..] == x;
    }
  }

  lemma {:induction false} SplitAtFirstSeparator(x: string, sep: char, y: string)
    requires sep !in x
    ensures Split(x + [sep] + y, sep) == [x] + Split(y, sep)
  {
    var s := x + [sep] + y;
    if x == [] {
      assert s[1..] == y;
    } else {
      assert s[1..] == x[1..] + [sep] + y;
      SplitAtFirstSeparator(x[1..], sep, y);
      assert [x[0]] + x[1..] == x;
    }
  }

  /** Joining separator-free pieces and splitting again gives the pieces back. */
  lemma {:induction false} SplitJoin(parts: seq<string>, sep: char)
    requires |parts| >= 1
    requires forall i :: 0 <= i < |parts| ==> sep !in parts[i]
    ensures Split(Join(parts, sep), sep) == parts
  {
    if |parts| == 1 {
      SplitWithoutSeparator(parts[0], sep);
    } else {
      SplitJoin(parts[1..], sep);
      SplitAtFirstSeparator(parts[0], sep, Join(parts[1..], sep));
    }
  }

  /** The trimmed pieces that are not empty (`.map(s => s.trim()).filter(Boolean)`). */
  function NonEmptyTrimmed(pieces: seq<string>): (r: seq<string>)
    ensures |r| <= |pieces|
    ensures forall i :: 0 <= i < |r| ==> r[i] != "" && IsTrimmed(r[i])
  {
    if pieces == [] then []
    else
      var t := Trim(pieces[0]);
      var rest := NonEmptyTrimmed(pieces[1..]);
      if t == "" then rest else [t] + rest
  }

  /** Trimming only removes characters. */
  lemma TrimKeepsCharacters(s: string, c: char)
    requires c !in s
    ensures c !in Trim(s)
  {
    var t := TrimStart(s);
    assert t == s[|s| - |t|..];
    assert c !in t;
    var r := TrimEnd(t);
    assert r == t[..|r|];
    assert Trim(s) == r;
  }

  lemma {:induction false} NonEmptyTrimmedKeepsOut(pieces: seq<string>, c: char)
    requires forall i :: 0 <= i < |pieces| ==> c !in pieces[i]
    ensures forall i :: 0 <= i < |NonEmptyTrimmed(pieces)| ==> c !in NonEmptyTrimmed(pieces)[i]
  {
    if pieces != [] {
      TrimKeepsCharacters(pieces[0], c);
      NonEmptyTrimmedKeepsOut(pieces[1..], c);
    }
  }

  /** `v.split(",").map(s => s.trim()).filter(Boolean)`: the comma list of a form field. */
  function CommaList(s: string): (r: seq<string>)
    ensures forall i :: 0 <= i < |r| ==> r[i] != "" && IsTrimmed(r[i]) && ',' !in r[i]
  {
    NonEmptyTrimmedKeepsOut(Split(s, ','), ',');
    NonEmptyTrimmed(Split(s, ','))
  }

  /** `sub` occurs in `s` at `i` when letters are compared without regard to ASCII case. */
  predicate OccursFoldedAt(s: string, sub: string, i: int) {
    0 <= i <= |s| - |sub| && forall j :: 0 <= j < |sub| ==> LowerChar(s[i + j]) == LowerChar(sub[j])
  }

  /** A case-insensitive regular-expression test for the literal `sub` (`/sub/i.test(s)`). */
  predicate ContainsIgnoringCase(s: string, sub: string) {
    exists i :: 0 <= i <= |s| - |sub| && OccursFoldedAt(s, sub, i)
  }

  /** Matching without regard to case is matching the lower-cased text against the lower-cased pattern. */
  lemma ContainsIgnoringCaseLower(s: string, sub: string)
    ensures ContainsIgnoringCase(s, sub) <==> Contains(Lower(s), Lower(sub))
  {
    ContainsAt(Lower(s), Lower(sub));
    if ContainsIgnoringCase(s, sub) {
      var i :| 0 <= i <= |s| - |sub| && OccursFoldedAt(s, sub, i);
      FoldedIsLowered(s, sub, i);
    }
    if Contains(Lower(s), Lower(sub)) {
      var i :| OccursAt(Lower(s), Lower(sub), i);
      FoldedIsLowered(s, sub, i);
    }
  }

  /** One occurrence, seen both ways. */
  lemma FoldedIsLowered(s: string, sub: string, i: int)
    ensures OccursFoldedAt(s, sub, i) <==> OccursAt(Lower(s), Lower(sub), i)
  {
    if 0 <= i <= |s| - |sub| {
      var w := Lower(s)[i..i + |sub|];
      assert forall j :: 0 <= j < |sub| ==> w[j] == LowerChar(s[i + j]);
      if OccursFoldedAt(s, sub, i) {
        assert w == Lower(sub);
      }
    }
  }

  /** A lower-case pattern found in the lower-cased text is found without regard to case. */
  lemma FoundInLowered(s: string, sub: string)
    requires forall j :: 0 <= j < |sub| ==> LowerChar(sub[j]) == sub[j]
    requires Contains(Lower(s), sub)
    ensures ContainsIgnoringCase(s, sub)
  {
    ContainsAt(Lower(s), sub);
    var i :| OccursAt(Lower(s), sub, i);
    forall j | 0 <= j < |sub|
      ensures LowerChar(s[i + j]) == LowerChar(sub[j])
    {
      assert Lower(s)[i..i + |sub|][j] == sub[j];
    }
    assert OccursFoldedAt(s, sub, i);
  }

  /** A pattern with a letter that no letter of the text folds to does not occur in it. */
  lemma NoFoldedChar(s: string, sub: string, k: nat)
    requires k < |sub|
    requires forall i :: 0 <= i < |s| ==> LowerChar(s[i]) != LowerChar(sub[k])
    ensures !ContainsIgnoringCase(s, sub)
  {
    forall i | 0 <= i <= |s| - |sub|
      ensures !OccursFoldedAt(s, sub, i)
    {
      assert LowerChar(s[i + k]) != LowerChar(sub[k]);
    }
  }

  /** A pattern with two adjacent letters that are never adjacent, folded, in the text does not occur in it. */
  lemma NoFoldedPair(s: string, sub: string, k: nat)
    requires k + 1 < |sub|
    requires forall i :: 0 <= i < |s| - 1 ==>
      !(LowerChar(s[i]) == LowerChar(sub[k]) && LowerChar(s[i + 1]) == LowerChar(sub[k + 1]))
    ensures !ContainsIgnoringCase(s, sub)
  {
    forall i | 0 <= i <= |s| - |sub|
      ensures !OccursFoldedAt(s, sub, i)
    {
      assert !(LowerChar(s[i + k]) == LowerChar(sub[k]) && LowerChar(s[i + k + 1]) == LowerChar(sub[k + 1]));
    }
  }

  /** Items that are non-empty, trimmed and comma-free survive a join/CommaList round trip. */
  lemma {:induction false} CommaListOfJoin(items: seq<string>)
    requires forall i :: 0 <= i < |items| ==> items[i] != "" && IsTrimmed(items[i]) && ',' !in items[i]
    ensures CommaList(Join(items, ',')) == items
  {
    if items == [] {
      assert Split("", ',') == [""];
    } else {
      SplitJoin(items, ',');
      NonEmptyTrimmedOfClean(items);
    }
  }

  lemma {:induction false} NonEmptyTrimmedOfClean(items: seq<string>)
    requires forall i :: 0 <= i < |items| ==> items[i] != "" && IsTrimmed(items[i])
    ensures NonEmptyTrimmed(items) == items
  {
    if items != [] {
      NonEmptyTrimmedOfClean(items[1..]);
      NonEmptyTrimmedKeepsClean(items);
    }
  }

  lemma NonEmptyTrimmedKeepsClean(items: seq<string>)
    requires items != [] && items[0] != "" && IsTrimmed(items[0])
    requires NonEmptyTrimmed(items[1..]) == items[1..]
    ensures NonEmptyTrimmed(items) == items
  {
    TrimOfTrimmed(items[0]);
  }

  /** `s.replace(/\/$/, "")`: one trailing slash, if any, is removed. */
  function DropTrailingSlash(s: string): (r: string)
    ensures s != [] && s[|s| - 1] == '/' ==> r + "/" == s
    ensures (s == [] || s[|s| - 1] != '/') ==> r == s
  {
    if s != [] && s[|s| - 1] == '/' then s[..|s| - 1] else s
  }

  /** One run of `[^\s@]+`: non-empty, without white space or '@'. */
  predicate IsAddressPart(s: string) {
    s != [] && forall i :: 0 <= i < |s| ==> !IsSpace(s[i]) && s[i] != '@'
  }

  /** The pattern's three runs: `s[..at]`, `s[at + 1..dot]` and `s[dot + 1..]`, joined by '@' and '.'. */
  predicate PatternSplit(s: string, at: int, dot: int) {
    && 0 < at && at + 1 < dot < |s| - 1 && s[at] == '@' && s[dot] == '.'
    && IsAddressPart(s[..at]) && IsAddressPart(s[at + 1..dot]) && IsAddressPart(s[dot + 1..])
  }

  /** `/^[^\s@]+@[^\s@]+\.[^\s@]+$/.test(s)`. */
  predicate MatchesEmailPattern(s: string) {
    exists at, dot | 0 < at < |s| && 0 < dot < |s| :: PatternSplit(s, at, dot)
  }

  predicate NoSpace(s: string) {
    forall i :: 0 <= i < |s| ==> !IsSpace(s[i])
  }

  /** The only '@' of `s` is at index `at`, something precedes it, and a '.' follows it later but not last. */
  predicate SingleAtWithDot(s: string, at: int) {
    && 0 < at < |s| && s[at] == '@'
    && (forall i :: 0 <= i < |s| && i != at ==> s[i] != '@')
    && (exists dot :: at + 1 < dot < |s| - 1 && s[dot] == '.')
  }

  /**
   * What the pattern amounts to: no white space, exactly one '@' with something before it, and a '.'
   * after the '@' that is neither right after it nor the last character.
   */
  lemma EmailPatternShape(s: string)
    ensures MatchesEmailPattern(s) <==> NoSpace(s) && exists at :: SingleAtWithDot(s, at)
  {
    if MatchesEmailPattern(s) {
      var at, dot :| PatternSplit(s, at, dot);
      PatternSplitShape(s, at, dot);
    }
    if NoSpace(s) && exists at :: SingleAtWithDot(s, at) {
      var at :| SingleAtWithDot(s, at);
      var dot :| at + 1 < dot < |s| - 1 && s[dot] == '.';
      assert PatternSplit(s, at, dot);
    }
  }

  lemma PatternSplitShape(s: string, at: int, dot: int)
    requires PatternSplit(s, at, dot)
    ensures NoSpace(s) && SingleAtWithDot(s, at)
  {
    forall i | 0 <= i < |s|
      ensures !IsSpace(s[i]) && (i != at ==> s[i] != '@')
    {
      if i < at {
        assert s[..at][i] == s[i];
      } else if at < i < dot {
        assert s[at + 1..dot][i - at - 1] == s[i];
      } else if i > dot {
        assert s[dot + 1..][i - dot - 1] == s[i];
      }
    }
  }
}
