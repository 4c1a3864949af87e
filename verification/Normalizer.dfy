/** Text normalization (app/normalizer.py). NFKC is a parameter: any function on strings. */
module Normalizer {
  import opened Common
  import opened Text

  /** Zero-width characters, bidirectional controls and variation selectors. */
  predicate Stripped(c: char) {
    || '\U{200B}' <= c <= '\U{200F}' || c == '\U{FEFF}' || '\U{2060}' <= c <= '\U{2064}' || c == '\U{00AD}'
    || '\U{202A}' <= c <= '\U{202E}' || '\U{2066}' <= c <= '\U{2069}'
    || '\U{FE00}' <= c <= '\U{FE0F}'
  }

  /** Cyrillic and Greek look-alikes fold to the Latin letter they resemble. */
  function FoldChar(c: char): char {
    match c
    case '\U{0430}' | '\U{03B1}' => 'a'
    case '\U{0435}' => 'e'
    case '\U{043E}' | '\U{03BF}' => 'o'
    case '\U{0440}' | '\U{03C1}' => 'p'
    case '\U{0441}' => 'c'
    case '\U{0443}' | '\U{03C5}' => 'y'
    case '\U{0445}' => 'x'
    case '\U{0442}' | '\U{03C4}' => 't'
    case '\U{0455}' => 's'
    case '\U{0410}' | '\U{0391}' => 'A'
    case '\U{0412}' | '\U{0392}' => 'B'
    case '\U{0415}' | '\U{0395}' => 'E'
    case '\U{041A}' | '\U{039A}' => 'K'
    case '\U{041C}' | '\U{039C}' => 'M'
    case '\U{041D}' | '\U{0397}' => 'H'
    case '\U{041E}' | '\U{039F}' => 'O'
    case '\U{0420}' | '\U{03A1}' => 'P'
    case '\U{0421}' => 'C'
    case '\U{0422}' | '\U{03A4}' => 'T'
    case '\U{0423}' | '\U{03A5}' => 'Y'
    case '\U{0425}' | '\U{03A7}' => 'X'
    case '\U{0456}' => 'i'
    case '\U{0406}' | '\U{0399}' => 'I'
    case '\U{0396}' => 'Z'
    case '\U{039D}' => 'N'
    case _ => c
  }

  function StripChars(s: string): string {
    if s == [] then [] else (if Stripped(s[0]) then [] else [s[0]]) + StripChars(s[1..])
  }

  function FoldHomoglyphs(s: string): string {
    if s == [] then [] else [FoldChar(s[0])] + FoldHomoglyphs(s[1..])
  }

  function CollapseWhitespace(s: string): string {
    Strip(Collapse(s))
  }

  /** The steps after NFKC. */
  function Clean(s: string): string {
    CollapseWhitespace(FoldHomoglyphs(StripChars(s)))
  }

  function NormalizeText(nfkc: string -> string, s: string): string {
    Clean(nfkc(s))
  }

  // ----- the texts that the steps leave alone -----

  /** A letter that neither stripping nor folding touches. */
  predicate Plain(c: char) {
    !Stripped(c) && FoldChar(c) == c
  }

  ghost predicate AllPlain(s: string) {
    forall c :: c in s ==> Plain(c)
  }

  /** Only single spaces for white space. */
  predicate OneSpaced(s: string) {
    s == [] || (
      && (IsSpace(s[0]) ==> s[0] == ' ' && (|s| > 1 ==> !IsSpace(s[1])))
      && OneSpaced(s[1..]))
  }

  ghost predicate Trimmed(s: string) {
    s != [] ==> !IsSpace(s[0]) && !IsSpace(s[|s| - 1])
  }

  ghost predicate IsClean(s: string) {
    AllPlain(s) && OneSpaced(s) && Trimmed(s)
  }

  lemma FoldedIsLatin(c: char)
    ensures FoldChar(c) == c || 'A' <= FoldChar(c) <= 'Z' || 'a' <= FoldChar(c) <= 'z'
    ensures 'A' <= c <= 'Z' || 'a' <= c <= 'z' ==> Plain(c)
  {
  }

  lemma {:induction false} FoldPlain(s: string)
    ensures AllPlain(FoldHomoglyphs(StripChars(s)))
  {
    hide Plain, Stripped, FoldChar;
    if s != [] {
      FoldPlain(s[1..]);
      if Stripped(s[0]) {
        assert StripChars(s) == StripChars(s[1..]);
      } else {
        var rest := StripChars(s[1..]);
        assert StripChars(s) == [s[0]] + rest;
        assert ([s[0]] + rest)[1..] == rest;
        FoldedIsPlain(s[0]);
      }
    }
  }

  lemma FoldedIsPlain(c: char)
    requires !Stripped(c)
    ensures Plain(FoldChar(c))
  {
    hide FoldChar;
    FoldedIsLatin(c);
    FoldedIsLatin(FoldChar(c));
  }

  lemma {:induction false} PlainStays(s: string)
    requires AllPlain(s)
    ensures StripChars(s) == s && FoldHomoglyphs(s) == s
  {
    hide FoldChar, Stripped;
    if s != [] {
      assert s[0] in s;
      assert Plain(s[0]);
      PlainStays(s[1..]);
    }
  }

  lemma {:induction false} CollapseSpaces(s: string)
    ensures OneSpaced(Collapse(s))
    ensures s == [] || !IsSpace(s[0]) ==> Collapse(s) == [] || !IsSpace(Collapse(s)[0])
    decreases |s|
  {
    hide IsSpace;
    SpaceIsSpace();
    if s != [] {
      CollapseSpaces(if IsSpace(s[0]) then DropSpaces(s[1..]) else s[1..]);
    }
  }

  lemma {:induction false} CollapseKeepsPlain(s: string)
    requires AllPlain(s)
    ensures AllPlain(Collapse(s))
    decreases |s|
  {
    hide Plain, IsSpace, DropSpaces;
    SpaceIsSpace();
    if s != [] {
      CollapseKeepsPlain(if IsSpace(s[0]) then DropSpaces(s[1..]) else s[1..]);
    }
  }

  lemma SpaceIsSpace()
    ensures IsSpace(' ') && Plain(' ')
  {
  }

  lemma {:induction false} DropKeeps(s: string)
    requires OneSpaced(s)
    ensures OneSpaced(DropSpaces(s))
  {
    hide IsSpace;
    if s != [] && IsSpace(s[0]) {
      DropKeeps(s[1..]);
    }
  }

  lemma {:induction false} InitKeeps(s: string)
    requires OneSpaced(s) && s != []
    ensures OneSpaced(s[..|s| - 1])
  {
    hide IsSpace;
    if |s| > 1 {
      InitKeeps(s[1..]);
      assert s[..|s| - 1][1..] == s[1..][..|s| - 2];
    }
  }

  lemma {:induction false} TrimKeeps(s: string)
    requires OneSpaced(s)
    ensures OneSpaced(TrimRight(s))
  {
    hide IsSpace, OneSpaced;
    if s != [] && IsSpace(s[|s| - 1]) {
      InitKeeps(s);
      TrimKeeps(s[..|s| - 1]);
    }
  }

  lemma StripTrims(s: string)
    requires OneSpaced(s)
    ensures OneSpaced(Strip(s)) && Trimmed(Strip(s))
    ensures AllPlain(s) ==> AllPlain(Strip(s))
  {
    hide Plain, IsSpace, OneSpaced, DropSpaces, TrimRight;
    DropKeeps(s);
    TrimKeeps(DropSpaces(s));
    assert forall c :: c in Strip(s) ==> c in DropSpaces(s);
    assert forall c :: c in DropSpaces(s) ==> c in s;
  }

  lemma {:induction false} OneSpacedStays(s: string)
    requires OneSpaced(s)
    ensures Collapse(s) == s
    decreases |s|
  {
    hide IsSpace;
    if s != [] {
      OneSpacedStays(s[1..]);
      if IsSpace(s[0]) {
        assert DropSpaces(s[1..]) == s[1..];
      }
    }
  }

  lemma TrimmedStays(s: string)
    requires Trimmed(s)
    ensures Strip(s) == s
  {
  }

  /** The steps after NFKC produce exactly the clean texts, and change nothing else: they are idempotent. */
  lemma CleanIsIdempotent(s: string)
    ensures IsClean(Clean(s))
    ensures Clean(s) == s <==> IsClean(s)
    ensures Clean(Clean(s)) == Clean(s)
  {
    hide Plain, IsSpace, Stripped, FoldChar, Collapse, Strip, FoldHomoglyphs, StripChars, AllPlain, OneSpaced, Trimmed;
    CleanIsClean(s);
    CleanIsClean(Clean(s));
    if IsClean(s) { CleanStays(s); }
    CleanStays(Clean(s));
  }

  lemma CleanIsClean(s: string)
    ensures IsClean(Clean(s))
  {
    hide AllPlain, OneSpaced, Trimmed, Collapse, Strip, FoldHomoglyphs, StripChars, IsSpace;
    FoldPlain(s);
    var t := FoldHomoglyphs(StripChars(s));
    CollapseSpaces(t);
    CollapseKeepsPlain(t);
    StripTrims(Collapse(t));
  }

  lemma CleanStays(s: string)
    requires IsClean(s)
    ensures Clean(s) == s
  {
    hide AllPlain, OneSpaced, Trimmed, Collapse, Strip, FoldHomoglyphs, StripChars, IsSpace;
    PlainStays(s);
    OneSpacedStays(s);
    TrimmedStays(s);
  }

  // ----- when normalizing twice is normalizing once -----

  predicate Fixed(f: string -> string, s: string) {
    f(s) == s
  }

  predicate IsLatin(c: char) {
    'A' <= c <= 'Z' || 'a' <= c <= 'z'
  }

  ghost predicate FixedChars(f: string -> string, s: string) {
    forall c :: c in s ==> Fixed(f, [c])
  }

  /** Every part of a normalized text is normalized. */
  ghost predicate SubstringClosed(f: string -> string) {
    forall x, y, z :: Fixed(f, x + y + z) ==> Fixed(f, y)
  }

  /** White space separates: normalized texts may be joined by a normalized white-space character. */
  ghost predicate JoinedBySpace(f: string -> string) {
    forall x, c, y :: IsSpace(c) && Fixed(f, [c]) && Fixed(f, x) && Fixed(f, y) ==> Fixed(f, x + [c] + y)
  }

  /** Composing characters that are normalized one by one makes none that is stripped or folded, and no space. */
  ghost predicate ComposesCleanly(f: string -> string) {
    forall s :: IsClean(s) && FixedChars(f, s) ==> IsClean(f(s))
  }

  /** What is asked of NFKC, all of it provided by Unicode Standard Annex 15 and the character data: it is
      idempotent, its texts are closed under substrings and under joining by white space, it leaves the space and the
      Latin letters alone, and it composes no letter of the tables above. */
  ghost predicate LikeNfkc(f: string -> string) {
    && (forall s :: Fixed(f, f(s)))
    && SubstringClosed(f) && JoinedBySpace(f) && ComposesCleanly(f)
    && forall c :: c == ' ' || IsLatin(c) ==> Fixed(f, [c])
  }

  /** The text after stripping and folding, before white space is collapsed. */
  function Folded(nfkc: string -> string, s: string): string {
    FoldHomoglyphs(StripChars(nfkc(s)))
  }

  lemma PartIsFixed(f: string -> string, x: string, y: string, z: string)
    requires SubstringClosed(f) && Fixed(f, x + y + z)
    ensures Fixed(f, y)
  {
    hide Fixed;
  }

  lemma JoinIsFixed(f: string -> string, x: string, c: char, y: string)
    requires JoinedBySpace(f) && IsSpace(c) && Fixed(f, [c]) && Fixed(f, x) && Fixed(f, y)
    ensures Fixed(f, x + [c] + y)
  {
    hide Fixed, IsSpace;
  }

  lemma NothingIsFixed(f: string -> string)
    requires LikeNfkc(f)
    ensures Fixed(f, [])
  {
    hide Fixed, JoinedBySpace, ComposesCleanly;
    assert f([]) + [] + [] == f([]);
    PartIsFixed(f, f([]), [], []);
  }

  /** A text of white space and words is fixed exactly when its words and its white space are; so collapsing white
      space changes nothing in that respect. */
  lemma {:induction false} CollapseKeepsFixed(f: string -> string, t: string)
    requires LikeNfkc(f) && forall c :: c in t && IsSpace(c) ==> Fixed(f, [c])
    ensures Fixed(f, Collapse(t)) <==> Fixed(f, t)
    decreases |t|
  {
    hide Fixed, IsSpace, LikeNfkc, WordAt, DropSpaces, Collapse, Plain;
    if |WordAt(t)| == |t| {
      OneWord(t);
    } else {
      var w, c, u := FirstBreak(t);
      CollapseKeepsFixed(f, DropSpaces(u));
      SpacesAreFixed(f, u);
      SpaceIsFixed(f);
      JoinIff(f, w, c, u);
      JoinIff(f, w, ' ', Collapse(DropSpaces(u)));
    }
  }

  lemma OneWord(t: string)
    requires |WordAt(t)| == |t|
    ensures Collapse(t) == t
  {
    hide IsSpace, WordAt, DropSpaces;
    WordThenRest(t, []);
    SpaceThenRest([]);
    assert t + [] == t;
  }

  lemma CollapseAt(w: string, c: char, u: string)
    requires (forall i :: 0 <= i < |w| ==> !IsSpace(w[i])) && IsSpace(c)
    ensures Collapse(w + [c] + u) == w + [' '] + Collapse(DropSpaces(u))
  {
    hide IsSpace, DropSpaces, Collapse;
    var rest := [c] + u;
    assert rest[0] == c && rest[1..] == u;
    WordThenRest(w, rest);
    SpaceThenRest(rest);
    assert w + [c] + u == w + rest;
    assert w + ([' '] + Collapse(DropSpaces(u))) == w + [' '] + Collapse(DropSpaces(u));
  }

  lemma FirstBreak(t: string) returns (w: string, c: char, u: string)
    requires |WordAt(t)| < |t|
    ensures t == w + [c] + u && IsSpace(c) && c in t && |DropSpaces(u)| < |t|
    ensures Collapse(t) == w + [' '] + Collapse(DropSpaces(u))
    ensures forall x :: x in u || x in DropSpaces(u) ==> x in t
  {
    hide IsSpace, WordAt, DropSpaces, Collapse;
    w := WordAt(t);
    c, u := t[|w|], t[|w| + 1..];
    Break(t, |w|);
    CollapseAt(w, c, u);
    SuffixIn(t, |w| + 1);
    SuffixIn(u, |u| - |DropSpaces(u)|);
  }

  lemma Break(t: string, k: nat)
    requires k < |t|
    ensures t == t[..k] + [t[k]] + t[k + 1..]
  {
  }

  lemma SuffixIn(t: string, k: nat)
    requires k <= |t|
    ensures forall x :: x in t[k..] ==> x in t
  {
  }

  lemma {:induction false} WordThenRest(w: string, rest: string)
    requires forall i :: 0 <= i < |w| ==> !IsSpace(w[i])
    requires rest == [] || IsSpace(rest[0])
    ensures Collapse(w + rest) == w + Collapse(rest)
  {
    hide IsSpace, DropSpaces;
    if w == [] {
      assert w + rest == rest;
    } else {
      var s := w + rest;
      assert s[1..] == w[1..] + rest && s[0] == w[0];
      WordThenRest(w[1..], rest);
      assert Collapse(s) == [w[0]] + (w[1..] + Collapse(rest));
      assert w == [w[0]] + w[1..];
    }
  }

  lemma SpaceIsFixed(f: string -> string)
    requires LikeNfkc(f)
    ensures IsSpace(' ') && Fixed(f, [' '])
  {
    hide Fixed, SubstringClosed, JoinedBySpace, ComposesCleanly;
    SpaceIsSpace();
  }

  lemma SpaceThenRest(rest: string)
    ensures rest != [] && IsSpace(rest[0]) ==> Collapse(rest) == [' '] + Collapse(DropSpaces(rest[1..]))
    ensures Collapse([]) == []
  {
    hide IsSpace, DropSpaces;
  }

  /** Leading white space does not decide whether a text is fixed. */
  lemma {:induction false} SpacesAreFixed(f: string -> string, u: string)
    requires LikeNfkc(f) && forall c :: c in u && IsSpace(c) ==> Fixed(f, [c])
    ensures Fixed(f, u) <==> Fixed(f, DropSpaces(u))
  {
    hide Fixed, IsSpace, LikeNfkc, DropSpaces;
    DropOne(u);
    if u != [] && IsSpace(u[0]) {
      assert u[0] in u;
      SuffixIn(u, 1);
      SpacesAreFixed(f, u[1..]);
      NothingIsFixed(f);
      JoinIff(f, [], u[0], u[1..]);
      assert u == [] + [u[0]] + u[1..];
    }
  }

  lemma DropOne(u: string)
    ensures DropSpaces(u) == if u != [] && IsSpace(u[0]) then DropSpaces(u[1..]) else u
  {
  }

  lemma JoinIff(f: string -> string, x: string, c: char, y: string)
    requires LikeNfkc(f) && IsSpace(c) && Fixed(f, [c])
    ensures Fixed(f, x + [c] + y) <==> Fixed(f, x) && Fixed(f, y)
  {
    hide Fixed, IsSpace, SubstringClosed, JoinedBySpace, ComposesCleanly;
    if Fixed(f, x) && Fixed(f, y) {
      JoinIsFixed(f, x, c, y);
    }
    if Fixed(f, x + [c] + y) {
      assert [] + x + ([c] + y) == x + [c] + y;
      PartIsFixed(f, [], x, [c] + y);
      assert (x + [c]) + y + [] == x + [c] + y;
      PartIsFixed(f, x + [c], y, []);
    }
  }

  /** Trimming does not either. */
  lemma {:induction false} TrimKeepsFixed(f: string -> string, t: string)
    requires LikeNfkc(f) && forall c :: c in t && IsSpace(c) ==> Fixed(f, [c])
    ensures Fixed(f, TrimRight(t)) <==> Fixed(f, t)
  {
    hide Fixed, IsSpace, SubstringClosed, JoinedBySpace, ComposesCleanly;
    if t != [] && IsSpace(t[|t| - 1]) {
      var u, c := t[..|t| - 1], t[|t| - 1];
      TrimKeepsFixed(f, u);
      NothingIsFixed(f);
      JoinIff(f, u, c, []);
      assert t == u + [c] + [];
    }
  }

  lemma {:induction false} CollapsedSpaces(t: string)
    ensures forall c :: c in Collapse(t) && IsSpace(c) ==> c == ' '
    decreases |t|
  {
    hide IsSpace, DropSpaces;
    if t != [] {
      CollapsedSpaces(if IsSpace(t[0]) then DropSpaces(t[1..]) else t[1..]);
    }
  }

  lemma CollapseWhitespaceKeepsFixed(f: string -> string, t: string)
    requires LikeNfkc(f) && forall c :: c in t && IsSpace(c) ==> Fixed(f, [c])
    ensures Fixed(f, CollapseWhitespace(t)) <==> Fixed(f, t)
  {
    hide Fixed, IsSpace, SubstringClosed, JoinedBySpace, ComposesCleanly, Collapse, TrimRight, DropSpaces;
    var u := Collapse(t);
    CollapseKeepsFixed(f, t);
    CollapsedSpaces(t);
    SpacesAreFixed(f, u);
    assert forall c :: c in DropSpaces(u) ==> c in u;
    TrimKeepsFixed(f, DropSpaces(u));
  }

  /** After NFKC, stripping and folding every character is fixed on its own: it was part of a fixed text, or it is a
      Latin letter. */
  lemma {:induction false} FoldedCharsAreFixed(f: string -> string, t: string)
    requires LikeNfkc(f) && FixedChars(f, t)
    ensures FixedChars(f, FoldHomoglyphs(StripChars(t)))
  {
    hide Fixed, FoldChar, Stripped, SubstringClosed, JoinedBySpace, ComposesCleanly;
    if t != [] {
      assert t[0] in t;
      FoldedCharsAreFixed(f, t[1..]);
      var rest := StripChars(t[1..]);
      if Stripped(t[0]) {
        assert StripChars(t) == rest;
      } else {
        FoldedIsLatin(t[0]);
        assert Fixed(f, [FoldChar(t[0])]) by { assert FoldChar(t[0]) == t[0] || IsLatin(FoldChar(t[0])); }
        assert StripChars(t) == [t[0]] + rest;
        assert ([t[0]] + rest)[1..] == rest;
        assert FoldHomoglyphs(StripChars(t)) == [FoldChar(t[0])] + FoldHomoglyphs(rest);
      }
    }
  }

  lemma FixedTextHasFixedChars(f: string -> string, t: string)
    requires LikeNfkc(f) && Fixed(f, t)
    ensures FixedChars(f, t)
  {
    hide Fixed, SubstringClosed, JoinedBySpace, ComposesCleanly;
    forall c | c in t ensures Fixed(f, [c]) {
      var i :| 0 <= i < |t| && t[i] == c;
      assert t == t[..i] + [c] + t[i + 1..];
      PartIsFixed(f, t[..i], [c], t[i + 1..]);
    }
  }

  lemma CollapseKeepsChars(f: string -> string, t: string)
    requires LikeNfkc(f) && FixedChars(f, t)
    ensures FixedChars(f, CollapseWhitespace(t))
  {
    hide Fixed, IsSpace, SubstringClosed, JoinedBySpace, ComposesCleanly, Collapse, TrimRight, DropSpaces;
    CollapseMakesSpaces(t);
    assert forall c :: c in DropSpaces(Collapse(t)) ==> c in Collapse(t);
  }

  lemma {:induction false} CollapseMakesSpaces(t: string)
    ensures forall c :: c in Collapse(t) ==> c == ' ' || c in t
    decreases |t|
  {
    hide IsSpace, DropSpaces;
    if t != [] {
      CollapseMakesSpaces(if IsSpace(t[0]) then DropSpaces(t[1..]) else t[1..]);
    }
  }

  /** The exact guard of idempotence, for every input: normalizing twice is normalizing once if and only if stripping
      and folding leave a text that NFKC accepts as it is. */
  lemma NormalizeIsStableExactlyWhen(nfkc: string -> string, s: string)
    requires LikeNfkc(nfkc)
    ensures var n := NormalizeText(nfkc, s);
            NormalizeText(nfkc, n) == n <==> Fixed(nfkc, Folded(nfkc, s))
  {
    hide Clean, IsClean, Fixed, SubstringClosed, JoinedBySpace, CollapseWhitespace, StripChars, FoldHomoglyphs, FixedChars;
    var t := Folded(nfkc, s);
    var n := NormalizeText(nfkc, s);
    NormalizeUnfolds(nfkc, s);
    NormalizeUnfolds(nfkc, n);
    FixedTextHasFixedChars(nfkc, nfkc(s));
    FoldedCharsAreFixed(nfkc, nfkc(s));
    SpacesFixed(nfkc, t);
    CollapseWhitespaceKeepsFixed(nfkc, t);
    CollapseKeepsChars(nfkc, t);
    CleanIsIdempotent(nfkc(s));
    CleanIsIdempotent(nfkc(n));
    assert IsClean(nfkc(n));
    FixedMeans(nfkc, n);
  }

  lemma FixedMeans(f: string -> string, s: string)
    ensures Fixed(f, s) <==> f(s) == s
  {
  }

  lemma SpacesFixed(f: string -> string, t: string)
    requires FixedChars(f, t)
    ensures forall c :: c in t && IsSpace(c) ==> Fixed(f, [c])
  {
  }

  /** So an input is safe when its NFKC form contains nothing that is stripped or folded. */
  lemma PlainInputIsStable(nfkc: string -> string, s: string)
    requires LikeNfkc(nfkc) && AllPlain(nfkc(s))
    ensures var n := NormalizeText(nfkc, s); NormalizeText(nfkc, n) == n
  {
    hide AllPlain, Fixed, SubstringClosed, JoinedBySpace, ComposesCleanly, StripChars, FoldHomoglyphs, NormalizeText;
    PlainStays(nfkc(s));
    NormalizeIsStableExactlyWhen(nfkc, s);
  }

  /** And a folded letter before a mark is not, for exactly the pairs that NFKC changes once the letter is folded. */
  lemma FoldedPairIsUnstableExactlyWhen(nfkc: string -> string, letter: char, mark: char)
    requires LikeNfkc(nfkc) && Fixed(nfkc, [letter, mark])
    requires !Stripped(letter) && Plain(mark)
    ensures var n := NormalizeText(nfkc, [letter, mark]);
            NormalizeText(nfkc, n) != n <==> nfkc([FoldChar(letter), mark]) != [FoldChar(letter), mark]
  {
    hide SubstringClosed, JoinedBySpace, ComposesCleanly, StripChars, FoldHomoglyphs, NormalizeText, FoldChar;
    NormalizeIsStableExactlyWhen(nfkc, [letter, mark]);
    FoldPair(letter, mark);
  }

  /** One such pair: Cyrillic small ie (U+0435) folds to a Latin e, which NFKC composes with a combining acute accent
      (U+0301) to U+00E9. */
  lemma NormalizeIsNotIdempotent(nfkc: string -> string)
    requires LikeNfkc(nfkc)
    requires nfkc(['\U{0435}', '\U{0301}']) == ['\U{0435}', '\U{0301}']
    requires nfkc(['e', '\U{0301}']) == ['\U{00E9}']
    ensures var n := NormalizeText(nfkc, ['\U{0435}', '\U{0301}']); NormalizeText(nfkc, n) != n
  {
    hide LikeNfkc, NormalizeText;
    FoldedPairIsUnstableExactlyWhen(nfkc, '\U{0435}', '\U{0301}');
  }

  lemma NormalizeUnfolds(nfkc: string -> string, s: string)
    ensures NormalizeText(nfkc, s) == CollapseWhitespace(FoldHomoglyphs(StripChars(nfkc(s))))
    ensures NormalizeText(nfkc, s) == Clean(nfkc(s))
  {
  }

  lemma FoldPair(x: char, y: char)
    requires !Stripped(x) && !Stripped(y)
    ensures FoldHomoglyphs(StripChars([x, y])) == [FoldChar(x), FoldChar(y)]
  {
    hide FoldChar, Stripped;
    assert [x, y][1..] == [y] && [y][1..] == [];
    assert StripChars([y]) == [y] && StripChars([x, y]) == [x, y];
    assert FoldHomoglyphs([y]) == [FoldChar(y)];
  }

  // ----- the tables -----

  /** The look-alikes, and the Latin letters they fold to, in the same order. */
  const LOOKALIKES := "\U{0430}\U{0435}\U{043E}\U{0440}\U{0441}\U{0443}\U{0445}\U{0442}\U{0455}"
                      + "\U{0410}\U{0412}\U{0415}\U{041A}\U{041C}\U{041D}\U{041E}\U{0420}\U{0421}\U{0422}\U{0423}\U{0425}\U{0456}\U{0406}"
                      + "\U{03B1}\U{03BF}\U{03C1}\U{03C5}\U{03C4}\U{0391}\U{0392}"
                      + "\U{0395}\U{0396}\U{0397}\U{0399}\U{039A}\U{039C}\U{039D}\U{039F}\U{03A1}\U{03A4}\U{03A5}\U{03A7}"

  const LATIN := "aeopcyxts" + "ABEKMHOPCTYXiI" + "aopytAB" + "EZHIKMNOPTYX"

  lemma FoldTable(i: nat)
    requires i < |LOOKALIKES|
    ensures |LATIN| == |LOOKALIKES| && FoldChar(LOOKALIKES[i]) == LATIN[i]
  {
    if i < 23 {
      CyrillicTable(i);
    } else {
      GreekTable(i);
    }
  }

  lemma CyrillicTable(i: nat)
    requires i < 23
    ensures |LATIN| == |LOOKALIKES| == 42 && FoldChar(LOOKALIKES[i]) == LATIN[i]
  {
  }

  lemma GreekTable(i: nat)
    requires 23 <= i < 42
    ensures |LATIN| == |LOOKALIKES| == 42 && FoldChar(LOOKALIKES[i]) == LATIN[i]
  {
  }

  lemma OthersStay(c: char)
    requires c !in LOOKALIKES
    ensures FoldChar(c) == c
  {
  }

  /** Zero-width characters, bidirectional controls, and the sixteen variation selectors. */
  const ZERO_WIDTH := "\U{200B}\U{200C}\U{200D}\U{200E}\U{200F}\U{FEFF}\U{2060}\U{2061}\U{2062}\U{2063}\U{2064}\U{00AD}"

  const BIDI_CONTROLS := "\U{202A}\U{202B}\U{202C}\U{202D}\U{202E}\U{2066}\U{2067}\U{2068}\U{2069}"

  lemma StripTable(c: char)
    ensures Stripped(c) <==> c in ZERO_WIDTH || c in BIDI_CONTROLS || '\U{FE00}' <= c <= '\U{FE0F}'
  {
  }

  /** The white-space characters, one by one. */
  const WHITE_SPACE := "\U{0009}\U{000A}\U{000B}\U{000C}\U{000D}\U{001C}\U{001D}\U{001E}\U{001F}\U{0020}\U{0085}\U{00A0}\U{1680}"
                       + "\U{2000}\U{2001}\U{2002}\U{2003}\U{2004}\U{2005}\U{2006}\U{2007}\U{2008}\U{2009}\U{200A}"
                       + "\U{2028}\U{2029}\U{202F}\U{205F}\U{3000}"

  lemma SpaceTable(c: char)
    ensures IsSpace(c) <==> c in WHITE_SPACE
  {
  }
}
