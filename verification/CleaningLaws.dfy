/** What the evaluator's cleaning of SQL and shell text (comments, white-space runs, case) keeps and what it loses. */
module CleaningLaws {
  import opened Common
  import opened Text

  // ----- upper case commutes with every cleaning step -----

  lemma UpperTail(s: string, k: nat)
    requires k <= |s|
    ensures Upper(s)[k..] == Upper(s[k..]) && Upper(s)[..k] == Upper(s[..k])
  {
  }

  lemma UpperCons(c: char, s: string)
    ensures Upper([c] + s) == [UpperChar(c)] + Upper(s)
  {
  }

  lemma UpperSpace(c: char)
    ensures IsSpace(UpperChar(c)) <==> IsSpace(c)
  {
  }

  lemma {:induction false} UpperDropSpaces(s: string)
    ensures DropSpaces(Upper(s)) == Upper(DropSpaces(s))
  {
    hide IsSpace, UpperChar;
    if s != [] {
      UpperSpace(s[0]);
      UpperTail(s, 1);
      UpperDropSpaces(s[1..]);
    }
  }

  lemma {:induction false} UpperTrimRight(s: string)
    ensures TrimRight(Upper(s)) == Upper(TrimRight(s))
  {
    hide IsSpace, UpperChar;
    if s != [] {
      UpperSpace(s[|s| - 1]);
      UpperTail(s, |s| - 1);
      UpperTrimRight(s[..|s| - 1]);
    }
  }

  lemma {:induction false} UpperWordAt(s: string)
    ensures WordAt(Upper(s)) == Upper(WordAt(s))
  {
    hide IsSpace, UpperChar;
    if s != [] {
      UpperSpace(s[0]);
      UpperTail(s, 1);
      UpperWordAt(s[1..]);
      UpperCons(s[0], WordAt(s[1..]));
    }
  }

  lemma {:induction false} UpperDropLine(s: string)
    ensures DropLine(Upper(s)) == Upper(DropLine(s))
  {
    if s != [] {
      UpperTail(s, 1);
      UpperDropLine(s[1..]);
    }
  }

  /** A mark of two characters that are not letters. */
  predicate IsMark(m: string) {
    |m| == 2 && UpperChar(m[0]) == m[0] == LowerChar(m[0]) && UpperChar(m[1]) == m[1] == LowerChar(m[1])
  }

  lemma UpperMark(s: string, m: string)
    requires IsMark(m)
    ensures StartsWith(Upper(s), m) <==> StartsWith(s, m)
  {
    assert StartsWith(s, m) <==> |s| >= 2 && s[0] == m[0] && s[1] == m[1];
    assert StartsWith(Upper(s), m) <==> |s| >= 2 && UpperChar(s[0]) == m[0] && UpperChar(s[1]) == m[1];
  }

  lemma {:induction false} UpperContainsMark(s: string, m: string)
    requires IsMark(m)
    ensures Contains(Upper(s), m) <==> Contains(s, m)
  {
    UpperMark(s, m);
    if s != [] {
      UpperTail(s, 1);
      UpperContainsMark(s[1..], m);
    }
  }

  lemma {:induction false} UpperStripLine(s: string)
    ensures StripLineComments(Upper(s)) == Upper(StripLineComments(s))
    decreases |s|
  {
    UpperMark(s, "--");
    if s == [] {
    } else if StartsWith(s, "--") {
      UpperTail(s, 2);
      UpperDropLine(s[2..]);
      UpperStripLine(DropLine(s[2..]));
      UpperCons(' ', StripLineComments(DropLine(s[2..])));
    } else {
      UpperTail(s, 1);
      UpperStripLine(s[1..]);
      UpperCons(s[0], StripLineComments(s[1..]));
    }
  }

  lemma {:induction false} UpperAfterClose(s: string)
    ensures AfterClose(Upper(s)) == if AfterClose(s).Some? then Some(Upper(AfterClose(s).value)) else None
  {
    UpperMark(s, "*/");
    if s == [] {
    } else if StartsWith(s, "*/") {
      UpperTail(s, 2);
    } else {
      UpperTail(s, 1);
      UpperAfterClose(s[1..]);
    }
  }

  lemma {:induction false} UpperStripBlock(s: string)
    ensures StripBlockComments(Upper(s)) == Upper(StripBlockComments(s))
    decreases |s|
  {
    UpperMark(s, "/*");
    if s == [] {
    } else if StartsWith(s, "/*") && AfterClose(s[2..]).Some? {
      UpperTail(s, 2);
      UpperAfterClose(s[2..]);
      UpperStripBlock(AfterClose(s[2..]).value);
      UpperCons(' ', StripBlockComments(AfterClose(s[2..]).value));
    } else {
      UpperTail(s, 1);
      if StartsWith(s, "/*") {
        UpperTail(s, 2);
        UpperAfterClose(s[2..]);
      }
      UpperStripBlock(s[1..]);
      UpperCons(s[0], StripBlockComments(s[1..]));
    }
  }

  /** Comments, the surrounding white space and the first word can be taken before or after the case is mapped. */
  lemma UpperCommutes(s: string)
    ensures StripSqlComments(Upper(s)) == Upper(StripSqlComments(s))
    ensures Strip(Upper(s)) == Upper(Strip(s))
    ensures FirstWord(Upper(s)) == Upper(FirstWord(s))
  {
    hide StripLineComments, StripBlockComments, DropSpaces, TrimRight, WordAt, Upper;
    UpperStripLine(s);
    UpperStripBlock(StripLineComments(s));
    UpperDropSpaces(s);
    UpperTrimRight(DropSpaces(s));
    UpperWordAt(DropSpaces(s));
  }

  // ----- the first word -----

  ghost predicate NoSpace(w: string) {
    forall i :: 0 <= i < |w| ==> !IsSpace(w[i])
  }

  lemma {:induction false} WordOf(w: string, rest: string)
    requires NoSpace(w) && (rest == [] || IsSpace(rest[0]))
    ensures WordAt(w + rest) == w
  {
    if w == [] {
      assert w + rest == rest;
    } else {
      assert (w + rest)[1..] == w[1..] + rest;
      WordOf(w[1..], rest);
    }
  }

  /** Text whose leading white space is `a` and whose first word is `w`. */
  ghost predicate Splits(s: string, a: string, w: string, rest: string) {
    && s == a + w + rest
    && (forall i :: 0 <= i < |a| ==> IsSpace(a[i]))
    && NoSpace(w) && (rest == [] || IsSpace(rest[0]))
    && (w == [] ==> rest == [])
  }

  lemma Cut(s: string, i: nat, j: nat)
    requires i <= j <= |s|
    ensures s == s[..i] + s[i..j] + s[j..]
    ensures s[i..][..j - i] == s[i..j] && s[i..][j - i..] == s[j..]
  {
  }

  lemma SplitWord(s: string) returns (a: string, rest: string)
    ensures Splits(s, a, FirstWord(s), rest)
  {
    hide IsSpace, DropSpaces, WordAt;
    var t := DropSpaces(s);
    var w := WordAt(t);
    var i := |s| - |t|;
    a, rest := s[..i], s[i + |w|..];
    Cut(s, i, i + |w|);
    assert rest != [] ==> rest[0] == t[|w|];
  }

  lemma {:induction false} DropLeading(a: string, t: string)
    requires (forall i :: 0 <= i < |a| ==> IsSpace(a[i])) && (t == [] || !IsSpace(t[0]))
    ensures DropSpaces(a + t) == t
  {
    if a == [] {
      assert a + t == t;
    } else {
      assert (a + t)[1..] == a[1..] + t;
      DropLeading(a[1..], t);
    }
  }

  lemma SplitFirst(s: string, a: string, w: string, rest: string)
    requires Splits(s, a, w, rest)
    ensures FirstWord(s) == w
  {
    assert s == a + (w + rest);
    DropLeading(a, w + rest);
    WordOf(w, rest);
  }

  lemma {:induction false} TrimKeepsWord(t: string)
    ensures WordAt(TrimRight(t)) == WordAt(t)
  {
    hide IsSpace, WordAt;
    if t != [] && IsSpace(t[|t| - 1]) {
      var shorter, w := t[..|t| - 1], WordAt(t);
      assert w != t;
      assert |w| != |t|;
      assert shorter == w + t[|w|..|t| - 1];
      WordOf(w, t[|w|..|t| - 1]);
      TrimKeepsWord(shorter);
    }
  }

  lemma StripKeepsWord(s: string)
    ensures FirstWord(Strip(s)) == FirstWord(s)
  {
    hide IsSpace, DropSpaces, TrimRight, WordAt;
    var t := DropSpaces(s);
    var u := TrimRight(t);
    TrimKeepsWord(t);
    assert u != [] ==> u[0] == t[0];
    DropLeading([], u);
    assert [] + u == u;
  }

  // ----- comments -----

  lemma NoMarkBehind(p: string, m: string)
    requires p != [] && !Contains(p, m)
    ensures !StartsWith(p, m) && !Contains(p[1..], m)
  {
  }

  lemma NoMarkAt(p: string, rest: string, m: string)
    requires p != [] && |m| == 2 && !StartsWith(p, m) && (rest == [] || rest[0] != m[1])
    ensures !StartsWith(p + rest, m)
  {
    var s := p + rest;
    assert StartsWith(s, m) <==> |s| >= 2 && s[0] == m[0] && s[1] == m[1];
    assert StartsWith(p, m) <==> |p| >= 2 && p[0] == m[0] && p[1] == m[1];
  }

  /** The line-comment cleaner copies text that neither contains nor completes the mark. */
  lemma {:induction false} LineKeeps(p: string, rest: string)
    requires !Contains(p, "--") && (rest == [] || rest[0] != '-')
    ensures StripLineComments(p + rest) == p + StripLineComments(rest)
  {
    hide Contains, StartsWith, DropLine;
    if p == [] {
      assert p + rest == rest;
    } else {
      NoMarkBehind(p, "--");
      NoMarkAt(p, rest, "--");
      assert (p + rest)[1..] == p[1..] + rest && (p + rest)[0] == p[0];
      LineKeeps(p[1..], rest);
      assert p == [p[0]] + p[1..];
    }
  }

  lemma {:induction false} BlockKeeps(p: string, rest: string)
    requires !Contains(p, "/*") && (rest == [] || rest[0] != '*')
    ensures StripBlockComments(p + rest) == p + StripBlockComments(rest)
  {
    hide Contains, StartsWith, AfterClose;
    if p == [] {
      assert p + rest == rest;
    } else {
      NoMarkBehind(p, "/*");
      NoMarkAt(p, rest, "/*");
      assert (p + rest)[1..] == p[1..] + rest && (p + rest)[0] == p[0];
      BlockKeeps(p[1..], rest);
      assert p == [p[0]] + p[1..];
    }
  }

  predicate HasMark(w: string) {
    Contains(w, "--") || Contains(w, "/*")
  }

  lemma {:induction false} SpacesHaveNoMark(a: string, w: string, m: string)
    requires (forall i :: 0 <= i < |a| ==> IsSpace(a[i])) && m != [] && !IsSpace(m[0])
    ensures Contains(a + w, m) <==> Contains(w, m)
  {
    if a == [] {
      assert a + w == w;
    } else {
      assert (a + w)[1..] == a[1..] + w;
      SpacesHaveNoMark(a[1..], w, m);
      assert (a + w)[0] == a[0];
    }
  }

  lemma FirstStays(c: char, t: string)
    ensures IsSpace(c) ==> StripLineComments([c] + t) == [c] + StripLineComments(t)
    ensures IsSpace(c) ==> StripBlockComments([c] + t) == [c] + StripBlockComments(t)
  {
    assert ([c] + t)[1..] == t && ([c] + t)[0] == c;
  }

  /** A first word without a comment mark stays the first word when comments are taken out. */
  lemma CommentsKeepWord(s: string)
    requires !HasMark(FirstWord(s))
    ensures FirstWord(Strip(StripSqlComments(s))) == FirstWord(s)
  {
    hide FirstWord, Strip, StripLineComments, StripBlockComments, Contains;
    var w := FirstWord(s);
    var a, rest := SplitWord(s);
    SpacesHaveNoMark(a, w, "--");
    SpacesHaveNoMark(a, w, "/*");
    LineKeeps(a + w, rest);
    var rest1 := StripLineComments(rest);
    if rest == [] { EmptyStays(); } else { assert rest == [rest[0]] + rest[1..]; FirstStays(rest[0], rest[1..]); }
    BlockKeeps(a + w, rest1);
    var rest2 := StripBlockComments(rest1);
    if rest1 == [] { EmptyStays(); } else { assert rest1 == [rest1[0]] + rest1[1..]; FirstStays(rest1[0], rest1[1..]); }
    SplitFirst(a + w + rest2, a, w, rest2);
    StripKeepsWord(StripSqlComments(s));
  }

  lemma EmptyStays()
    ensures StripLineComments([]) == [] && StripBlockComments([]) == []
  {
  }

  // ----- occurrences -----

  lemma {:induction false} ContainsInSuffix(s: string, k: nat, n: string)
    requires k <= |s| && Contains(s[k..], n)
    ensures Contains(s, n)
  {
    if k > 0 {
      assert s[1..][k - 1..] == s[k..];
      ContainsInSuffix(s[1..], k - 1, n);
    } else {
      assert s[k..] == s;
    }
  }

  lemma {:induction false} ContainsInPrefix(s: string, k: nat, n: string)
    requires k <= |s| && Contains(s[..k], n)
    ensures Contains(s, n)
  {
    if !StartsWith(s[..k], n) {
      assert s[..k][1..] == s[1..][..k - 1];
      ContainsInPrefix(s[1..], k - 1, n);
    }
  }

  lemma StripIsInside(s: string, n: string)
    requires Contains(Strip(s), n)
    ensures Contains(s, n)
  {
    var t := DropSpaces(s);
    assert t[..|Strip(s)|] == Strip(s);
    ContainsInPrefix(t, |Strip(s)|, n);
    ContainsInSuffix(s, |s| - |t|, n);
  }

  lemma {:induction false} TrimTail(t: string)
    requires t != [] && TrimRight(t[1..]) != []
    ensures TrimRight(t) == [t[0]] + TrimRight(t[1..])
  {
    hide IsSpace;
    var n := |t|;
    assert t == [t[0]] + t[1..];
    if IsSpace(t[n - 1]) {
      assert t[..n - 1][1..] == t[1..][..n - 2];
      TrimTail(t[..n - 1]);
    }
  }

  lemma {:induction false} TrimKeepsOccurrence(t: string, w: string)
    requires NoSpace(w) && w != [] && Contains(t, w)
    ensures Contains(TrimRight(t), w)
  {
    hide IsSpace, TrimRight;
    if StartsWith(t, w) {
      assert t[|w| - 1] == w[|w| - 1];
      TrimReaches(t, |w| - 1);
      assert t[..|w|] == w;
    } else {
      TrimKeepsOccurrence(t[1..], w);
      assert TrimRight(t[1..]) != [];
      TrimTail(t);
      assert TrimRight(t)[1..] == TrimRight(t[1..]);
    }
  }

  lemma StripKeepsOccurrence(s: string, w: string)
    requires NoSpace(w) && w != [] && Contains(s, w)
    ensures Contains(Strip(s), w)
  {
    hide IsSpace, TrimRight, DropSpaces;
    DropKeepsOccurrence(s, w);
    TrimKeepsOccurrence(DropSpaces(s), w);
  }

  lemma {:induction false} DropLineIsSuffix(s: string)
    ensures DropLine(s) == s[|s| - |DropLine(s)|..]
  {
    if s != [] && s[0] != '\n' {
      DropLineIsSuffix(s[1..]);
    }
  }

  lemma {:induction false} AfterCloseIsSuffix(s: string)
    requires AfterClose(s).Some?
    ensures var t := AfterClose(s).value; t == s[|s| - |t|..]
  {
    if s != [] && !StartsWith(s, "*/") {
      AfterCloseIsSuffix(s[1..]);
    }
  }

  lemma {:induction false} LineAddsNoPrefix(s: string, w: string)
    requires NoSpace(w) && StartsWith(StripLineComments(s), w)
    ensures StartsWith(s, w)
  {
    if w != [] {
      var t := StripLineComments(s);
      assert t[0] == w[0];
      assert !StartsWith(s, "--") && t == [s[0]] + StripLineComments(s[1..]);
      assert w[1..] <= t[1..];
      LineAddsNoPrefix(s[1..], w[1..]);
      assert w == [w[0]] + w[1..] && s == [s[0]] + s[1..];
    }
  }

  lemma {:induction false} BlockAddsNoPrefix(s: string, w: string)
    requires NoSpace(w) && StartsWith(StripBlockComments(s), w)
    ensures StartsWith(s, w)
  {
    if w != [] {
      var t := StripBlockComments(s);
      assert t[0] == w[0];
      assert t == [s[0]] + StripBlockComments(s[1..]);
      assert w[1..] <= t[1..];
      BlockAddsNoPrefix(s[1..], w[1..]);
      assert w == [w[0]] + w[1..] && s == [s[0]] + s[1..];
    }
  }

  /** Taking line comments out never puts a word together. */
  lemma {:induction false} LineAddsNoWord(s: string, w: string)
    requires NoSpace(w) && w != [] && Contains(StripLineComments(s), w)
    ensures Contains(s, w)
    decreases |s|
  {
    hide DropLine;
    var t := StripLineComments(s);
    if StartsWith(t, w) {
      LineAddsNoPrefix(s, w);
    } else if StartsWith(s, "--") {
      var u := DropLine(s[2..]);
      assert t[1..] == StripLineComments(u);
      LineAddsNoWord(u, w);
      DropLineIsSuffix(s[2..]);
      ContainsInSuffix(s[2..], |s[2..]| - |u|, w);
      ContainsInSuffix(s, 2, w);
    } else {
      assert t[1..] == StripLineComments(s[1..]);
      LineAddsNoWord(s[1..], w);
    }
  }

  lemma {:induction false} BlockAddsNoWord(s: string, w: string)
    requires NoSpace(w) && w != [] && Contains(StripBlockComments(s), w)
    ensures Contains(s, w)
    decreases |s|
  {
    hide AfterClose;
    var t := StripBlockComments(s);
    if StartsWith(t, w) {
      BlockAddsNoPrefix(s, w);
    } else if StartsWith(s, "/*") && AfterClose(s[2..]).Some? {
      var u := AfterClose(s[2..]).value;
      assert t[1..] == StripBlockComments(u);
      BlockAddsNoWord(u, w);
      AfterCloseIsSuffix(s[2..]);
      ContainsInSuffix(s[2..], |s[2..]| - |u|, w);
      ContainsInSuffix(s, 2, w);
    } else {
      assert t[1..] == StripBlockComments(s[1..]);
      BlockAddsNoWord(s[1..], w);
    }
  }

  /** A word that occurs in the cleaned text occurs in the text. */
  lemma CleaningAddsNoWord(s: string, w: string)
    requires NoSpace(w) && w != [] && Contains(Strip(StripSqlComments(s)), w)
    ensures Contains(s, w)
  {
    hide Contains, Strip, StripLineComments, StripBlockComments;
    StripIsInside(StripSqlComments(s), w);
    BlockAddsNoWord(StripLineComments(s), w);
    LineAddsNoWord(s, w);
  }

  // ----- what the text starts with -----

  lemma TrimReaches(s: string, k: nat)
    requires k < |s| && !IsSpace(s[k])
    ensures k < |TrimRight(s)|
  {
    hide IsSpace, TrimRight;
  }

  lemma TrimKeepsStart(p: string, rest: string)
    requires p != [] && NoSpace(p)
    ensures StartsWith(Strip(p + rest), p)
  {
    hide IsSpace, TrimRight, DropSpaces, StartsWith;
    var s := p + rest;
    EndsOfWord(p, rest);
    NothingToDrop(s);
    TrimReaches(s, |p| - 1);
    PrefixOfPrefix(p, s, TrimRight(s));
  }

  lemma EndsOfWord(p: string, rest: string)
    requires p != [] && NoSpace(p)
    ensures var s := p + rest; p <= s && !IsSpace(s[0]) && !IsSpace(s[|p| - 1])
  {
    hide IsSpace;
    assert !IsSpace(p[0]) && !IsSpace(p[|p| - 1]);
  }

  lemma NothingToDrop(s: string)
    requires s != [] && !IsSpace(s[0])
    ensures DropSpaces(s) == s
  {
    hide IsSpace;
  }

  lemma PrefixOfPrefix(p: string, s: string, t: string)
    requires p <= s && t <= s && |p| <= |t|
    ensures StartsWith(t, p)
  {
    assert forall i :: 0 <= i < |p| ==> t[i] == s[i] == p[i];
  }

  predicate IsLetters(p: string) {
    forall i :: 0 <= i < |p| ==> 'A' <= p[i] <= 'Z'
  }

  /** Text without a dash or a slash is copied, whatever follows it. */
  lemma {:induction false} LineCopies(p: string, rest: string)
    requires forall i :: 0 <= i < |p| ==> p[i] != '-'
    ensures StripLineComments(p + rest) == p + StripLineComments(rest)
  {
    hide DropLine;
    if p == [] {
      assert p + rest == rest;
    } else {
      var s := p + rest;
      assert s[1..] == p[1..] + rest && s[0] == p[0];
      assert "--"[0] == '-';
      LineCopies(p[1..], rest);
      assert p == [p[0]] + p[1..];
    }
  }

  lemma {:induction false} BlockCopies(p: string, rest: string)
    requires forall i :: 0 <= i < |p| ==> p[i] != '/'
    ensures StripBlockComments(p + rest) == p + StripBlockComments(rest)
  {
    hide AfterClose;
    if p == [] {
      assert p + rest == rest;
    } else {
      var s := p + rest;
      assert s[1..] == p[1..] + rest && s[0] == p[0];
      assert "/*"[0] == '/';
      BlockCopies(p[1..], rest);
      assert p == [p[0]] + p[1..];
    }
  }

  lemma SqlCopies(a: string, p: string, rest: string)
    requires (forall i :: 0 <= i < |a| ==> IsSpace(a[i])) && IsLetters(p)
    ensures StripSqlComments(a + (p + rest)) == a + (p + StripSqlComments(rest))
  {
    hide StripLineComments, StripBlockComments;
    LineCopies(a, p + rest);
    LineCopies(p, rest);
    BlockCopies(a, p + StripLineComments(rest));
    BlockCopies(p, StripLineComments(rest));
  }

  lemma SplitKeyword(s: string, p: string) returns (a: string, rest: string)
    requires p != [] && StartsWith(Strip(s), p)
    ensures s == a + (p + rest) && forall i :: 0 <= i < |a| ==> IsSpace(a[i])
  {
    hide IsSpace, TrimRight, DropSpaces;
    var t := DropSpaces(s);
    a := s[..|s| - |t|];
    assert p <= Strip(s) <= t;
    rest := t[|p|..];
    assert t == p + rest && s == a + t;
  }

  lemma StripLeading(a: string, p: string, rest: string)
    requires p != [] && NoSpace(p) && forall i :: 0 <= i < |a| ==> IsSpace(a[i])
    ensures StartsWith(Strip(a + (p + rest)), p)
  {
    hide IsSpace, TrimRight, DropSpaces;
    var t := p + rest;
    DropLeading(a, t);
    DropLeading([], t);
    assert [] + t == t;
    TrimKeepsStart(p, rest);
  }

  /** A keyword that starts the text still starts it when comments are taken out. */
  lemma CleaningKeepsKeyword(s: string, p: string)
    requires p != [] && IsLetters(p) && StartsWith(Strip(s), p)
    ensures StartsWith(Strip(StripSqlComments(s)), p)
  {
    hide StripSqlComments, Strip;
    var a, rest := SplitKeyword(s, p);
    SqlCopies(a, p, rest);
    StripLeading(a, p, StripSqlComments(rest));
  }

  // ----- white-space runs -----

  /** Starts with no space, and has only single, plain spaces inside. */
  ghost predicate SingleSpaced(n: string) {
    forall i :: 0 <= i < |n| && IsSpace(n[i]) ==> n[i] == ' ' && 0 < i && !IsSpace(n[i - 1])
  }

  /** As `SingleSpaced`, but may start with the single space. */
  ghost predicate SpacedInside(n: string) {
    forall i :: 0 <= i < |n| && IsSpace(n[i]) ==> n[i] == ' ' && (0 < i ==> !IsSpace(n[i - 1]))
  }

  lemma {:induction false} CollapseKeepsPrefix(s: string, n: string)
    requires SpacedInside(n) && StartsWith(s, n)
    ensures StartsWith(Collapse(s), n)
  {
    hide IsSpace, DropSpaces;
    if n != [] {
      assert n[0] == s[0] && n[1..] <= s[1..];
      CollapseKeepsPrefix(s[1..], n[1..]);
      if IsSpace(s[0]) {
        SpaceThenWord(s, n);
      }
      assert n == [n[0]] + n[1..];
    }
  }

  lemma SpaceThenWord(s: string, n: string)
    requires SpacedInside(n) && n != [] && StartsWith(s, n) && IsSpace(s[0])
    ensures n[0] == ' ' && (n[1..] == [] || DropSpaces(s[1..]) == s[1..])
  {
    hide IsSpace, DropSpaces;
    assert n[0] == s[0];
    if |n| > 1 {
      assert !IsSpace(n[1]);
      assert s[1..][0] == n[1];
      assert |DropSpaces(s[1..])| == |s[1..]|;
    }
  }

  lemma {:induction false} DropKeepsOccurrence(s: string, n: string)
    requires n != [] && !IsSpace(n[0]) && Contains(s, n)
    ensures Contains(DropSpaces(s), n)
  {
    if s != [] && IsSpace(s[0]) {
      assert !StartsWith(s, n);
      DropKeepsOccurrence(s[1..], n);
    }
  }

  /** Collapsing white space never loses a single-spaced pattern. */
  lemma {:induction false} CollapseKeepsPattern(s: string, n: string)
    requires n != [] && SingleSpaced(n) && Contains(s, n)
    ensures Contains(Collapse(s), n)
    decreases |s|
  {
    if StartsWith(s, n) {
      CollapseKeepsPrefix(s, n);
    } else if IsSpace(s[0]) {
      DropKeepsOccurrence(s[1..], n);
      CollapseKeepsPattern(DropSpaces(s[1..]), n);
      assert Collapse(s)[1..] == Collapse(DropSpaces(s[1..]));
    } else {
      CollapseKeepsPattern(s[1..], n);
      assert Collapse(s)[1..] == Collapse(s[1..]);
    }
  }

  lemma PlainNeedle(n: string)
    requires n != [] && forall i :: 0 <= i < |n| ==> n[i] == ' ' || '!' <= n[i] <= '~'
    requires n[0] != ' ' && forall i :: 0 < i < |n| && n[i] == ' ' ==> n[i - 1] != ' '
    ensures SingleSpaced(n)
  {
  }

  lemma RemovalNeedles()
    ensures SingleSpaced("rm -rf") && SingleSpaced("rm -fr") && SingleSpaced("rmdir /s")
  {
    hide SingleSpaced;
    PlainNeedle("rm -rf");
    PlainNeedle("rm -fr");
    PlainNeedle("rmdir /s");
  }

  lemma DeviceNeedles()
    ensures SingleSpaced("of=/dev/") && SingleSpaced("> /dev/sd") && SingleSpaced(":(){:|:&};:")
  {
    hide SingleSpaced;
    PlainNeedle("of=/dev/");
    PlainNeedle("> /dev/sd");
    PlainNeedle(":(){:|:&};:");
  }

  lemma DownloadNeedles()
    ensures SingleSpaced("curl ") && SingleSpaced("| sh") && SingleSpaced("| bash") && SingleSpaced("wget ")
  {
    hide SingleSpaced;
    PlainNeedle("curl ");
    PlainNeedle("| sh");
    PlainNeedle("| bash");
    PlainNeedle("wget ");
  }

  lemma PrivilegeNeedles()
    ensures SingleSpaced("sudo ") && SingleSpaced("chmod +s") && SingleSpaced("setuid")
  {
    hide SingleSpaced;
    PlainNeedle("sudo ");
    PlainNeedle("chmod +s");
    PlainNeedle("setuid");
  }

  lemma NeedlesAreSingleSpaced(name: string)
    ensures forall n :: n in Needles(name) ==> n != [] && SingleSpaced(n)
  {
    hide SingleSpaced;
    RemovalNeedles();
    DeviceNeedles();
    DownloadNeedles();
    PrivilegeNeedles();
  }

  lemma LowerKeepsSpacing(n: string)
    requires SingleSpaced(n)
    ensures SingleSpaced(Lower(n))
  {
  }

  lemma {:induction false} LowerDropSpaces(s: string)
    ensures DropSpaces(Lower(s)) == Lower(DropSpaces(s))
  {
    hide IsSpace, LowerChar;
    if s != [] {
      LowerSpace(s[0]);
      assert Lower(s)[1..] == Lower(s[1..]);
      LowerDropSpaces(s[1..]);
    }
  }

  lemma LowerSpace(c: char)
    ensures IsSpace(LowerChar(c)) <==> IsSpace(c)
  {
  }

  lemma {:induction false} LowerCollapse(s: string)
    ensures Collapse(Lower(s)) == Lower(Collapse(s))
    decreases |s|
  {
    hide IsSpace, LowerChar;
    if s != [] {
      LowerSpace(s[0]);
      assert Lower(s)[1..] == Lower(s[1..]);
      if IsSpace(s[0]) {
        LowerDropSpaces(s[1..]);
        LowerCollapse(DropSpaces(s[1..]));
        assert LowerChar(' ') == ' ' by { LowerBlank(); }
        LowerCons(' ', Collapse(DropSpaces(s[1..])));
      } else {
        LowerCollapse(s[1..]);
        LowerCons(s[0], Collapse(s[1..]));
      }
    }
  }

  lemma LowerBlank()
    ensures LowerChar(' ') == ' '
  {
  }

  lemma LowerCons(c: char, s: string)
    ensures Lower([c] + s) == [LowerChar(c)] + Lower(s)
  {
  }

  // ----- words that comments can cut -----

  lemma {:induction false} LineShrinks(s: string)
    ensures |StripLineComments(s)| <= |s|
    ensures Contains(s, "--") ==> |StripLineComments(s)| < |s|
    decreases |s|
  {
    if s == [] {
    } else if StartsWith(s, "--") {
      LineShrinks(DropLine(s[2..]));
    } else {
      LineShrinks(s[1..]);
    }
  }

  lemma {:induction false} BlockShrinks(s: string)
    ensures |StripBlockComments(s)| <= |s|
    decreases |s|
  {
    if s == [] {
    } else if StartsWith(s, "/*") && AfterClose(s[2..]).Some? {
      BlockShrinks(AfterClose(s[2..]).value);
    } else {
      BlockShrinks(s[1..]);
    }
  }

  lemma {:induction false} CloseIsFound(t: string)
    ensures AfterClose(t + " */").Some?
  {
    var s := t + " */";
    if t == [] {
      assert s == " */" && s[1..] == "*/";
      assert StartsWith(s[1..], "*/");
    } else if !StartsWith(s, "*/") {
      assert s[1..] == t[1..] + " */";
      CloseIsFound(t[1..]);
    }
  }

  /** A closed block comment that starts inside a word leaves less than the word. */
  lemma {:induction false} BlockCutsWord(v: string)
    requires NoSpace(v) && Contains(v, "/*")
    ensures |WordAt(StripBlockComments(v + " */"))| < |v|
  {
    hide IsSpace;
    var s := v + " */";
    if StartsWith(v, "/*") {
      assert s[2..] == v[2..] + " */" && StartsWith(s, "/*");
      CloseIsFound(v[2..]);
      assert StripBlockComments(s)[0] == ' ';
      assert IsSpace(' ') by { BlankIsSpace(); }
    } else {
      assert s[1..] == v[1..] + " */" && s[0] == v[0];
      OpensInside(v);
      BlockCutsWord(v[1..]);
    }
  }

  lemma BlankIsSpace()
    ensures IsSpace(' ')
  {
  }

  lemma DropFirst(t: string)
    requires t != []
    ensures IsSpace(t[0]) ==> DropSpaces(t) == DropSpaces(t[1..])
    ensures !IsSpace(t[0]) ==> DropSpaces(t) == t
  {
    hide IsSpace;
  }

  lemma BlockAtStart(v: string)
    requires StartsWith(v, "/*")
    ensures |FirstWord(StripBlockComments(v + " */"))| < |v|
  {
    hide IsSpace, WordAt, DropSpaces, AfterClose;
    var s := v + " */";
    assert s[2..] == v[2..] + " */" && StartsWith(s, "/*");
    CloseIsFound(v[2..]);
    var u := AfterClose(s[2..]).value;
    var t := StripBlockComments(s);
    BlockShrinks(u);
    assert t == [' '] + StripBlockComments(u);
    BlankIsSpace();
    DropFirst(t);
    assert t[1..] == StripBlockComments(u);
  }

  lemma BlockCutsFirstWord(v: string)
    requires NoSpace(v) && Contains(v, "/*")
    ensures |FirstWord(StripBlockComments(v + " */"))| < |v|
  {
    hide IsSpace, WordAt, DropSpaces, AfterClose;
    if StartsWith(v, "/*") {
      BlockAtStart(v);
    } else {
      BlockCutsWord(v);
      OpensInside(v);
      assert v != [] && !IsSpace(v[0]);
      assert (v + " */")[0] == v[0];
      DropFirst(StripBlockComments(v + " */"));
    }
  }

  lemma OpensInside(v: string)
    requires Contains(v, "/*") && !StartsWith(v, "/*")
    ensures !StartsWith(v + " */", "/*")
  {
    var s := v + " */";
    assert |v| >= 2 by {
      assert Contains(v[1..], "/*");
      assert v[1..] != [];
    }
    assert s[0] == v[0] && s[1] == v[1];
    assert StartsWith(v, "/*") <==> v[0] == '/' && v[1] == '*';
    assert StartsWith(s, "/*") <==> s[0] == '/' && s[1] == '*';
  }

  // ----- what the string operations mean -----

  /** Containing is having as a part. */
  lemma {:induction false} ContainsIsInfix(s: string, n: string)
    ensures Contains(s, n) <==> exists k :: 0 <= k && k + |n| <= |s| && s[k..][..|n|] == n
  {
    assert StartsWith(s, n) <==> |n| <= |s| && s[0..][..|n|] == n;
    if s != [] {
      ContainsIsInfix(s[1..], n);
      if k :| 0 <= k && k + |n| <= |s[1..]| && s[1..][k..][..|n|] == n {
        assert s[k + 1..] == s[1..][k..];
      }
      if k :| 0 <= k && k + |n| <= |s| && s[k..][..|n|] == n {
        assert k > 0 ==> s[1..][k - 1..] == s[k..];
      }
    }
  }

  /** Two characters that differ at most in case. */
  predicate SameLetter(c: char, d: char) {
    || c == d
    || ('a' <= c <= 'z' && 'A' <= d <= 'Z' && c - 'a' == d - 'A')
    || ('A' <= c <= 'Z' && 'a' <= d <= 'z' && c - 'A' == d - 'a')
  }

  ghost predicate SameIgnoringCase(s: string, t: string) {
    |s| == |t| && forall i :: 0 <= i < |s| ==> SameLetter(s[i], t[i])
  }

  lemma LettersOfOneCase(c: char, d: char)
    ensures UpperChar(c) == UpperChar(d) <==> SameLetter(c, d)
    ensures LowerChar(c) == LowerChar(d) <==> SameLetter(c, d)
    ensures SameLetter(c, UpperChar(c)) && !('a' <= UpperChar(c) <= 'z')
    ensures SameLetter(c, LowerChar(c)) && !('A' <= LowerChar(c) <= 'Z')
  {
  }

  /** Mapping the case forgets exactly the case. */
  lemma CaseIsAllThatIsLost(s: string, t: string)
    ensures Upper(s) == Upper(t) <==> SameIgnoringCase(s, t)
    ensures Lower(s) == Lower(t) <==> SameIgnoringCase(s, t)
    ensures forall c :: c in Upper(s) ==> !('a' <= c <= 'z')
    ensures forall c :: c in Lower(s) ==> !('A' <= c <= 'Z')
  {
    hide UpperChar, LowerChar, SameLetter;
    forall c, d
      ensures (UpperChar(c) == UpperChar(d) <==> SameLetter(c, d)) && (LowerChar(c) == LowerChar(d) <==> SameLetter(c, d))
      ensures !('a' <= UpperChar(c) <= 'z') && !('A' <= LowerChar(c) <= 'Z')
    {
      LettersOfOneCase(c, d);
    }
    if Upper(s) == Upper(t) {
      forall i | 0 <= i < |s| ensures SameLetter(s[i], t[i]) {
        assert Upper(s)[i] == Upper(t)[i];
      }
    }
    if Lower(s) == Lower(t) {
      forall i | 0 <= i < |s| ensures SameLetter(s[i], t[i]) {
        assert Lower(s)[i] == Lower(t)[i];
      }
    }
  }

  lemma {:induction false} DropLineStops(c: string, rest: string)
    requires (forall i :: 0 <= i < |c| ==> c[i] != '\n') && (rest == [] || rest[0] == '\n')
    ensures DropLine(c + rest) == rest
  {
    var s := c + rest;
    if c == [] {
      assert s == rest;
    } else {
      assert s[1..] == c[1..] + rest && s[0] == c[0];
      DropLineStops(c[1..], rest);
    }
  }

  lemma CommentBecomesSpace(c: string, rest: string)
    requires (forall i :: 0 <= i < |c| ==> c[i] != '\n') && (rest == [] || rest[0] == '\n')
    ensures StripLineComments("--" + c + rest) == [' '] + StripLineComments(rest)
  {
    hide Contains, DropLine;
    var tail := "--" + c + rest;
    DropLineStops(c, rest);
    assert tail[2..] == c + rest && StartsWith(tail, "--");
  }

  /** A line comment, wherever it stands, becomes one space and ends before the line break. */
  lemma LineCommentIsCut(a: string, c: string, rest: string)
    requires !Contains(a, "--") && (a == [] || a[|a| - 1] != '-')
    requires (forall i :: 0 <= i < |c| ==> c[i] != '\n') && (rest == [] || rest[0] == '\n')
    ensures StripLineComments(a + ("--" + c + rest)) == a + [' '] + StripLineComments(rest)
  {
    hide Contains, DropLine, StripLineComments;
    CommentBecomesSpace(c, rest);
    LineKeepsBefore(a, "--" + c + rest);
    assert a + ([' '] + StripLineComments(rest)) == a + [' '] + StripLineComments(rest);
  }

  lemma {:induction false} LineKeepsBefore(p: string, rest: string)
    requires !Contains(p, "--") && (p == [] || p[|p| - 1] != '-')
    ensures StripLineComments(p + rest) == p + StripLineComments(rest)
  {
    hide Contains, DropLine, StartsWith;
    if p == [] {
      assert p + rest == rest;
    } else {
      var s := p + rest;
      NoMarkBehind(p, "--");
      assert s[1..] == p[1..] + rest && s[0] == p[0];
      NoMarkBefore(p, rest, "--");
      LineKeepsBefore(p[1..], rest);
      assert p == [p[0]] + p[1..];
    }
  }

  lemma NoMarkBefore(p: string, rest: string, m: string)
    requires p != [] && |m| == 2 && !StartsWith(p, m) && p[|p| - 1] != m[0]
    ensures !StartsWith(p + rest, m)
  {
    var s := p + rest;
    assert StartsWith(s, m) <==> |s| >= 2 && s[0] == m[0] && s[1] == m[1];
    assert StartsWith(p, m) <==> |p| >= 2 && p[0] == m[0] && p[1] == m[1];
  }

  lemma {:induction false} CloseIsFirst(c: string, rest: string)
    requires !Contains(c, "*/") && (c == [] || c[|c| - 1] != '*')
    ensures AfterClose(c + ("*/" + rest)) == Some(rest)
  {
    hide Contains;
    var tail := "*/" + rest;
    var s := c + tail;
    if c == [] {
      assert s == tail && tail[2..] == rest && StartsWith(tail, "*/");
    } else {
      NoMarkBehind(c, "*/");
      NoMarkBefore(c, tail, "*/");
      assert s[1..] == c[1..] + tail;
      CloseIsFirst(c[1..], rest);
    }
  }

  lemma {:induction false} NeverClosed(c: string)
    requires !Contains(c, "*/")
    ensures AfterClose(c) == None
  {
    if c != [] {
      NeverClosed(c[1..]);
    }
  }

  lemma {:induction false} BlockKeepsBefore(p: string, rest: string)
    requires !Contains(p, "/*") && (p == [] || p[|p| - 1] != '/')
    ensures StripBlockComments(p + rest) == p + StripBlockComments(rest)
  {
    hide Contains, AfterClose, StartsWith;
    if p == [] {
      assert p + rest == rest;
    } else {
      var s := p + rest;
      NoMarkBehind(p, "/*");
      assert s[1..] == p[1..] + rest && s[0] == p[0];
      NoMarkBefore(p, rest, "/*");
      BlockKeepsBefore(p[1..], rest);
      assert p == [p[0]] + p[1..];
    }
  }

  /** A closed block comment, wherever it stands, becomes one space and ends at its first close. */
  lemma BlockCommentIsCut(a: string, c: string, rest: string)
    requires !Contains(a, "/*") && (a == [] || a[|a| - 1] != '/')
    requires !Contains(c, "*/") && (c == [] || c[|c| - 1] != '*')
    ensures StripBlockComments(a + ("/*" + (c + ("*/" + rest)))) == a + [' '] + StripBlockComments(rest)
  {
    hide Contains, AfterClose;
    var tail := "/*" + (c + ("*/" + rest));
    assert tail[2..] == c + ("*/" + rest) && StartsWith(tail, "/*");
    CloseIsFirst(c, rest);
    assert StripBlockComments(tail) == [' '] + StripBlockComments(rest);
    BlockKeepsBefore(a, tail);
  }

  /** One that is never closed stays, and so does what follows it. */
  lemma {:induction false} UnclosedStays(s: string)
    requires !Contains(s, "*/")
    ensures StripBlockComments(s) == s
  {
    if s != [] {
      UnclosedStays(s[1..]);
      if StartsWith(s, "/*") {
        assert s[2..] == s[1..][1..];
        assert !Contains(s[1..], "*/");
        assert !Contains(s[2..], "*/");
        NeverClosed(s[2..]);
      }
    }
  }

  // ----- the shell patterns -----

  /** The named patterns and their texts. */
  const PATTERNS: set<(string, string)> := {
    ("recursive_force_remove", "rm -rf"), ("recursive_force_remove", "rm -fr"), ("recursive_force_remove", "rmdir /s"),
    ("device_write", "of=/dev/"), ("device_write", "> /dev/sd"),
    ("fork_bomb", ":(){:|:&};:"),
    ("piped_download_execute", "curl "), ("piped_download_execute", "| sh"), ("piped_download_execute", "| bash"),
    ("piped_download_execute", "wget "),
    ("privilege_escalation", "sudo "), ("privilege_escalation", "chmod +s"), ("privilege_escalation", "setuid")}

  lemma PatternTable(name: string, needle: string)
    ensures needle in Needles(name) <==> (name, needle) in PATTERNS
  {
  }
}
