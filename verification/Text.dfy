/** The string operations the policy conditions use, with ASCII case mapping. */
module Text {
  import opened Common

  // ----- order and sorted sets of strings -----

  predicate Less(a: string, b: string) {
    b != [] && (a == [] || a[0] < b[0] || (a[0] == b[0] && Less(a[1..], b[1..])))
  }

  lemma LessIsStrictOrder(a: string, b: string, c: string)
    ensures !Less(a, a)
    ensures Less(a, b) && Less(b, c) ==> Less(a, c)
    ensures Less(a, b) || a == b || Less(b, a)
    ensures Less(a, b) ==> !Less(b, a)
  {
    if a != [] && b != [] {
      LessIsStrictOrder(a[1..], b[1..], if c == [] then c else c[1..]);
      assert a == [a[0]] + a[1..] && b == [b[0]] + b[1..];
    } else if a != [] {
      LessIsStrictOrder(a[1..], b, c);
    }
  }

  ghost predicate Ascending(xs: seq<string>) {
    forall i, j :: 0 <= i < j < |xs| ==> Less(xs[i], xs[j])
  }

  function Insert(x: string, xs: seq<string>): (r: seq<string>)
    ensures forall c :: c in r <==> c == x || c in xs
  {
    if xs == [] then [x]
    else if x == xs[0] then xs
    else if Less(x, xs[0]) then [x] + xs
    else [xs[0]] + Insert(x, xs[1..])
  }

  lemma {:induction false} InsertKeepsAscending(x: string, xs: seq<string>)
    requires Ascending(xs)
    ensures Ascending(Insert(x, xs))
  {
    if xs != [] && x != xs[0] {
      if Less(x, xs[0]) {
        forall j | 0 <= j < |xs| ensures Less(x, xs[j]) { LessIsStrictOrder(x, xs[0], xs[j]); }
      } else {
        LessIsStrictOrder(x, xs[0], xs[0]);
        InsertKeepsAscending(x, xs[1..]);
        var r := Insert(x, xs[1..]);
        forall c | c in r ensures Less(xs[0], c) {}
      }
    }
  }

  /** `sorted(set(xs))` */
  function SortedDistinct(xs: seq<string>): (r: seq<string>)
    ensures forall c :: c in r <==> c in xs
  {
    if xs == [] then [] else Insert(xs[0], SortedDistinct(xs[1..]))
  }

  lemma {:induction false} SortedDistinctAscends(xs: seq<string>)
    ensures Ascending(SortedDistinct(xs))
  {
    if xs != [] {
      SortedDistinctAscends(xs[1..]);
      InsertKeepsAscending(xs[0], SortedDistinct(xs[1..]));
    }
  }

  lemma HasMember<T>(xs: seq<T>)
    ensures xs == [] || exists c :: c in xs
  {
    if xs != [] {
      assert xs[0] in xs;
    }
  }

  /** An ascending sequence is determined by its elements. */
  lemma {:induction false} AscendingIsUnique(a: seq<string>, b: seq<string>)
    requires Ascending(a) && Ascending(b) && forall c :: c in a <==> c in b
    ensures a == b
  {
    if a == [] {
      HasMember(b);
    } else {
      assert a[0] in b && b != [] && b[0] in a;
      var i :| 0 <= i < |b| && b[i] == a[0];
      var j :| 0 <= j < |a| && a[j] == b[0];
      LessIsStrictOrder(a[0], b[0], a[0]);
      assert a[0] == b[0];
      forall c ensures c in a[1..] <==> c in b[1..] {
        LessIsStrictOrder(a[0], a[0], a[0]);
        assert c in a[1..] ==> c in a && c != a[0];
        assert c in b[1..] ==> c in b && c != b[0];
      }
      AscendingIsUnique(a[1..], b[1..]);
    }
  }

  // ----- case, white space, words -----

  function UpperChar(c: char): char {
    if 'a' <= c <= 'z' then 'A' + (c - 'a') else c
  }

  function LowerChar(c: char): char {
    if 'A' <= c <= 'Z' then 'a' + (c - 'A') else c
  }

  function Upper(s: string): (r: string)
    ensures |r| == |s| && forall i :: 0 <= i < |s| ==> r[i] == UpperChar(s[i])
  {
    seq(|s|, i requires 0 <= i < |s| => UpperChar(s[i]))
  }

  function Lower(s: string): (r: string)
    ensures |r| == |s| && forall i :: 0 <= i < |s| ==> r[i] == LowerChar(s[i])
  {
    seq(|s|, i requires 0 <= i < |s| => LowerChar(s[i]))
  }

  function DropSpaces(s: string): (r: string)
    ensures |r| <= |s| && r == s[|s| - |r|..]
    ensures r != [] ==> !IsSpace(r[0])
    ensures forall i :: 0 <= i < |s| - |r| ==> IsSpace(s[i])
  {
    if s != [] && IsSpace(s[0]) then DropSpaces(s[1..]) else s
  }

  function TrimRight(s: string): (r: string)
    ensures r <= s
    ensures r != [] ==> !IsSpace(r[|r| - 1])
    ensures forall i :: |r| <= i < |s| ==> IsSpace(s[i])
  {
    if s != [] && IsSpace(s[|s| - 1]) then TrimRight(s[..|s| - 1]) else s
  }

  /** `s.strip()` */
  function Strip(s: string): string {
    TrimRight(DropSpaces(s))
  }

  function WordAt(s: string): (r: string)
    ensures r <= s
    ensures forall i :: 0 <= i < |r| ==> !IsSpace(r[i])
    ensures |r| < |s| ==> IsSpace(s[|r|])
  {
    if s == [] || IsSpace(s[0]) then [] else [s[0]] + WordAt(s[1..])
  }

  /** `s.strip().split(None, 1)[0]`, and the empty string when there is no word. */
  function FirstWord(s: string): string {
    WordAt(DropSpaces(s))
  }

  predicate StartsWith(s: string, prefix: string) {
    prefix <= s
  }

  /** `n in s` */
  predicate Contains(s: string, n: string) {
    StartsWith(s, n) || (s != [] && Contains(s[1..], n))
  }

  /** Every run of white space becomes one space. */
  function Collapse(s: string): string
    decreases |s|
  {
    if s == [] then []
    else if IsSpace(s[0]) then [' '] + Collapse(DropSpaces(s[1..]))
    else [s[0]] + Collapse(s[1..])
  }

  // ----- SQL comments -----

  function DropLine(s: string): (r: string)
    ensures |r| <= |s|
  {
    if s == [] || s[0] == '\n' then s else DropLine(s[1..])
  }

  /** Each comment from two dashes to the end of its line becomes one space. */
  function StripLineComments(s: string): string
    decreases |s|
  {
    if s == [] then []
    else if StartsWith(s, "--") then [' '] + StripLineComments(DropLine(s[2..]))
    else [s[0]] + StripLineComments(s[1..])
  }

  /** What follows the first end of a block comment in `s`. */
  function AfterClose(s: string): (r: Option<string>)
    ensures r.Some? ==> |r.value| + 2 <= |s|
  {
    if s == [] then None
    else if StartsWith(s, "*/") then Some(s[2..])
    else AfterClose(s[1..])
  }

  /** Each closed block comment becomes one space; an unclosed one stays. */
  function StripBlockComments(s: string): string
    decreases |s|
  {
    if s == [] then []
    else if StartsWith(s, "/*") && AfterClose(s[2..]).Some?
    then [' '] + StripBlockComments(AfterClose(s[2..]).value)
    else [s[0]] + StripBlockComments(s[1..])
  }

  function StripSqlComments(s: string): string {
    StripBlockComments(StripLineComments(s))
  }

  // ----- shell patterns -----

  function Needles(name: string): seq<string> {
    if name == "recursive_force_remove" then ["rm -rf", "rm -fr", "rmdir /s"]
    else if name == "device_write" then ["of=/dev/", "> /dev/sd"]
    else if name == "fork_bomb" then [":(){:|:&};:"]
    else if name == "piped_download_execute" then ["curl ", "| sh", "| bash", "wget "]
    else if name == "privilege_escalation" then ["sudo ", "chmod +s", "setuid"]
    else []
  }

  /** Some needle of some named pattern occurs in `lowered`. */
  predicate NeedleIn(lowered: string, names: seq<string>) {
    exists name, needle :: name in names && needle in Needles(name) && Contains(lowered, Lower(needle))
  }
}
