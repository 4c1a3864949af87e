/** Redaction (app/transform.py): overlapping spans are merged, then replaced by placeholders. The spans are
    whatever the patterns found in the text: any list of non-empty spans within it. */
module Redaction {
  import opened Text

  datatype Span = Span(start: nat, end: nat, tag: string)

  datatype Record = Record(transformation: string, spanCount: nat, labels: seq<string>, spans: seq<(nat, int)>)

  /** A label the table does not list has the lowest sensitivity. */
  function Sensitivity(tag: string): nat {
    if tag == "PEM_PRIVATE_KEY" then 6
    else if tag == "AWS_ACCESS_KEY" || tag == "PROVIDER_API_KEY" || tag == "JWT" then 5
    else if tag == "SSN" || tag == "CREDIT_CARD" then 4
    else if tag == "IBAN" then 3
    else if tag == "EMAIL" || tag == "PHONE" then 2
    else 0
  }

  // ----- sorting -----

  ghost predicate ByStart(spans: seq<Span>) {
    forall i, j :: 0 <= i < j < |spans| ==> spans[i].start <= spans[j].start
  }

  function InsertByStart(spans: seq<Span>, s: Span): (r: seq<Span>)
    ensures multiset(r) == multiset(spans) + multiset{s}
  {
    if spans == [] || spans[|spans| - 1].start <= s.start then spans + [s]
    else
      assert spans == spans[..|spans| - 1] + [spans[|spans| - 1]];
      InsertByStart(spans[..|spans| - 1], s) + [spans[|spans| - 1]]
  }

  lemma {:induction false} InsertKeepsOrder(spans: seq<Span>, s: Span)
    requires ByStart(spans)
    ensures ByStart(InsertByStart(spans, s))
  {
    if spans != [] && spans[|spans| - 1].start > s.start {
      var before, last := spans[..|spans| - 1], spans[|spans| - 1];
      InsertKeepsOrder(before, s);
      var r := InsertByStart(before, s);
      forall i | 0 <= i < |r| ensures r[i].start <= last.start {
        assert r[i] in multiset(r);
        assert r[i] in multiset(before) + multiset{s};
        assert r[i] == s || r[i] in before;
      }
    }
  }

  /** `sorted(spans, key=start)`: stable. */
  function SortByStart(spans: seq<Span>): (r: seq<Span>)
    ensures multiset(r) == multiset(spans)
  {
    if spans == [] then []
    else
      assert spans == spans[..|spans| - 1] + [spans[|spans| - 1]];
      InsertByStart(SortByStart(spans[..|spans| - 1]), spans[|spans| - 1])
  }

  lemma {:induction false} SortByStartSorts(spans: seq<Span>)
    ensures ByStart(SortByStart(spans))
    ensures forall s :: s in SortByStart(spans) <==> s in spans
  {
    if spans != [] {
      SortByStartSorts(spans[..|spans| - 1]);
      InsertKeepsOrder(SortByStart(spans[..|spans| - 1]), spans[|spans| - 1]);
    }
    forall s ensures s in SortByStart(spans) <==> s in spans {
      assert s in SortByStart(spans) <==> s in multiset(SortByStart(spans));
      assert s in spans <==> s in multiset(spans);
    }
  }

  // ----- merging -----

  function Widest(a: Span, b: Span): Span {
    Span(if a.start <= b.start then a.start else b.start,
         if a.end >= b.end then a.end else b.end,
         if Sensitivity(b.tag) > Sensitivity(a.tag) then b.tag else a.tag)
  }

  /** Spans that only touch are not merged. */
  function Absorb(merged: seq<Span>, s: Span): seq<Span> {
    if merged != [] && s.start < merged[|merged| - 1].end
    then merged[..|merged| - 1] + [Widest(merged[|merged| - 1], s)]
    else merged + [s]
  }

  function Merge(ordered: seq<Span>): seq<Span> {
    if ordered == [] then [] else Absorb(Merge(ordered[..|ordered| - 1]), ordered[|ordered| - 1])
  }

  lemma MergeNothing()
    ensures Merge(SortByStart([])) == []
  {
  }

  lemma MergePrefix(ordered: seq<Span>, i: nat)
    requires i < |ordered|
    ensures Merge(ordered[..i + 1]) == Absorb(Merge(ordered[..i]), ordered[i])
    ensures i == 0 ==> Merge(ordered[..1]) == [ordered[0]]
  {
    hide Sensitivity;
    assert ordered[..i + 1][..i] == ordered[..i];
  }

  method MergeOverlapping(spans: seq<Span>) returns (merged: seq<Span>)
    ensures merged == Merge(SortByStart(spans))
  {
    hide Sensitivity, SortByStart, Merge;
    if spans == [] {
      MergeNothing();
      return [];
    }
    var ordered := SortByStart(spans);
    assert |ordered| == |multiset(ordered)| == |multiset(spans)| == |spans|;
    merged := [ordered[0]];
    MergePrefix(ordered, 0);
    for i := 1 to |ordered|
      invariant merged == Merge(ordered[..i]) && merged != []
    {
      MergePrefix(ordered, i);
      var last := merged[|merged| - 1];
      var span := ordered[i];
      if span.start < last.end {
        var winner := if Sensitivity(span.tag) > Sensitivity(last.tag) then span else last;
        var wide := Span(if last.start <= span.start then last.start else span.start,
                         if last.end >= span.end then last.end else span.end, winner.tag);
        assert merged[|merged| - 1 := wide] == merged[..|merged| - 1] + [wide];
        merged := merged[|merged| - 1 := wide];
      } else {
        merged := merged + [span];
      }
    }
    assert ordered[..|ordered|] == ordered;
  }

  ghost predicate NonEmpty(spans: seq<Span>) {
    forall i :: 0 <= i < |spans| ==> spans[i].start < spans[i].end
  }

  ghost predicate Disjoint(spans: seq<Span>) {
    NonEmpty(spans) && forall i, j :: 0 <= i < j < |spans| ==> spans[i].end <= spans[j].start
  }

  predicate Within(s: Span, m: Span) {
    m.start <= s.start && s.end <= m.end
  }

  /** Position `p` is redacted. */
  ghost predicate Covers(spans: seq<Span>, p: int) {
    exists i :: 0 <= i < |spans| && spans[i].start <= p < spans[i].end
  }

  /** Some span runs across the boundary before position `p`. */
  ghost predicate Crosses(spans: seq<Span>, p: int) {
    exists i :: 0 <= i < |spans| && spans[i].start < p < spans[i].end
  }

  /** `m` carries the label of one of the spans it absorbed, and none of those is more sensitive. */
  ghost predicate LabelOk(spans: seq<Span>, m: Span) {
    && (exists i :: 0 <= i < |spans| && Within(spans[i], m) && spans[i].tag == m.tag)
    && (forall i :: 0 <= i < |spans| && Within(spans[i], m) ==> Sensitivity(spans[i].tag) <= Sensitivity(m.tag))
  }

  /** `merged` is the overlap-closure of `spans`. */
  ghost predicate IsMergeOf(merged: seq<Span>, spans: seq<Span>) {
    && Disjoint(merged)
    && (forall p :: Covers(merged, p) <==> Covers(spans, p))
    && (forall p :: Crosses(merged, p) <==> Crosses(spans, p))
    && (forall i :: 0 <= i < |spans| ==> Absorbed(merged, spans[i]))
    && (forall k :: 0 <= k < |merged| ==> LabelOk(spans, merged[k]))
  }

  ghost predicate Absorbed(merged: seq<Span>, s: Span) {
    exists k :: 0 <= k < |merged| && Within(s, merged[k])
  }

  lemma CoversAppend(spans: seq<Span>, s: Span, p: int)
    ensures Covers(spans + [s], p) <==> Covers(spans, p) || s.start <= p < s.end
    ensures Crosses(spans + [s], p) <==> Crosses(spans, p) || s.start < p < s.end
  {
    if i :| 0 <= i < |spans| && spans[i].start <= p < spans[i].end { assert (spans + [s])[i] == spans[i]; }
    if i :| 0 <= i < |spans| && spans[i].start < p < spans[i].end { assert (spans + [s])[i] == spans[i]; }
    assert (spans + [s])[|spans|] == s;
  }

  /** One more span, not starting before any other, keeps the closure. */
  lemma AbsorbKeeps(merged: seq<Span>, spans: seq<Span>, s: Span)
    requires IsMergeOf(merged, spans) && s.start < s.end
    requires forall k :: 0 <= k < |merged| ==> merged[k].start <= s.start
    requires NonEmpty(spans)
    ensures IsMergeOf(Absorb(merged, s), spans + [s])
    ensures forall k :: 0 <= k < |Absorb(merged, s)| ==> Absorb(merged, s)[k].start <= s.start
  {
    hide Covers, Crosses, Absorbed, LabelOk, Absorb, Disjoint;
    var out, all := Absorb(merged, s), spans + [s];
    AbsorbDisjoint(merged, s);
    forall p ensures (Covers(out, p) <==> Covers(all, p)) && (Crosses(out, p) <==> Crosses(all, p)) {
      AbsorbCovers(merged, s, p);
      CoversAppend(spans, s, p);
    }
    forall i | 0 <= i < |all| ensures Absorbed(out, all[i]) {
      assert i < |spans| ==> all[i] == spans[i] && Absorbed(merged, spans[i]);
      AbsorbAbsorbs(merged, s, all[i], i < |spans|);
    }
    forall k | 0 <= k < |out| ensures LabelOk(all, out[k]) {
      AbsorbLabels(merged, spans, s, k);
    }
  }

  lemma AbsorbDisjoint(merged: seq<Span>, s: Span)
    requires Disjoint(merged) && s.start < s.end && forall k :: 0 <= k < |merged| ==> merged[k].start <= s.start
    ensures Disjoint(Absorb(merged, s))
    ensures forall k :: 0 <= k < |Absorb(merged, s)| ==> Absorb(merged, s)[k].start <= s.start
  {
    hide Sensitivity;
  }

  lemma AbsorbCovers(merged: seq<Span>, s: Span, p: int)
    requires Disjoint(merged) && s.start < s.end && forall k :: 0 <= k < |merged| ==> merged[k].start <= s.start
    ensures Covers(Absorb(merged, s), p) <==> Covers(merged, p) || s.start <= p < s.end
    ensures Crosses(Absorb(merged, s), p) <==> Crosses(merged, p) || s.start < p < s.end
  {
    hide Sensitivity, Covers, Crosses;
    if merged != [] && s.start < merged[|merged| - 1].end {
      var init, last := merged[..|merged| - 1], merged[|merged| - 1];
      assert merged == init + [last];
      CoversAppend(init, last, p);
      CoversAppend(init, Widest(last, s), p);
    } else {
      CoversAppend(merged, s, p);
    }
  }

  lemma AbsorbAbsorbs(merged: seq<Span>, s: Span, x: Span, known: bool)
    requires if known then Absorbed(merged, x) else x == s
    ensures Absorbed(Absorb(merged, s), x)
  {
    hide Sensitivity;
    var out := Absorb(merged, s);
    if known {
      var k :| 0 <= k < |merged| && Within(x, merged[k]);
      assert Within(x, out[k]);
    } else {
      assert Within(x, out[|out| - 1]);
    }
  }

  /** A span absorbed by one merged span lies in no other. */
  lemma OneHome(merged: seq<Span>, x: Span, k: nat, m: Span)
    requires Disjoint(merged) && Absorbed(merged, x) && x.start < x.end && k < |merged|
    requires m.start == merged[k].start && Within(x, m) && (k + 1 < |merged| ==> m.end <= merged[k + 1].start)
    ensures Within(x, merged[k])
  {
    var h :| 0 <= h < |merged| && Within(x, merged[h]);
  }

  /** A merged span that `s` does not reach keeps its label. */
  lemma LabelKept(spans: seq<Span>, s: Span, m: Span)
    requires LabelOk(spans, m) && !Within(s, m)
    ensures LabelOk(spans + [s], m)
  {
    hide Sensitivity, Within;
    var all := spans + [s];
    var i :| 0 <= i < |spans| && Within(spans[i], m) && spans[i].tag == m.tag;
    assert all[i] == spans[i];
    forall j | 0 <= j < |all| && Within(all[j], m) ensures Sensitivity(all[j].tag) <= Sensitivity(m.tag) {
      assert j < |spans| && all[j] == spans[j];
    }
  }

  /** The widened span takes the more sensitive of the two labels. */
  lemma LabelWidened(spans: seq<Span>, s: Span, last: Span)
    requires LabelOk(spans, last) && last.start <= s.start
    requires forall j :: 0 <= j < |spans| && Within(spans[j], Widest(last, s)) ==> Within(spans[j], last)
    ensures LabelOk(spans + [s], Widest(last, s))
  {
    hide Sensitivity;
    var all, m := spans + [s], Widest(last, s);
    var i :| 0 <= i < |spans| && Within(spans[i], last) && spans[i].tag == last.tag;
    assert all[i] == spans[i] && Within(all[i], m);
    assert all[|spans|] == s && Within(s, m);
    forall j | 0 <= j < |all| && Within(all[j], m) ensures Sensitivity(all[j].tag) <= Sensitivity(m.tag) {
      assert j < |spans| ==> all[j] == spans[j];
    }
  }

  lemma LabelAlone(spans: seq<Span>, s: Span)
    requires forall j :: 0 <= j < |spans| ==> !Within(spans[j], s)
    ensures LabelOk(spans + [s], s)
  {
    hide Sensitivity;
    var all := spans + [s];
    assert all[|spans|] == s && Within(s, s);
    assert forall j :: 0 <= j < |spans| ==> all[j] == spans[j];
  }

  lemma AbsorbLabels(merged: seq<Span>, spans: seq<Span>, s: Span, k: nat)
    requires IsMergeOf(merged, spans) && s.start < s.end && NonEmpty(spans) && k < |Absorb(merged, s)|
    requires forall k :: 0 <= k < |merged| ==> merged[k].start <= s.start
    ensures LabelOk(spans + [s], Absorb(merged, s)[k])
  {
    hide Covers, Crosses, Sensitivity, LabelOk, Absorbed;
    var out, n := Absorb(merged, s), |merged|;
    if k < |out| - 1 {
      assert out[k] == merged[k];
      assert k < n - 1 ==> merged[k].end <= merged[n - 1].start;
      LabelKept(spans, s, merged[k]);
    } else if |out| == n {
      forall j | 0 <= j < |spans| && Within(spans[j], Widest(merged[k], s)) ensures Within(spans[j], merged[k]) {
        OneHome(merged, spans[j], k, Widest(merged[k], s));
      }
      LabelWidened(spans, s, merged[k]);
    } else {
      forall j | 0 <= j < |spans| ensures !Within(spans[j], s) {
        assert Absorbed(merged, spans[j]);
        AbsorbedSomewhere(merged, spans[j]);
        AbsorbedEarlier(merged, spans[j], s.start);
      }
      LabelAlone(spans, s);
    }
  }

  lemma AbsorbedSomewhere(merged: seq<Span>, x: Span)
    requires Absorbed(merged, x)
    ensures merged != []
  {
  }

  lemma AbsorbedEarlier(merged: seq<Span>, x: Span, start: int)
    requires merged != [] && Disjoint(merged) && Absorbed(merged, x) && merged[|merged| - 1].end <= start
    ensures x.end <= start
  {
    var h :| 0 <= h < |merged| && Within(x, merged[h]);
    assert h < |merged| - 1 ==> merged[h].end <= merged[|merged| - 1].start;
  }

  lemma NothingToMerge()
    ensures IsMergeOf([], [])
  {
  }

  lemma {:induction false} MergeOrdered(ordered: seq<Span>)
    requires ByStart(ordered) && NonEmpty(ordered)
    ensures IsMergeOf(Merge(ordered), ordered)
    ensures forall k :: 0 <= k < |Merge(ordered)| ==> ordered != [] && Merge(ordered)[k].start <= ordered[|ordered| - 1].start
  {
    hide IsMergeOf, Absorb;
    if ordered == [] {
      NothingToMerge();
    } else {
      var before, s := ordered[..|ordered| - 1], ordered[|ordered| - 1];
      MergeOrdered(before);
      assert ordered == before + [s];
      AbsorbKeeps(Merge(before), before, s);
    }
  }

  lemma SameSpans(merged: seq<Span>, a: seq<Span>, b: seq<Span>)
    requires IsMergeOf(merged, a) && forall s :: s in a <==> s in b
    ensures IsMergeOf(merged, b)
  {
    hide Disjoint, Sensitivity, Covers, Crosses, Absorbed, LabelOk;
    forall p ensures (Covers(a, p) <==> Covers(b, p)) && (Crosses(a, p) <==> Crosses(b, p)) {
      SameCover(a, b, p);
      SameCover(b, a, p);
    }
    forall i | 0 <= i < |b| ensures Absorbed(merged, b[i]) {
      assert b[i] in a;
      var k :| 0 <= k < |a| && a[k] == b[i];
      assert Absorbed(merged, a[k]);
    }
    forall k | 0 <= k < |merged| ensures LabelOk(b, merged[k]) {
      SameLabel(a, b, merged[k]);
    }
  }

  lemma SameLabel(a: seq<Span>, b: seq<Span>, m: Span)
    requires LabelOk(a, m) && forall s :: s in a <==> s in b
    ensures LabelOk(b, m)
  {
    hide Sensitivity, Within;
    var i :| 0 <= i < |a| && Within(a[i], m) && a[i].tag == m.tag;
    assert a[i] in b;
    forall j | 0 <= j < |b| && Within(b[j], m) ensures Sensitivity(b[j].tag) <= Sensitivity(m.tag) {
      assert b[j] in a;
    }
  }

  lemma SameCover(a: seq<Span>, b: seq<Span>, p: int)
    requires forall s :: s in a ==> s in b
    ensures Covers(a, p) ==> Covers(b, p)
    ensures Crosses(a, p) ==> Crosses(b, p)
  {
    if i :| 0 <= i < |a| && a[i].start <= p < a[i].end {
      assert a[i] in b;
      var k :| 0 <= k < |b| && b[k] == a[i];
    }
    if i :| 0 <= i < |a| && a[i].start < p < a[i].end {
      assert a[i] in b;
      var k :| 0 <= k < |b| && b[k] == a[i];
    }
  }

  /** Merging any list of non-empty spans yields sorted disjoint spans that cover the same positions, are
      joined exactly where some span crosses, and carry a most sensitive label of what they absorbed. */
  lemma MergeIsClosure(spans: seq<Span>)
    requires NonEmpty(spans)
    ensures IsMergeOf(Merge(SortByStart(spans)), spans)
  {
    hide IsMergeOf;
    var ordered := SortByStart(spans);
    SortByStartSorts(spans);
    forall i | 0 <= i < |ordered| ensures ordered[i].start < ordered[i].end {
      assert ordered[i] in spans;
    }
    MergeOrdered(ordered);
    SameSpans(Merge(ordered), ordered, spans);
  }

  // ----- ties between labels -----

  /** The label is that of the first absorbed span, in the given order, that none of the absorbed ones exceeds. */
  ghost predicate LabelOfFirst(ordered: seq<Span>, m: Span) {
    exists i :: 0 <= i < |ordered| && IsFirst(ordered, m, i)
  }

  ghost predicate IsFirst(ordered: seq<Span>, m: Span, i: nat)
    requires i < |ordered|
  {
    && Within(ordered[i], m) && ordered[i].tag == m.tag
    && forall j :: 0 <= j < i && Within(ordered[j], m) ==> Sensitivity(ordered[j].tag) < Sensitivity(m.tag)
  }

  lemma FirstWidened(spans: seq<Span>, s: Span, last: Span)
    requires LabelOfFirst(spans, last) && LabelOk(spans, last) && last.start <= s.start
    requires forall j :: 0 <= j < |spans| && Within(spans[j], Widest(last, s)) ==> Within(spans[j], last)
    ensures LabelOfFirst(spans + [s], Widest(last, s))
  {
    hide Sensitivity;
    var i :| 0 <= i < |spans| && IsFirst(spans, last, i);
    var all := spans + [s];
    assert all[|spans|] == s && forall j :: 0 <= j < |spans| ==> all[j] == spans[j];
    assert IsFirst(all, Widest(last, s), if Sensitivity(s.tag) > Sensitivity(last.tag) then |spans| else i);
  }

  lemma FirstKept(spans: seq<Span>, s: Span, m: Span)
    requires LabelOfFirst(spans, m)
    ensures LabelOfFirst(spans + [s], m)
  {
    hide Sensitivity, Within;
    var i :| 0 <= i < |spans| && IsFirst(spans, m, i);
    assert forall j :: 0 <= j < |spans| ==> (spans + [s])[j] == spans[j];
    assert IsFirst(spans + [s], m, i);
  }

  lemma FirstAlone(spans: seq<Span>, s: Span)
    requires forall j :: 0 <= j < |spans| ==> !Within(spans[j], s)
    ensures LabelOfFirst(spans + [s], s)
  {
    hide Sensitivity;
    assert forall j :: 0 <= j < |spans| ==> (spans + [s])[j] == spans[j];
    assert IsFirst(spans + [s], s, |spans|);
  }

  lemma AbsorbFirst(merged: seq<Span>, spans: seq<Span>, s: Span, k: nat)
    requires IsMergeOf(merged, spans) && s.start < s.end && NonEmpty(spans) && k < |Absorb(merged, s)|
    requires forall k :: 0 <= k < |merged| ==> merged[k].start <= s.start
    requires forall k :: 0 <= k < |merged| ==> LabelOfFirst(spans, merged[k])
    ensures LabelOfFirst(spans + [s], Absorb(merged, s)[k])
  {
    hide Covers, Crosses, Sensitivity, LabelOk, Absorbed, LabelOfFirst;
    var out, n := Absorb(merged, s), |merged|;
    if k < |out| - 1 {
      assert out[k] == merged[k];
      FirstKept(spans, s, merged[k]);
    } else if |out| == n {
      forall j | 0 <= j < |spans| && Within(spans[j], Widest(merged[k], s)) ensures Within(spans[j], merged[k]) {
        OneHome(merged, spans[j], k, Widest(merged[k], s));
      }
      FirstWidened(spans, s, merged[k]);
    } else {
      forall j | 0 <= j < |spans| ensures !Within(spans[j], s) {
        assert Absorbed(merged, spans[j]);
        AbsorbedSomewhere(merged, spans[j]);
        AbsorbedEarlier(merged, spans[j], s.start);
      }
      FirstAlone(spans, s);
    }
  }

  lemma {:induction false} MergedFirst(ordered: seq<Span>)
    requires ByStart(ordered) && NonEmpty(ordered)
    ensures forall k :: 0 <= k < |Merge(ordered)| ==> LabelOfFirst(ordered, Merge(ordered)[k])
  {
    hide IsMergeOf, Absorb, LabelOfFirst;
    if ordered != [] {
      var before, s := ordered[..|ordered| - 1], ordered[|ordered| - 1];
      MergedFirst(before);
      MergeOrdered(before);
      assert ordered == before + [s];
      forall k | 0 <= k < |Merge(ordered)| ensures LabelOfFirst(ordered, Merge(ordered)[k]) {
        AbsorbFirst(Merge(before), before, s, k);
      }
    }
  }

  /** Among equally sensitive labels the one that starts first wins. */
  lemma FirstLabelWins(spans: seq<Span>)
    requires NonEmpty(spans)
    ensures var ordered := SortByStart(spans);
            ByStart(ordered) && forall k :: 0 <= k < |Merge(ordered)| ==> LabelOfFirst(ordered, Merge(ordered)[k])
  {
    hide LabelOfFirst, Merge;
    var ordered := SortByStart(spans);
    SortByStartSorts(spans);
    forall i | 0 <= i < |ordered| ensures ordered[i].start < ordered[i].end {
      assert ordered[i] in spans;
    }
    MergedFirst(ordered);
  }

  /** The spans that start at `p`, in their order. */
  function StartingAt(spans: seq<Span>, p: int): seq<Span> {
    if spans == [] then []
    else StartingAt(spans[..|spans| - 1], p) + if spans[|spans| - 1].start == p then [spans[|spans| - 1]] else []
  }

  lemma StartingAtEnd(spans: seq<Span>, s: Span, p: int)
    ensures StartingAt(spans + [s], p) == StartingAt(spans, p) + if s.start == p then [s] else []
  {
    assert (spans + [s])[..|spans|] == spans;
  }

  lemma {:induction false} InsertIsStable(spans: seq<Span>, s: Span, p: int)
    ensures StartingAt(InsertByStart(spans, s), p) == StartingAt(spans, p) + if s.start == p then [s] else []
  {
    hide StartingAt;
    if spans == [] || spans[|spans| - 1].start <= s.start {
      StartingAtEnd(spans, s, p);
    } else {
      var before, last := spans[..|spans| - 1], spans[|spans| - 1];
      assert spans == before + [last];
      InsertIsStable(before, s, p);
      StartingAtEnd(InsertByStart(before, s), last, p);
      StartingAtEnd(before, last, p);
    }
  }

  /** And of those that start together, the one found first. */
  lemma {:induction false} SortIsStable(spans: seq<Span>, p: int)
    ensures StartingAt(SortByStart(spans), p) == StartingAt(spans, p)
  {
    hide InsertByStart;
    if spans != [] {
      SortIsStable(spans[..|spans| - 1], p);
      InsertIsStable(SortByStart(spans[..|spans| - 1]), spans[|spans| - 1], p);
    }
  }

  /** The positions covered and crossed determine the merged intervals. */
  lemma {:induction false} ClosureIsUnique(a: seq<Span>, b: seq<Span>)
    requires Disjoint(a) && Disjoint(b)
    requires forall p :: Covers(a, p) <==> Covers(b, p)
    requires forall p :: Crosses(a, p) <==> Crosses(b, p)
    ensures |a| == |b| && forall i :: 0 <= i < |a| ==> a[i].start == b[i].start && a[i].end == b[i].end
  {
    if a == [] {
      if b != [] { assert Covers(b, b[0].start); }
    } else {
      assert Covers(a, a[0].start) && Covers(b, a[0].start);
      FirstSpan(a, b);
      FirstSpan(b, a);
      forall p ensures (Covers(a[1..], p) <==> Covers(b[1..], p)) && (Crosses(a[1..], p) <==> Crosses(b[1..], p)) {
        TailCover(a, p);
        TailCover(b, p);
      }
      ClosureIsUnique(a[1..], b[1..]);
      assert forall i :: 1 <= i < |a| ==> a[i] == a[1..][i - 1];
      assert forall i :: 1 <= i < |b| ==> b[i] == b[1..][i - 1];
    }
  }

  lemma TailCover(a: seq<Span>, p: int)
    requires Disjoint(a) && a != []
    ensures Covers(a[1..], p) <==> Covers(a, p) && !(a[0].start <= p < a[0].end)
    ensures Crosses(a[1..], p) <==> Crosses(a, p) && !(a[0].start < p < a[0].end)
  {
    if i :| 0 <= i < |a[1..]| && a[1..][i].start <= p < a[1..][i].end { assert a[i + 1] == a[1..][i]; }
    if i :| 0 <= i < |a| && a[i].start <= p < a[i].end && !(a[0].start <= p < a[0].end) { assert a[1..][i - 1] == a[i]; }
    if i :| 0 <= i < |a[1..]| && a[1..][i].start < p < a[1..][i].end { assert a[i + 1] == a[1..][i]; }
    if i :| 0 <= i < |a| && a[i].start < p < a[i].end && !(a[0].start < p < a[0].end) { assert a[1..][i - 1] == a[i]; }
  }

  lemma FirstSpan(a: seq<Span>, b: seq<Span>)
    requires Disjoint(a) && Disjoint(b) && a != []
    requires forall p :: Covers(a, p) <==> Covers(b, p)
    requires forall p :: Crosses(a, p) <==> Crosses(b, p)
    ensures b != [] && b[0].start <= a[0].start && (b[0].start == a[0].start ==> a[0].end <= b[0].end)
  {
    assert a[0].start <= a[0].start < a[0].end;
    assert Covers(a, a[0].start);
    var i :| 0 <= i < |b| && b[i].start <= a[0].start < b[i].end;
    assert i > 0 ==> b[0].end <= b[i].start;
    EndNotCrossed(b);
    CrossedInside(a, b[0].end);
  }

  lemma CrossedInside(a: seq<Span>, p: int)
    requires a != []
    ensures a[0].start < p < a[0].end ==> Crosses(a, p)
  {
  }

  lemma EndNotCrossed(b: seq<Span>)
    requires Disjoint(b) && b != []
    ensures !Crosses(b, b[0].end)
  {
    forall k | 0 <= k < |b| ensures !(b[k].start < b[0].end < b[k].end) {
      assert k > 0 ==> b[0].end <= b[k].start;
    }
  }

  // ----- splicing -----

  function Placeholder(tag: string): string {
    "[REDACTED:" + tag + "]"
  }

  /** A placeholder shows the label and nothing of the text. */
  lemma PlaceholderShape(tag: string)
    ensures var p := Placeholder(tag);
            |p| == |tag| + 11 && p[..10] == "[REDACTED:" && p[10..|tag| + 10] == tag && p[|tag| + 10] == ']'
  {
  }

  ghost predicate InText(spans: seq<Span>, text: string) {
    forall i :: 0 <= i < |spans| ==> spans[i].end <= |text|
  }

  /** The redacted text read from the left: what lies outside the spans, each span as its placeholder. */
  function Rebuild(text: string, spans: seq<Span>, from: nat): string
    requires Disjoint(spans) && InText(spans, text) && from <= |text|
    requires spans != [] ==> from <= spans[0].start
    decreases |spans|
  {
    if spans == [] then text[from..]
    else text[from..spans[0].start] + Placeholder(spans[0].tag) + Rebuild(text, spans[1..], spans[0].end)
  }

  function Replace(text: string, s: Span): string
    requires s.start <= s.end <= |text|
  {
    text[..s.start] + Placeholder(s.tag) + text[s.end..]
  }

  lemma Regroup(a: string, b: string, c: string, d: string)
    ensures a + (b + c + d) == (a + b) + c + d
  {
  }

  /** The rebuild may begin anywhere in the text kept before the first span. */
  lemma KeptPrefix(text: string, spans: seq<Span>, from: nat)
    requires Disjoint(spans) && InText(spans, text) && from <= |text|
    requires spans != [] ==> from <= spans[0].start
    ensures Rebuild(text, spans, 0) == text[..from] + Rebuild(text, spans, from)
  {
    hide Placeholder;
    if spans != [] {
      KeptHead(text, spans, from);
    } else {
      assert text[..from] + text[from..] == text[0..];
    }
  }

  lemma KeptHead(text: string, spans: seq<Span>, from: nat)
    requires Disjoint(spans) && InText(spans, text) && spans != [] && from <= spans[0].start
    ensures Rebuild(text, spans, 0) == text[..from] + Rebuild(text, spans, from)
  {
    hide Placeholder;
    var s := spans[0];
    var tail, mark, head := Rebuild(text, spans[1..], s.end), Placeholder(s.tag), text[from..s.start];
    assert Rebuild(text, spans, from) == head + mark + tail;
    assert Rebuild(text, spans, 0) == text[0..s.start] + mark + tail;
    assert text[..from] + head == text[0..s.start];
    Regroup(text[..from], head, mark, tail);
  }

  /** Splicing a span into a text rebuilt to its right extends the rebuild over it. */
  lemma SpliceLeft(text: string, s: Span, rest: seq<Span>)
    requires Disjoint([s] + rest) && InText([s] + rest, text) && Disjoint(rest) && InText(rest, text)
    ensures var result := Rebuild(text, rest, 0);
            s.start <= s.end <= |result| && Replace(result, s) == Rebuild(text, [s] + rest, 0)
  {
    hide Placeholder;
    assert ([s] + rest)[0] == s && ([s] + rest)[1..] == rest;
    assert rest != [] ==> ([s] + rest)[1] == rest[0];
    KeptPrefix(text, rest, s.end);
    var tail := Rebuild(text, rest, s.end);
    assert (text[..s.end] + tail)[..s.start] == text[0..s.start];
    assert (text[..s.end] + tail)[s.end..] == tail;
  }

  method ApplyRedact(text: string, found: seq<Span>) returns (result: string, record: Record)
    requires NonEmpty(found) && InText(found, text)
    ensures var spans := Merge(SortByStart(found));
            && IsMergeOf(spans, found) && InText(spans, text)
            && result == Rebuild(text, spans, 0)
            && record == if spans == [] then Record("NONE", 0, [], [])
                         else Record("REDACT", |spans|, SortedDistinct(Labels(spans)), Offsets(spans))
    ensures found == [] ==> result == text
  {
    hide *;
    var spans := MergeOverlapping(found);
    MergeIsClosure(found);
    MergeStaysInText(spans, found, text);
    NothingSpliced(text, found);
    if spans == [] {
      return text, Record("NONE", 0, [], []);
    }
    result := text;
    assert spans[|spans|..] == [];
    for k := |spans| downto 0
      invariant Disjoint(spans[k..]) && InText(spans[k..], text)
      invariant result == Rebuild(text, spans[k..], 0)
    {
      Suffix(text, spans, k);
      SpliceLeft(text, spans[k], spans[k + 1..]);
      result := Replace(result, spans[k]);
    }
    assert spans[0..] == spans;
    record := Record("REDACT", |spans|, SortedDistinct(Labels(spans)), Offsets(spans));
  }

  lemma NothingSpliced(text: string, found: seq<Span>)
    ensures Disjoint([]) && InText([], text) && Rebuild(text, [], 0) == text
    ensures found == [] ==> Merge(SortByStart(found)) == []
    ensures forall spans :: IsMergeOf(spans, found) ==> Disjoint(spans)
  {
    assert text[0..] == text;
  }

  lemma Suffix(text: string, spans: seq<Span>, k: nat)
    requires k < |spans| && Disjoint(spans) && InText(spans, text)
    ensures [spans[k]] + spans[k + 1..] == spans[k..] && spans[k].start <= spans[k].end
    ensures Disjoint(spans[k..]) && InText(spans[k..], text) && Disjoint(spans[k + 1..]) && InText(spans[k + 1..], text)
  {
  }

  function Labels(spans: seq<Span>): (r: seq<string>)
    ensures |r| == |spans| && forall i :: 0 <= i < |r| ==> r[i] == spans[i].tag
  {
    seq(|spans|, i requires 0 <= i < |spans| => spans[i].tag)
  }

  /** Where each span starts, and how long it is. */
  function Offsets(spans: seq<Span>): (r: seq<(nat, int)>)
    ensures |r| == |spans| && forall i :: 0 <= i < |r| ==> r[i].0 == spans[i].start && r[i].0 + r[i].1 == spans[i].end
  {
    seq(|spans|, i requires 0 <= i < |spans| => (spans[i].start, spans[i].end - spans[i].start))
  }

  lemma MergeStaysInText(merged: seq<Span>, found: seq<Span>, text: string)
    requires IsMergeOf(merged, found) && InText(found, text)
    ensures InText(merged, text)
  {
    forall k | 0 <= k < |merged| ensures merged[k].end <= |text| {
      assert Covers(merged, merged[k].end - 1);
      assert Covers(found, merged[k].end - 1);
    }
  }

  function Lengths(spans: seq<Span>): int {
    if spans == [] then 0 else spans[0].end - spans[0].start + Lengths(spans[1..])
  }

  function PlaceholderLengths(spans: seq<Span>): int {
    if spans == [] then 0 else |Placeholder(spans[0].tag)| + PlaceholderLengths(spans[1..])
  }

  /** The text shrinks by what the spans covered and grows by their placeholders. */
  lemma {:induction false} RebuildLength(text: string, spans: seq<Span>, from: nat)
    requires Disjoint(spans) && InText(spans, text) && from <= |text|
    requires spans != [] ==> from <= spans[0].start
    ensures |Rebuild(text, spans, from)| == |text| - from - Lengths(spans) + PlaceholderLengths(spans)
    decreases |spans|
  {
    if spans != [] {
      RebuildLength(text, spans[1..], spans[0].end);
    }
  }

  /** The table of sensitivities: what wins an overlap. */
  lemma SensitivityTable(tag: string)
    ensures Sensitivity(tag) == if tag in {"PEM_PRIVATE_KEY"} then 6
                                else if tag in {"AWS_ACCESS_KEY", "PROVIDER_API_KEY", "JWT"} then 5
                                else if tag in {"SSN", "CREDIT_CARD"} then 4
                                else if tag in {"IBAN"} then 3
                                else if tag in {"EMAIL", "PHONE"} then 2
                                else 0
  {
  }
}
