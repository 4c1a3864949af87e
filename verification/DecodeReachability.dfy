/** What the decode search finds: exactly what decoding and normalizing can reach, at its least depth. */
module DecodeReachability {
  import opened DecodeSearch

  /** Some decoder turns part of `text` into the non-empty string `raw`. */
  ghost predicate Yields(c: Codec, text: string, raw: string) {
    exists e: Encoding :: DECODED(raw) in c.matches(e, text) && raw != ""
  }

  /** `raw` comes out after `depth` decodings with a normalization between any two. */
  ghost predicate Reach(c: Codec, start: string, depth: nat, raw: string) {
    if depth == 0 then false
    else if depth == 1 then Yields(c, start, raw)
    else exists r :: Reach(c, start, depth - 1, r) && Yields(c, c.norm(r), raw)
  }

  ghost predicate ReachWithin(c: Codec, start: string, depth: nat, raw: string) {
    exists d :: 1 <= d <= depth && Reach(c, start, d, raw)
  }

  /** The same without passing through the start text again. */
  ghost predicate Fresh(c: Codec, start: string, depth: nat, raw: string) {
    if depth == 0 then false
    else if depth == 1 then Yields(c, start, raw)
    else exists r :: r != start && Fresh(c, start, depth - 1, r) && Yields(c, c.norm(r), raw)
  }

  ghost predicate FreshWithin(c: Codec, start: string, depth: nat, raw: string) {
    exists d :: 1 <= d <= depth && Fresh(c, start, d, raw)
  }

  ghost predicate Has(found: seq<Variant>, raw: string) {
    exists v :: v in found && v.raw == raw
  }

  ghost predicate OnceEach(found: seq<Variant>) {
    forall i, j :: 0 <= i < j < |found| ==> found[i].raw != found[j].raw
  }

  // ----- one text expanded -----

  /** `out` extends `found` by fresh variants at `depth`, for exactly the new strings satisfying `gives`. */
  ghost predicate Extends(c: Codec, start: string, found: seq<Variant>, out: seq<Variant>, depth: nat, gives: string -> bool) {
    && found <= out
    && (OnceEach(found) ==> OnceEach(out))
    && (forall raw :: Has(out, raw) <==> Has(found, raw) || (raw != start && gives(raw)))
    && (forall i :: |found| <= i < |out| ==>
          out[i].depth == depth && out[i].text == c.norm(out[i].raw) && out[i].raw != start
          && !Has(found, out[i].raw) && gives(out[i].raw))
  }

  lemma HasAppend(found: seq<Variant>, v: Variant, raw: string)
    ensures Has(found + [v], raw) <==> Has(found, raw) || raw == v.raw
  {
    if Has(found, raw) {
      var w :| w in found && w.raw == raw;
      assert w in found + [v];
    }
    assert v in found + [v];
  }

  lemma ExtendsNothing(c: Codec, start: string, found: seq<Variant>, depth: nat, gives: string -> bool)
    requires forall raw :: gives(raw) && raw != start ==> Has(found, raw)
    ensures Extends(c, start, found, found, depth, gives)
  {
  }

  lemma ExtendsOne(c: Codec, start: string, found: seq<Variant>, v: Variant, gives: string -> bool)
    requires v.text == c.norm(v.raw) && v.raw != start && !Has(found, v.raw) && gives(v.raw)
    requires forall raw :: gives(raw) ==> raw == v.raw
    ensures Extends(c, start, found, found + [v], v.depth, gives)
  {
    forall raw ensures Has(found + [v], raw) <==> Has(found, raw) || (raw != start && gives(raw)) {
      HasAppend(found, v, raw);
    }
    if OnceEach(found) {
      forall i | 0 <= i < |found| ensures found[i].raw != v.raw { assert found[i] in found; }
    }
  }

  lemma ExtendsTwice(c: Codec, start: string, a: seq<Variant>, b: seq<Variant>, d: seq<Variant>, depth: nat,
                     y: string -> bool, z: string -> bool, both: string -> bool)
    requires Extends(c, start, a, b, depth, y) && Extends(c, start, b, d, depth, z)
    requires forall raw :: both(raw) <==> y(raw) || z(raw)
    ensures Extends(c, start, a, d, depth, both)
  {
    hide Has, OnceEach;
    forall i | |a| <= i < |d|
      ensures d[i].depth == depth && d[i].text == c.norm(d[i].raw) && d[i].raw != start && !Has(a, d[i].raw) && both(d[i].raw)
    {
      assert i < |b| ==> d[i] == b[i];
      HasPrefix(a, b, d[i].raw);
    }
  }

  lemma HasPrefix(a: seq<Variant>, b: seq<Variant>, raw: string)
    requires a <= b
    ensures Has(a, raw) ==> Has(b, raw)
  {
    if v :| v in a && v.raw == raw {
      var i :| 0 <= i < |a| && a[i] == v;
      assert b[i] == v;
    }
  }

  lemma OfferExtends(c: Codec, start: string, found: seq<Variant>, r: Result, depth: nat, e: Encoding)
    ensures Extends(c, start, found, Offer(c, start, found, r, depth, e), depth, raw => r == DECODED(raw) && raw != "")
  {
    hide Extends;
    if r.DECODED? && r.raw != "" && !Seen(found, start, r.raw) {
      ExtendsOne(c, start, found, Variant(r.raw, c.norm(r.raw), depth, e), raw => r == DECODED(raw) && raw != "");
    } else {
      ExtendsNothing(c, start, found, depth, raw => r == DECODED(raw) && raw != "");
    }
  }

  lemma {:induction false} OfferAllExtends(c: Codec, start: string, found: seq<Variant>, rs: seq<Result>, depth: nat, e: Encoding)
    ensures Extends(c, start, found, OfferAll(c, start, found, rs, depth, e), depth, raw => DECODED(raw) in rs && raw != "")
  {
    hide Extends, Offer, Seen;
    if rs == [] {
      ExtendsNothing(c, start, found, depth, raw => DECODED(raw) in rs && raw != "");
    } else {
      var before, r := rs[..|rs| - 1], rs[|rs| - 1];
      var mid := OfferAll(c, start, found, before, depth, e);
      OfferAllExtends(c, start, found, before, depth, e);
      OfferExtends(c, start, mid, r, depth, e);
      assert rs == before + [r];
      ExtendsTwice(c, start, found, mid, OfferAll(c, start, found, rs, depth, e), depth,
                   raw => DECODED(raw) in before && raw != "", raw => r == DECODED(raw) && raw != "",
                   raw => DECODED(raw) in rs && raw != "");
    }
  }

  ghost predicate YieldsBy(c: Codec, text: string, decoders: seq<Encoding>, raw: string) {
    exists e :: e in decoders && DECODED(raw) in c.matches(e, text) && raw != ""
  }

  lemma {:induction false} ExpandExtends(c: Codec, start: string, found: seq<Variant>, text: string, depth: nat, decoders: seq<Encoding>)
    ensures Extends(c, start, found, Expand(c, start, found, text, depth, decoders), depth,
                    raw => YieldsBy(c, text, decoders, raw))
  {
    hide Extends, OfferAll;
    if decoders == [] {
      ExtendsNothing(c, start, found, depth, raw => YieldsBy(c, text, decoders, raw));
    } else {
      var before, e := decoders[..|decoders| - 1], decoders[|decoders| - 1];
      var mid := Expand(c, start, found, text, depth, before);
      ExpandExtends(c, start, found, text, depth, before);
      OfferAllExtends(c, start, mid, c.matches(e, text), depth, e);
      assert decoders == before + [e];
      ExtendsTwice(c, start, found, mid, Expand(c, start, found, text, depth, decoders), depth,
                   raw => YieldsBy(c, text, before, raw), raw => DECODED(raw) in c.matches(e, text) && raw != "",
                   raw => YieldsBy(c, text, decoders, raw));
    }
  }

  ghost predicate YieldsFrom(c: Codec, texts: seq<string>, raw: string) {
    exists t :: t in texts && Yields(c, t, raw)
  }

  lemma {:induction false} ExpandAllExtends(c: Codec, start: string, found: seq<Variant>, texts: seq<string>, depth: nat)
    ensures Extends(c, start, found, ExpandAll(c, start, found, texts, depth), depth, raw => YieldsFrom(c, texts, raw))
  {
    hide Extends, Expand, Yields;
    if texts == [] {
      ExtendsNothing(c, start, found, depth, raw => YieldsFrom(c, texts, raw));
    } else {
      var before, t := texts[..|texts| - 1], texts[|texts| - 1];
      var mid := ExpandAll(c, start, found, before, depth);
      ExpandAllExtends(c, start, found, before, depth);
      ExpandExtends(c, start, mid, t, depth, DECODERS);
      assert texts == before + [t];
      SameYields(c, t);
      ExtendsTwice(c, start, found, mid, ExpandAll(c, start, found, texts, depth), depth,
                   raw => YieldsFrom(c, before, raw), raw => YieldsBy(c, t, DECODERS, raw),
                   raw => YieldsFrom(c, texts, raw));
    }
  }

  lemma AllDecoders(e: Encoding)
    ensures e in DECODERS
  {
    assert DECODERS[0] == BASE64 && DECODERS[1] == HEX && DECODERS[2] == PERCENT;
  }

  lemma SameYields(c: Codec, text: string)
    ensures forall raw :: YieldsBy(c, text, DECODERS, raw) <==> Yields(c, text, raw)
  {
    forall e: Encoding ensures e in DECODERS { AllDecoders(e); }
  }

  // ----- the layers -----

  /** After `depth` layers the search knows the strings freshly reachable within `depth` steps, each once,
      with its least depth; and the frontier holds the texts of those first reached at `depth`. */
  ghost predicate LayerOk(c: Codec, start: string, depth: nat) {
    var l := LayerAt(c, start, depth);
    && OnceEach(l.found)
    && (forall raw :: Has(l.found, raw) <==> raw != start && FreshWithin(c, start, depth, raw))
    && (forall i :: 0 <= i < |l.found| ==> VariantOk(c, start, l.found[i], depth))
    && (depth > 0 ==> forall t :: t in l.frontier <==> exists v :: v in l.found && v.depth == depth && v.text == t)
  }

  /** A variant carries the normalized text of a string and the least depth at which it is reached. */
  ghost predicate VariantOk(c: Codec, start: string, v: Variant, depth: nat) {
    && 1 <= v.depth <= depth && v.text == c.norm(v.raw) && v.raw != start
    && Fresh(c, start, v.depth, v.raw)
    && forall d :: 1 <= d < v.depth ==> !Fresh(c, start, d, v.raw)
  }

  lemma OneMore(c: Codec, start: string, depth: nat, r: string, raw: string)
    requires 1 <= depth && r != start && Fresh(c, start, depth, r) && Yields(c, c.norm(r), raw)
    ensures Fresh(c, start, depth + 1, raw)
  {
  }

  /** What the next layer's frontier gives is what is one step further away. */
  lemma NextLayer(c: Codec, start: string, depth: nat, raw: string)
    requires LayerOk(c, start, depth) && raw != start
    ensures YieldsFrom(c, LayerAt(c, start, depth).frontier, raw) ==> Fresh(c, start, depth + 1, raw)
    ensures Fresh(c, start, depth + 1, raw) && !FreshWithin(c, start, depth, raw) ==>
              YieldsFrom(c, LayerAt(c, start, depth).frontier, raw)
  {
    hide Yields, OnceEach;
    var l := LayerAt(c, start, depth);
    if depth == 0 {
      assert l.frontier == [start];
      assert start in l.frontier;
    } else {
      hide LayerAt;
      if YieldsFrom(c, l.frontier, raw) {
        var t :| t in l.frontier && Yields(c, t, raw);
        var v :| v in l.found && v.depth == depth && v.text == t;
        assert VariantOk(c, start, v, depth);
      }
      if Fresh(c, start, depth + 1, raw) && !FreshWithin(c, start, depth, raw) {
        var r :| r != start && Fresh(c, start, depth, r) && Yields(c, c.norm(r), raw);
        assert FreshWithin(c, start, depth, r);
        assert Has(l.found, r);
        var v :| v in l.found && v.raw == r;
        assert VariantOk(c, start, v, depth);
        OneMore(c, start, v.depth, r, raw);
        assert v.depth == depth;
        assert v.text in l.frontier;
      }
    }
  }

  lemma FreshWithinNext(c: Codec, start: string, depth: nat, raw: string)
    ensures FreshWithin(c, start, depth + 1, raw) <==> FreshWithin(c, start, depth, raw) || Fresh(c, start, depth + 1, raw)
  {
    hide Fresh;
  }

  lemma LayerGrows(c: Codec, start: string, depth: nat)
    requires LayerOk(c, start, depth)
    ensures LayerOk(c, start, depth + 1)
  {
    hide Fresh, Yields, OnceEach, ExpandAll;
    var l, l' := LayerAt(c, start, depth), LayerAt(c, start, depth + 1);
    ExpandAllExtends(c, start, l.found, l.frontier, depth + 1);
    forall raw ensures Has(l'.found, raw) <==> raw != start && FreshWithin(c, start, depth + 1, raw) {
      FreshWithinNext(c, start, depth, raw);
      if raw != start { NextLayer(c, start, depth, raw); }
      assert Has(l'.found, raw) <==> Has(l.found, raw) || (raw != start && YieldsFrom(c, l.frontier, raw));
    }
    forall i | 0 <= i < |l'.found| ensures VariantOk(c, start, l'.found[i], depth + 1) {
      if i < |l.found| {
        assert l'.found[i] == l.found[i] && VariantOk(c, start, l.found[i], depth);
      } else {
        NextLayer(c, start, depth, l'.found[i].raw);
        assert !Has(l.found, l'.found[i].raw);
      }
    }
    FrontierIsNewest(c, start, depth);
  }

  lemma TextsMember(found: seq<Variant>, t: string)
    ensures t in Texts(found) <==> exists v :: v in found && v.text == t
  {
    if t in Texts(found) {
      var i :| 0 <= i < |found| && Texts(found)[i] == t;
      assert found[i] in found;
    }
    if v :| v in found && v.text == t {
      var i :| 0 <= i < |found| && found[i] == v;
      assert Texts(found)[i] == t;
    }
  }

  lemma FrontierIsNewest(c: Codec, start: string, depth: nat)
    requires LayerOk(c, start, depth)
    ensures var l' := LayerAt(c, start, depth + 1);
            forall t :: t in l'.frontier <==> exists v :: v in l'.found && v.depth == depth + 1 && v.text == t
  {
    hide Fresh, Yields, OnceEach, ExpandAll, Has, FreshWithin;
    var l, l' := LayerAt(c, start, depth), LayerAt(c, start, depth + 1);
    ExpandAllExtends(c, start, l.found, l.frontier, depth + 1);
    var added := l'.found[|l.found|..];
    assert l'.frontier == Texts(added) && l'.found == l.found + added;
    forall v ensures v in added <==> v in l'.found && v.depth == depth + 1 {
      assert forall k :: 0 <= k < |added| ==> added[k] == l'.found[|l.found| + k];
      assert forall k :: 0 <= k < |l.found| ==> VariantOk(c, start, l.found[k], depth);
    }
    forall t ensures t in l'.frontier <==> exists v :: v in l'.found && v.depth == depth + 1 && v.text == t {
      TextsMember(added, t);
    }
  }

  lemma FirstLayer(c: Codec, start: string)
    ensures LayerOk(c, start, 0)
  {
    assert LayerAt(c, start, 0).found == [];
  }

  lemma {:induction false} SearchFindsFresh(c: Codec, start: string, depth: nat)
    ensures LayerOk(c, start, depth)
  {
    if depth == 0 {
      FirstLayer(c, start);
    } else {
      hide LayerOk;
      SearchFindsFresh(c, start, depth - 1);
      LayerGrows(c, start, depth - 1);
    }
  }

  // ----- which decoder a variant is put down to -----

  lemma {:induction false} OfferAllNew(c: Codec, start: string, found: seq<Variant>, rs: seq<Result>, depth: nat, e: Encoding,
                                       v: Variant)
    requires v in OfferAll(c, start, found, rs, depth, e) && v !in found
    ensures v.encoding == e && DECODED(v.raw) in rs && !Has(found, v.raw)
  {
    if rs != [] {
      var before := OfferAll(c, start, found, rs[..|rs| - 1], depth, e);
      if v in before {
        OfferAllNew(c, start, found, rs[..|rs| - 1], depth, e, v);
      } else {
        OfferAllExtends(c, start, found, rs[..|rs| - 1], depth, e);
        if Has(found, v.raw) { HasPrefix(found, before, v.raw); }
      }
    }
  }

  /** A new variant is put down to the first of the decoders that gives it on this text. */
  ghost predicate FirstGives(c: Codec, text: string, decoders: seq<Encoding>, v: Variant) {
    exists k :: 0 <= k < |decoders| && v.encoding == decoders[k] && DECODED(v.raw) in c.matches(decoders[k], text)
                && forall j :: 0 <= j < k ==> DECODED(v.raw) !in c.matches(decoders[j], text)
  }

  lemma FirstStaysFirst(c: Codec, text: string, before: seq<Encoding>, last: Encoding, v: Variant)
    requires FirstGives(c, text, before, v)
    ensures FirstGives(c, text, before + [last], v)
  {
    assert forall j :: 0 <= j < |before| ==> (before + [last])[j] == before[j];
  }

  lemma LastIsFirst(c: Codec, text: string, before: seq<Encoding>, last: Encoding, v: Variant)
    requires v.encoding == last && DECODED(v.raw) in c.matches(last, text) && v.raw != "" && !YieldsBy(c, text, before, v.raw)
    ensures FirstGives(c, text, before + [last], v)
  {
    var decoders := before + [last];
    assert decoders[|before|] == last;
    forall j | 0 <= j < |before| ensures DECODED(v.raw) !in c.matches(decoders[j], text) {
      assert decoders[j] == before[j] && before[j] in before;
    }
  }

  lemma {:induction false} ExpandNew(c: Codec, start: string, found: seq<Variant>, text: string, depth: nat,
                                     decoders: seq<Encoding>, v: Variant)
    requires v in Expand(c, start, found, text, depth, decoders) && v !in found && v.raw != "" && v.raw != start
    ensures FirstGives(c, text, decoders, v)
  {
    hide OfferAll, Has, FirstGives, YieldsBy;
    if decoders != [] {
      var before, last := decoders[..|decoders| - 1], decoders[|decoders| - 1];
      assert decoders == before + [last];
      var mid := Expand(c, start, found, text, depth, before);
      if v in mid {
        ExpandNew(c, start, found, text, depth, before, v);
        FirstStaysFirst(c, text, before, last, v);
      } else {
        OfferAllNew(c, start, mid, c.matches(last, text), depth, last, v);
        NotYielded(c, start, found, text, depth, before, v.raw);
        LastIsFirst(c, text, before, last, v);
      }
    }
  }

  lemma NotYielded(c: Codec, start: string, found: seq<Variant>, text: string, depth: nat, decoders: seq<Encoding>, raw: string)
    requires raw != start && !Has(Expand(c, start, found, text, depth, decoders), raw)
    ensures !YieldsBy(c, text, decoders, raw)
  {
    hide Expand, Has, OnceEach, YieldsBy;
    ExpandExtends(c, start, found, text, depth, decoders);
  }

  lemma {:induction false} ExpandAllNew(c: Codec, start: string, found: seq<Variant>, texts: seq<string>, depth: nat, v: Variant)
    requires v in ExpandAll(c, start, found, texts, depth) && v !in found && v.raw != "" && v.raw != start
    ensures exists text :: text in texts && FirstGives(c, text, DECODERS, v)
  {
    hide Expand, FirstGives;
    if texts != [] {
      var before, last := texts[..|texts| - 1], texts[|texts| - 1];
      assert texts == before + [last];
      if v in ExpandAll(c, start, found, before, depth) {
        ExpandAllNew(c, start, found, before, depth, v);
      } else {
        ExpandNew(c, start, ExpandAll(c, start, found, before, depth), last, depth, DECODERS, v);
      }
    }
  }

  /** Every variant of the result names the first decoder, in the order base64, hex, percent, that gives its string on
      a text of the layer before it. */
  lemma {:induction false} EncodingIsGenuine(c: Codec, start: string, depth: nat, v: Variant)
    requires v in LayerAt(c, start, depth).found
    ensures exists d, text :: 0 <= d < depth && text in LayerAt(c, start, d).frontier && FirstInOrder(c, text, v)
  {
    hide ExpandAll, FirstGives;
    if depth > 0 {
      var l := LayerAt(c, start, depth - 1);
      if v in l.found {
        EncodingIsGenuine(c, start, depth - 1, v);
      } else {
        FoundIsText(c, start, depth, v);
        ExpandAllNew(c, start, l.found, l.frontier, depth, v);
        var text :| text in l.frontier && FirstGives(c, text, DECODERS, v);
        OrderOfDecoders(c, text, v);
      }
    }
  }

  /** The first of base64, hex and percent that gives the string. */
  ghost predicate FirstInOrder(c: Codec, text: string, v: Variant) {
    && DECODED(v.raw) in c.matches(v.encoding, text)
    && (v.encoding == HEX ==> DECODED(v.raw) !in c.matches(BASE64, text))
    && (v.encoding == PERCENT ==> DECODED(v.raw) !in c.matches(BASE64, text) && DECODED(v.raw) !in c.matches(HEX, text))
  }

  lemma OrderOfDecoders(c: Codec, text: string, v: Variant)
    requires FirstGives(c, text, DECODERS, v)
    ensures FirstInOrder(c, text, v)
  {
    assert DECODERS[0] == BASE64 && DECODERS[1] == HEX && DECODERS[2] == PERCENT;
  }

  lemma FoundIsText(c: Codec, start: string, depth: nat, v: Variant)
    requires v in LayerAt(c, start, depth).found
    ensures v.raw != "" && v.raw != start
  {
    hide LayerAt;
    SearchFindsFresh(c, start, depth);
    var found := LayerAt(c, start, depth).found;
    var i :| 0 <= i < |found| && found[i] == v;
    assert VariantOk(c, start, found[i], depth);
    assert Has(found, v.raw);
    FreshIsText(c, start, v.depth, v.raw);
  }

  lemma FreshIsText(c: Codec, start: string, depth: nat, raw: string)
    requires Fresh(c, start, depth, raw)
    ensures raw != ""
  {
  }

  // ----- when an error is reported -----

  /** Some decoder raises on a part of `text`. */
  ghost predicate Fails(c: Codec, text: string) {
    exists e: Encoding :: RAISED in c.matches(e, text)
  }

  lemma FailsIsRaises(c: Codec, text: string)
    ensures Fails(c, text) <==> Raises(c, text)
  {
    if e: Encoding :| RAISED in c.matches(e, text) {
      AllDecoders(e);
      assert exists r :: r in c.matches(e, text) && r.RAISED?;
    }
  }

  lemma FrontierIsFresh(c: Codec, start: string, depth: nat, t: string)
    requires 1 <= depth && t in LayerAt(c, start, depth).frontier
    ensures exists r :: r != start && Fresh(c, start, depth, r) && t == c.norm(r)
  {
    hide LayerAt, Fresh, OnceEach, FreshWithin;
    SearchFindsFresh(c, start, depth);
    var found := LayerAt(c, start, depth).found;
    var v :| v in found && v.depth == depth && v.text == t;
    var i :| 0 <= i < |found| && found[i] == v;
    assert VariantOk(c, start, found[i], depth);
  }

  /** A string is expanded at its least depth. */
  lemma FreshIsExpanded(c: Codec, start: string, depth: nat, r: string)
    requires r != start && Fresh(c, start, depth, r)
    ensures exists d :: 1 <= d <= depth && c.norm(r) in LayerAt(c, start, d).frontier
  {
    hide LayerAt, Fresh, OnceEach;
    var v := Known(c, start, depth, r);
    var w := Known(c, start, v.depth, r);
    assert w.text in LayerAt(c, start, v.depth).frontier by { SearchFindsFresh(c, start, v.depth); }
  }

  lemma Known(c: Codec, start: string, depth: nat, r: string) returns (v: Variant)
    requires r != start && Fresh(c, start, depth, r)
    ensures v in LayerAt(c, start, depth).found && v.raw == r && VariantOk(c, start, v, depth)
  {
    hide LayerAt, OnceEach;
    SearchFindsFresh(c, start, depth);
    var found := LayerAt(c, start, depth).found;
    assert FreshWithin(c, start, depth, r);
    v :| v in found && v.raw == r;
    var i :| 0 <= i < |found| && found[i] == v;
    assert VariantOk(c, start, found[i], depth);
  }

  /** An error is reported exactly when a decoder raises on the start text, or on the normal form of a string that is
      reached before the last step. */
  lemma ErrorIsExplained(c: Codec, start: string, maxDepth: nat)
    ensures RaisedWithin(c, start, maxDepth) <==>
              (1 <= maxDepth && Fails(c, start))
              || exists d, r :: 1 <= d < maxDepth && r != start && Fresh(c, start, d, r) && Fails(c, c.norm(r))
  {
    hide LayerAt, Fresh, Fails, Raises;
    forall t ensures Fails(c, t) <==> Raises(c, t) { FailsIsRaises(c, t); }
    StartIsFirst(c, start);
    if k, t :| 0 <= k < maxDepth && t in LayerAt(c, start, k).frontier && Raises(c, t) {
      if k > 0 { FrontierIsFresh(c, start, k, t); }
    }
    if d, r :| 1 <= d < maxDepth && r != start && Fresh(c, start, d, r) && Fails(c, c.norm(r)) {
      FreshIsExpanded(c, start, d, r);
    }
  }

  lemma StartIsFirst(c: Codec, start: string)
    ensures LayerAt(c, start, 0).frontier == [start]
    ensures start in LayerAt(c, start, 0).frontier
  {
  }

  // ----- completeness -----

  /** The start text itself never comes out again, or is its own normal form. */
  ghost predicate NoDetour(c: Codec, start: string, maxDepth: nat) {
    c.norm(start) == start || forall d :: 1 <= d < maxDepth ==> !Reach(c, start, d, start)
  }

  /** Then passing through the start text again gains nothing. */
  lemma {:induction false} DetourIsLonger(c: Codec, start: string, maxDepth: nat, depth: nat, raw: string)
    requires NoDetour(c, start, maxDepth) && depth <= maxDepth && Reach(c, start, depth, raw)
    ensures FreshWithin(c, start, depth, raw)
  {
    hide Yields;
    if depth == 1 {
      assert Fresh(c, start, 1, raw);
    } else {
      var r :| Reach(c, start, depth - 1, r) && Yields(c, c.norm(r), raw);
      if r == start {
        assert Fresh(c, start, 1, raw);
      } else {
        DetourIsLonger(c, start, maxDepth, depth - 1, r);
        var d :| 1 <= d <= depth - 1 && Fresh(c, start, d, r);
        assert Fresh(c, start, d + 1, raw);
      }
    }
  }

  lemma {:induction false} FreshIsReach(c: Codec, start: string, depth: nat, raw: string)
    requires Fresh(c, start, depth, raw)
    ensures Reach(c, start, depth, raw)
  {
    hide Yields;
    if depth > 1 {
      var r :| r != start && Fresh(c, start, depth - 1, r) && Yields(c, c.norm(r), raw);
      FreshIsReach(c, start, depth - 1, r);
    }
  }

  /** The search found exactly the other strings that 1 to `maxDepth` steps reach: each once, with its normalized
      text and its least depth. */
  ghost predicate IsComplete(c: Codec, start: string, maxDepth: nat, found: seq<Variant>) {
    && OnceEach(found)
    && (forall raw :: Has(found, raw) <==> raw != start && ReachWithin(c, start, maxDepth, raw))
    && (forall i :: 0 <= i < |found| ==>
          && 1 <= found[i].depth <= maxDepth
          && found[i].text == c.norm(found[i].raw)
          && Reach(c, start, found[i].depth, found[i].raw)
          && forall d :: 1 <= d < found[i].depth ==> !Reach(c, start, d, found[i].raw))
  }

  /** For any codec the search is complete unless the start text comes out again and hides more behind its normal
      form. */
  lemma SearchIsComplete(c: Codec, start: string, maxDepth: nat)
    requires NoDetour(c, start, maxDepth)
    ensures IsComplete(c, start, maxDepth, LayerAt(c, start, maxDepth).found)
  {
    hide LayerAt, Fresh, Reach, OnceEach, Has, NoDetour;
    SearchFindsFresh(c, start, maxDepth);
    var found := LayerAt(c, start, maxDepth).found;
    forall raw
      ensures Has(found, raw) <==> raw != start && ReachWithin(c, start, maxDepth, raw)
    {
      assert Has(found, raw) <==> raw != start && FreshWithin(c, start, maxDepth, raw);
      if d :| 1 <= d <= maxDepth && Reach(c, start, d, raw) { DetourIsLonger(c, start, maxDepth, d, raw); }
      if d :| 1 <= d <= maxDepth && Fresh(c, start, d, raw) { FreshIsReach(c, start, d, raw); }
    }
    forall i | 0 <= i < |found|
      ensures 1 <= found[i].depth <= maxDepth && found[i].text == c.norm(found[i].raw)
      ensures Reach(c, start, found[i].depth, found[i].raw)
      ensures forall d :: 1 <= d < found[i].depth ==> !Reach(c, start, d, found[i].raw)
    {
      assert VariantOk(c, start, found[i], maxDepth);
      FreshIsReach(c, start, found[i].depth, found[i].raw);
      forall d | 1 <= d < found[i].depth ensures !Reach(c, start, d, found[i].raw) {
        if Reach(c, start, d, found[i].raw) { DetourIsLonger(c, start, maxDepth, d, found[i].raw); }
      }
    }
  }

  // ----- the decoders shorten -----

  /** The length of a character in UTF-8. */
  function Utf8(c: char): nat {
    if c < '\U{0080}' then 1 else if c < '\U{0800}' then 2 else if c < '\U{10000}' then 3 else 4
  }

  function Bytes(s: string): nat {
    if s == [] then 0 else Utf8(s[0]) + Bytes(s[1..])
  }

  /** The number of ASCII characters. */
  function Ascii(s: string): nat {
    if s == [] then 0 else (if s[0] < '\U{0080}' then 1 else 0) + Ascii(s[1..])
  }

  /** The length of the ASCII run that the text starts with. */
  function Leading(s: string): nat {
    if s == [] || s[0] >= '\U{0080}' then 0 else 1 + Leading(s[1..])
  }

  /** The length of the longest run of ASCII characters; a candidate is part of one run. */
  function Longest(s: string): nat {
    if s == [] then 0 else if Leading(s) >= Longest(s[1..]) then Leading(s) else Longest(s[1..])
  }

  lemma {:induction false} AsciiInBytes(s: string)
    ensures Leading(s) <= Ascii(s) && Longest(s) <= Ascii(s) <= Bytes(s)
  {
    if s != [] {
      AsciiInBytes(s[1..]);
    }
  }

  /** What a decoder makes of a candidate of `n` characters: base64 gives three bytes for four characters, hex one
      for two, and percent decoding one for each of at least three escapes, the only source of non-ASCII text. */
  ghost predicate Fits(e: Encoding, n: nat, raw: string) {
    match e
    case BASE64 => 4 * Bytes(raw) <= 3 * n
    case HEX => 2 * Bytes(raw) <= n
    case PERCENT => exists escapes: nat :: IsPercent(n, raw, escapes)
  }

  ghost predicate IsPercent(n: nat, raw: string, escapes: nat) {
    3 <= escapes && Bytes(raw) + 2 * escapes == n && Bytes(raw) - Ascii(raw) <= escapes
  }

  /** A candidate is a non-empty, unbroken part of the text, of ASCII characters only. */
  ghost predicate FromCandidate(e: Encoding, text: string, raw: string) {
    exists n: nat :: 1 <= n <= Longest(text) && Fits(e, n, raw)
  }

  /** The codec has the lengths of the three decoders; and a run of ASCII characters in a normalized text has at most
      one character for each ASCII character of the text it came from, and four for each three bytes of other
      characters. The one compatibility mapping with more ASCII characters than that, of U+33AF to five, has a
      division slash (U+2215) among them, which ends the run. */
  ghost predicate RealLengths(c: Codec) {
    && (forall e, text, raw :: DECODED(raw) in c.matches(e, text) ==> FromCandidate(e, text, raw))
    && (forall s :: 3 * Longest(c.norm(s)) <= 3 * Ascii(s) + 4 * (Bytes(s) - Ascii(s)))
  }

  /** The exception keeps to the bound: its runs are of three and two characters. */
  lemma SlashEndsRun()
    ensures Ascii("rad\U{2215}s2") == 5 && Longest("rad\U{2215}s2") == 3 && Bytes(['\U{33AF}']) == 3
  {
    var s := "rad\U{2215}s2";
    assert s[1..] == "ad\U{2215}s2" && s[1..][1..] == "d\U{2215}s2" && s[1..][1..][1..] == "\U{2215}s2";
    assert "\U{2215}s2"[1..] == "s2" && "s2"[1..] == "2" && "2"[1..] == "";
    assert Leading("2") == Longest("2") == Ascii("2") == 1;
    assert Leading("s2") == Longest("s2") == Ascii("s2") == 2;
    assert Leading("\U{2215}s2") == 0 && Longest("\U{2215}s2") == Ascii("\U{2215}s2") == 2;
    assert Leading("d\U{2215}s2") == 1 && Longest("d\U{2215}s2") == 2 && Ascii("d\U{2215}s2") == 3;
    assert Leading("ad\U{2215}s2") == 2 && Longest("ad\U{2215}s2") == 2 && Ascii("ad\U{2215}s2") == 4;
  }

  lemma YieldShrinks(c: Codec, text: string, raw: string)
    requires RealLengths(c) && Yields(c, text, raw)
    ensures Bytes(raw) < Longest(text) && Longest(c.norm(raw)) <= Longest(text)
  {
    hide Bytes, Ascii, Longest;
    var e: Encoding :| DECODED(raw) in c.matches(e, text) && raw != "";
    assert FromCandidate(e, text, raw);
    var n: nat :| 1 <= n <= Longest(text) && Fits(e, n, raw);
    FitsShrinks(e, n, raw);
    assert 3 * Longest(c.norm(raw)) <= 3 * Ascii(raw) + 4 * (Bytes(raw) - Ascii(raw));
  }

  lemma FitsShrinks(e: Encoding, n: nat, raw: string)
    requires 1 <= n && Fits(e, n, raw)
    ensures Bytes(raw) < n && 3 * Ascii(raw) + 4 * (Bytes(raw) - Ascii(raw)) <= 3 * n
  {
    hide Bytes, Ascii, Longest;
    AsciiInBytes(raw);
    if e.PERCENT? {
      var escapes: nat :| IsPercent(n, raw, escapes);
    }
  }

  /** Whatever comes out, at any depth, has fewer bytes than the start's longest run of ASCII characters. */
  lemma {:induction false} ReachShrinks(c: Codec, start: string, depth: nat, raw: string)
    requires RealLengths(c) && Reach(c, start, depth, raw)
    ensures Bytes(raw) < Longest(start) && Longest(c.norm(raw)) <= Longest(start)
  {
    hide Bytes, Ascii, Longest, RealLengths, Yields;
    if depth == 1 {
      YieldShrinks(c, start, raw);
    } else {
      var r :| Reach(c, start, depth - 1, r) && Yields(c, c.norm(r), raw);
      ReachShrinks(c, start, depth - 1, r);
      YieldShrinks(c, c.norm(r), raw);
    }
  }

  /** With decoders of these lengths the search is complete for every start text, normalized or not: every string
      found or reached is shorter than the start, which therefore never comes out again. */
  lemma RealSearchIsComplete(c: Codec, start: string, maxDepth: nat)
    requires RealLengths(c)
    ensures IsComplete(c, start, maxDepth, LayerAt(c, start, maxDepth).found)
    ensures forall v :: v in LayerAt(c, start, maxDepth).found ==> Bytes(v.raw) < Bytes(start)
  {
    hide Bytes, Ascii, Longest, RealLengths, IsComplete, LayerAt;
    AsciiInBytes(start);
    forall d | 1 <= d < maxDepth ensures !Reach(c, start, d, start) {
      if Reach(c, start, d, start) { ReachShrinks(c, start, d, start); }
    }
    SearchIsComplete(c, start, maxDepth);
    FoundIsShorter(c, start, maxDepth, LayerAt(c, start, maxDepth).found);
  }

  lemma FoundIsShorter(c: Codec, start: string, maxDepth: nat, found: seq<Variant>)
    requires RealLengths(c) && IsComplete(c, start, maxDepth, found)
    ensures forall v :: v in found ==> Bytes(v.raw) < Bytes(start)
  {
    hide Bytes, Ascii, Longest, RealLengths, Reach, OnceEach, Has;
    AsciiInBytes(start);
    forall v | v in found ensures Bytes(v.raw) < Bytes(start) {
      var i :| 0 <= i < |found| && found[i] == v;
      ReachShrinks(c, start, v.depth, v.raw);
    }
  }
}
