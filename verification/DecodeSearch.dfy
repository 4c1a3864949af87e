/** The bounded search through encoded layers (app/normalizer.py). The decoders and the normalization are
    parameters: what each decoder makes of each text, in scan order, and any function on strings. */
module DecodeSearch {

  datatype Encoding = BASE64 | HEX | PERCENT

  /** One matched candidate: it decodes, it does not, or its decoder raises. */
  datatype Result = DECODED(raw: string) | NOTHING | RAISED

  datatype Codec = Codec(matches: (Encoding, string) -> seq<Result>, norm: string -> string)

  /** A decoded variant; `raw` is the string as decoded, which the caller is not given. */
  datatype Variant = Variant(raw: string, text: string, depth: nat, encoding: Encoding)

  const DECODERS: seq<Encoding> := [BASE64, HEX, PERCENT]

  // ----- the search as a fold -----

  predicate Seen(found: seq<Variant>, start: string, raw: string) {
    raw == start || exists v :: v in found && v.raw == raw
  }

  function Offer(c: Codec, start: string, found: seq<Variant>, r: Result, depth: nat, e: Encoding): seq<Variant> {
    if r.DECODED? && r.raw != "" && !Seen(found, start, r.raw)
    then found + [Variant(r.raw, c.norm(r.raw), depth, e)] else found
  }

  function OfferAll(c: Codec, start: string, found: seq<Variant>, rs: seq<Result>, depth: nat, e: Encoding): seq<Variant> {
    if rs == [] then found
    else Offer(c, start, OfferAll(c, start, found, rs[..|rs| - 1], depth, e), rs[|rs| - 1], depth, e)
  }

  /** The decoders in turn on one text. */
  function Expand(c: Codec, start: string, found: seq<Variant>, text: string, depth: nat, decoders: seq<Encoding>): seq<Variant> {
    if decoders == [] then found
    else
      var e := decoders[|decoders| - 1];
      OfferAll(c, start, Expand(c, start, found, text, depth, decoders[..|decoders| - 1]), c.matches(e, text), depth, e)
  }

  function ExpandAll(c: Codec, start: string, found: seq<Variant>, texts: seq<string>, depth: nat): seq<Variant> {
    if texts == [] then found
    else Expand(c, start, ExpandAll(c, start, found, texts[..|texts| - 1], depth), texts[|texts| - 1], depth, DECODERS)
  }

  function Texts(found: seq<Variant>): (r: seq<string>)
    ensures |r| == |found| && forall i :: 0 <= i < |r| ==> r[i] == found[i].text
  {
    seq(|found|, i requires 0 <= i < |found| => found[i].text)
  }

  /** What is known after `depth` layers, and the texts the last layer added. */
  datatype Layer = Layer(found: seq<Variant>, frontier: seq<string>)

  function LayerAt(c: Codec, start: string, depth: nat): Layer {
    if depth == 0 then Layer([], [start])
    else
      var before := LayerAt(c, start, depth - 1);
      var found := ExpandAll(c, start, before.found, before.frontier, depth);
      Layer(found, if |found| > |before.found| then Texts(found[|before.found|..]) else [])
  }

  // ----- the code, loop by loop -----

  predicate Raises(c: Codec, text: string) {
    exists e, r :: e in DECODERS && r in c.matches(e, text) && r.RAISED?
  }

  method ScanText(c: Codec, start: string, text: string, depth: nat, found0: seq<Variant>, seen0: set<string>)
    returns (found: seq<Variant>, seen: set<string>, raised: bool)
    requires forall s :: s in seen0 <==> Seen(found0, start, s)
    ensures found == Expand(c, start, found0, text, depth, DECODERS)
    ensures forall s :: s in seen <==> Seen(found, start, s)
    ensures raised <==> Raises(c, text)
  {
    found, seen, raised := found0, seen0, false;
    for d := 0 to |DECODERS|
      invariant found == Expand(c, start, found0, text, depth, DECODERS[..d])
      invariant forall s :: s in seen <==> Seen(found, start, s)
      invariant raised <==> exists k, r :: 0 <= k < d && r in c.matches(DECODERS[k], text) && r.RAISED?
    {
      assert DECODERS[..d + 1][..d] == DECODERS[..d];
      var e := DECODERS[d];
      var rs := c.matches(e, text);
      ghost var before, raisedBefore := found, raised;
      for m := 0 to |rs|
        invariant found == OfferAll(c, start, before, rs[..m], depth, e)
        invariant forall s :: s in seen <==> Seen(found, start, s)
        invariant raised <==> raisedBefore || exists i :: 0 <= i < m && rs[i].RAISED?
      {
        assert rs[..m + 1][..m] == rs[..m];
        match rs[m]
        case RAISED => raised := true;
        case NOTHING =>
        case DECODED(raw) =>
          if raw != "" && raw !in seen {
            ghost var older := found;
            seen := seen + {raw};
            found := found + [Variant(raw, c.norm(raw), depth, e)];
            forall s ensures Seen(found, start, s) <==> Seen(older, start, s) || s == raw {
              SeenAppend(older, found[|older|], start, s);
            }
          }
      }
      assert rs[..|rs|] == rs;
      assert (exists r :: r in rs && r.RAISED?) <==> exists i :: 0 <= i < |rs| && rs[i].RAISED?;
    }
    assert DECODERS[..|DECODERS|] == DECODERS;
  }

  lemma SeenAppend(found: seq<Variant>, v: Variant, start: string, s: string)
    ensures Seen(found + [v], start, s) <==> Seen(found, start, s) || s == v.raw
  {
    if Seen(found, start, s) && s != start {
      var w :| w in found && w.raw == s;
      assert w in found + [v];
    }
    assert v in found + [v];
  }

  /** Some text of the first `depth` frontiers makes a decoder raise. */
  ghost predicate RaisedWithin(c: Codec, start: string, depth: nat) {
    exists k, t :: 0 <= k < depth && t in LayerAt(c, start, k).frontier && Raises(c, t)
  }

  /** The loop over one frontier. */
  method ScanFrontier(c: Codec, start: string, frontier: seq<string>, depth: nat, found0: seq<Variant>, seen0: set<string>)
    returns (found: seq<Variant>, seen: set<string>, raised: bool)
    requires forall s :: s in seen0 <==> Seen(found0, start, s)
    ensures found == ExpandAll(c, start, found0, frontier, depth) && found0 <= found
    ensures forall s :: s in seen <==> Seen(found, start, s)
    ensures raised <==> exists t :: t in frontier && Raises(c, t)
  {
    hide Expand, Raises, Seen;
    found, seen, raised := found0, seen0, false;
    for i := 0 to |frontier|
      invariant found == ExpandAll(c, start, found0, frontier[..i], depth) && found0 <= found
      invariant forall s :: s in seen <==> Seen(found, start, s)
      invariant raised <==> exists k :: 0 <= k < i && Raises(c, frontier[k])
    {
      assert frontier[..i + 1][..i] == frontier[..i];
      ghost var before := found;
      var one;
      found, seen, one := ScanText(c, start, frontier[i], depth, found, seen);
      ExpandGrows(c, start, before, frontier[i], depth, DECODERS);
      raised := raised || one;
    }
    assert frontier[..|frontier|] == frontier;
    assert raised ==> exists k :: 0 <= k < |frontier| && frontier[k] in frontier && Raises(c, frontier[k]);
  }

  method DecodeVariants(c: Codec, text: string, maxDepth: nat) returns (variants: seq<Variant>, hadError: bool)
    ensures variants == LayerAt(c, text, maxDepth).found
    ensures hadError <==> RaisedWithin(c, text, maxDepth)
  {
    hide ExpandAll, Raises, Seen, RaisedWithin;
    variants, hadError := [], false;
    var seen := {text};
    var frontier := [text];
    NothingYet(c, text);
    for depth := 1 to maxDepth + 1
      invariant LayerAt(c, text, depth - 1) == Layer(variants, frontier)
      invariant forall s :: s in seen <==> Seen(variants, text, s)
      invariant hadError <==> RaisedWithin(c, text, depth - 1)
    {
      var known := |variants|;
      var raised;
      variants, seen, raised := ScanFrontier(c, text, frontier, depth, variants, seen);
      hadError := hadError || raised;
      ErrorsAdd(c, text, depth - 1);
      if |variants| == known {
        SameFromHere(c, text, depth, maxDepth);
        return;
      }
      frontier := Texts(variants[known..]);
    }
  }

  lemma NothingYet(c: Codec, start: string)
    ensures !RaisedWithin(c, start, 0) && forall s :: Seen([], start, s) <==> s == start
  {
  }

  lemma OfferGrows(c: Codec, start: string, found: seq<Variant>, rs: seq<Result>, depth: nat, e: Encoding)
    ensures found <= OfferAll(c, start, found, rs, depth, e)
  {
    hide Seen;
    if rs != [] {
      OfferGrows(c, start, found, rs[..|rs| - 1], depth, e);
    }
  }

  lemma ExpandGrows(c: Codec, start: string, found: seq<Variant>, text: string, depth: nat, decoders: seq<Encoding>)
    ensures found <= Expand(c, start, found, text, depth, decoders)
  {
    if decoders != [] {
      var before, e := decoders[..|decoders| - 1], decoders[|decoders| - 1];
      ExpandGrows(c, start, found, text, depth, before);
      OfferGrows(c, start, Expand(c, start, found, text, depth, before), c.matches(e, text), depth, e);
    }
  }

  lemma ErrorsAdd(c: Codec, start: string, depth: nat)
    ensures RaisedWithin(c, start, depth + 1) <==>
              RaisedWithin(c, start, depth) || exists t :: t in LayerAt(c, start, depth).frontier && Raises(c, t)
  {
    hide Raises, LayerAt;
  }

  lemma EmptyLayer(c: Codec, start: string, depth: nat)
    requires LayerAt(c, start, depth).frontier == []
    ensures LayerAt(c, start, depth + 1) == LayerAt(c, start, depth)
  {
    hide Expand;
  }

  /** An empty frontier ends the search: deeper layers add nothing and raise nothing. */
  lemma {:induction false} SameFromHere(c: Codec, start: string, depth: nat, maxDepth: nat)
    requires depth <= maxDepth && LayerAt(c, start, depth).frontier == []
    ensures LayerAt(c, start, maxDepth) == LayerAt(c, start, depth)
    ensures RaisedWithin(c, start, maxDepth) <==> RaisedWithin(c, start, depth)
    decreases maxDepth
  {
    hide LayerAt, RaisedWithin;
    if depth < maxDepth {
      SameFromHere(c, start, depth, maxDepth - 1);
      EmptyLayer(c, start, maxDepth - 1);
      ErrorsAdd(c, start, maxDepth - 1);
    }
  }
}
