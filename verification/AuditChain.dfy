/** The hash chain of one approval's audit events (`_audit` in app/approvals.py): each event is chained to the
    event with the largest identifier. */
module AuditChain {
  import opened Text
  import opened Ids

  /** SHA-256 over the previous hash and the canonical payload, as a free constructor. */
  datatype Hash<P> = GENESIS | SHA256(prev: Hash<P>, payload: P)

  datatype Link<P> = Link(id: string, payload: P, prevHash: Hash<P>, eventHash: Hash<P>)

  datatype Entry<P> = Entry(id: string, payload: P)

  /** `order_by(id.desc()).first()` */
  function Latest<P>(log: seq<Link<P>>): (r: Link<P>)
    requires log != []
    ensures r in log
  {
    if |log| == 1 then log[0]
    else
      var before, last := Latest(log[..|log| - 1]), log[|log| - 1];
      if Less(before.id, last.id) then last else before
  }

  function Audited<P>(log: seq<Link<P>>, e: Entry<P>): (r: seq<Link<P>>)
    ensures |r| == |log| + 1 && r[|log|].id == e.id && r[|log|].payload == e.payload
    ensures forall k :: 0 <= k < |log| ==> r[k] == log[k]
    ensures r[|log|].eventHash == SHA256(r[|log|].prevHash, e.payload)
  {
    var prev := if log == [] then GENESIS else Latest(log).eventHash;
    log + [Link(e.id, e.payload, prev, SHA256(prev, e.payload))]
  }

  ghost predicate Hashed<P>(log: seq<Link<P>>) {
    forall i :: 0 <= i < |log| ==> log[i].eventHash == SHA256(log[i].prevHash, log[i].payload)
  }

  /** The log holds exactly the given events, each under its own hash. */
  ghost predicate Holds<P>(log: seq<Link<P>>, entries: seq<Entry<P>>) {
    && |log| == |entries|
    && (forall k :: 0 <= k < |log| ==> log[k].id == entries[k].id && log[k].payload == entries[k].payload)
    && Hashed(log)
  }

  lemma AuditedHolds<P>(log: seq<Link<P>>, entries: seq<Entry<P>>, e: Entry<P>)
    requires Holds(log, entries)
    ensures Holds(Audited(log, e), entries + [e])
  {
    hide Audited;
    var r := Audited(log, e);
    forall k | 0 <= k < |r| ensures r[k].eventHash == SHA256(r[k].prevHash, r[k].payload) {
      if k < |log| { assert r[k] == log[k]; }
    }
  }

  function Build<P>(entries: seq<Entry<P>>): (log: seq<Link<P>>)
    ensures Holds(log, entries)
  {
    if entries == [] then []
    else
      var before, last := entries[..|entries| - 1], entries[|entries| - 1];
      AuditedHolds(Build(before), before, last);
      assert entries == before + [last];
      hide Holds, Audited;
      Audited(Build(before), last)
  }

  /** Every event is chained to the event written just before it. */
  ghost predicate Unbroken<P>(log: seq<Link<P>>) {
    forall k :: 0 <= k < |log| ==> log[k].prevHash == Before(log, k)
  }

  /** The hash that the k-th event should be chained to. */
  function Before<P>(log: seq<Link<P>>, k: nat): Hash<P>
    requires k < |log|
  {
    if k == 0 then GENESIS else log[k - 1].eventHash
  }

  ghost predicate DistinctIds<P>(entries: seq<Entry<P>>) {
    forall i, j :: 0 <= i < j < |entries| ==> entries[i].id != entries[j].id
  }

  /** The first `n` identifiers are in increasing order. */
  ghost predicate Increasing<P>(entries: seq<Entry<P>>, n: nat)
    requires n <= |entries|
  {
    forall i, j :: 0 <= i < j < n ==> Less(entries[i].id, entries[j].id)
  }

  lemma {:induction false} LatestIsLargest<P>(log: seq<Link<P>>)
    requires log != []
    ensures forall k :: 0 <= k < |log| ==> log[k].id == Latest(log).id || Less(log[k].id, Latest(log).id)
  {
    if |log| > 1 {
      var before, last := log[..|log| - 1], log[|log| - 1];
      LatestIsLargest(before);
      forall k | 0 <= k < |log| ensures log[k].id == Latest(log).id || Less(log[k].id, Latest(log).id) {
        if k < |before| {
          assert log[k] == before[k];
          LessIsStrictOrder(before[k].id, Latest(before).id, last.id);
        }
        LessIsStrictOrder(Latest(before).id, last.id, last.id);
      }
    }
  }

  function Depth<P>(h: Hash<P>): nat {
    match h case GENESIS => 0 case SHA256(prev, _) => 1 + Depth(prev)
  }

  /** In an unbroken log the k-th hash has k + 1 events below it, so hashes tell positions apart. */
  lemma {:induction false} DepthIsPosition<P>(log: seq<Link<P>>, k: nat)
    requires Unbroken(log) && k < |log|
    requires Hashed(log)
    ensures Depth(log[k].eventHash) == k + 1
  {
    hide Unbroken, Hashed;
    LinkAt(log, k);
    if k > 0 {
      DepthIsPosition(log, k - 1);
    }
  }

  lemma LinkAt<P>(log: seq<Link<P>>, k: nat)
    requires Unbroken(log) && k < |log|
    requires Hashed(log)
    ensures log[k].eventHash == SHA256(Before(log, k), log[k].payload)
  {
    assert log[k].prevHash == Before(log, k);
  }

  lemma AppendLink<P>(log: seq<Link<P>>, l: Link<P>)
    ensures Unbroken(log + [l]) <==>
              Unbroken(log) && l.prevHash == if log == [] then GENESIS else log[|log| - 1].eventHash
  {
    var all, n := log + [l], |log|;
    assert all[n] == l && Before(all, n) == if log == [] then GENESIS else log[n - 1].eventHash;
    forall k | 0 <= k < n ensures all[k] == log[k] && Before(all, k) == Before(log, k) {}
    if Unbroken(all) {
      UnbrokenPrefix(all, n);
      assert all[..n] == log;
    }
  }

  lemma UnbrokenStep<P>(log: seq<Link<P>>, e: Entry<P>)
    ensures Unbroken(Audited(log, e)) <==>
              Unbroken(log) && (log == [] || Latest(log).eventHash == log[|log| - 1].eventHash)
  {
    hide Unbroken, Latest;
    var l := Audited(log, e)[|log|];
    assert Audited(log, e) == log + [l];
    AppendLink(log, l);
  }

  lemma UnbrokenPrefix<P>(log: seq<Link<P>>, n: nat)
    requires Unbroken(log) && n <= |log|
    ensures Unbroken(log[..n])
  {
    var prefix := log[..n];
    forall k | 0 <= k < n ensures prefix[k].prevHash == Before(prefix, k) {
      assert prefix[k] == log[k] && Before(prefix, k) == Before(log, k);
    }
  }

  /** The largest identifier is the last event's exactly when no earlier one exceeds it. */
  lemma LatestIsLast<P>(log: seq<Link<P>>)
    requires log != [] && Unbroken(log)
    requires Hashed(log)
    requires forall i, j :: 0 <= i < j < |log| ==> log[i].id != log[j].id
    ensures Latest(log).eventHash == log[|log| - 1].eventHash <==>
              forall i :: 0 <= i < |log| - 1 ==> Less(log[i].id, log[|log| - 1].id)
  {
    hide Less;
    var n := |log| - 1;
    LatestIsLargest(log);
    var m :| 0 <= m < |log| && log[m] == Latest(log);
    DepthIsPosition(log, m);
    DepthIsPosition(log, n);
    if forall i :: 0 <= i < n ==> Less(log[i].id, log[n].id) {
      LessIsStrictOrder(log[m].id, log[n].id, log[m].id);
      assert m == n;
    }
  }

  /** The audit log of an approval is one unbroken hash chain from genesis if and only if the identifiers of
      all its events but the last are increasing. */
  lemma {:induction false} ChainUnbrokenExactlyWhen<P>(entries: seq<Entry<P>>)
    requires DistinctIds(entries)
    ensures Unbroken(Build(entries)) <==> Increasing(entries, if entries == [] then 0 else |entries| - 1)
  {
    hide Less, Audited, Increasing, Unbroken, Latest;
    if entries == [] {
      NothingToChain<P>();
    } else {
      var before, last := entries[..|entries| - 1], entries[|entries| - 1];
      var log := Build(before);
      ChainUnbrokenExactlyWhen(before);
      UnbrokenStep(log, last);
      NothingToChain<P>();
      IncreasingStep(entries, before);
      if before != [] && Unbroken(log) {
        LatestIsLast(log);
        assert (forall i :: 0 <= i < |log| - 1 ==> Less(log[i].id, log[|log| - 1].id)) <==>
               (forall i :: 0 <= i < |before| - 1 ==> Less(before[i].id, before[|before| - 1].id));
      }
    }
  }

  lemma IncreasingStep<P>(entries: seq<Entry<P>>, before: seq<Entry<P>>)
    requires entries != [] && before == entries[..|entries| - 1]
    ensures before == [] ==> Increasing(entries, 0)
    ensures before != [] ==>
              (Increasing(entries, |before|) <==>
                 Increasing(before, |before| - 1)
                 && forall i :: 0 <= i < |before| - 1 ==> Less(before[i].id, before[|before| - 1].id))
  {
    hide Less;
    assert forall i :: 0 <= i < |before| ==> before[i] == entries[i];
  }

  lemma NothingToChain<P>()
    ensures Unbroken<P>([]) && Increasing<P>([], 0)
  {
  }

  /** An event written at a millisecond, with the random part of its identifier. */
  datatype Stamp = Stamp(millis: nat, random: nat)

  function Stamped<P>(stamps: seq<Stamp>, payloads: seq<P>): (r: seq<Entry<P>>)
    requires |stamps| == |payloads|
    ensures |r| == |stamps|
    ensures forall i :: 0 <= i < |r| ==> r[i] == Entry(NewId("evt", stamps[i].millis, stamps[i].random), payloads[i])
  {
    seq(|stamps|, i requires 0 <= i < |stamps| => Entry(NewId("evt", stamps[i].millis, stamps[i].random), payloads[i]))
  }

  ghost predicate InRange(stamps: seq<Stamp>) {
    forall i :: 0 <= i < |stamps| ==> stamps[i].millis < Pow32(10) && stamps[i].random < Pow32(16)
  }

  /** Events written in strictly increasing milliseconds always form one unbroken chain. */
  lemma IncreasingTimesChain<P>(stamps: seq<Stamp>, payloads: seq<P>)
    requires |stamps| == |payloads| && InRange(stamps)
    requires forall i, j :: 0 <= i < j < |stamps| ==> stamps[i].millis < stamps[j].millis
    ensures Unbroken(Build(Stamped(stamps, payloads)))
  {
    hide NewId, Less, Unbroken, Pow32;
    var entries := Stamped(stamps, payloads);
    forall i, j | 0 <= i < j < |entries|
      ensures Less(entries[i].id, entries[j].id) && entries[i].id != entries[j].id
    {
      IdsSortByTime("evt", stamps[i].millis, stamps[j].millis, stamps[i].random, stamps[j].random);
    }
    ChainUnbrokenExactlyWhen(entries);
  }

  /** Two events in one millisecond, the later one with the smaller random part, break the chain at the
      third: it is chained to the first event, and the second is left out. */
  lemma SameMillisecondForks<P>(millis: nat, later: nat, r: nat, s: nat, t: nat, a: P, b: P, c: P)
    requires millis < later < Pow32(10) && s < r < Pow32(16) && t < Pow32(16)
    ensures var log := Build(Stamped([Stamp(millis, r), Stamp(millis, s), Stamp(later, t)], [a, b, c]));
            !Unbroken(log) && log[2].prevHash == log[0].eventHash
  {
    hide NewId, Less, Pow32;
    var stamps := [Stamp(millis, r), Stamp(millis, s), Stamp(later, t)];
    var entries := Stamped(stamps, [a, b, c]);
    IdsSortByTime("evt", millis, millis, r, s);
    IdsSortByTime("evt", millis, millis, s, r);
    var two := entries[..2];
    assert entries[..|entries| - 1] == two && two[..1] == [entries[0]] && [entries[0]][..0] == [];
    var log := Build(two);
    assert log[..1] == Build([entries[0]]);
    assert Latest(log) == log[0];
    assert Build(entries) == Audited(log, entries[2]);
    assert log[1].eventHash != log[0].eventHash by { assert log[1].prevHash == log[0].eventHash; DifferentDepth(log[0].eventHash, b); }
  }

  lemma DifferentDepth<P>(h: Hash<P>, p: P)
    ensures SHA256(h, p) != h
  {
    assert Depth(SHA256(h, p)) == Depth(h) + 1;
  }

  /** The last hash of an unbroken log determines every payload in it: no event can be changed, dropped or
      added without changing it. */
  lemma {:induction false} HeadDeterminesHistory<P>(log: seq<Link<P>>, other: seq<Link<P>>)
    requires Unbroken(log) && Unbroken(other) && log != [] && other != []
    requires Hashed(log)
    requires Hashed(other)
    requires log[|log| - 1].eventHash == other[|other| - 1].eventHash
    ensures |log| == |other| && forall i :: 0 <= i < |log| ==> log[i].payload == other[i].payload
  {
    hide Unbroken, Hashed;
    DepthIsPosition(log, |log| - 1);
    DepthIsPosition(other, |other| - 1);
    LastLink(log);
    LastLink(other);
    if |log| > 1 {
      var a, b := log[..|log| - 1], other[..|other| - 1];
      HeadDeterminesHistory(a, b);
      assert forall i :: 0 <= i < |a| ==> a[i] == log[i] && b[i] == other[i];
    }
  }

  lemma LastLink<P>(log: seq<Link<P>>)
    requires Unbroken(log) && Hashed(log) && log != []
    ensures log[|log| - 1].eventHash == SHA256(Before(log, |log| - 1), log[|log| - 1].payload)
    ensures Unbroken(log[..|log| - 1]) && Hashed(log[..|log| - 1])
  {
    UnbrokenPrefix(log, |log| - 1);
    assert log[|log| - 1].prevHash == Before(log, |log| - 1);
  }
}
