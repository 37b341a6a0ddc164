/** Layering the Hub configuration: overlaying one JSON document on another, and
    reducing a configuration to what differs from the defaults. */
module ConfigMerge {
  import opened Utf8
  import opened Conversation
  import opened JsonText

  // ---- Objects as ordered members ----------------------------------------

  function Lookup(m: Members, key: Bytes): Option<Json> {
    if m.End? then None else if m.key == key then Some(m.value) else Lookup(m.rest, key)
  }

  predicate Has(m: Members, key: Bytes) {
    m.Member? && (m.key == key || Has(m.rest, key))
  }

  /** Assignment to a key: in place when it exists, at the end otherwise. */
  function Put(m: Members, key: Bytes, value: Json): Members {
    if m.End? then Member(key, value, End)
    else if m.key == key then m.(value := value)
    else m.(rest := Put(m.rest, key, value))
  }

  function Concat(a: Members, b: Members): Members {
    if a.End? then b else a.(rest := Concat(a.rest, b))
  }

  /** No object, at any depth, has the same key twice. */
  ghost predicate WellKeyed(j: Json) {
    (j.Obj? ==> Distinct(j.members)) && ((j.Obj? || j.Arr?) ==> AllWellKeyed(j.members))
  }

  ghost predicate Distinct(m: Members) {
    m.Member? ==> !Has(m.rest, m.key) && Distinct(m.rest)
  }

  ghost predicate AllWellKeyed(m: Members) {
    m.Member? ==> WellKeyed(m.value) && AllWellKeyed(m.rest)
  }

  lemma {:induction m} LookupIffHas(m: Members, key: Bytes)
    ensures Has(m, key) <==> Lookup(m, key).Some?
  {
  }

  lemma {:induction a} LookupInConcat(a: Members, b: Members, key: Bytes)
    ensures Lookup(Concat(a, b), key) == if Has(a, key) then Lookup(a, key) else Lookup(b, key)
    ensures Has(Concat(a, b), key) <==> Has(a, key) || Has(b, key)
  {
  }

  lemma {:induction a} ConcatAssociates(a: Members, b: Members, c: Members)
    ensures Concat(Concat(a, b), c) == Concat(a, Concat(b, c))
    ensures Concat(a, End) == a
  {
  }

  // ---- Specification -----------------------------------------------------

  /** The overlay of two documents: the base's keys in their order with their values
      overlaid, then the new keys in theirs; anything but two objects is replaced. */
  function Merge(base: Json, over: Json): Json {
    if base.Obj? && over.Obj?
    then Obj(Concat(Overlay(base.members, over.members), Fresh(over.members, base.members)))
    else over
  }

  function Overlay(base: Members, over: Members): Members {
    if base.End? then End
    else
      var value := match Lookup(over, base.key) case None => base.value case Some(o) => Merge(base.value, o);
      Member(base.key, value, Overlay(base.rest, over))
  }

  function Fresh(over: Members, base: Members): Members {
    if over.End? then End
    else if Has(base, over.key) then Fresh(over.rest, base)
    else over.(rest := Fresh(over.rest, base))
  }

  /** What differs from a baseline, where a missing baseline differs from everything. */
  function Differences(value: Json, baseline: Option<Json>): Option<Json> {
    if value.Obj? && baseline.Some? && baseline.value.Obj? then
      var d := DifferentMembers(value.members, baseline.value.members);
      if d.End? then None else Some(Obj(d))
    else if baseline == Some(value) then None else Some(value)
  }

  function DifferentMembers(m: Members, baseline: Members): Members {
    if m.End? then End
    else match Differences(m.value, Lookup(baseline, m.key))
      case None => DifferentMembers(m.rest, baseline)
      case Some(d) => Member(m.key, d, DifferentMembers(m.rest, baseline))
  }

  // ---- The operations ----------------------------------------------------

  lemma {:induction false} OverlayUntouched(base: Members, done: Members, key: Bytes, value: Json)
    requires !Has(base, key)
    ensures Overlay(base, Concat(done, Member(key, value, End))) == Overlay(base, done)
  {
    if base.Member? {
      OverlayUntouched(base.rest, done, key, value);
      LookupInConcat(done, Member(key, value, End), base.key);
      LookupIffHas(done, base.key);
    }
  }

  lemma {:induction false} OverlayTouched(base: Members, done: Members, key: Bytes, value: Json)
    requires Has(base, key) && Distinct(base) && !Has(done, key)
    ensures Lookup(base, key).Some?
    ensures Overlay(base, Concat(done, Member(key, value, End)))
            == Put(Overlay(base, done), key, Merge(Lookup(base, key).value, value))
  {
    LookupInConcat(done, Member(key, value, End), base.key);
    LookupIffHas(done, base.key);
    if base.key == key {
      OverlayUntouched(base.rest, done, key, value);
    } else {
      OverlayTouched(base.rest, done, key, value);
    }
  }

  lemma {:induction over} FreshOneMore(over: Members, base: Members, key: Bytes, value: Json)
    ensures Fresh(Concat(over, Member(key, value, End)), base)
            == if Has(base, key) then Fresh(over, base) else Concat(Fresh(over, base), Member(key, value, End))
  {
  }

  lemma {:induction a} PutInConcat(a: Members, b: Members, key: Bytes, value: Json)
    ensures Put(Concat(a, b), key, value) == if Has(a, key) then Concat(Put(a, key, value), b) else Concat(a, Put(b, key, value))
  {
  }

  lemma {:induction m} PutNew(m: Members, key: Bytes, value: Json)
    requires !Has(m, key)
    ensures Put(m, key, value) == Concat(m, Member(key, value, End))
  {
  }

  lemma {:induction base} OverlayKeys(base: Members, over: Members, key: Bytes)
    ensures Has(Overlay(base, over), key) == Has(base, key)
  {
  }

  lemma {:induction over} FreshKeys(over: Members, base: Members, key: Bytes)
    ensures Has(Fresh(over, base), key) == (Has(over, key) && !Has(base, key))
  {
  }

  /** One assignment of the merge loop. */
  lemma {:induction false} MergeOneMore(base: Members, done: Members, key: Bytes, value: Json)
    requires Distinct(base) && !Has(done, key)
    ensures var before := Concat(Overlay(base, done), Fresh(done, base));
            var more := Concat(done, Member(key, value, End));
            var merged := match Lookup(base, key) case None => value case Some(b) => Merge(b, value);
            Put(before, key, merged) == Concat(Overlay(base, more), Fresh(more, base))
  {
    LookupIffHas(base, key);
    OverlayKeys(base, done, key);
    FreshKeys(done, base, key);
    FreshOneMore(done, base, key, value);
    if Has(base, key) {
      OverlayTouched(base, done, key, value);
      PutInConcat(Overlay(base, done), Fresh(done, base), key, Merge(Lookup(base, key).value, value));
    } else {
      OverlayUntouched(base, done, key, value);
      PutInConcat(Overlay(base, done), Fresh(done, base), key, value);
      PutNew(Fresh(done, base), key, value);
    }
  }

  lemma {:induction base} OverlayNothing(base: Members)
    ensures Overlay(base, End) == base
  {
  }

  lemma {:induction false} DistinctParts(a: Members, b: Members)
    requires Distinct(Concat(a, b))
    ensures Distinct(b)
    ensures b.Member? ==> !Has(a, b.key)
  {
    if a.Member? {
      DistinctParts(a.rest, b);
      if b.Member? { LookupInConcat(a.rest, b, b.key); }
    }
  }

  lemma {:induction m} LookedUpIsWellKeyed(m: Members, key: Bytes)
    requires AllWellKeyed(m)
    ensures Lookup(m, key).Some? ==> WellKeyed(Lookup(m, key).value)
  {
  }

  /** `mergeConfig` */
  method MergeConfig(base: Json, over: Json) returns (r: Json)
    requires WellKeyed(base) && WellKeyed(over)
    ensures r == Merge(base, over)
    decreases over
  {
    if !over.Obj? { return over; }
    var members := if base.Obj? then base.members else End;
    var result := members;
    var rest := over.members;
    ghost var done := End;
    OverlayNothing(members);
    ConcatAssociates(members, End, End);
    while rest.Member?
      invariant rest == over.members || rest < over.members
      invariant Concat(done, rest) == over.members && AllWellKeyed(rest)
      invariant result == Concat(Overlay(members, done), Fresh(done, members))
      decreases rest
    {
      var key, value := rest.key, rest.value;
      var existing := if base.Obj? then Lookup(base.members, key) else None;
      LookedUpIsWellKeyed(members, key);
      DistinctParts(done, rest);
      LookupInConcat(done, rest, key);
      MergeOneMore(members, done, key, value);
      if value.Obj? && existing.Some? && existing.value.Obj? {
        var merged := MergeConfig(existing.value, value);
        result := Put(result, key, merged);
      } else {
        result := Put(result, key, value);
      }
      ConcatAssociates(done, Member(key, value, End), rest.rest);
      done, rest := Concat(done, Member(key, value, End)), rest.rest;
    }
    ConcatAssociates(done, End, End);
    r := Obj(result);
    if !base.Obj? { FreshOfNothing(over.members); }
  }

  lemma {:induction over} FreshOfNothing(over: Members)
    ensures Fresh(over, End) == over
  {
  }

  lemma {:induction false} DifferentKeys(m: Members, baseline: Members, key: Bytes)
    ensures Has(DifferentMembers(m, baseline), key) ==> Has(m, key)
  {
    if m.Member? { DifferentKeys(m.rest, baseline, key); }
  }

  lemma {:induction done} DifferentOneMore(done: Members, baseline: Members, key: Bytes, value: Json)
    ensures DifferentMembers(Concat(done, Member(key, value, End)), baseline)
            == match Differences(value, Lookup(baseline, key))
               case None => DifferentMembers(done, baseline)
               case Some(d) => Concat(DifferentMembers(done, baseline), Member(key, d, End))
  {
  }

  /** `differences` */
  method DifferencesOf(value: Json, baseline: Option<Json>) returns (r: Option<Json>)
    requires WellKeyed(value)
    ensures r == Differences(value, baseline)
    decreases value
  {
    if value.Obj? && baseline.Some? && baseline.value.Obj? {
      var against := baseline.value.members;
      var result, rest := End, value.members;
      ghost var done := End;
      while rest.Member?
        invariant rest == value.members || rest < value.members
        invariant Concat(done, rest) == value.members && AllWellKeyed(rest)
        invariant result == DifferentMembers(done, against)
        decreases rest
      {
        var key, item := rest.key, rest.value;
        DistinctParts(done, rest);
        DifferentOneMore(done, against, key, item);
        DifferentKeys(done, against, key);
        var changed := DifferencesOf(item, Lookup(against, key));
        if changed.Some? {
          PutNew(result, key, changed.value);
          result := Put(result, key, changed.value);
        }
        ConcatAssociates(done, Member(key, item, End), rest.rest);
        done, rest := Concat(done, Member(key, item, End)), rest.rest;
      }
      ConcatAssociates(done, End, End);
      return if result.End? then None else Some(Obj(result));
    }
    return if baseline == Some(value) then None else Some(value);
  }

  // ---- What the two do together ------------------------------------------

  /** Wherever both are objects, `c` begins with every key of `d`, in its order. */
  predicate Covers(c: Json, d: Json) {
    c.Obj? && d.Obj? ==> CoversMembers(c.members, d.members)
  }

  predicate CoversMembers(c: Members, d: Members) {
    d.Member? ==> c.Member? && c.key == d.key && Covers(c.value, d.value) && CoversMembers(c.rest, d.rest)
  }

  /** Overlaying never removes or moves a key of the base. */
  lemma {:induction false} MergeCovers(base: Json, over: Json)
    ensures Covers(Merge(base, over), base)
    decreases base
  {
    if base.Obj? && over.Obj? {
      OverlayCovers(base.members, over.members, Fresh(over.members, base.members));
    }
  }

  lemma {:induction false} OverlayCovers(base: Members, over: Members, more: Members)
    ensures CoversMembers(Concat(Overlay(base, over), more), base)
    decreases base
  {
    if base.Member? {
      match Lookup(over, base.key)
      case None => CoversItself(base.value); OverlayCovers(base.rest, over, more);
      case Some(o) => MergeCovers(base.value, o); OverlayCovers(base.rest, over, more);
    }
  }

  lemma {:induction false} CoversItself(j: Json)
    ensures Covers(j, j)
    decreases j
  {
    if j.Obj? { CoversItselfMembers(j.members); }
  }

  lemma {:induction false} CoversItselfMembers(m: Members)
    ensures CoversMembers(m, m)
    decreases m
  {
    if m.Member? { CoversItself(m.value); CoversItselfMembers(m.rest); }
  }

  /** An overlay `x`, or none, that turns `d` into `c`. */
  ghost predicate Turns(d: Json, x: Option<Json>, c: Json) {
    match x case None => c == d case Some(o) => Merge(d, o) == c
  }

  ghost predicate TurnsAt(d: Members, x: Members, c: Members, key: Bytes) {
    && Lookup(d, key).Some? && Lookup(c, key).Some?
    && Turns(Lookup(d, key).value, Lookup(x, key), Lookup(c, key).value)
  }

  /** The part of `c` beyond the keys of `d`. */
  function Beyond(c: Members, d: Members): Members
    requires CoversMembers(c, d)
  {
    if d.End? then c else Beyond(c.rest, d.rest)
  }

  /** An overlay with the right entry for each key of `d` rebuilds `c`. */
  lemma {:induction false} OverlayRebuilds(c: Members, d: Members, x: Members)
    requires CoversMembers(c, d) && Distinct(d)
    requires forall k :: Has(d, k) ==> TurnsAt(d, x, c, k)
    ensures Concat(Overlay(d, x), Beyond(c, d)) == c
  {
    if d.Member? {
      assert Has(d, d.key);
      forall k | Has(d.rest, k)
        ensures TurnsAt(d.rest, x, c.rest, k)
      {
        assert Has(d, k) && k != d.key;
      }
      OverlayRebuilds(c.rest, d.rest, x);
    }
  }

  lemma {:induction false} CoveredKey(c: Members, d: Members, key: Bytes)
    requires CoversMembers(c, d) && Has(d, key)
    ensures Lookup(c, key).Some? && Lookup(d, key).Some? && Covers(Lookup(c, key).value, Lookup(d, key).value)
    ensures Lookup(c, key).value < c && Lookup(d, key).value < d
    ensures AllWellKeyed(c) ==> WellKeyed(Lookup(c, key).value)
    ensures AllWellKeyed(d) ==> WellKeyed(Lookup(d, key).value)
    decreases d
  {
    if d.key != key { CoveredKey(c.rest, d.rest, key); }
  }

  lemma {:induction m} DifferentLookup(m: Members, baseline: Members, key: Bytes)
    requires Distinct(m)
    ensures Lookup(DifferentMembers(m, baseline), key)
            == match Lookup(m, key) case None => None case Some(v) => Differences(v, Lookup(baseline, key))
  {
    if m.Member? && m.key == key {
      DifferentKeys(m.rest, baseline, key);
      LookupIffHas(DifferentMembers(m.rest, baseline), key);
    }
  }

  /** The new keys of the differences are the keys beyond the baseline. */
  lemma {:induction false} FreshDifferences(c: Members, d: Members, baseline: Members)
    requires CoversMembers(c, d) && Distinct(c)
    requires forall k :: Has(d, k) ==> Has(baseline, k)
    requires forall k :: Has(baseline, k) && Has(c, k) ==> Has(d, k)
    ensures Fresh(DifferentMembers(c, baseline), baseline) == Beyond(c, d)
    decreases c
  {
    if d.Member? {
      assert Has(d, d.key);
      forall k | Has(d.rest, k) ensures Has(baseline, k) { assert Has(d, k); }
      forall k | Has(baseline, k) && Has(c.rest, k) ensures Has(d.rest, k) { assert Has(c, k); }
      FreshDifferences(c.rest, d.rest, baseline);
    } else if c.Member? {
      assert Has(c, c.key);
      LookupIffHas(baseline, c.key);
      forall k | Has(c.rest, k) ensures !Has(baseline, k) { assert Has(c, k); }
      FreshDifferences(c.rest, d, baseline);
    }
  }

  /** Differences against the baseline turn it back into the value, at every depth. */
  lemma {:induction false} DifferencesTurn(c: Json, d: Json)
    requires WellKeyed(c) && WellKeyed(d) && Covers(c, d)
    ensures Turns(d, Differences(c, Some(d)), c)
    ensures c.Obj? && d.Obj? ==> Merge(d, Obj(DifferentMembers(c.members, d.members))) == c
    decreases d
  {
    if c.Obj? && d.Obj? {
      var cs, ds := c.members, d.members;
      var x := DifferentMembers(cs, ds);
      forall k | Has(ds, k)
        ensures TurnsAt(ds, x, cs, k)
      {
        CoveredKey(cs, ds, k);
        DifferencesTurn(Lookup(cs, k).value, Lookup(ds, k).value);
        DifferentLookup(cs, ds, k);
      }
      OverlayRebuilds(cs, ds, x);
      FreshDifferences(cs, ds, ds);
      OverlayNothing(ds);
      ConcatAssociates(ds, End, End);
    }
  }

  /** Reloading the differences of an object; no differences are an empty document. */
  function Reloaded(c: Json, defaults: Json): Json {
    Merge(defaults, match Differences(c, Some(defaults)) case None => Obj(End) case Some(x) => x)
  }

  /** The round trip succeeds exactly for configurations that cover the defaults. */
  lemma {:induction false} ReloadsIff(c: Json, defaults: Json)
    requires c.Obj? && defaults.Obj? && WellKeyed(c) && WellKeyed(defaults)
    ensures Reloaded(c, defaults) == c <==> Covers(c, defaults)
  {
    if Covers(c, defaults) {
      DifferencesTurn(c, defaults);
    } else {
      MergeCovers(defaults, match Differences(c, Some(defaults)) case None => Obj(End) case Some(x) => x);
    }
  }

  /** Overlaying keeps keys distinct at every depth. */
  lemma {:induction false} MergeIsWellKeyed(base: Json, over: Json)
    requires WellKeyed(base) && WellKeyed(over)
    ensures WellKeyed(Merge(base, over))
    decreases base
  {
    if base.Obj? && over.Obj? {
      var bs, os := base.members, over.members;
      FreshIsWellKeyed(os, bs);
      forall k | Has(bs, k) ensures !Has(Fresh(os, bs), k) { FreshKeys(os, bs, k); }
      OverlayIsWellKeyed(bs, os, Fresh(os, bs));
    }
  }

  lemma {:induction false} OverlayIsWellKeyed(base: Members, over: Members, more: Members)
    requires Distinct(base) && AllWellKeyed(base) && AllWellKeyed(over) && Distinct(more) && AllWellKeyed(more)
    requires forall k :: Has(base, k) ==> !Has(more, k)
    ensures Distinct(Concat(Overlay(base, over), more)) && AllWellKeyed(Concat(Overlay(base, over), more))
    decreases base
  {
    if base.Member? {
      var key := base.key;
      assert Has(base, key);
      LookedUpIsWellKeyed(over, key);
      if Lookup(over, key).Some? { MergeIsWellKeyed(base.value, Lookup(over, key).value); }
      forall k | Has(base.rest, k) ensures !Has(more, k) { assert Has(base, k); }
      OverlayIsWellKeyed(base.rest, over, more);
      OverlayKeys(base.rest, over, key);
      LookupInConcat(Overlay(base.rest, over), more, key);
    }
  }

  lemma {:induction over} FreshIsWellKeyed(over: Members, base: Members)
    requires Distinct(over) && AllWellKeyed(over)
    ensures Distinct(Fresh(over, base)) && AllWellKeyed(Fresh(over, base))
  {
    if over.Member? { FreshKeys(over.rest, base, over.key); }
  }

  /** Every configuration made by one overlay on the defaults survives being reduced
      to its differences and reloaded. */
  lemma {:induction false} MergedReloads(defaults: Json, over: Json)
    requires defaults.Obj? && over.Obj? && WellKeyed(defaults) && WellKeyed(over)
    ensures Reloaded(Merge(defaults, over), defaults) == Merge(defaults, over)
  {
    MergeCovers(defaults, over);
    MergeIsWellKeyed(defaults, over);
    ReloadsIff(Merge(defaults, over), defaults);
  }

  /** Two overlays may not: a section that one layer replaces by a scalar and the next
      by an object has lost the default keys, and reloading brings them back. */
  lemma {:induction false} TwoOverlaysMayNotReload()
    ensures exists d: Json, f: Json, o: Json ::
              && d.Obj? && f.Obj? && o.Obj? && WellKeyed(d) && WellKeyed(f) && WellKeyed(o)
              && Reloaded(Merge(Merge(d, f), o), d) != Merge(Merge(d, f), o)
  {
    var one := Scalar("1");
    var d := Obj(Member("a", Obj(Member("x", one, End)), End));
    var f := Obj(Member("a", one, End));
    var o := Obj(Member("a", Obj(Member("y", one, End)), End));
    var c := Merge(Merge(d, f), o);
    assert Merge(d, f) == f;
    assert c == o;
    assert !Covers(c, d);
    ReloadsIff(c, d);
  }

  // ---- The startup document ----------------------------------------------

  /** The document with some sections of the configuration written out whole. */
  function Pinned(document: Members, c: Members, sections: seq<Bytes>): Members
    decreases |sections|
  {
    if sections == [] then document
    else
      var last := sections[|sections| - 1];
      var before := Pinned(document, c, sections[..|sections| - 1]);
      match Lookup(c, last) case None => before case Some(v) => Put(before, last, v)
  }

  /** `startupConfigDocument`: the differences, with the named sections whole. */
  function StartupDocument(c: Json, defaults: Json, sections: seq<Bytes>): Json
    requires c.Obj?
  {
    var changed := match Differences(c, Some(defaults)) case None => End case Some(x) => if x.Obj? then x.members else End;
    Obj(Pinned(changed, c.members, sections))
  }

  lemma {:induction m} LookupAfterPut(m: Members, key: Bytes, value: Json, k: Bytes)
    ensures Lookup(Put(m, key, value), k) == if k == key then Some(value) else Lookup(m, k)
  {
  }

  lemma {:induction m} FreshAfterPut(m: Members, key: Bytes, value: Json, base: Members)
    requires Has(base, key)
    ensures Fresh(Put(m, key, value), base) == Fresh(m, base)
  {
  }

  lemma {:induction false} PinnedLookup(document: Members, c: Members, sections: seq<Bytes>, base: Members, k: Bytes)
    requires forall i :: 0 <= i < |sections| ==> Has(base, sections[i])
    ensures Lookup(Pinned(document, c, sections), k) == Lookup(document, k)
            || (Lookup(c, k).Some? && Lookup(Pinned(document, c, sections), k) == Lookup(c, k))
    ensures Fresh(Pinned(document, c, sections), base) == Fresh(document, base)
    decreases |sections|
  {
    if sections != [] {
      var last := sections[|sections| - 1];
      var shorter := sections[..|sections| - 1];
      PinnedLookup(document, c, shorter, base, k);
      if Lookup(c, last).Some? {
        LookupAfterPut(Pinned(document, c, shorter), last, Lookup(c, last).value, k);
        FreshAfterPut(Pinned(document, c, shorter), last, Lookup(c, last).value, base);
      }
    }
  }

  /** A value that covers the defaults absorbs them. */
  lemma {:induction false} WholeTurns(c: Json, d: Json)
    requires WellKeyed(c) && WellKeyed(d) && Covers(c, d)
    ensures Merge(d, c) == c
    decreases d
  {
    if c.Obj? && d.Obj? {
      var cs, ds := c.members, d.members;
      forall k | Has(ds, k) ensures TurnsAt(ds, cs, cs, k) {
        CoveredKey(cs, ds, k);
        WholeTurns(Lookup(cs, k).value, Lookup(ds, k).value);
      }
      OverlayRebuilds(cs, ds, cs);
      FreshOfWhole(cs, ds, ds);
    }
  }

  lemma {:induction false} FreshOfWhole(c: Members, d: Members, baseline: Members)
    requires CoversMembers(c, d) && Distinct(c)
    requires forall k :: Has(d, k) ==> Has(baseline, k)
    requires forall k :: Has(baseline, k) && Has(c, k) ==> Has(d, k)
    ensures Fresh(c, baseline) == Beyond(c, d)
    decreases c
  {
    if d.Member? {
      assert Has(d, d.key);
      forall k | Has(d.rest, k) ensures Has(baseline, k) { assert Has(d, k); }
      forall k | Has(baseline, k) && Has(c.rest, k) ensures Has(d.rest, k) { assert Has(c, k); }
      FreshOfWhole(c.rest, d.rest, baseline);
    } else if c.Member? {
      assert Has(c, c.key);
      forall k | Has(c.rest, k) ensures !Has(baseline, k) { assert Has(c, k); }
      FreshOfWhole(c.rest, d, baseline);
    }
  }

  /** Whatever default sections the startup document spells out, loading it over the
      defaults gives the configuration back, exactly when the configuration covers them. */
  lemma {:induction false} StartupReloadsIff(c: Json, defaults: Json, sections: seq<Bytes>)
    requires c.Obj? && defaults.Obj? && WellKeyed(c) && WellKeyed(defaults)
    requires forall i :: 0 <= i < |sections| ==> Has(defaults.members, sections[i])
    ensures Merge(defaults, StartupDocument(c, defaults, sections)) == c <==> Covers(c, defaults)
  {
    var document := StartupDocument(c, defaults, sections);
    if Covers(c, defaults) {
      var cs, ds := c.members, defaults.members;
      var changed := DifferentMembers(cs, ds);
      assert document == Obj(Pinned(changed, cs, sections));
      forall k | Has(ds, k) ensures TurnsAt(ds, document.members, cs, k) {
        CoveredKey(cs, ds, k);
        DifferencesTurn(Lookup(cs, k).value, Lookup(ds, k).value);
        WholeTurns(Lookup(cs, k).value, Lookup(ds, k).value);
        DifferentLookup(cs, ds, k);
        PinnedLookup(changed, cs, sections, ds, k);
      }
      OverlayRebuilds(cs, ds, document.members);
      PinnedLookup(changed, cs, sections, ds, "");
      FreshDifferences(cs, ds, ds);
    } else {
      MergeCovers(defaults, document);
    }
  }
}
