/** Reloading a configuration as its readers see it: settings are read by key, so two
    documents are the same when they differ at most in the order of their keys. */
module ConfigOrder {
  import opened Utf8
  import opened Conversation
  import opened JsonText
  import opened ConfigMerge

  // ---- Equality up to key order ------------------------------------------

  ghost predicate Same(a: Json, b: Json)
    decreases a
  {
    if a.Obj? && b.Obj? then
      SameMembers(a.members, b.members) && forall k :: Has(b.members, k) ==> Has(a.members, k)
    else if a.Arr? && b.Arr? then SameElements(a.members, b.members)
    else a == b
  }

  /** Every member has its counterpart, wherever that stands. */
  ghost predicate SameMembers(m: Members, other: Members)
    decreases m
  {
    m.Member? ==>
      && Lookup(other, m.key).Some? && Same(m.value, Lookup(other, m.key).value)
      && SameMembers(m.rest, other)
  }

  ghost predicate SameElements(m: Members, other: Members)
    decreases m
  {
    if m.End? || other.End? then m == other
    else m.key == other.key && Same(m.value, other.value) && SameElements(m.rest, other.rest)
  }

  /** Wherever both are objects, `c` has every key of `d`. */
  predicate HasEvery(c: Json, d: Json)
    decreases d
  {
    c.Obj? && d.Obj? ==> HasEveryMember(c.members, d.members)
  }

  predicate HasEveryMember(c: Members, d: Members)
    decreases d
  {
    d.Member? ==>
      && Lookup(c, d.key).Some? && HasEvery(Lookup(c, d.key).value, d.value)
      && HasEveryMember(c, d.rest)
  }

  lemma {:induction false} SameAt(m: Members, other: Members, k: Bytes)
    requires SameMembers(m, other) && Has(m, k)
    ensures Lookup(m, k).Some? && Lookup(other, k).Some? && Same(Lookup(m, k).value, Lookup(other, k).value)
  {
    if m.key != k { SameAt(m.rest, other, k); }
  }

  ghost predicate SameThere(m: Members, other: Members, k: Bytes) {
    Lookup(m, k).Some? && Lookup(other, k).Some? && Same(Lookup(m, k).value, Lookup(other, k).value)
  }

  lemma {:induction false} SameFromLookups(m: Members, other: Members)
    requires Distinct(m) && forall k :: Has(m, k) ==> SameThere(m, other, k)
    ensures SameMembers(m, other)
  {
    if m.Member? {
      assert Has(m, m.key);
      forall k | Has(m.rest, k) ensures SameThere(m.rest, other, k) { assert Has(m, k); }
      SameFromLookups(m.rest, other);
    }
  }

  lemma {:induction false} SameSelf(j: Json)
    requires WellKeyed(j)
    ensures Same(j, j)
    decreases j
  {
    if j.Obj? {
      forall k | Has(j.members, k) ensures SameThere(j.members, j.members, k) { SelfAt(j.members, k); }
      SameFromLookups(j.members, j.members);
    } else if j.Arr? {
      SameSelfElements(j.members);
    }
  }

  lemma {:induction false} SelfAt(m: Members, k: Bytes)
    requires AllWellKeyed(m) && Has(m, k)
    ensures Lookup(m, k).Some? && Same(Lookup(m, k).value, Lookup(m, k).value)
    decreases m
  {
    if m.key == k { SameSelf(m.value); } else { SelfAt(m.rest, k); }
  }

  lemma {:induction false} SameSelfElements(m: Members)
    requires AllWellKeyed(m)
    ensures SameElements(m, m)
    decreases m
  {
    if m.Member? {
      SameSelf(m.value);
      SameSelfElements(m.rest);
    }
  }

  lemma {:induction false} HasEveryAt(c: Members, d: Members, k: Bytes)
    requires HasEveryMember(c, d) && Has(d, k)
    ensures Lookup(c, k).Some? && Lookup(d, k).Some? && HasEvery(Lookup(c, k).value, Lookup(d, k).value)
    ensures Lookup(d, k).value < d
    decreases d
  {
    if d.key != k { HasEveryAt(c, d.rest, k); }
  }

  // ---- Looking up an overlay ---------------------------------------------

  lemma {:induction base} OverlayLookup(base: Members, over: Members, k: Bytes)
    ensures Lookup(Overlay(base, over), k)
         == match Lookup(base, k)
            case None => None
            case Some(v) => Some(match Lookup(over, k) case None => v case Some(x) => Merge(v, x))
  {
  }

  lemma {:induction over} FreshLookup(over: Members, base: Members, k: Bytes)
    ensures Lookup(Fresh(over, base), k) == if Has(base, k) then None else Lookup(over, k)
  {
  }

  lemma {:induction false} MergeLookup(base: Members, over: Members, k: Bytes)
    ensures Lookup(Merge(Obj(base), Obj(over)).members, k)
         == match Lookup(base, k)
            case None => Lookup(over, k)
            case Some(v) => Some(match Lookup(over, k) case None => v case Some(x) => Merge(v, x))
  {
    OverlayLookup(base, over, k);
    FreshLookup(over, base, k);
    LookupInConcat(Overlay(base, over), Fresh(over, base), k);
    OverlayKeys(base, over, k);
    LookupIffHas(base, k);
  }

  // ---- Reloading ---------------------------------------------------------

  /** An overlay `x`, or none, that turns `d` into `c` up to key order. */
  ghost predicate Mends(d: Json, x: Option<Json>, c: Json) {
    match x case None => Same(d, c) case Some(o) => Same(Merge(d, o), c)
  }

  /** An overlay that mends each key of `d` and has the other keys of `c` rebuilds `c`. */
  lemma {:induction false} OverlayMends(c: Members, d: Members, x: Members)
    requires WellKeyed(Obj(c)) && WellKeyed(Obj(d)) && WellKeyed(Obj(x)) && HasEveryMember(c, d)
    requires forall k :: Has(d, k) ==> MendsAt(d, x, c, k)
    requires forall k :: !Has(d, k) ==> Lookup(x, k) == Lookup(c, k)
    ensures Same(Merge(Obj(d), Obj(x)), Obj(c))
  {
    var m := Merge(Obj(d), Obj(x)).members;
    MergeIsWellKeyed(Obj(d), Obj(x));
    forall k ensures Has(m, k) <==> Has(c, k) {
      MergeLookup(d, x, k);
      LookupIffHas(m, k); LookupIffHas(c, k); LookupIffHas(d, k);
      if Has(d, k) { HasEveryAt(c, d, k); }
    }
    forall k | Has(m, k) ensures SameThere(m, c, k) {
      MergeLookup(d, x, k);
      LookupIffHas(m, k); LookupIffHas(d, k);
      if Has(d, k) {
        assert MendsAt(d, x, c, k);
      } else {
        LookupIffHas(c, k);
        SelfAt(c, k);
      }
    }
    SameFromLookups(m, c);
  }

  ghost predicate MendsAt(d: Members, x: Members, c: Members, k: Bytes) {
    Lookup(d, k).Some? && Lookup(c, k).Some? && Mends(Lookup(d, k).value, Lookup(x, k), Lookup(c, k).value)
  }

  lemma {:induction false} DifferencesAreWellKeyed(c: Json, d: Option<Json>)
    requires WellKeyed(c)
    ensures Differences(c, d).Some? ==> WellKeyed(Differences(c, d).value)
    decreases c, 1
  {
    if c.Obj? && d.Some? && d.value.Obj? { DifferentMembersAreWellKeyed(c.members, d.value.members); }
  }

  lemma {:induction false} DifferentMembersAreWellKeyed(m: Members, baseline: Members)
    requires Distinct(m) && AllWellKeyed(m)
    ensures Distinct(DifferentMembers(m, baseline)) && AllWellKeyed(DifferentMembers(m, baseline))
    decreases m, 0
  {
    if m.Member? {
      DifferencesAreWellKeyed(m.value, Lookup(baseline, m.key));
      DifferentMembersAreWellKeyed(m.rest, baseline);
      DifferentKeys(m.rest, baseline, m.key);
    }
  }

  /** Differences against the baseline mend it, at every depth. */
  lemma {:induction false} DifferencesMend(c: Json, d: Json)
    requires WellKeyed(c) && WellKeyed(d) && HasEvery(c, d)
    ensures Mends(d, Differences(c, Some(d)), c)
    ensures c.Obj? && d.Obj? ==> Same(Merge(d, Obj(DifferentMembers(c.members, d.members))), c)
    decreases d
  {
    SameSelf(c);
    if c.Obj? && d.Obj? {
      var cs, ds := c.members, d.members;
      var x := DifferentMembers(cs, ds);
      DifferentMembersAreWellKeyed(cs, ds);
      forall k | Has(ds, k) ensures MendsAt(ds, x, cs, k) {
        HasEveryAt(cs, ds, k);
        LookedUpIsWellKeyed(cs, k);
        LookedUpIsWellKeyed(ds, k);
        DifferencesMend(Lookup(cs, k).value, Lookup(ds, k).value);
        DifferentLookup(cs, ds, k);
      }
      forall k | !Has(ds, k) ensures Lookup(x, k) == Lookup(cs, k) {
        LookupIffHas(ds, k);
        DifferentLookup(cs, ds, k);
      }
      OverlayMends(cs, ds, x);
      OverlayNothing(ds);
      ConcatAssociates(ds, End, End);
    }
  }

  lemma {:induction false} MergeHasEvery(base: Json, over: Json)
    requires WellKeyed(base)
    ensures HasEvery(Merge(base, over), base)
    decreases base, 1
  {
    if base.Obj? && over.Obj? { OverlayHasEvery(base.members, over.members, base.members); }
  }

  lemma {:induction false} OverlayHasEvery(base: Members, over: Members, part: Members)
    requires AllWellKeyed(part) && Distinct(part)
    requires forall k :: Has(part, k) ==> Lookup(base, k) == Lookup(part, k)
    ensures HasEveryMember(Merge(Obj(base), Obj(over)).members, part)
    decreases part, 0
  {
    if part.Member? {
      assert Has(part, part.key);
      MergeLookup(base, over, part.key);
      match Lookup(over, part.key) {
        case None => HasEverySelf(part.value);
        case Some(x) => MergeHasEvery(part.value, x);
      }
      forall k | Has(part.rest, k) ensures Lookup(base, k) == Lookup(part.rest, k) { assert Has(part, k); }
      OverlayHasEvery(base, over, part.rest);
    }
  }

  lemma {:induction false} HasEverySelf(j: Json)
    requires WellKeyed(j)
    ensures HasEvery(j, j)
    decreases j, 1
  {
    if j.Obj? { HasEverySelfMembers(j.members, j.members); }
  }

  lemma {:induction false} HasEverySelfMembers(all: Members, part: Members)
    requires AllWellKeyed(part) && Distinct(part)
    requires forall k :: Has(part, k) ==> Lookup(all, k) == Lookup(part, k)
    ensures HasEveryMember(all, part)
    decreases part, 0
  {
    if part.Member? {
      assert Has(part, part.key);
      HasEverySelf(part.value);
      forall k | Has(part.rest, k) ensures Lookup(all, k) == Lookup(part.rest, k) { assert Has(part, k); }
      HasEverySelfMembers(all, part.rest);
    }
  }

  /** Having every default key does not depend on the order of the keys. */
  lemma {:induction false} SameHasEvery(a: Json, c: Json, d: Json)
    requires Same(a, c) && HasEvery(a, d)
    ensures HasEvery(c, d)
    decreases d, 1
  {
    if c.Obj? && d.Obj? { SameHasEveryMember(a.members, c.members, d.members); }
  }

  lemma {:induction false} SameHasEveryMember(a: Members, c: Members, d: Members)
    requires SameMembers(a, c) && HasEveryMember(a, d)
    ensures HasEveryMember(c, d)
    decreases d, 0
  {
    if d.Member? {
      LookupIffHas(a, d.key);
      SameAt(a, c, d.key);
      SameHasEvery(Lookup(a, d.key).value, Lookup(c, d.key).value, d.value);
      SameHasEveryMember(a, c, d.rest);
    }
  }

  /** Reducing a configuration to its differences and loading them over the defaults gives
      the same settings back exactly when it has every default key. */
  lemma {:induction false} SettingsReloadIff(c: Json, defaults: Json)
    requires c.Obj? && defaults.Obj? && WellKeyed(c) && WellKeyed(defaults)
    ensures Same(Reloaded(c, defaults), c) <==> HasEvery(c, defaults)
  {
    if HasEvery(c, defaults) {
      DifferencesMend(c, defaults);
    } else if Same(Reloaded(c, defaults), c) {
      MergeHasEvery(defaults, match Differences(c, Some(defaults)) case None => Obj(End) case Some(x) => x);
      SameHasEvery(Reloaded(c, defaults), c, defaults);
    }
  }

  // ---- The startup document ----------------------------------------------

  /** A value that has every default key absorbs the defaults. */
  lemma {:induction false} WholeMends(c: Json, d: Json)
    requires WellKeyed(c) && WellKeyed(d) && HasEvery(c, d)
    ensures Same(Merge(d, c), c)
    decreases d
  {
    SameSelf(c);
    if c.Obj? && d.Obj? {
      var cs, ds := c.members, d.members;
      forall k | Has(ds, k) ensures MendsAt(ds, cs, cs, k) {
        HasEveryAt(cs, ds, k);
        LookedUpIsWellKeyed(cs, k);
        LookedUpIsWellKeyed(ds, k);
        WholeMends(Lookup(cs, k).value, Lookup(ds, k).value);
      }
      OverlayMends(cs, ds, cs);
    }
  }

  lemma {:induction m} PutIsWellKeyed(m: Members, key: Bytes, value: Json)
    requires Distinct(m) && AllWellKeyed(m) && WellKeyed(value)
    ensures Distinct(Put(m, key, value)) && AllWellKeyed(Put(m, key, value))
    ensures forall k :: Has(Put(m, key, value), k) <==> Has(m, k) || k == key
  {
  }

  lemma {:induction false} PinnedIsWellKeyed(document: Members, c: Members, sections: seq<Bytes>)
    requires Distinct(document) && AllWellKeyed(document) && AllWellKeyed(c)
    ensures Distinct(Pinned(document, c, sections)) && AllWellKeyed(Pinned(document, c, sections))
    decreases |sections|
  {
    if sections != [] {
      var last := sections[|sections| - 1];
      PinnedIsWellKeyed(document, c, sections[..|sections| - 1]);
      LookedUpIsWellKeyed(c, last);
      if Lookup(c, last).Some? {
        PutIsWellKeyed(Pinned(document, c, sections[..|sections| - 1]), last, Lookup(c, last).value);
      }
    }
  }

  /** Whatever default sections the startup document spells out, loading it over the
      defaults gives the same settings back exactly when every default key is there. */
  lemma {:induction false} StartupSettingsReloadIff(c: Json, defaults: Json, sections: seq<Bytes>)
    requires c.Obj? && defaults.Obj? && WellKeyed(c) && WellKeyed(defaults)
    requires forall i :: 0 <= i < |sections| ==> Has(defaults.members, sections[i])
    ensures Same(Merge(defaults, StartupDocument(c, defaults, sections)), c) <==> HasEvery(c, defaults)
  {
    var document := StartupDocument(c, defaults, sections);
    var cs, ds := c.members, defaults.members;
    if HasEvery(c, defaults) {
      var changed := DifferentMembers(cs, ds);
      assert document == Obj(Pinned(changed, cs, sections));
      DifferentMembersAreWellKeyed(cs, ds);
      PinnedIsWellKeyed(changed, cs, sections);
      forall k | Has(ds, k) ensures MendsAt(ds, document.members, cs, k) {
        HasEveryAt(cs, ds, k);
        LookedUpIsWellKeyed(cs, k);
        LookedUpIsWellKeyed(ds, k);
        DifferencesMend(Lookup(cs, k).value, Lookup(ds, k).value);
        WholeMends(Lookup(cs, k).value, Lookup(ds, k).value);
        DifferentLookup(cs, ds, k);
        PinnedLookup(changed, cs, sections, ds, k);
      }
      forall k | !Has(ds, k) ensures Lookup(document.members, k) == Lookup(cs, k) {
        LookupIffHas(ds, k);
        DifferentLookup(cs, ds, k);
        PinnedLookup(changed, cs, sections, ds, k);
      }
      OverlayMends(cs, ds, document.members);
    } else if Same(Merge(defaults, document), c) {
      MergeHasEvery(defaults, document);
      SameHasEvery(Merge(defaults, document), c, defaults);
    }
  }

  /** A reordering is no loss, and reloads to the same settings. */
  lemma {:induction false} ReorderingReloads(c: Json, other: Json, defaults: Json)
    requires c.Obj? && other.Obj? && defaults.Obj? && WellKeyed(c) && WellKeyed(other) && WellKeyed(defaults)
    requires Same(c, other) && HasEvery(c, defaults)
    ensures Same(Reloaded(other, defaults), other)
  {
    SameHasEvery(c, other, defaults);
    SettingsReloadIff(other, defaults);
  }

  /** Two overlays may bring default keys back that the configuration does not have: of a
      section that one layer replaces by a scalar and the next by an object. */
  lemma {:induction false} TwoOverlaysMayBringKeysBack()
    ensures exists d: Json, f: Json, o: Json ::
              && d.Obj? && f.Obj? && o.Obj? && WellKeyed(d) && WellKeyed(f) && WellKeyed(o)
              && !Same(Reloaded(Merge(Merge(d, f), o), d), Merge(Merge(d, f), o))
  {
    var one := Scalar("1");
    var d := Obj(Member("a", Obj(Member("x", one, End)), End));
    var f := Obj(Member("a", one, End));
    var o := Obj(Member("a", Obj(Member("y", one, End)), End));
    var c := Merge(Merge(d, f), o);
    assert Merge(d, f) == f;
    assert c == o;
    assert Lookup(o.members, "a") == Some(Obj(Member("y", one, End)));
    assert Lookup(Member("y", one, End), "x") == None;
    assert !HasEveryMember(Member("y", one, End), Member("x", one, End));
    assert !HasEvery(Obj(Member("y", one, End)), Obj(Member("x", one, End)));
    assert !HasEvery(c, d);
    SettingsReloadIff(c, d);
  }

  // ---- No more than the differences --------------------------------------

  /** Every setting of `x` is in `y`, as it is. */
  ghost predicate Within(x: Json, y: Json)
    decreases x
  {
    if x.Obj? && y.Obj? then WithinMembers(x.members, y.members) else x == y
  }

  ghost predicate WithinMembers(m: Members, other: Members)
    decreases m
  {
    m.Member? ==>
      && Lookup(other, m.key).Some? && Within(m.value, Lookup(other, m.key).value)
      && WithinMembers(m.rest, other)
  }

  lemma {:induction false} WithinSelf(j: Json)
    requires WellKeyed(j)
    ensures Within(j, j)
    decreases j, 1
  {
    if j.Obj? { WithinSelfMembers(j.members, j.members); }
  }

  lemma {:induction false} WithinSelfMembers(part: Members, all: Members)
    requires AllWellKeyed(part) && Distinct(part)
    requires forall k :: Has(part, k) ==> Lookup(all, k) == Lookup(part, k)
    ensures WithinMembers(part, all)
    decreases part, 0
  {
    if part.Member? {
      assert Has(part, part.key);
      WithinSelf(part.value);
      forall k | Has(part.rest, k) ensures Lookup(all, k) == Lookup(part.rest, k) { assert Has(part, k); }
      WithinSelfMembers(part.rest, all);
    }
  }

  /** What equals its baseline has no differences: equal members are left out. */
  lemma {:induction false} EqualHasNoDifferences(j: Json)
    requires WellKeyed(j)
    ensures Differences(j, Some(j)).None?
    decreases j, 1
  {
    if j.Obj? { EqualMembersAreLeftOut(j.members, j.members); }
  }

  lemma {:induction false} EqualMembersAreLeftOut(part: Members, baseline: Members)
    requires AllWellKeyed(part) && Distinct(part)
    requires forall k :: Has(part, k) ==> Lookup(baseline, k) == Lookup(part, k)
    ensures DifferentMembers(part, baseline).End?
    decreases part, 0
  {
    if part.Member? {
      assert Has(part, part.key);
      EqualHasNoDifferences(part.value);
      forall k | Has(part.rest, k) ensures Lookup(baseline, k) == Lookup(part.rest, k) { assert Has(part, k); }
      EqualMembersAreLeftOut(part.rest, baseline);
    }
  }

  /** The differences are the smallest overlay: whatever document makes the configuration of
      the defaults has every setting that they have. */
  lemma {:induction false} DifferencesAreSmallest(d: Json, x: Json)
    requires d.Obj? && x.Obj? && WellKeyed(d) && WellKeyed(x)
    ensures var c := Merge(d, x);
            var diff := Differences(c, Some(d));
            c.Obj? && (diff.Some? ==> Within(diff.value, x))
    decreases d, 1
  {
    MergeIsWellKeyed(d, x);
    SmallestMembers(d.members, x.members, Merge(d, x).members);
  }

  lemma {:induction false} SmallestMembers(d: Members, x: Members, part: Members)
    requires WellKeyed(Obj(d)) && WellKeyed(Obj(x)) && Distinct(part)
    requires forall k :: Has(part, k) ==> Lookup(part, k) == Lookup(Merge(Obj(d), Obj(x)).members, k)
    ensures WithinMembers(DifferentMembers(part, d), x)
    decreases d, 1, part
  {
    if part.Member? {
      assert Has(part, part.key);
      SmallestMember(d, x, part.key, part.value);
      forall k | Has(part.rest, k) ensures Lookup(part.rest, k) == Lookup(Merge(Obj(d), Obj(x)).members, k) { assert Has(part, k); }
      SmallestMembers(d, x, part.rest);
    }
  }

  lemma {:induction false} SmallestMember(d: Members, x: Members, k: Bytes, value: Json)
    requires WellKeyed(Obj(d)) && WellKeyed(Obj(x)) && Lookup(Merge(Obj(d), Obj(x)).members, k) == Some(value)
    ensures var diff := Differences(value, Lookup(d, k));
            diff.Some? ==> Lookup(x, k).Some? && Within(diff.value, Lookup(x, k).value)
    decreases d, 0
  {
    MergeLookup(d, x, k);
    LookedUpIsWellKeyed(d, k);
    LookedUpIsWellKeyed(x, k);
    match Lookup(d, k) {
      case None => WithinSelf(value);
      case Some(v) =>
        match Lookup(x, k) {
          case None => EqualHasNoDifferences(v);
          case Some(o) =>
            LookupIffHas(d, k);
            if v.Obj? && o.Obj? {
              LookupIsBelow(d, k);
              DifferencesAreSmallest(v, o);
            } else {
              WithinSelf(o);
            }
        }
    }
  }

  lemma {:induction false} LookupIsBelow(m: Members, k: Bytes)
    requires Has(m, k)
    ensures Lookup(m, k).Some? && Lookup(m, k).value < m
  {
    if m.key != k { LookupIsBelow(m.rest, k); }
  }
}
