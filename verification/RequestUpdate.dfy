/**
 The two ways a REQUEST_UPDATE's Range Filters are applied (section 3.3.2): to the stored parameters, and
 to the filter set built from them. They agree.
 */
module RequestUpdate {
  import opened Uint64
  import opened Sorting
  import opened Params
  import opened RangeFilterCodec
  import opened RangeFilterSets

  const AUTHORIZATION_TOKEN: u64 := 0x03
  const TRACK_NAMESPACE_PREFIX: u64 := 0x34

  predicate IsRangeFilterParam(t: u64) {
    SUBGROUP_FILTER <= t <= TRACK_PROPERTY_FILTER
  }

  function BytesOf(p: Parameter): seq<byte> {
    match p.value
    case BytesValue(b) => b
    case FilterValue(b) => b
    case _ => []
  }

  /** A non-empty Range Filter parameter; an empty one is no filter. */
  predicate CarriesFilter(p: Parameter) {
    IsRangeFilterParam(p.typ) && BytesOf(p) != []
  }

  /** The filter p carries, if any; None if it does not parse or is not valid. */
  function ParseOne(p: Parameter): Option<seq<RangeFilter>> {
    if !CarriesFilter(p) then Some([])
    else
      var f := ParseRangeFilter(p.typ, BytesOf(p));
      if f.BadFilter? || !Valid(f.filter) then None else Some([f.filter])
  }

  function Both(a: Option<seq<RangeFilter>>, b: Option<seq<RangeFilter>>): Option<seq<RangeFilter>> {
    if a.Some? && b.Some? then Some(a.value + b.value) else None
  }

  /** The filters ps carries, in order; None if any is bad. */
  function ParseFilters(ps: seq<Parameter>): Option<seq<RangeFilter>> {
    if ps == [] then Some([]) else Both(ParseFilters(ps[..|ps| - 1]), ParseOne(ps[|ps| - 1]))
  }

  datatype Outcome = Ok(filters: Built) | Rejected

  function FromFilters(fs: Option<seq<RangeFilter>>): Outcome {
    if fs.None? || Build(fs.value).Duplicate? then Rejected else Ok(Build(fs.value))
  }

  function RangeFiltersFromParams(ps: seq<Parameter>): Outcome {
    FromFilters(ParseFilters(ps))
  }

  predicate HasParam(ps: seq<Parameter>, t: u64) {
    exists i :: 0 <= i < |ps| && ps[i].typ == t
  }

  // ---------------------------------------------------------------------------
  // On the stored parameters
  // ---------------------------------------------------------------------------

  function Untouched(stored: seq<Parameter>, upd: seq<Parameter>): seq<Parameter> {
    if stored == [] then []
    else
      var n := |stored| - 1;
      Untouched(stored[..n], upd) + (if HasParam(upd, stored[n].typ) then [] else [stored[n]])
  }

  /** The update's own parameters, and Range Filter removals, are not kept. */
  predicate IsKept(p: Parameter) {
    && p.typ != TRACK_NAMESPACE_PREFIX && p.typ != AUTHORIZATION_TOKEN
    && !(IsRangeFilterParam(p.typ) && BytesOf(p) == [])
  }

  function KeptOf(upd: seq<Parameter>): seq<Parameter> {
    if upd == [] then []
    else
      var n := |upd| - 1;
      KeptOf(upd[..n]) + (if IsKept(upd[n]) then [upd[n]] else [])
  }

  function MergeTracksUpdate(stored: seq<Parameter>, upd: seq<Parameter>): seq<Parameter> {
    Untouched(stored, upd) + KeptOf(upd)
  }

  // ---------------------------------------------------------------------------
  // On the filter set
  // ---------------------------------------------------------------------------

  /** The filters of fs whose type upd does not carry. */
  function Survivors(fs: seq<RangeFilter>, upd: seq<Parameter>): seq<RangeFilter> {
    if fs == [] then []
    else
      var n := |fs| - 1;
      Survivors(fs[..n], upd) + (if HasParam(upd, fs[n].typ) then [] else [fs[n]])
  }

  function Flatten(groups: seq<Group>): seq<RangeFilter> {
    if groups == [] then [] else Flatten(groups[..|groups| - 1]) + groups[|groups| - 1].filters
  }

  function FiltersOf(b: Built): seq<RangeFilter> {
    if b.Built? then Flatten(b.filters.groups) else []
  }

  function Update(b: Built, upd: seq<Parameter>): Outcome {
    var added := ParseFilters(upd);
    FromFilters(if added.None? then None else Some(Survivors(FiltersOf(b), upd) + added.value))
  }

  // ---------------------------------------------------------------------------
  // What parsing makes of a merged list
  // ---------------------------------------------------------------------------

  lemma {:induction false} BothAssoc(
    a: Option<seq<RangeFilter>>, b: Option<seq<RangeFilter>>, c: Option<seq<RangeFilter>>)
    ensures Both(Both(a, b), c) == Both(a, Both(b, c))
    ensures Both(a, Some([])) == a
  {
    if a.Some? && b.Some? && c.Some? {
      assert (a.value + b.value) + c.value == a.value + (b.value + c.value);
    }
    assert a.Some? ==> a.value + [] == a.value;
  }

  lemma {:induction false} ParseConcat(a: seq<Parameter>, b: seq<Parameter>)
    ensures ParseFilters(a + b) == Both(ParseFilters(a), ParseFilters(b))
    decreases |b|
  {
    hide ParseOne, Both;
    if b == [] {
      assert a + b == a;
      BothAssoc(ParseFilters(a), None, None);
    } else {
      var n := |b| - 1;
      ParseConcat(a, b[..n]);
      assert (a + b)[..|a| + n] == a + b[..n];
      assert (a + b)[|a| + n] == b[n];
      BothAssoc(ParseFilters(a), ParseFilters(b[..n]), ParseOne(b[n]));
    }
  }

  lemma {:induction false} SurvivorsConcat(a: seq<RangeFilter>, b: seq<RangeFilter>, upd: seq<Parameter>)
    ensures Survivors(a + b, upd) == Survivors(a, upd) + Survivors(b, upd)
    decreases |b|
  {
    hide HasParam;
    if b == [] {
      assert a + b == a && Survivors(a, upd) + [] == Survivors(a, upd);
    } else {
      var n := |b| - 1;
      SurvivorsConcat(a, b[..n], upd);
      assert (a + b)[..|a| + n] == a + b[..n] && (a + b)[|a| + n] == b[n];
    }
  }

  /** A parsed filter has its parameter's type, so it survives an update exactly if the parameter does. */
  lemma {:induction false} OneSurvives(p: Parameter, upd: seq<Parameter>)
    requires ParseOne(p).Some?
    ensures Survivors(ParseOne(p).value, upd) == if HasParam(upd, p.typ) then [] else ParseOne(p).value
  {
    if CarriesFilter(p) {
      ParsedIsCanonical(p.typ, BytesOf(p));
      var f := ParseOne(p).value[0];
      assert ParseOne(p).value == [f] && [f][..0] == [];
    }
  }

  lemma {:induction false} NoSurvivors(upd: seq<Parameter>)
    ensures Survivors([], upd) == []
  {
  }

  /** Dropping the parameters of the updated types drops their filters. */
  lemma {:induction false} UntouchedParses(stored: seq<Parameter>, upd: seq<Parameter>)
    requires ParseFilters(stored).Some?
    ensures ParseFilters(Untouched(stored, upd)) == Some(Survivors(ParseFilters(stored).value, upd))
    decreases |stored|
  {
    hide ParseOne, HasParam, Survivors;
    if stored == [] {
      NoSurvivors(upd);
    } else {
      var n := |stored| - 1;
      var p, before := stored[n], stored[..n];
      UntouchedParses(before, upd);
      OneSurvives(p, upd);
      SurvivorsConcat(ParseFilters(before).value, ParseOne(p).value, upd);
      var u := Untouched(before, upd);
      if HasParam(upd, p.typ) {
        assert u + [] == u;
        assert Survivors(ParseFilters(before).value, upd) + [] == Survivors(ParseFilters(before).value, upd);
      } else {
        assert (u + [p])[..|u|] == u;
      }
    }
  }

  /** What is not kept of an update carries no filter. */
  lemma {:induction false} KeptParses(upd: seq<Parameter>)
    ensures ParseFilters(KeptOf(upd)) == ParseFilters(upd)
    decreases |upd|
  {
    hide ParseRangeFilter, Valid, Both;
    if upd != [] {
      var n := |upd| - 1;
      KeptParses(upd[..n]);
      var k := KeptOf(upd[..n]);
      BothAssoc(ParseFilters(upd[..n]), None, None);
      if IsKept(upd[n]) {
        assert (k + [upd[n]])[..|k|] == k;
      } else {
        assert k + [] == k;
      }
    }
  }

  // ---------------------------------------------------------------------------
  // The same filters in another order
  // ---------------------------------------------------------------------------

  lemma {:induction false} SurvivorsCount(fs: seq<RangeFilter>, upd: seq<Parameter>, f: RangeFilter)
    ensures multiset(Survivors(fs, upd))[f] == if HasParam(upd, f.typ) then 0 else multiset(fs)[f]
    decreases |fs|
  {
    hide HasParam;
    if fs != [] {
      var n := |fs| - 1;
      SurvivorsCount(fs[..n], upd, f);
      assert fs == fs[..n] + [fs[n]];
    }
  }

  lemma {:induction false} FlattenUpdate(groups: seq<Group>, i: nat, g: Group, f: RangeFilter)
    requires i < |groups| && g.filters == groups[i].filters + [f]
    ensures multiset(Flatten(groups[i := g])) == multiset(Flatten(groups)) + multiset{f}
    decreases |groups|
  {
    var n := |groups| - 1;
    if i < n {
      assert groups[i := g][..n] == groups[..n][i := g];
      FlattenUpdate(groups[..n], i, g, f);
    } else {
      assert groups[i := g][..n] == groups[..n];
    }
  }

  /** Grouping loses no filter and adds none. */
  lemma {:induction false} FlattenGrouped(fs: seq<RangeFilter>)
    ensures multiset(Flatten(Grouped(fs))) == multiset(fs)
    decreases |fs|
  {
    hide IndexOf;
    if fs != [] {
      var n := |fs| - 1;
      var groups, f := Grouped(fs[..n]), fs[n];
      FlattenGrouped(fs[..n]);
      assert fs == fs[..n] + [f];
      var i := IndexOf(groups, f.setID);
      if i < |groups| {
        FlattenUpdate(groups, i, groups[i].(filters := groups[i].filters + [f]), f);
      } else {
        assert (groups + [Group(f.setID, [f])])[..|groups|] == groups;
      }
    }
  }

  function Without(b: seq<RangeFilter>, i: nat): seq<RangeFilter>
    requires i < |b|
  {
    b[..i] + b[i + 1..]
  }

  lemma {:induction false} MultisetWithout(b: seq<RangeFilter>, i: nat)
    requires i < |b|
    ensures multiset(Without(b, i)) == multiset(b) - multiset{b[i]}
  {
    assert b == b[..i] + [b[i]] + b[i + 1..];
  }

  lemma {:induction false} TotalRangesPerm(a: seq<RangeFilter>, b: seq<RangeFilter>)
    requires multiset(a) == multiset(b)
    ensures TotalRanges(a) == TotalRanges(b)
    decreases |a|
  {
    if a == [] {
      assert |multiset(b)| == 0;
    } else {
      var n := |a| - 1;
      assert Without(a, n) == a[..n];
      MultisetWithout(a, n);
      assert a[n] in multiset(b);
      var i :| 0 <= i < |b| && b[i] == a[n];
      MultisetWithout(b, i);
      TotalWithout(b, i);
      hide Without;
      TotalRangesPerm(a[..n], Without(b, i));
    }
  }

  lemma {:induction false} TotalWithout(b: seq<RangeFilter>, i: nat)
    requires i < |b|
    ensures TotalRanges(b) == TotalRanges(Without(b, i)) + |b[i].ranges|
    decreases |b|
  {
    var n := |b| - 1;
    if i < n {
      TotalWithout(b[..n], i);
      var c := Without(b, i);
      assert c[..|c| - 1] == Without(b[..n], i) && c[|c| - 1] == b[n];
    } else {
      assert Without(b, i) == b[..n];
    }
  }

  lemma {:induction false} DistinctKeysPerm(a: seq<RangeFilter>, b: seq<RangeFilter>)
    requires multiset(a) == multiset(b) && DistinctKeys(a)
    ensures DistinctKeys(b)
  {
    forall i, j | 0 <= i < j < |b|
      ensures KeyOf(b[i]) != KeyOf(b[j])
    {
      if b[i] == b[j] {
        TwoPlaces(b, i, j);
        OnePlace(a, b[i]);
      } else {
        assert b[i] in multiset(a) && b[j] in multiset(a);
        var p :| 0 <= p < |a| && a[p] == b[i];
        var q :| 0 <= q < |a| && a[q] == b[j];
      }
    }
  }

  lemma {:induction false} SetPassesPerm(
    a: seq<RangeFilter>, b: seq<RangeFilter>, id: byte, o: Object, ps: seq<Property>)
    requires multiset(a) == multiset(b)
    ensures SetPassesObject(a, id, o) <==> SetPassesObject(b, id, o)
    ensures SetPassesTrack(a, id, ps) <==> SetPassesTrack(b, id, ps)
  {
    hide AsksOfObject, AsksOfTrack;
    SameMembers(a, b);
    SameMembers(b, a);
  }

  /** A list passes whatever a list of the same filters passes. */
  lemma {:induction false} PassesPerm(a: seq<RangeFilter>, b: seq<RangeFilter>, o: Object, ps: seq<Property>)
    requires multiset(a) == multiset(b)
    ensures PassesObject(a, o) ==> PassesObject(b, o)
    ensures PassesTrack(a, ps) ==> PassesTrack(b, ps)
    ensures PassesBoth(a, o, ps) ==> PassesBoth(b, o, ps)
  {
    hide SetPassesObject, SetPassesTrack;
    SameMembers(a, b);
    forall i | 0 <= i < |a|
      ensures exists j :: 0 <= j < |b| && b[j].setID == a[i].setID
      ensures SetPassesObject(a, a[i].setID, o) <==> SetPassesObject(b, a[i].setID, o)
      ensures SetPassesTrack(a, a[i].setID, ps) <==> SetPassesTrack(b, a[i].setID, ps)
    {
      assert a[i] in b;
      var j :| 0 <= j < |b| && b[j] == a[i];
      SetPassesPerm(a, b, a[i].setID, o, ps);
    }
  }

  lemma {:induction false} SameMembers(a: seq<RangeFilter>, b: seq<RangeFilter>)
    requires multiset(a) == multiset(b)
    ensures forall f :: f in a ==> f in b
    ensures a == [] <==> b == []
  {
    forall f | f in a
      ensures f in b
    {
      assert f in multiset(b);
    }
    assert |multiset(a)| == |a| && |multiset(b)| == |b|;
  }

  /** Two outcomes a subscriber cannot tell apart. */
  ghost predicate Agree(x: Outcome, y: Outcome) {
    && (x.Rejected? <==> y.Rejected?)
    && (x.Ok? ==>
          && (x.filters.NoFilters? <==> y.filters.NoFilters?)
          && (x.filters.Built? <==> y.filters.Built?)
          && (x.filters.Built? ==>
                && x.filters.filters.totalRanges == y.filters.filters.totalRanges
                && forall o, ps ::
                     (MatchesObjectInSets(x.filters, o, Some(TrackPassPerGroup(x.filters.filters, ps)))
                      <==> MatchesObjectInSets(y.filters, o, Some(TrackPassPerGroup(y.filters.filters, ps)))))
          && (forall o :: MatchesObjectInSets(x.filters, o, None) <==> MatchesObjectInSets(y.filters, o, None))
          && (forall ps :: MatchesTrack(x.filters, ps) <==> MatchesTrack(y.filters, ps)))
  }

  lemma {:induction false} PermAgrees(a: seq<RangeFilter>, b: seq<RangeFilter>)
    requires multiset(a) == multiset(b)
    ensures Agree(FromFilters(Some(a)), FromFilters(Some(b)))
  {
    SameMembers(a, b);
    if DistinctKeys(a) {
      DistinctKeysPerm(a, b);
    } else if DistinctKeys(b) {
      DistinctKeysPerm(b, a);
    }
    if a != [] && DistinctKeys(a) {
      TotalRangesPerm(a, b);
      hide PassesObject, PassesTrack, PassesBoth, DistinctKeys, Grouped, HasType, MatchesObjectInSets, MatchesTrack,
           TrackPassPerGroup;
      forall o
        ensures MatchesObjectInSets(Build(a), o, None) <==> MatchesObjectInSets(Build(b), o, None)
      {
        PassesPerm(a, b, o, []);
        PassesPerm(b, a, o, []);
        ObjectExact(a, o);
        ObjectExact(b, o);
      }
      forall ps
        ensures MatchesTrack(Build(a), ps) <==> MatchesTrack(Build(b), ps)
      {
        PassesPerm(a, b, Object(0, 0, 0, []), ps);
        PassesPerm(b, a, Object(0, 0, 0, []), ps);
        TrackExact(a, ps);
        TrackExact(b, ps);
      }
      forall o, ps
        ensures MatchesObjectInSets(Build(a), o, Some(TrackPassPerGroup(Build(a).filters, ps)))
          <==> MatchesObjectInSets(Build(b), o, Some(TrackPassPerGroup(Build(b).filters, ps)))
      {
        PassesPerm(a, b, o, ps);
        PassesPerm(b, a, o, ps);
        BothExact(a, o, ps);
        BothExact(b, o, ps);
      }
    }
  }

  /**
   Updating the stored parameters and updating the set built from them fail on the same updates, and
   otherwise match the same Objects and tracks and count the same ranges.
   */
  lemma {:induction false} UpdatesAgree(stored: seq<Parameter>, upd: seq<Parameter>)
    requires RangeFiltersFromParams(stored).Ok?
    ensures Agree(RangeFiltersFromParams(MergeTracksUpdate(stored, upd)),
                  Update(RangeFiltersFromParams(stored).filters, upd))
  {
    hide Survivors, ParseFilters, Untouched, KeptOf, Agree, Build;
    var fs := ParseFilters(stored).value;
    var added := ParseFilters(upd);
    UntouchedParses(stored, upd);
    KeptParses(upd);
    ParseConcat(Untouched(stored, upd), KeptOf(upd));
    SurvivorsPerm(fs, upd);
    if added.Some? {
      PermAgrees(Survivors(fs, upd) + added.value, Survivors(FiltersOf(Build(fs)), upd) + added.value);
    } else {
      BothRejected();
    }
  }

  /** The filters a set keeps are those kept of the list it was built from. */
  lemma {:induction false} SurvivorsPerm(fs: seq<RangeFilter>, upd: seq<Parameter>)
    requires !Build(fs).Duplicate?
    ensures multiset(Survivors(fs, upd)) == multiset(Survivors(FiltersOf(Build(fs)), upd))
  {
    FlattenGrouped(fs);
    var kept := FiltersOf(Build(fs));
    assert multiset(kept) == multiset(fs);
    hide Survivors, Build;
    forall f
      ensures multiset(Survivors(fs, upd))[f] == multiset(Survivors(kept, upd))[f]
    {
      SurvivorsCount(fs, upd, f);
      SurvivorsCount(kept, upd, f);
    }
  }

  lemma {:induction false} BothRejected()
    ensures Agree(Rejected, Rejected)
  {
  }

  // ---------------------------------------------------------------------------
  // What an update leaves
  // ---------------------------------------------------------------------------

  /** upd says something about parameters of type t. */
  ghost predicate Names(upd: seq<Parameter>, t: u64) {
    exists p :: p in upd && p.typ == t
  }

  /** A parameter that an update carries but that does not outlast it. */
  predicate OfTheUpdate(p: Parameter) {
    || p.typ in {0x03, 0x34}
    || (0x25 <= p.typ <= 0x29
        && (p.value.BytesValue? ==> p.value.bytes == []) && (p.value.FilterValue? ==> p.value.encoded == []))
  }

  lemma {:induction false} UntouchedCount(stored: seq<Parameter>, upd: seq<Parameter>, p: Parameter)
    ensures multiset(Untouched(stored, upd))[p] == if Names(upd, p.typ) then 0 else multiset(stored)[p]
    decreases |stored|
  {
    if stored == [] {
      return;
    }
    hide HasParam, Names;
    var n := |stored| - 1;
    UntouchedCount(stored[..n], upd, p);
    HasIffNames(upd, stored[n].typ);
    assert stored == stored[..n] + [stored[n]];
  }

  lemma {:induction false} HasIffNames(upd: seq<Parameter>, t: u64)
    ensures HasParam(upd, t) <==> Names(upd, t)
  {
    if HasParam(upd, t) {
      var i :| 0 <= i < |upd| && upd[i].typ == t;
      assert upd[i] in upd;
    }
  }

  lemma {:induction false} KeptCount(upd: seq<Parameter>, p: Parameter)
    ensures multiset(KeptOf(upd))[p] == if OfTheUpdate(p) then 0 else multiset(upd)[p]
    decreases |upd|
  {
    if upd == [] {
      return;
    }
    var n := |upd| - 1;
    assert IsKept(upd[n]) <==> !OfTheUpdate(upd[n]);
    hide IsKept, OfTheUpdate;
    KeptCount(upd[..n], p);
    assert upd == upd[..n] + [upd[n]];
  }

  /**
   What is stored after an update: the stored parameters of every type it does not name, and of those it does name
   its own, but for the prefix, the tokens and Range Filters without content, which only remove.
   */
  lemma {:induction false} MergedExact(stored: seq<Parameter>, upd: seq<Parameter>, p: Parameter)
    ensures multiset(MergeTracksUpdate(stored, upd))[p] ==
      if !Names(upd, p.typ) then multiset(stored)[p] else if OfTheUpdate(p) then 0 else multiset(upd)[p]
  {
    UntouchedCount(stored, upd, p);
    KeptCount(upd, p);
    hide Untouched, KeptOf;
    assert !Names(upd, p.typ) ==> p !in upd;
  }

  /** p carries the Range Filter f: it is of one of the five types, not empty, and parses as f. */
  predicate Carries(p: Parameter, f: RangeFilter) {
    && 0x25 <= p.typ <= 0x29
    && (p.value.BytesValue? || p.value.FilterValue?) && BytesOf(p) != []
    && ParseRangeFilter(p.typ, BytesOf(p)) == Filter(f)
  }

  /** A non-empty Range Filter parameter that parses as no valid filter. */
  predicate Malformed(p: Parameter) {
    && 0x25 <= p.typ <= 0x29 && BytesOf(p) != []
    && var r := ParseRangeFilter(p.typ, BytesOf(p));
       r.BadFilter? || !Valid(r.filter)
  }

  /** The filters of a list are refused exactly if one is bad, and else are those its parameters carry. */
  lemma {:induction false} CarriedExact(ps: seq<Parameter>, f: RangeFilter)
    ensures ParseFilters(ps).None? <==> exists p :: p in ps && Malformed(p)
    ensures ParseFilters(ps).Some? ==> (f in ParseFilters(ps).value <==> exists p :: p in ps && Carries(p, f))
    decreases |ps|
  {
    if ps == [] {
      return;
    }
    hide ParseRangeFilter, Valid;
    var n := |ps| - 1;
    CarriedExact(ps[..n], f);
    OneCarried(ps[n], f);
    hide ParseOne, Malformed, Carries;
    assert ps == ps[..n] + [ps[n]];
    assert forall p :: p in ps <==> p in ps[..n] || p == ps[n];
  }

  lemma {:induction false} OneCarried(p: Parameter, f: RangeFilter)
    ensures ParseOne(p).None? <==> Malformed(p)
    ensures ParseOne(p).Some? ==> (f in ParseOne(p).value <==> Carries(p, f))
  {
    hide ParseRangeFilter, Valid;
  }
}
