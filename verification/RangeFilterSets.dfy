/** Sets of Range Filters as disjunctions of conjunctions, one conjunction for each SetID in use. */
module RangeFilterSets {
  import opened Uint64
  import opened RangeFilterCodec

  datatype Key = Key(typ: u64, setID: byte, propertyType: u64)

  datatype Group = Group(setID: byte, filters: seq<RangeFilter>)

  datatype FilterSet = FilterSet(groups: seq<Group>, totalRanges: nat, hasObjectProperty: bool, hasTrackProperty: bool)

  /** The set of a list of filters: none for an empty list, an error for two of one kind. */
  datatype Built = NoFilters | Built(filters: FilterSet) | Duplicate

  datatype Property = Property(typ: u64, value: u64)

  datatype Object = Object(subgroup: u64, id: u64, priority: byte, properties: seq<Property>)

  function KeyOf(f: RangeFilter): Key {
    Key(f.typ, f.setID, f.propertyType)
  }

  predicate DistinctKeys(fs: seq<RangeFilter>) {
    forall i, j :: 0 <= i < j < |fs| ==> KeyOf(fs[i]) != KeyOf(fs[j])
  }

  function TotalRanges(fs: seq<RangeFilter>): nat {
    if fs == [] then 0 else TotalRanges(fs[..|fs| - 1]) + |fs[|fs| - 1].ranges|
  }

  predicate HasType(fs: seq<RangeFilter>, t: u64) {
    exists i :: 0 <= i < |fs| && fs[i].typ == t
  }

  // ---------------------------------------------------------------------------
  // Grouping
  // ---------------------------------------------------------------------------

  function IndexOf(groups: seq<Group>, id: byte): (i: nat)
    ensures i <= |groups|
    ensures i < |groups| ==> groups[i].setID == id
    ensures forall j :: 0 <= j < i ==> groups[j].setID != id
    decreases |groups|
  {
    if groups == [] || groups[0].setID == id then 0 else IndexOf(groups[1..], id) + 1
  }

  function Place(groups: seq<Group>, f: RangeFilter): seq<Group> {
    var i := IndexOf(groups, f.setID);
    if i < |groups| then groups[i := groups[i].(filters := groups[i].filters + [f])]
    else groups + [Group(f.setID, [f])]
  }

  function Grouped(fs: seq<RangeFilter>): seq<Group> {
    if fs == [] then [] else Place(Grouped(fs[..|fs| - 1]), fs[|fs| - 1])
  }

  function Build(fs: seq<RangeFilter>): Built {
    if fs == [] then NoFilters
    else if !DistinctKeys(fs) then Duplicate
    else Built(FilterSet(Grouped(fs), TotalRanges(fs), HasType(fs, OBJECT_PROPERTY_FILTER),
                         HasType(fs, TRACK_PROPERTY_FILTER)))
  }

  /** The filters of fs with SetID id, in order. */
  function OfSet(fs: seq<RangeFilter>, id: byte): seq<RangeFilter> {
    if fs == [] then []
    else
      var n := |fs| - 1;
      OfSet(fs[..n], id) + (if fs[n].setID == id then [fs[n]] else [])
  }

  /** One group per SetID in use, holding that SetID's filters. */
  ghost predicate Groups(groups: seq<Group>, fs: seq<RangeFilter>) {
    && (forall i, j :: 0 <= i < j < |groups| ==> groups[i].setID != groups[j].setID)
    && (forall i :: 0 <= i < |groups| ==> groups[i].filters == OfSet(fs, groups[i].setID) && groups[i].filters != [])
    && (forall n :: 0 <= n < |fs| ==> exists i :: 0 <= i < |groups| && groups[i].setID == fs[n].setID)
  }

  lemma {:induction false} OfSetUnused(fs: seq<RangeFilter>, id: byte)
    requires forall n :: 0 <= n < |fs| ==> fs[n].setID != id
    ensures OfSet(fs, id) == []
    decreases |fs|
  {
    if fs != [] {
      OfSetUnused(fs[..|fs| - 1], id);
    }
  }

  lemma {:induction false} PlaceGroups(groups: seq<Group>, fs: seq<RangeFilter>, f: RangeFilter)
    requires Groups(groups, fs)
    ensures Groups(Place(groups, f), fs + [f])
  {
    hide IndexOf;
    var all := fs + [f];
    assert all[..|fs|] == fs;
    var r := Place(groups, f);
    var i := IndexOf(groups, f.setID);
    if i == |groups| {
      OfSetUnused(fs, f.setID);
    }
    forall n | 0 <= n < |all|
      ensures exists k :: 0 <= k < |r| && r[k].setID == all[n].setID
    {
      if n < |fs| {
        var k :| 0 <= k < |groups| && groups[k].setID == fs[n].setID;
        assert r[k].setID == all[n].setID;
      } else {
        assert r[i].setID == f.setID;
      }
    }
  }

  lemma {:induction false} GroupedGroups(fs: seq<RangeFilter>)
    ensures Groups(Grouped(fs), fs)
    decreases |fs|
  {
    if fs != [] {
      var n := |fs| - 1;
      GroupedGroups(fs[..n]);
      PlaceGroups(Grouped(fs[..n]), fs[..n], fs[n]);
      assert fs[..n] + [fs[n]] == fs;
    }
  }

  lemma {:induction false} OfSetMembers(fs: seq<RangeFilter>, id: byte, f: RangeFilter)
    ensures f in OfSet(fs, id) <==> f in fs && f.setID == id
    decreases |fs|
  {
    if fs != [] {
      var n := |fs| - 1;
      OfSetMembers(fs[..n], id, f);
      assert fs == fs[..n] + [fs[n]];
    }
  }

  // ---------------------------------------------------------------------------
  // Matching
  // ---------------------------------------------------------------------------

  function PropertyValue(ps: seq<Property>, t: u64): Option<u64> {
    if ps == [] then None else if ps[0].typ == t then Some(ps[0].value) else PropertyValue(ps[1..], t)
  }

  predicate PropertyMatches(f: RangeFilter, ps: seq<Property>) {
    var v := PropertyValue(ps, f.propertyType);
    v.Some? && MatchesValue(f, v.value)
  }

  /** f lets the Object through; a Track Property filter does not look at Objects. */
  predicate ObjectMatches(f: RangeFilter, o: Object) {
    if f.typ == SUBGROUP_FILTER then MatchesValue(f, o.subgroup)
    else if f.typ == OBJECTID_FILTER then MatchesValue(f, o.id)
    else if f.typ == PRIORITY_FILTER then MatchesValue(f, o.priority)
    else if f.typ == OBJECT_PROPERTY_FILTER then PropertyMatches(f, o.properties)
    else true
  }

  predicate TrackMatches(f: RangeFilter, ps: seq<Property>) {
    f.typ == TRACK_PROPERTY_FILTER ==> PropertyMatches(f, ps)
  }

  predicate GroupMatchesObject(g: Group, o: Object) {
    forall i :: 0 <= i < |g.filters| ==> ObjectMatches(g.filters[i], o)
  }

  predicate GroupMatchesTrack(g: Group, ps: seq<Property>) {
    forall i :: 0 <= i < |g.filters| ==> TrackMatches(g.filters[i], ps)
  }

  /** Properties are parsed only if a filter looks at them. */
  function Seen(s: FilterSet, o: Object): Object {
    if s.hasObjectProperty then o else o.(properties := [])
  }

  function TrackSeen(s: FilterSet, ps: seq<Property>): seq<Property> {
    if s.hasTrackProperty then ps else []
  }

  function TrackPassPerGroup(s: FilterSet, ps: seq<Property>): (r: seq<bool>)
    ensures |r| == |s.groups|
  {
    seq(|s.groups|, i requires 0 <= i < |s.groups| => GroupMatchesTrack(s.groups[i], TrackSeen(s, ps)))
  }

  predicate MatchesObjectInSets(b: Built, o: Object, pass: Option<seq<bool>>)
    requires b.Built? && pass.Some? ==> |pass.value| == |b.filters.groups|
  {
    b.Built? && b.filters.groups != [] ==>
      exists i :: 0 <= i < |b.filters.groups| && (pass.Some? ==> pass.value[i])
                  && GroupMatchesObject(b.filters.groups[i], Seen(b.filters, o))
  }

  predicate MatchesTrack(b: Built, ps: seq<Property>) {
    b.Built? && b.filters.groups != [] ==>
      exists i :: 0 <= i < |b.filters.groups| && GroupMatchesTrack(b.filters.groups[i], TrackSeen(b.filters, ps))
  }

  // What section 3.3.2 asks, of the filters as a plain list.

  /** Some band of rs holds v: from its start on, and up to its end unless it is open. */
  ghost predicate Holds(rs: seq<Range>, v: u64) {
    exists i :: 0 <= i < |rs| && rs[i].start <= v && (rs[i].open || v <= rs[i].end)
  }

  /** The first of ps that is of type t is number i. */
  ghost predicate IsFirst(ps: seq<Property>, t: u64, i: int) {
    0 <= i < |ps| && ps[i].typ == t && forall j :: 0 <= j < i ==> ps[j].typ != t
  }

  /** The first Property of type t has a value in a band of rs. */
  ghost predicate HoldsProperty(rs: seq<Range>, ps: seq<Property>, t: u64) {
    exists i :: IsFirst(ps, t, i) && Holds(rs, ps[i].value)
  }

  /** Each kind of filter asks about its own field of an Object: 0x25 to 0x28, in the draft's table. */
  ghost predicate AsksOfObject(f: RangeFilter, o: Object) {
    && (f.typ == 0x25 ==> Holds(f.ranges, o.subgroup))
    && (f.typ == 0x26 ==> Holds(f.ranges, o.id))
    && (f.typ == 0x27 ==> Holds(f.ranges, o.priority))
    && (f.typ == 0x28 ==> HoldsProperty(f.ranges, o.properties, f.propertyType))
  }

  /** Kind 0x29 asks about a track. */
  ghost predicate AsksOfTrack(f: RangeFilter, ps: seq<Property>) {
    f.typ == 0x29 ==> HoldsProperty(f.ranges, ps, f.propertyType)
  }

  /** Every filter of SetID id lets the Object through. */
  ghost predicate SetPassesObject(fs: seq<RangeFilter>, id: byte, o: Object) {
    forall f :: f in fs && f.setID == id ==> AsksOfObject(f, o)
  }

  ghost predicate SetPassesTrack(fs: seq<RangeFilter>, id: byte, ps: seq<Property>) {
    forall f :: f in fs && f.setID == id ==> AsksOfTrack(f, ps)
  }

  lemma {:induction false} ValueExact(ps: seq<Property>, t: u64, rs: seq<Range>)
    ensures HoldsProperty(rs, ps, t) <==> PropertyValue(ps, t).Some? && Holds(rs, PropertyValue(ps, t).value)
  {
    if ps != [] {
      if ps[0].typ == t {
        assert IsFirst(ps, t, 0);
      } else {
        ValueExact(ps[1..], t, rs);
        if i :| IsFirst(ps[1..], t, i) && Holds(rs, ps[1..][i].value) {
          assert IsFirst(ps, t, i + 1) && ps[i + 1] == ps[1..][i];
        }
        if i :| IsFirst(ps, t, i) && Holds(rs, ps[i].value) {
          assert IsFirst(ps[1..], t, i - 1) && ps[1..][i - 1] == ps[i];
        }
      }
    }
  }

  /** The matching of one filter is what the draft asks of its kind. */
  lemma {:induction false} FilterExact(f: RangeFilter, o: Object, ps: seq<Property>)
    ensures ObjectMatches(f, o) <==> AsksOfObject(f, o)
    ensures TrackMatches(f, ps) <==> AsksOfTrack(f, ps)
  {
    hide HoldsProperty;
    ValueExact(o.properties, f.propertyType, f.ranges);
    ValueExact(ps, f.propertyType, f.ranges);
    forall v
      ensures MatchesValue(f, v) <==> Holds(f.ranges, v)
    {
      ValueInBand(f, v);
    }
  }

  lemma {:induction false} ValueInBand(f: RangeFilter, v: u64)
    ensures MatchesValue(f, v) <==> Holds(f.ranges, v)
  {
    if i :| 0 <= i < |f.ranges| && InRange(f.ranges[i], v) {
      assert f.ranges[i].start <= v;
    }
    if i :| 0 <= i < |f.ranges| && f.ranges[i].start <= v && (f.ranges[i].open || v <= f.ranges[i].end) {
      assert InRange(f.ranges[i], v);
    }
  }

  ghost predicate PassesObject(fs: seq<RangeFilter>, o: Object) {
    fs == [] || exists n :: 0 <= n < |fs| && SetPassesObject(fs, fs[n].setID, o)
  }

  ghost predicate PassesTrack(fs: seq<RangeFilter>, ps: seq<Property>) {
    fs == [] || exists n :: 0 <= n < |fs| && SetPassesTrack(fs, fs[n].setID, ps)
  }

  ghost predicate PassesBoth(fs: seq<RangeFilter>, o: Object, ps: seq<Property>) {
    fs == [] || exists n :: 0 <= n < |fs| && SetPassesObject(fs, fs[n].setID, o) && SetPassesTrack(fs, fs[n].setID, ps)
  }

  lemma {:induction false} SeenMatches(s: FilterSet, fs: seq<RangeFilter>, f: RangeFilter, o: Object, ps: seq<Property>)
    requires f in fs
    requires s.hasObjectProperty == HasType(fs, OBJECT_PROPERTY_FILTER)
    requires s.hasTrackProperty == HasType(fs, TRACK_PROPERTY_FILTER)
    ensures ObjectMatches(f, Seen(s, o)) == ObjectMatches(f, o)
    ensures TrackMatches(f, TrackSeen(s, ps)) == TrackMatches(f, ps)
  {
    var i :| 0 <= i < |fs| && fs[i] == f;
    assert fs[i].typ == f.typ;
  }

  /** A group matches exactly if every filter of its SetID does. */
  lemma {:induction false} GroupExact(fs: seq<RangeFilter>, i: nat, o: Object, ps: seq<Property>)
    requires Build(fs).Built? && i < |Build(fs).filters.groups|
    ensures var s := Build(fs).filters; var g := s.groups[i];
      && (GroupMatchesObject(g, Seen(s, o)) <==> SetPassesObject(fs, g.setID, o))
      && (GroupMatchesTrack(g, TrackSeen(s, ps)) <==> SetPassesTrack(fs, g.setID, ps))
  {
    GroupedGroups(fs);
    var s := Build(fs).filters;
    var g := s.groups[i];
    hide ObjectMatches, TrackMatches, OfSet, Seen, TrackSeen, HasType, AsksOfObject, AsksOfTrack;
    forall f
      ensures f in g.filters <==> f in fs && f.setID == g.setID
      ensures f in fs ==> ObjectMatches(f, Seen(s, o)) == AsksOfObject(f, o)
      ensures f in fs ==> TrackMatches(f, TrackSeen(s, ps)) == AsksOfTrack(f, ps)
    {
      OfSetMembers(fs, g.setID, f);
      if f in fs {
        SeenMatches(s, fs, f, o, ps);
        FilterExact(f, o, ps);
      }
    }
    assert forall j :: 0 <= j < |g.filters| ==> g.filters[j] in g.filters;
  }

  lemma {:induction false} GroupedNonEmpty(fs: seq<RangeFilter>)
    requires fs != []
    ensures Grouped(fs) != []
  {
  }

  ghost predicate SomeGroup(groups: seq<Group>, holds: set<byte>) {
    exists i :: 0 <= i < |groups| && groups[i].setID in holds
  }

  ghost predicate SomeFilter(fs: seq<RangeFilter>, holds: set<byte>) {
    exists n :: 0 <= n < |fs| && fs[n].setID in holds
  }

  lemma {:induction false} FilterOfGroup(groups: seq<Group>, fs: seq<RangeFilter>, i: nat) returns (n: nat)
    requires Groups(groups, fs) && i < |groups|
    ensures n < |fs| && fs[n].setID == groups[i].setID
  {
    OfSetMembers(fs, groups[i].setID, groups[i].filters[0]);
    n :| 0 <= n < |fs| && fs[n] == groups[i].filters[0];
  }

  /** The SetIDs of the groups are the SetIDs of the filters. */
  lemma {:induction false} SomeGroupIffSomeFilter(fs: seq<RangeFilter>, holds: set<byte>)
    ensures SomeGroup(Grouped(fs), holds) <==> SomeFilter(fs, holds)
  {
    GroupedGroups(fs);
    hide OfSet, Grouped;
    var groups := Grouped(fs);
    if SomeGroup(groups, holds) {
      var i :| 0 <= i < |groups| && groups[i].setID in holds;
      var n := FilterOfGroup(groups, fs, i);
      assert fs[n].setID in holds;
    }
    if SomeFilter(fs, holds) {
      var n :| 0 <= n < |fs| && fs[n].setID in holds;
      var i :| 0 <= i < |groups| && groups[i].setID == fs[n].setID;
      assert groups[i].setID in holds;
    }
  }

  lemma {:induction false} ObjectExact(fs: seq<RangeFilter>, o: Object)
    requires Build(fs).Built?
    ensures MatchesObjectInSets(Build(fs), o, None) <==> PassesObject(fs, o)
  {
    hide GroupMatchesObject, GroupMatchesTrack, SetPassesObject, SetPassesTrack, Seen, TrackSeen, Grouped, OfSet;
    hide HasType, DistinctKeys, TotalRanges;
    var s := Build(fs).filters;
    ghost var holds := set id: byte | 0 <= id < 256 && SetPassesObject(fs, id, o);
    SomeGroupIffSomeFilter(fs, holds);
    forall i | 0 <= i < |s.groups|
      ensures GroupMatchesObject(s.groups[i], Seen(s, o)) <==> s.groups[i].setID in holds
    {
      GroupExact(fs, i, o, []);
    }
    GroupedNonEmpty(fs);
    assert forall n :: 0 <= n < |fs| ==>
      (fs[n].setID in holds <==> SetPassesObject(fs, fs[n].setID, o));
  }

  lemma {:induction false} TrackExact(fs: seq<RangeFilter>, ps: seq<Property>)
    requires Build(fs).Built?
    ensures MatchesTrack(Build(fs), ps) <==> PassesTrack(fs, ps)
  {
    hide GroupMatchesObject, GroupMatchesTrack, SetPassesObject, SetPassesTrack, Seen, TrackSeen, Grouped, OfSet;
    hide HasType, DistinctKeys, TotalRanges;
    var s := Build(fs).filters;
    ghost var holds := set id: byte | 0 <= id < 256 && SetPassesTrack(fs, id, ps);
    SomeGroupIffSomeFilter(fs, holds);
    forall i | 0 <= i < |s.groups|
      ensures GroupMatchesTrack(s.groups[i], TrackSeen(s, ps)) <==> s.groups[i].setID in holds
    {
      GroupExact(fs, i, Object(0, 0, 0, []), ps);
    }
    GroupedNonEmpty(fs);
    assert forall n :: 0 <= n < |fs| ==> (fs[n].setID in holds <==> SetPassesTrack(fs, fs[n].setID, ps));
  }

  lemma {:induction false} BothExact(fs: seq<RangeFilter>, o: Object, ps: seq<Property>)
    requires Build(fs).Built?
    ensures MatchesObjectInSets(Build(fs), o, Some(TrackPassPerGroup(Build(fs).filters, ps))) <==> PassesBoth(fs, o, ps)
  {
    hide GroupMatchesObject, GroupMatchesTrack, SetPassesObject, SetPassesTrack, Seen, TrackSeen, Grouped, OfSet;
    hide HasType, DistinctKeys, TotalRanges;
    var s := Build(fs).filters;
    var pass := TrackPassPerGroup(s, ps);
    ghost var holds := set id: byte | 0 <= id < 256 && SetPassesObject(fs, id, o) && SetPassesTrack(fs, id, ps);
    SomeGroupIffSomeFilter(fs, holds);
    forall i | 0 <= i < |s.groups|
      ensures pass[i] && GroupMatchesObject(s.groups[i], Seen(s, o)) <==> s.groups[i].setID in holds
    {
      GroupExact(fs, i, o, ps);
    }
    GroupedNonEmpty(fs);
    assert forall n :: 0 <= n < |fs| ==>
      (fs[n].setID in holds <==> SetPassesObject(fs, fs[n].setID, o) && SetPassesTrack(fs, fs[n].setID, ps));
  }

  /** o and r differ in nothing a filter of fs asks about. */
  ghost predicate AlikeFor(fs: seq<RangeFilter>, o: Object, r: Object) {
    forall f :: f in fs ==>
      && (f.typ == 0x25 ==> o.subgroup == r.subgroup)
      && (f.typ == 0x26 ==> o.id == r.id)
      && (f.typ == 0x27 ==> o.priority == r.priority)
      && (f.typ == 0x28 ==> o.properties == r.properties)
  }

  /** A set with no filter of a kind does not depend on the field that kind asks about. */
  lemma {:induction false} OnlyAskedFieldsMatter(fs: seq<RangeFilter>, o: Object, r: Object)
    requires Build(fs).Built? && AlikeFor(fs, o, r)
    ensures MatchesObjectInSets(Build(fs), o, None) <==> MatchesObjectInSets(Build(fs), r, None)
  {
    hide MatchesObjectInSets, Build, Holds, HoldsProperty;
    ObjectExact(fs, o);
    ObjectExact(fs, r);
    forall f | f in fs
      ensures AsksOfObject(f, o) <==> AsksOfObject(f, r)
    {
    }
    forall n | 0 <= n < |fs|
      ensures SetPassesObject(fs, fs[n].setID, o) <==> SetPassesObject(fs, fs[n].setID, r)
    {
    }
  }

  // ---------------------------------------------------------------------------
  // The loop that builds a set
  // ---------------------------------------------------------------------------

  /** idx finds each group by its SetID. */
  ghost predicate Indexes(idx: map<byte, nat>, groups: seq<Group>) {
    && (forall id :: id in idx ==> idx[id] < |groups| && groups[idx[id]].setID == id)
    && (forall i :: 0 <= i < |groups| ==> groups[i].setID in idx && idx[groups[i].setID] == i)
  }

  function Reindexed(idx: map<byte, nat>, id: byte, n: nat): map<byte, nat> {
    if id in idx then idx else idx[id := n]
  }

  lemma {:induction false} IndexesPlace(idx: map<byte, nat>, groups: seq<Group>, f: RangeFilter)
    requires Indexes(idx, groups)
    ensures Place(groups, f) ==
      if f.setID in idx then
        groups[idx[f.setID] := groups[idx[f.setID]].(filters := groups[idx[f.setID]].filters + [f])]
      else groups + [Group(f.setID, [f])]
    ensures Indexes(Reindexed(idx, f.setID, |groups|), Place(groups, f))
  {
    hide IndexOf;
    assert IndexOf(groups, f.setID) == if f.setID in idx then idx[f.setID] else |groups|;
  }

  function KeysOf(fs: seq<RangeFilter>): set<Key> {
    set n | 0 <= n < |fs| :: KeyOf(fs[n])
  }

  lemma {:induction false} KeysSnoc(fs: seq<RangeFilter>, i: nat)
    requires i < |fs|
    ensures KeysOf(fs[..i + 1]) == KeysOf(fs[..i]) + {KeyOf(fs[i])}
    ensures DistinctKeys(fs[..i + 1]) <==> DistinctKeys(fs[..i]) && KeyOf(fs[i]) !in KeysOf(fs[..i])
    ensures DistinctKeys(fs) ==> DistinctKeys(fs[..i + 1])
  {
    var a, b := fs[..i], fs[..i + 1];
    assert b == a + [fs[i]];
    assert forall n :: 0 <= n < i ==> b[n] == a[n];
    if KeyOf(fs[i]) in KeysOf(a) {
      var n :| 0 <= n < |a| && KeyOf(a[n]) == KeyOf(fs[i]);
      assert b[n] == a[n] && b[i] == fs[i];
    }
    forall k
      ensures k in KeysOf(b) <==> k in KeysOf(a) || k == KeyOf(fs[i])
    {
      if n :| 0 <= n < |b| && KeyOf(b[n]) == k {
        assert n < i ==> KeyOf(a[n]) == k;
      }
      if n :| 0 <= n < |a| && KeyOf(a[n]) == k {
        assert KeyOf(b[n]) == k;
      }
      assert KeyOf(b[i]) == KeyOf(fs[i]);
    }
  }

  lemma {:induction false} Snoc(fs: seq<RangeFilter>, i: nat)
    requires i < |fs|
    ensures Grouped(fs[..i + 1]) == Place(Grouped(fs[..i]), fs[i])
    ensures TotalRanges(fs[..i + 1]) == TotalRanges(fs[..i]) + |fs[i].ranges|
    ensures forall t :: HasType(fs[..i + 1], t) <==> HasType(fs[..i], t) || fs[i].typ == t
  {
    assert fs[..i + 1][..i] == fs[..i];
    forall t
      ensures HasType(fs[..i + 1], t) <==> HasType(fs[..i], t) || fs[i].typ == t
    {
      if n :| 0 <= n < i && fs[..i][n].typ == t {
        assert fs[..i + 1][n].typ == t;
      }
      assert fs[..i + 1][i].typ == fs[i].typ;
    }
  }

  lemma {:induction false} Empty(fs: seq<RangeFilter>)
    requires fs == []
    ensures Grouped(fs) == [] && TotalRanges(fs) == 0 && (forall t :: !HasType(fs, t))
    ensures KeysOf(fs) == {} && DistinctKeys(fs)
  {
  }

  method BuildRangeFilterSet(fs: seq<RangeFilter>) returns (r: Built)
    ensures r == Build(fs)
  {
    if fs == [] {
      return NoFilters;
    }
    hide Grouped, TotalRanges, HasType, DistinctKeys, KeysOf, Indexes, Place;
    var seen: set<Key> := {};
    var idx: map<byte, nat> := map[];
    var groups: seq<Group> := [];
    var total, hasObject, hasTrack := 0, false, false;
    assert fs[..0] == [];
    Empty(fs[..0]);
    assert Indexes(idx, groups) by {
      NoIndexes();
    }
    var i := 0;
    while i < |fs|
      invariant 0 <= i <= |fs|
      invariant seen == KeysOf(fs[..i]) && DistinctKeys(fs[..i])
      invariant groups == Grouped(fs[..i]) && Indexes(idx, groups)
      invariant total == TotalRanges(fs[..i])
      invariant hasObject == HasType(fs[..i], OBJECT_PROPERTY_FILTER)
      invariant hasTrack == HasType(fs[..i], TRACK_PROPERTY_FILTER)
    {
      var f := fs[i];
      KeysSnoc(fs, i);
      if KeyOf(f) in seen {
        return Duplicate;
      }
      Snoc(fs, i);
      IndexesPlace(idx, groups, f);
      seen := seen + {KeyOf(f)};
      total := total + |f.ranges|;
      hasObject := hasObject || f.typ == OBJECT_PROPERTY_FILTER;
      hasTrack := hasTrack || f.typ == TRACK_PROPERTY_FILTER;
      if f.setID in idx {
        IndexInRange(idx, groups, f.setID);
        var gi := idx[f.setID];
        groups := groups[gi := groups[gi].(filters := groups[gi].filters + [f])];
      } else {
        idx := idx[f.setID := |groups|];
        groups := groups + [Group(f.setID, [f])];
      }
      i := i + 1;
    }
    assert fs[..i] == fs;
    return Built(FilterSet(groups, total, hasObject, hasTrack));
  }

  lemma {:induction false} NoIndexes()
    ensures Indexes(map[], [])
  {
  }

  lemma {:induction false} IndexInRange(idx: map<byte, nat>, groups: seq<Group>, id: byte)
    requires Indexes(idx, groups) && id in idx
    ensures idx[id] < |groups|
  {
  }
}
