/** A run in which a writer opened with its set is offered an Object heard of before it was opened. */
module FanoutLateWriter {
  import opened Uint64
  import opened SubgroupSet
  import opened Fanout
  import opened FanoutWriters
  import W = SubgroupWriter

  const OBJECTS: set<u64> := {5}

  /** Two contributors join; the second reads a header before the first has opened the set's writers. */
  const EVENTS: seq<Event> :=
    [Join(0, false), Join(1, false), ReadHeader(1, 5), OpenInitial(7, 4, 0, false), ClaimObject(1, Fresh),
     Deliver(1, map[7 := W.Forward], false, None)]

  lemma {:induction false} Joined(f: Fanout) returns (r: Fanout, s: Fanout)
    requires f == NewFanout({}, {})
    ensures Enabled(f, OBJECTS, EVENTS[0]) && r == Next(f, OBJECTS, EVENTS[0])
    ensures Enabled(r, OBJECTS, EVENTS[1]) && s == Next(r, OBJECTS, EVENTS[1])
    ensures s == With(With(NewFanout({}, {}), 0, NewContributor(false)), 1, NewContributor(false))
  {
    r := Next(f, OBJECTS, EVENTS[0]);
    s := Next(r, OBJECTS, EVENTS[1]);
  }

  lemma {:induction false} Heard(f: Fanout) returns (r: Fanout)
    requires f == With(With(NewFanout({}, {}), 0, NewContributor(false)), 1, NewContributor(false))
    ensures Enabled(f, OBJECTS, EVENTS[2]) && r == Next(f, OBJECTS, EVENTS[2])
    ensures 1 in r.contributors && r.contributors[1] == NewContributor(false).(phase := Reading(5, 0))
    ensures r.times == Times(map[], map[5 := 0], 1) && r.set_ == NEW_SET.(reading := [ObjHeard(5, 0, 1)])
    ensures r.log == [] && r.writers == map[] && r.ledger == Ledger({}, {}, {}) && r.ended == None
  {
    r := Next(f, OBJECTS, EVENTS[2]);
    assert PartWay(f.contributors, 5) == {};
    assert f.set_.reading == [] && [] + [ObjHeard(5, 0, 1)] == [ObjHeard(5, 0, 1)];
  }

  lemma {:induction false} OpenedAndClaimed(f: Fanout) returns (r: Fanout, s: Fanout)
    requires 1 in f.contributors && f.contributors[1] == NewContributor(false).(phase := Reading(5, 0))
    requires f.times == Times(map[], map[5 := 0], 1) && f.writers == map[] && f.log == []
    requires f.ledger == Ledger({}, {}, {}) && f.ended == None && f.set_ == NEW_SET.(reading := [ObjHeard(5, 0, 1)])
    ensures Enabled(f, OBJECTS, EVENTS[3]) && r == Next(f, OBJECTS, EVENTS[3])
    ensures Enabled(r, OBJECTS, EVENTS[4]) && s == Next(r, OBJECTS, EVENTS[4])
    ensures s.writers == map[7 := W.NewWriter(W.Config(0, 4, 0), false)] && s.log == [] && s.set_ == f.set_
    ensures s.times == Times(map[7 := 1], map[5 := 0], 2)
    ensures 1 in s.contributors && s.contributors[1].phase == Claimed(5, 0, Fresh, true) && !s.contributors[1].left
  {
    r := Next(f, OBJECTS, EVENTS[3]);
    assert r.writers == map[7 := W.NewWriter(W.Config(0, 4, 0), false)];
    s := Next(r, OBJECTS, EVENTS[4]);
  }

  lemma {:induction false} Delivers(f: Fanout) returns (r: Fanout)
    requires f.writers == map[7 := W.NewWriter(W.Config(0, 4, 0), false)] && f.log == []
    requires f.times == Times(map[7 := 1], map[5 := 0], 2)
    requires 1 in f.contributors && f.contributors[1].phase == Claimed(5, 0, Fresh, true) && !f.contributors[1].left
    ensures Enabled(f, OBJECTS, EVENTS[5]) && r == Next(f, OBJECTS, EVENTS[5])
    ensures 7 in r.writers && |r.log| == 1 && r.log[0].id == 5 && !OpenAt(r, 7, r.log[0].since)
    ensures WasOffered(r.writers[7].gate, 0)
  {
    r := Next(f, OBJECTS, EVENTS[5]);
    hide Released, Widened, W.Publish;
    var g := r.writers[7].gate;
    assert |g.admitted| == 1 && g.admitted[0].at == 0;
  }

  /** Writer 7 is offered Object 5, whose header was read before the writer was opened. */
  lemma {:induction false} LateWriterIsOffered() returns (fs: seq<Fanout>)
    ensures IsRun(fs, OBJECTS, EVENTS)
    ensures var f := fs[|EVENTS|];
      && 7 in f.writers && |f.log| == 1 && f.log[0].id == 5
      && !OpenAt(f, 7, f.log[0].since) && WasOffered(f.writers[7].gate, 0)
  {
    hide Next, Enabled, WasOffered, OpenAt;
    var f0 := NewFanout({}, {});
    var f1, f2 := Joined(f0);
    var f3 := Heard(f2);
    var f4, f5 := OpenedAndClaimed(f3);
    var f6 := Delivers(f5);
    fs := [f0, f1, f2, f3, f4, f5, f6];
  }
}
