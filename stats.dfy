/** Per-tag statistics: for every technique tag, the projects that use it. */
module Stats {
  import opened Values
  import opened Records
  import opened Lists
  import opened Accessor

  /** A lightweight reference to a project: `{id: project_no, name: project_name}`. */
  datatype Ref = Ref(id: Value, name: Value)

  /** What the statistics read of a record: its tags always, and its number
      and name when it has a tag to be counted under. */
  predicate StatsDefined(r: Record)
  {
    HasTags(r) && (TagsOf(r) != [] ==> ProjectNo in r && ProjectName in r)
  }

  function RefOf(r: Record): Ref
    requires ProjectNo in r && ProjectName in r
  {
    Ref(r[ProjectNo], r[ProjectName])
  }

  /** References to the records that list tag `t`, in store order. */
  function RefsWith(db: seq<Record>, t: string): seq<Ref>
    requires forall i :: 0 <= i < |db| ==> StatsDefined(db[i])
  {
    if db == [] then []
    else
      var earlier := RefsWith(db[..|db| - 1], t);
      var r := db[|db| - 1];
      assert StatsDefined(r);
      if t in TagsOf(r) then earlier + [RefOf(r)] else earlier
  }

  /** `RefsWith` holds a reference for each record listing `t`, and nothing else. */
  lemma {:induction false} RefsWithSpec(db: seq<Record>, t: string)
    requires forall i :: 0 <= i < |db| ==> StatsDefined(db[i])
    ensures forall x :: x in RefsWith(db, t) <==>
      exists i :: 0 <= i < |db| && t in TagsOf(db[i]) && x == RefOf(db[i])
  {
    if db != [] {
      var init := db[..|db| - 1];
      RefsWithSpec(init, t);
      forall x
        ensures x in RefsWith(db, t) <==>
          exists i :: 0 <= i < |db| && t in TagsOf(db[i]) && x == RefOf(db[i])
      {
        if x in RefsWith(init, t) {
          var i :| 0 <= i < |init| && t in TagsOf(init[i]) && x == RefOf(init[i]);
          assert db[i] == init[i];
        }
        if exists i :: 0 <= i < |db| && t in TagsOf(db[i]) && x == RefOf(db[i]) {
          var i :| 0 <= i < |db| && t in TagsOf(db[i]) && x == RefOf(db[i]);
          if i < |db| - 1 {
            assert init[i] == db[i];
          }
        }
      }
    }
  }

  /** For each tag of `GetTechniques`, scans the store collecting references to
      the records listing it, reverses that list and stores it under the tag. */
  method GetTechniqueStats(db: seq<Record>) returns (stats: map<string, seq<Ref>>)
    requires forall i :: 0 <= i < |db| ==> StatsDefined(db[i])
    ensures forall t :: t in stats <==> TagInStore(db, t)
    ensures forall t :: t in stats ==> Reversed(stats[t]) == RefsWith(db, t)
    ensures forall t :: t in stats ==> stats[t] != []
  {
    assert forall i :: 0 <= i < |db| ==> StatsDefined(db[i]) && HasTags(db[i]);
    var tags := GetTechniques(db);
    stats := map[];
    for k := 0 to |tags|
      invariant forall t :: t in stats <==> t in tags[..k]
      invariant forall t :: t in stats ==> Reversed(stats[t]) == RefsWith(db, t)
    {
      var t := tags[k];
      var refs: seq<Ref> := [];
      for i := 0 to |db|
        invariant refs == RefsWith(db[..i], t)
      {
        assert db[..i + 1][..i] == db[..i];
        if t in TagsOf(db[i]) {
          refs := refs + [RefOf(db[i])];
        }
      }
      assert db[..|db|] == db;
      ReversedTwice(refs);
      refs := Reversed(refs);
      stats := stats[t := refs];
    }
    assert tags[..|tags|] == tags;
    forall t | t in stats
      ensures stats[t] != []
    {
      var i :| 0 <= i < |db| && t in TagsOf(db[i]);
      RefsWithSpec(db, t);
      assert RefOf(db[i]) in RefsWith(db, t);
    }
  }
}
