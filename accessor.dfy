/** Point lookups and simple aggregates over the record store: the number of
    projects, a project by its number, and the distinct technique tags. */
module Accessor {
  import opened Values
  import opened Records
  import opened Lists

  /** The number of projects in the store. */
  function ProjectCount(db: seq<Record>): (n: nat)
    ensures n == |db|
  {
    |db|
  }

  /** The record's `project_no` equals `pid`; a number never equals a text. */
  predicate IsProject(r: Record, pid: int)
    requires ProjectNo in r
  {
    r[ProjectNo] == Num(pid)
  }

  /** Every record the scan for `pid` reads has a `project_no`: those up to
      and including the first one numbered `pid`, or all when none is. */
  predicate LookupDefined(db: seq<Record>, pid: int)
  {
    db == [] || (ProjectNo in db[0] && (IsProject(db[0], pid) || LookupDefined(db[1..], pid)))
  }

  /** Scans the store front to back and stops at the first record whose
      project number is `pid`; no such record gives `None`. */
  function GetProject(db: seq<Record>, pid: int): (r: Option<Record>)
    requires LookupDefined(db, pid)
    ensures r.None? <==> forall i :: 0 <= i < |db| ==> ProjectNo in db[i] && !IsProject(db[i], pid)
    ensures r.Some? ==> r.value in db && ProjectNo in r.value && IsProject(r.value, pid)
  {
    if db == [] then None
    else if IsProject(db[0], pid) then Some(db[0])
    else GetProject(db[1..], pid)
  }

  /** When several records carry the number, the one earliest in the store
      wins; the records after it are never read. */
  lemma {:induction false} GetProjectFirstMatch(db: seq<Record>, pid: int, k: int)
    requires 0 <= k < |db|
    requires forall j :: 0 <= j <= k ==> ProjectNo in db[j]
    requires IsProject(db[k], pid)
    requires forall j :: 0 <= j < k ==> !IsProject(db[j], pid)
    ensures LookupDefined(db, pid)
    ensures GetProject(db, pid) == Some(db[k])
  {
    if k > 0 {
      GetProjectFirstMatch(db[1..], pid, k - 1);
    }
  }

  /** The sort key under which `sorted()` orders tags: as texts. */
  function TextKey(t: string): Value
  {
    Str(t)
  }

  /** Collects every tag of every record, once each, then sorts the tags. */
  method GetTechniques(db: seq<Record>) returns (tags: seq<string>)
    requires forall i :: 0 <= i < |db| ==> HasTags(db[i])
    ensures forall i, j :: 0 <= i < j < |tags| ==> StrLt(tags[i], tags[j])
    ensures forall t :: t in tags <==> TagInStore(db, t)
  {
    var distinct: seq<string> := [];
    for i := 0 to |db|
      invariant NoDups(distinct)
      invariant forall t :: t in distinct <==> exists k :: 0 <= k < i && t in TagsOf(db[k])
    {
      var used := TagsOf(db[i]);
      for j := 0 to |used|
        invariant NoDups(distinct)
        invariant forall t :: t in distinct <==> (exists k :: 0 <= k < i && t in TagsOf(db[k])) || t in used[..j]
      {
        if used[j] !in distinct {
          distinct := distinct + [used[j]];
        }
      }
      assert used[..|used|] == used;
    }
    tags := SortByKey(distinct, TextKey);
    SortSpec(distinct, TextKey);
    NoDupsPermutation(distinct, tags);
    forall t
      ensures t in tags <==> TagInStore(db, t)
    {
      assert t in multiset(tags) <==> t in multiset(distinct);
      assert t in tags <==> t in distinct;
      assert t in distinct <==> exists k :: 0 <= k < |db| && t in TagsOf(db[k]);
    }
  }
}
