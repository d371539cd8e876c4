/** The query engine: filter the store by required tags and free text, then
    sort what is left by one field, ascending or descending. */
module Query {
  import opened Values
  import opened Records
  import opened Lists

  /** The `techniques` argument: absent, the text "None" (read as absent),
      or the list of tags a project must all use. */
  datatype Techniques = NoTechniques | NoneText | TechniqueList(tags: seq<string>)

  /** The tag filter in force once the sentinel "None" is read as absent. */
  function TagFilter(techniques: Techniques): Option<seq<string>>
  {
    match techniques
    case TechniqueList(ts) => Some(ts)
    case _ => None
  }

  /** The search text in force once the empty text is read as absent. */
  function TextFilter(search: Option<string>): Option<string>
  {
    if search == Some("") then None else search
  }

  // ---------------------------------------------------------------------
  // Tag filter
  // ---------------------------------------------------------------------

  /** Every tag of `ts` is among the record's `techniques_used`. */
  predicate HasAll(r: Record, ts: seq<string>)
    requires ts != [] ==> HasTags(r)
  {
    forall k :: 0 <= k < |ts| ==> ts[k] in TagsOf(r)
  }

  /** Looks the required tags up one by one and gives up at the first missing one. */
  method TechCheck(r: Record, ts: seq<string>) returns (ok: bool)
    requires ts != [] ==> HasTags(r)
    ensures ok <==> HasAll(r, ts)
  {
    for k := 0 to |ts|
      invariant forall m :: 0 <= m < k ==> ts[m] in TagsOf(r)
    {
      if ts[k] !in TagsOf(r) {
        return false;
      }
    }
    return true;
  }

  predicate PassesTags(r: Record, techs: Option<seq<string>>)
    requires techs.Some? && techs.value != [] ==> HasTags(r)
  {
    techs.None? || HasAll(r, techs.value)
  }

  // ---------------------------------------------------------------------
  // Text filter
  // ---------------------------------------------------------------------

  /** The lower-cased text of field `f` contains `q` (already lower-cased). */
  predicate FieldMatches(r: Record, f: string, q: string)
    requires f in r
  {
    IsSubstring(q, Lower(ToText(r[f])))
  }

  predicate FieldsPresent(r: Record, fs: seq<string>)
  {
    forall m :: 0 <= m < |fs| ==> fs[m] in r
  }

  predicate SomeFieldMatches(r: Record, fs: seq<string>, q: string)
    requires FieldsPresent(r, fs)
  {
    exists m :: 0 <= m < |fs| && FieldMatches(r, fs[m], q)
  }

  predicate SomeKeyMatches(r: Record, keys: set<string>, q: string)
    requires keys <= r.Keys
  {
    exists f :: f in keys && FieldMatches(r, f, q)
  }

  /** Some searched field contains `q`: one of the listed fields, or any field
      of the record when no list is given. */
  predicate TextMatches(r: Record, fields: Option<seq<string>>, q: string)
    requires fields.Some? ==> FieldsPresent(r, fields.value)
  {
    match fields
    case None => SomeKeyMatches(r, r.Keys, q)
    case Some(fs) => SomeFieldMatches(r, fs, q)
  }

  // ---------------------------------------------------------------------
  // Which records are selected
  // ---------------------------------------------------------------------

  /** What the filters read of a record is there: its tag list when a
      non-empty tag list is required, and each listed search field when the
      record passes the tag filter and a search text is given. */
  predicate RecordDefined(r: Record, techs: Option<seq<string>>, q: Option<string>, fields: Option<seq<string>>)
  {
    && (techs.Some? && techs.value != [] ==> HasTags(r))
    && (q.Some? && fields.Some? && PassesTags(r, techs) ==> FieldsPresent(r, fields.value))
  }

  predicate StoreDefined(db: seq<Record>, techs: Option<seq<string>>, q: Option<string>, fields: Option<seq<string>>)
  {
    forall i :: 0 <= i < |db| ==> RecordDefined(db[i], techs, q, fields)
  }

  /** A search text with an empty list of search fields matches nothing. */
  predicate EarlyEmpty(q: Option<string>, fields: Option<seq<string>>)
  {
    q.Some? && fields == Some([])
  }

  /** The search reads nothing that is missing: either it returns at once, or
      every record has what the filters read of it. */
  predicate SearchDefined(db: seq<Record>, techniques: Techniques, search: Option<string>, fields: Option<seq<string>>)
  {
    var techs := TagFilter(techniques);
    var q := TextFilter(search);
    EarlyEmpty(q, fields) || StoreDefined(db, techs, q, fields)
  }

  /** The record passes the tag filter and, when a search text is given, the text filter. */
  predicate Selected(r: Record, techs: Option<seq<string>>, q: Option<string>, fields: Option<seq<string>>)
    requires RecordDefined(r, techs, q, fields)
  {
    PassesTags(r, techs) && (q.None? || TextMatches(r, fields, Lower(q.value)))
  }

  /** The selected records of `db`, in store order. */
  function SelectedRecords(db: seq<Record>, techs: Option<seq<string>>, q: Option<string>, fields: Option<seq<string>>): seq<Record>
    requires StoreDefined(db, techs, q, fields)
  {
    if db == [] then []
    else
      var earlier := SelectedRecords(db[..|db| - 1], techs, q, fields);
      var r := db[|db| - 1];
      assert RecordDefined(r, techs, q, fields);
      if Selected(r, techs, q, fields) then earlier + [r] else earlier
  }

  /** Neither a search text nor a tag list is in force. */
  predicate Unfiltered(techs: Option<seq<string>>, q: Option<string>)
  {
    techs.None? && q.None?
  }

  /** The records that go on to sorting: the whole store when no filter is
      given, otherwise the selected records with each value kept once. */
  function Matching(db: seq<Record>, techs: Option<seq<string>>, q: Option<string>, fields: Option<seq<string>>): seq<Record>
    requires StoreDefined(db, techs, q, fields)
  {
    if Unfiltered(techs, q) then db else Dedup(SelectedRecords(db, techs, q, fields))
  }

  // ---------------------------------------------------------------------
  // Sorting
  // ---------------------------------------------------------------------

  /** `[value of sortBy, record]` for each record that has the field, in order. */
  function KeyPairs(rs: seq<Record>, sortBy: string): seq<(Value, Record)>
  {
    if rs == [] then []
    else
      var earlier := KeyPairs(rs[..|rs| - 1], sortBy);
      var r := rs[|rs| - 1];
      if sortBy in r then earlier + [(r[sortBy], r)] else earlier
  }

  function PairKey(p: (Value, Record)): Value
  {
    p.0
  }

  function Seconds(ps: seq<(Value, Record)>): seq<Record>
  {
    seq(|ps|, k requires 0 <= k < |ps| => ps[k].1)
  }

  /** Sorted by key, then the whole list reversed when the order is "desc". */
  function Arrange(ps: seq<(Value, Record)>, sortOrder: string): seq<(Value, Record)>
  {
    var sorted := SortByKey(ps, PairKey);
    if sortOrder == "desc" then Reversed(sorted) else sorted
  }

  /** What a search returns. */
  function SearchResult(db: seq<Record>, sortBy: string, sortOrder: string, techniques: Techniques,
                        search: Option<string>, fields: Option<seq<string>>): seq<Record>
    requires SearchDefined(db, techniques, search, fields)
  {
    var techs := TagFilter(techniques);
    var q := TextFilter(search);
    if EarlyEmpty(q, fields) then []
    else Seconds(Arrange(KeyPairs(Matching(db, techs, q, fields), sortBy), sortOrder))
  }

  // ---------------------------------------------------------------------
  // The search, step by step
  // ---------------------------------------------------------------------

  /** `s` with `x` appended unless it is there already. */
  function AppendNew(s: seq<Record>, x: Record): seq<Record>
  {
    if x in s then s else s + [x]
  }

  /** Scans the listed fields of `r` in order; each field whose lower-cased
      text contains `query` appends `r` to `matching` unless it is there already. */
  method ScanListedFields(r: Record, fields: seq<string>, query: string, matching: seq<Record>)
    returns (updated: seq<Record>)
    requires FieldsPresent(r, fields)
    ensures updated == if SomeFieldMatches(r, fields, query) then AppendNew(matching, r) else matching
  {
    updated := matching;
    for j := 0 to |fields|
      invariant FieldsPresent(r, fields[..j])
      invariant updated == if SomeFieldMatches(r, fields[..j], query) then AppendNew(matching, r) else matching
    {
      SomeFieldMatchesStep(r, fields, j, query);
      var s := Lower(ToText(r[fields[j]]));
      if IsSubstring(query, s) {
        if r !in updated {
          updated := updated + [r];
        }
      }
    }
    assert fields[..|fields|] == fields;
  }

  /** Looking at one more listed field adds that field's match. */
  lemma SomeFieldMatchesStep(r: Record, fields: seq<string>, j: int, query: string)
    requires FieldsPresent(r, fields)
    requires 0 <= j < |fields|
    ensures FieldsPresent(r, fields[..j]) && FieldsPresent(r, fields[..j + 1])
    ensures SomeFieldMatches(r, fields[..j + 1], query) <==>
      SomeFieldMatches(r, fields[..j], query) || IsSubstring(query, Lower(ToText(r[fields[j]])))
  {
    // Not needed for soundness; these two steps keep the proof's cost stable across solver seeds.
    assert forall m :: 0 <= m < j + 1 ==> fields[..j + 1][m] == fields[m];
    assert FieldMatches(r, fields[..j + 1][j], query) <==> FieldMatches(r, fields[j], query);
  }

  /** The same scan over every field of `r`, in whatever order the record keeps them. */
  method ScanAllFields(r: Record, query: string, matching: seq<Record>) returns (updated: seq<Record>)
    ensures updated == if SomeKeyMatches(r, r.Keys, query) then AppendNew(matching, r) else matching
  {
    updated := matching;
    var keys := r.Keys;
    while keys != {}
      invariant keys <= r.Keys
      invariant updated == if SomeKeyMatches(r, r.Keys - keys, query) then AppendNew(matching, r) else matching
      decreases keys
    {
      var f :| f in keys;
      var s := Lower(ToText(r[f]));
      if IsSubstring(query, s) {
        assert FieldMatches(r, f, query);
        if r !in updated {
          updated := updated + [r];
        }
      }
      keys := keys - {f};
    }
    assert r.Keys - keys == r.Keys;
  }

  /** The free-text branch: each record that passes the tag check has its
      searched fields scanned for `search`, lower-cased. */
  method TextSearch(db: seq<Record>, techs: Option<seq<string>>, search: string, searchFields: Option<seq<string>>)
    returns (matching: seq<Record>)
    requires searchFields != Some([])
    requires StoreDefined(db, techs, Some(search), searchFields)
    ensures matching == Dedup(SelectedRecords(db, techs, Some(search), searchFields))
  {
    var q := Some(search);
    var query := Lower(search);
    matching := [];
    for i := 0 to |db|
      invariant matching == Dedup(SelectedRecords(db[..i], techs, q, searchFields))
    {
      var r := db[i];
      assert RecordDefined(r, techs, q, searchFields);
      var pass := true;
      if techs.Some? {
        pass := TechCheck(r, techs.value);
      }
      SelectedStep(db, i, techs, q, searchFields);
      DedupStep(SelectedRecords(db[..i], techs, q, searchFields), r);
      if pass {
        if searchFields.Some? {
          matching := ScanListedFields(r, searchFields.value, query, matching);
        } else {
          matching := ScanAllFields(r, query, matching);
        }
      }
    }
    assert db[..|db|] == db;
  }

  /** The tag-only branch: each record that uses every required tag is
      appended unless it is there already. */
  method TagSearch(db: seq<Record>, tags: seq<string>, searchFields: Option<seq<string>>) returns (matching: seq<Record>)
    requires StoreDefined(db, Some(tags), None, searchFields)
    ensures matching == Dedup(SelectedRecords(db, Some(tags), None, searchFields))
  {
    matching := [];
    for i := 0 to |db|
      invariant matching == Dedup(SelectedRecords(db[..i], Some(tags), None, searchFields))
    {
      var r := db[i];
      SelectedStep(db, i, Some(tags), None, searchFields);
      DedupStep(SelectedRecords(db[..i], Some(tags), None, searchFields), r);
      var pass := TechCheck(r, tags);
      assert pass <==> Selected(r, Some(tags), None, searchFields);
      if pass && r !in matching {
        matching := matching + [r];
      }
    }
    assert db[..|db|] == db;
  }

  /** Normalises the arguments, filters the store, builds the list of
      `[key, record]` pairs for the records that have the sort field, sorts
      it, reverses it for "desc", and returns the records in that order. */
  method Search(db: seq<Record>, sortBy: string, sortOrder: string, techniques: Techniques,
                search: Option<string>, searchFields: Option<seq<string>>) returns (result: seq<Record>)
    requires SearchDefined(db, techniques, search, searchFields)
    ensures result == SearchResult(db, sortBy, sortOrder, techniques, search, searchFields)
  {
    var techs := TagFilter(techniques);
    var q := TextFilter(search);
    if q.Some? && searchFields == Some([]) {
      return [];
    }
    var matching := Filter(db, techs, q, searchFields);
    result := SortMatching(matching, sortBy, sortOrder);
  }

  /** The filtering stage: the whole store when no filter is given, otherwise
      the free-text branch or, without a search text, the tag-only branch. */
  method Filter(db: seq<Record>, techs: Option<seq<string>>, q: Option<string>, searchFields: Option<seq<string>>)
    returns (matching: seq<Record>)
    requires !EarlyEmpty(q, searchFields)
    requires StoreDefined(db, techs, q, searchFields)
    ensures matching == Matching(db, techs, q, searchFields)
  {
    matching := db;
    if q.Some? {
      matching := TextSearch(db, techs, q.value, searchFields);
    } else if techs.Some? {
      matching := TagSearch(db, techs.value, searchFields);
    }
  }

  /** The sorting stage: pairs each record having `sortBy` with its value,
      counting positions with `dictNo`, sorts the pairs, reverses them for
      "desc" and takes the records back out. */
  method SortMatching(matching: seq<Record>, sortBy: string, sortOrder: string) returns (result: seq<Record>)
    ensures result == Seconds(Arrange(KeyPairs(matching, sortBy), sortOrder))
  {
    var sortingList: seq<(Value, Record)> := [];
    var dictNo := 0;
    while dictNo < |matching|
      invariant 0 <= dictNo <= |matching|
      invariant sortingList == KeyPairs(matching[..dictNo], sortBy)
    {
      var r := matching[dictNo];
      assert matching[..dictNo + 1][..dictNo] == matching[..dictNo];
      if sortBy in r {
        sortingList := sortingList + [(r[sortBy], matching[dictNo])];
      }
      dictNo := dictNo + 1;
    }
    assert matching[..|matching|] == matching;
    ghost var pairs := sortingList;

    sortingList := SortByKey(sortingList, PairKey);
    if sortOrder == "desc" {
      sortingList := Reversed(sortingList);
    }
    assert sortingList == Arrange(pairs, sortOrder);

    result := [];
    for k := 0 to |sortingList|
      invariant result == Seconds(sortingList[..k])
    {
      result := result + [sortingList[k].1];
    }
    assert sortingList[..|sortingList|] == sortingList;
  }

  /** One more record of the store extends the selection by that record if selected. */
  lemma SelectedStep(db: seq<Record>, i: int, techs: Option<seq<string>>, q: Option<string>, fields: Option<seq<string>>)
    requires 0 <= i < |db|
    requires StoreDefined(db, techs, q, fields)
    ensures RecordDefined(db[i], techs, q, fields)
    ensures Selected(db[i], techs, q, fields) ==>
      SelectedRecords(db[..i + 1], techs, q, fields) == SelectedRecords(db[..i], techs, q, fields) + [db[i]]
    ensures !Selected(db[i], techs, q, fields) ==>
      SelectedRecords(db[..i + 1], techs, q, fields) == SelectedRecords(db[..i], techs, q, fields)
  {
    assert db[..i + 1][..i] == db[..i];
  }

  lemma DedupStep(s: seq<Record>, x: Record)
    ensures Dedup(s + [x]) == AppendNew(Dedup(s), x)
  {
  }
  // ---------------------------------------------------------------------
  // What a search promises
  // ---------------------------------------------------------------------

  /** The selection holds nothing but records of the store that pass the filters. */
  lemma {:induction false} SelectedRecordsSound(db: seq<Record>, techs: Option<seq<string>>, q: Option<string>, fields: Option<seq<string>>)
    requires StoreDefined(db, techs, q, fields)
    ensures forall x :: x in SelectedRecords(db, techs, q, fields) ==>
      x in db && RecordDefined(x, techs, q, fields) && Selected(x, techs, q, fields)
  {
    if db != [] {
      var n := |db| - 1;
      StoreDefinedPrefix(db, n, techs, q, fields);
      SelectedRecordsSound(db[..n], techs, q, fields);
      SelectedStep(db, n, techs, q, fields);
      assert db[..n + 1] == db;
    }
  }

  /** Every record of the store that passes the filters is in the selection. */
  lemma {:induction false} SelectedRecordsComplete(db: seq<Record>, x: Record, techs: Option<seq<string>>, q: Option<string>,
                                                   fields: Option<seq<string>>)
    requires StoreDefined(db, techs, q, fields)
    requires x in db && RecordDefined(x, techs, q, fields) && Selected(x, techs, q, fields)
    ensures x in SelectedRecords(db, techs, q, fields)
  {
    var n := |db| - 1;
    SelectedStep(db, n, techs, q, fields);
    assert db[..n + 1] == db;
    if x != db[n] {
      var prev := SelectedRecords(db[..n], techs, q, fields);
      assert SelectedRecords(db, techs, q, fields) == prev
          || SelectedRecords(db, techs, q, fields) == prev + [db[n]];
      assert db == db[..n] + [db[n]];
      StoreDefinedPrefix(db, n, techs, q, fields);
      SelectedRecordsComplete(db[..n], x, techs, q, fields);
    }
  }

  lemma StoreDefinedPrefix(db: seq<Record>, n: int, techs: Option<seq<string>>, q: Option<string>, fields: Option<seq<string>>)
    requires 0 <= n <= |db|
    requires StoreDefined(db, techs, q, fields)
    ensures StoreDefined(db[..n], techs, q, fields)
  {
  }

  /** Each pair carries its record's own `sortBy` value; exactly the records
      having the field get a pair, as often as they occur. */
  lemma {:induction false} KeyPairsSpec(rs: seq<Record>, sortBy: string)
    ensures forall p :: p in KeyPairs(rs, sortBy) ==> sortBy in p.1 && p.0 == p.1[sortBy]
    ensures forall r :: multiset(Seconds(KeyPairs(rs, sortBy)))[r] == if sortBy in r then multiset(rs)[r] else 0
  {
    if rs != [] {
      var init, last := rs[..|rs| - 1], rs[|rs| - 1];
      KeyPairsSpec(init, sortBy);
      assert rs == init + [last];
      var ps := KeyPairs(init, sortBy);
      if sortBy in last {
        assert Seconds(ps + [(last[sortBy], last)]) == Seconds(ps) + [last];
      }
    }
  }

  /** `s` without its element at `k`. */
  function RemoveAt<T>(s: seq<T>, k: int): (r: seq<T>)
    requires 0 <= k < |s|
    ensures |r| == |s| - 1
  {
    s[..k] + s[k + 1..]
  }

  lemma SecondsConcat(a: seq<(Value, Record)>, b: seq<(Value, Record)>)
    ensures Seconds(a + b) == Seconds(a) + Seconds(b)
  {
  }

  /** Taking out the pair at `k` takes its record out of the records. */
  lemma SecondsRemoveAt(qs: seq<(Value, Record)>, k: int)
    requires 0 <= k < |qs|
    ensures multiset(Seconds(qs)) == multiset(Seconds(RemoveAt(qs, k))) + multiset{qs[k].1}
  {
    assert qs == qs[..k] + [qs[k]] + qs[k + 1..];
    SecondsConcat(qs[..k] + [qs[k]], qs[k + 1..]);
    SecondsConcat(qs[..k], [qs[k]]);
    SecondsConcat(qs[..k], qs[k + 1..]);
  }

  lemma MultisetRemoveAt<T>(qs: seq<T>, k: int)
    requires 0 <= k < |qs|
    ensures multiset(qs) == multiset(RemoveAt(qs, k)) + multiset{qs[k]}
  {
    assert qs == qs[..k] + [qs[k]] + qs[k + 1..];
  }

  lemma MultisetCancel<T>(a: multiset<T>, b: multiset<T>, x: T)
    requires a + multiset{x} == b + multiset{x}
    ensures a == b
  {
    assert a == (a + multiset{x}) - multiset{x};
    assert b == (b + multiset{x}) - multiset{x};
  }

  /** Reordering the pairs reorders their records the same way. */
  lemma {:induction false} SecondsPermutation(ps: seq<(Value, Record)>, qs: seq<(Value, Record)>)
    requires multiset(ps) == multiset(qs)
    ensures multiset(Seconds(ps)) == multiset(Seconds(qs))
    decreases |ps|
  {
    if ps == [] {
      assert |qs| == |multiset(qs)| == 0;
    } else {
      var x := ps[0];
      assert x in multiset(qs);
      var k :| 0 <= k < |qs| && qs[k] == x;
      var ps', qs' := RemoveAt(ps, 0), RemoveAt(qs, k);
      MultisetRemoveAt(ps, 0);
      MultisetRemoveAt(qs, k);
      MultisetCancel(multiset(ps'), multiset(qs'), x);
      SecondsPermutation(ps', qs');
      SecondsRemoveAt(ps, 0);
      SecondsRemoveAt(qs, k);
    }
  }

  lemma SecondsReversed(ps: seq<(Value, Record)>)
    ensures Seconds(Reversed(ps)) == Reversed(Seconds(ps))
  {
    ReversedAt(ps);
    ReversedAt(Seconds(ps));
  }

  /** Sorting drops exactly the records without the sort field: the result
      holds every other filtered record as often as the filter kept it. */
  lemma SearchPermutation(db: seq<Record>, sortBy: string, sortOrder: string, techniques: Techniques,
                          search: Option<string>, fields: Option<seq<string>>)
    requires SearchDefined(db, techniques, search, fields)
    requires !EarlyEmpty(TextFilter(search), fields)
    ensures forall r ::
      multiset(SearchResult(db, sortBy, sortOrder, techniques, search, fields))[r] ==
      if sortBy in r then multiset(Matching(db, TagFilter(techniques), TextFilter(search), fields))[r] else 0
  {
    var m := Matching(db, TagFilter(techniques), TextFilter(search), fields);
    var ps := KeyPairs(m, sortBy);
    KeyPairsSpec(m, sortBy);
    SortSpec(ps, PairKey);
    ReversedMultiset(SortByKey(ps, PairKey));
    SecondsPermutation(Arrange(ps, sortOrder), ps);
  }

  /** A record is returned exactly when it is in the store, has the sort
      field and, if any filter is given, passes the filters. */
  lemma SearchMembership(db: seq<Record>, sortBy: string, sortOrder: string, techniques: Techniques,
                         search: Option<string>, fields: Option<seq<string>>)
    requires SearchDefined(db, techniques, search, fields)
    requires !EarlyEmpty(TextFilter(search), fields)
    ensures var res := SearchResult(db, sortBy, sortOrder, techniques, search, fields);
      var techs := TagFilter(techniques);
      var q := TextFilter(search);
      && (forall r :: r in res ==>
            r in db && sortBy in r && RecordDefined(r, techs, q, fields) &&
            (Unfiltered(techs, q) || Selected(r, techs, q, fields)))
      && (forall i :: 0 <= i < |db| ==>
            && RecordDefined(db[i], techs, q, fields)
            && (db[i] in res <==> sortBy in db[i] && (Unfiltered(techs, q) || Selected(db[i], techs, q, fields))))
  {
    var techs := TagFilter(techniques);
    var q := TextFilter(search);
    var res := SearchResult(db, sortBy, sortOrder, techniques, search, fields);
    SearchPermutation(db, sortBy, sortOrder, techniques, search, fields);
    SelectedRecordsSound(db, techs, q, fields);
    forall i | 0 <= i < |db|
      ensures RecordDefined(db[i], techs, q, fields)
      ensures Selected(db[i], techs, q, fields) ==> db[i] in SelectedRecords(db, techs, q, fields)
    {
      if Selected(db[i], techs, q, fields) {
        SelectedRecordsComplete(db, db[i], techs, q, fields);
      }
    }
    DedupSpec(SelectedRecords(db, techs, q, fields));
    forall r
      ensures r in res <==> sortBy in r && r in Matching(db, techs, q, fields)
    {
      assert r in res <==> r in multiset(res);
    }
  }

  /** With a tag list given (not the text "None"), every returned record uses
      every listed tag; with no search text, a record that has the sort field
      is returned exactly when it uses every listed tag. */
  lemma SearchTagFilter(db: seq<Record>, sortBy: string, sortOrder: string, tags: seq<string>,
                        search: Option<string>, fields: Option<seq<string>>)
    requires SearchDefined(db, TechniqueList(tags), search, fields)
    ensures var res := SearchResult(db, sortBy, sortOrder, TechniqueList(tags), search, fields);
      forall r :: r in res ==> (tags != [] ==> HasTags(r)) && HasAll(r, tags)
    ensures var res := SearchResult(db, sortBy, sortOrder, TechniqueList(tags), search, fields);
      TextFilter(search).None? ==>
        forall i :: 0 <= i < |db| ==>
          && (tags != [] ==> HasTags(db[i]))
          && (sortBy in db[i] ==> (db[i] in res <==> HasAll(db[i], tags)))
  {
    if !EarlyEmpty(TextFilter(search), fields) {
      SearchMembership(db, sortBy, sortOrder, TechniqueList(tags), search, fields);
    }
  }

  /** With a search text given: an empty list of search fields returns
      nothing; otherwise every returned record has a searched field whose
      lower-cased text contains the lower-cased search text, and no record
      value is returned twice. */
  lemma SearchTextFilter(db: seq<Record>, sortBy: string, sortOrder: string, techniques: Techniques,
                         query: string, fields: Option<seq<string>>)
    requires query != ""
    requires SearchDefined(db, techniques, Some(query), fields)
    ensures fields == Some([]) ==> SearchResult(db, sortBy, sortOrder, techniques, Some(query), fields) == []
    ensures var res := SearchResult(db, sortBy, sortOrder, techniques, Some(query), fields);
      forall r :: r in res ==>
        (fields.Some? ==> FieldsPresent(r, fields.value)) && TextMatches(r, fields, Lower(query))
    ensures NoDups(SearchResult(db, sortBy, sortOrder, techniques, Some(query), fields))
  {
    if fields != Some([]) {
      var techs := TagFilter(techniques);
      var q := Some(query);
      SearchMembership(db, sortBy, sortOrder, techniques, q, fields);
      SearchPermutation(db, sortBy, sortOrder, techniques, q, fields);
      DedupSpec(SelectedRecords(db, techs, q, fields));
      NoDupsPermutation(Matching(db, techs, q, fields), SearchResult(db, sortBy, sortOrder, techniques, q, fields));
    }
  }

  /** With neither a search text nor a tag list, the result is a permutation
      of the records of the store that have the sort field. */
  lemma SearchUnfiltered(db: seq<Record>, sortBy: string, sortOrder: string, techniques: Techniques,
                         search: Option<string>, fields: Option<seq<string>>)
    requires !techniques.TechniqueList?
    requires search == None || search == Some("")
    ensures SearchDefined(db, techniques, search, fields)
    ensures forall r ::
      multiset(SearchResult(db, sortBy, sortOrder, techniques, search, fields))[r] ==
      if sortBy in r then multiset(db)[r] else 0
  {
    SearchPermutation(db, sortBy, sortOrder, techniques, search, fields);
  }

  /** Unless the order is "desc", the returned records all have the sort
      field and their values of it are in ascending order. */
  lemma SearchSortedAscending(db: seq<Record>, sortBy: string, sortOrder: string, techniques: Techniques,
                              search: Option<string>, fields: Option<seq<string>>)
    requires SearchDefined(db, techniques, search, fields)
    requires sortOrder != "desc"
    ensures var res := SearchResult(db, sortBy, sortOrder, techniques, search, fields);
      && (forall k :: 0 <= k < |res| ==> sortBy in res[k])
      && (forall i, j :: 0 <= i < j < |res| ==> ValueLe(res[i][sortBy], res[j][sortBy]))
  {
    var techs := TagFilter(techniques);
    var q := TextFilter(search);
    if !EarlyEmpty(q, fields) {
      var ps := KeyPairs(Matching(db, techs, q, fields), sortBy);
      KeyPairsSpec(Matching(db, techs, q, fields), sortBy);
      SortSpec(ps, PairKey);
      var sorted := SortByKey(ps, PairKey);
      forall k | 0 <= k < |sorted|
        ensures sortBy in sorted[k].1 && sorted[k].0 == sorted[k].1[sortBy]
      {
        assert sorted[k] in multiset(ps);
      }
    }
  }

  /** The "desc" result is the ascending result read backwards. */
  lemma SearchDescReversesAsc(db: seq<Record>, sortBy: string, sortOrder: string, techniques: Techniques,
                              search: Option<string>, fields: Option<seq<string>>)
    requires SearchDefined(db, techniques, search, fields)
    requires sortOrder != "desc"
    ensures SearchResult(db, sortBy, "desc", techniques, search, fields) ==
      Reversed(SearchResult(db, sortBy, sortOrder, techniques, search, fields))
  {
    var techs := TagFilter(techniques);
    var q := TextFilter(search);
    if !EarlyEmpty(q, fields) {
      SecondsReversed(SortByKey(KeyPairs(Matching(db, techs, q, fields), sortBy), PairKey));
    }
  }
}
