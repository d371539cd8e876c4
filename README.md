# Portfolio query layer, in Dafny

This project models the data layer of the Portfolio web application: the
in-memory functions of `data.py` that treat the loaded list of project
records as a small database. It covers the following operations:

- the project count (`get_project_count`);
- lookup by project number (`get_project`);
- the sorted, duplicate-free list of technique tags (`get_techniques`);
- per-tag statistics (`get_technique_stats`);
- the combined search (`search` with its inner `tech_check`). It filters by required tags and by case-insensitive free text, returns `[]` early for an empty field list, and, when some filter is given, keeps each record value once. It then sorts by one field and reverses the list for `desc`.

A project record is a Python dict. Here it is a `map<string, Value>`, where
a `Value` is a number, a text or a list of texts. Two records are equal
when their maps are equal, which is exactly Python's dict equality. So the
"append unless already in the list" steps deduplicate by value, as the
source does.

The modules:

- `Values`: field values, their Python 2 ordering, their text form, lower-casing and substring search.
- `Lists`: reversal, first-occurrence deduplication and a key-ordered sort, each with the properties the rest relies on.
- `Records`: records and the tag list.
- `Accessor`: count, lookup and distinct tags.
- `Stats`: per-tag statistics.
- `Query`: the search.

The lookup by number is a loop with an early return that only reads. It is
modelled as a recursive function with the same front-to-back scan. The
functions that build lists and dicts step by step are methods with loop
invariants. Each method's postcondition ties its result to a specification function, such as
`SelectedRecords`, `Matching` and `SearchResult` for the search. Lemmas then
prove what the search promises about those functions.

Where the source indexes a dict without a guard, a missing key would raise
`KeyError`, and the model makes it a precondition:

- `project_no` in `get_project`, on the records the scan reads (up to the first match);
- `techniques_used` in `get_techniques` and in `tech_check`;
- `project_no` and `project_name` of a record that lists a tag, in `get_technique_stats`;
- a listed search field, on each record that passes the tag check.

`SearchDefined` states exactly when the search reads nothing that is
missing. When the search returns early for an empty field list, it reads
nothing at all.

The sort key order is the one CPython 2 applies to these values:

- numbers sort before lists, and lists before texts;
- texts compare by code point;
- lists compare lexicographically.

A mix of numbers and texts under the sort field therefore does not raise an
error. It sorts by type, as the code does, rather than failing with an
"incomparable keys" error as a stricter reading of the design would require.

## Model

| member | source | states |
|---|---|---|
| Accessor.ProjectCount | data.py:57-61 | the count is the number of records in the store |
| Accessor.GetProject | data.py:63-76 | defined whenever every record up to the first match has a `project_no`; `None` exactly when every record has one and none equals `p_id`; otherwise a record of the store with that number |
| Accessor.GetProjectFirstMatch | data.py:71-74 | when several records carry the number, the lookup returns the earliest one in store order, and the records after it need no `project_no` |
| Accessor.GetTechniques | data.py:78-91 | the tags come out strictly ascending (sorted and duplicate-free), and a tag is in the list exactly when some record's `techniques_used` lists it |
| Stats.GetTechniqueStats | data.py:93-115 | the keys are exactly the tags of the store; for each tag, reversing its list gives the store-order references of the records listing it (`RefsWith`); no list is empty |
| Stats.RefsWithSpec | data.py:105-109 | a reference is collected for a tag exactly when some record lists the tag and the reference is that record's `{id, name}` |
| Query.TechCheck | data.py:142-146 | the check passes exactly when every required tag is among the record's `techniques_used` |
| Query.ScanListedFields | data.py:163-168 | the record is appended exactly when some listed field's lower-cased text contains the query and the record is not already in the list |
| Query.ScanAllFields | data.py:174-179 | the same over every field of the record, whatever order the fields are visited in |
| Query.TextSearch | data.py:149-179 | the free-text branch yields the selected records of the store, in store order, each value once |
| Query.TagSearch | data.py:181-185 | the tag-only branch yields the records using every required tag, in store order, each value once |
| Query.Search | data.py:117-211 | the method returns `SearchResult`: the filtered records that have `sort_by`, sorted by its value and reversed for `desc`, or `[]` for a search text with an empty field list |
| Query.Filter | data.py:136-185 | the filtering stage yields the whole store when no filter is given, otherwise the selected records in store order, each value once |
| Query.SortMatching | data.py:187-202 | the sorting stage yields the records of the key-sorted `[key, record]` pairs, reversed for `desc` |
| Query.SelectedRecordsSound | data.py:160-185 | the selection holds only records of the store that pass the filters |
| Query.SelectedRecordsComplete | data.py:160-185 | every store record that passes the filters is in the selection |
| Query.KeyPairsSpec | data.py:192-195 | every `[key, record]` pair holds its record's own `sort_by` value; exactly the records having the field get a pair, as often as they occur |
| Query.SecondsRemoveAt | data.py:201-202 | taking one pair out takes its record out of the records read back |
| Query.SecondsPermutation | data.py:197-202 | reordering the pairs reorders the records taken from them in the same way (same multiset) |
| Query.SecondsReversed | data.py:198-202 | taking the records of the reversed pairs equals reversing the taken records |
| Query.SearchPermutation | data.py:188-202 | the result is a permutation of the filtered records that have `sort_by`; the others are dropped |
| Query.SearchMembership | data.py:136-202 | a store record is returned exactly when it has `sort_by` and, when some filter is given, passes the filters; nothing else is returned |
| Query.SearchTagFilter | data.py:137-185 | with a tag list given, every returned record uses every listed tag; with no search text, a record having `sort_by` is returned exactly when it uses them all |
| Query.SearchTextFilter | data.py:149-179 | with a search text: an empty field list returns `[]`; otherwise each returned record has a searched field whose lower-cased text contains the lower-cased text; no record value is returned twice |
| Query.SearchUnfiltered | data.py:136-202 | with the search text absent or `""` and no tag list (absent or `"None"`), the search is defined for every store and returns a permutation of the records having `sort_by` |
| Query.SearchSortedAscending | data.py:193-202 | unless the order is `desc`, every returned record has `sort_by` and its values are in ascending order |
| Query.SearchDescReversesAsc | data.py:198 | the `desc` result is exactly the reverse of the result for any other order, with the same other arguments |
| Query.SelectedStep | data.py:160-168 | one more store record extends the selection by that record exactly when it passes the filters |
| Lists.DedupSpec | data.py:167-168 | "append unless present" keeps every value, adds none and repeats none |
| Lists.NoDupsMultiset | data.py:88-89 | a list repeats no value exactly when no value occurs twice in its multiset |
| Lists.NoDupsPermutation | data.py:91 | a reordering of a duplicate-free list is duplicate-free |
| Lists.SortSpec | data.py:197 | the sort yields a key-ordered permutation of its input |
| Lists.InsertSorted | data.py:197 | inserting into a key-ordered list keeps it key-ordered |
| Lists.InsertMultiset | data.py:197 | inserting adds exactly the one element |
| Lists.ReversedAt | data.py:198 | reversing keeps the length and puts element `k` at position `n-1-k` |
| Lists.ReversedTwice | data.py:110 | reversing twice gives back the list |
| Lists.ReversedMultiset | data.py:198 | reversing is a permutation |
| Values.StrLeTotal | data.py:197 | any two texts are ordered one way or the other |
| Values.StrLeTrans | data.py:197 | the text order is transitive |
| Values.StrLeAntisym | data.py:197 | two texts ordered both ways are equal |
| Values.ListLeTotal | data.py:197 | any two text lists are ordered one way or the other |
| Values.ListLeTrans | data.py:197 | the text-list order is transitive |
| Values.ValueLeTotal | data.py:197 | any two sort keys are ordered one way or the other, across types |
| Values.ValueLeTrans | data.py:197 | the sort-key order is transitive, across types |
| Values.SubstringAt | data.py:166 | `q in s` holds exactly when `q` occurs in `s` at some position |
| Values.ListTextPrintable | data.py:175 | `unicode()` of a list field is printable ASCII only: every other character of its items appears as a `\x`, `\u` or `\U` escape |
| Values.ReprEscapeExample | data.py:175 | `repr` of the text `ä` is `u'\xe4'` |
| Values.LowerPrintable | data.py:176 | lower-casing printable ASCII keeps its length and leaves it printable ASCII |
| Values.NonAsciiNeverInListField | data.py:174-177 | a search text holding any character outside printable ASCII never occurs in the lower-cased text of a list field, whatever the list holds |
| Values.EscapeFoundExample | data.py:174-177 | the search text `xe4` occurs in the lower-cased text of the list field `[ä]` |

## Left out

- `load` (data.py:41-55) reads and parses a JSON file. The model starts from the loaded record list.
- `data_log` and every call to it do logging, read the clock and write files. The same goes for the UTF-8 encoding of the search text for the log message (data.py:205-208).
- server.py (Flask routing, form parsing, templates) is not part of this model.
- Query.Search: `sorting_list.sort()` compares `[key, record]` pairs, so Python breaks ties on the key by comparing the dicts. The model's sort orders by the key alone and places tied records in an order of its own. Only "ordered by key" and "a permutation of the filtered records" are claimed, and which tied record comes first is not.
- Query.Search: the default arguments (`sort_by='start_date'`, `sort_order='desc'`, the rest `None`) are not modelled. Callers pass every argument explicitly.
- Query.Search: a `techniques` argument that is a text other than `"None"` is not modelled. Python would iterate its characters. The model takes absent, `"None"`, or a list of tags.
- Values.ToText: a number is written in decimal, a text is itself, and a list as its Python 2 `repr`, with each item's quote choice and escapes. Characters above U+FFFF are written as one `\U` escape, which both wide and narrow Python builds do. Characters that are not Unicode scalar values (lone surrogates) cannot occur in the model's texts.
- Values.Lower: `lower()` is modelled for ASCII and Latin-1 capital letters only. Other scripts are left unchanged.
- Field values that are booleans, floats, nested dicts or `None` are not modelled. Values are numbers, texts and lists of texts.
- Stats.GetTechniqueStats, Accessor.GetTechniques, Query.TechCheck and Query.Search: `techniques_used` is required to hold a list of texts wherever it is read. For a text value, Python would iterate its characters (data.py:87, 107) or test for a substring (data.py:144).
