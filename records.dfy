/** The project records the query layer works on: each one a mapping from
    field name to value, loaded as a list (the record store). */
module Records {
  import opened Values

  datatype Option<T> = None | Some(value: T)

  /** One project: `project_no`, `project_name`, `techniques_used` and any
      further fields (`start_date`, `course_name`, ...). Two records are the
      same exactly when they hold the same fields with the same values. */
  type Record = map<string, Value>

  const ProjectNo: string := "project_no"
  const ProjectName: string := "project_name"
  const TechniquesUsed: string := "techniques_used"

  /** The record carries a list of technique tags. */
  predicate HasTags(r: Record)
  {
    TechniquesUsed in r && r[TechniquesUsed].StrList?
  }

  function TagsOf(r: Record): seq<string>
    requires HasTags(r)
  {
    r[TechniquesUsed].items
  }

  /** Some record of `db` lists tag `t`. */
  ghost predicate TagInStore(db: seq<Record>, t: string)
  {
    exists i :: 0 <= i < |db| && HasTags(db[i]) && t in TagsOf(db[i])
  }
}
