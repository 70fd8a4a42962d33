/** The change record the engine emits. */
module Details {
  import opened Wrappers

  /** One change: `field` is the label path, `path` the path reported
      beside it (the engine passes the same string for both), and the two
      rendered texts. Either path is null for a change at the root. */
  datatype DiffDetails = DiffDetails(
    field: Option<string>,
    oldValue: string,
    newValue: string,
    path: Option<string>)

  /** `new DiffDetails(key, path, oldval, newval)`: the constructor's argument
      order differs from the record's field order. */
  function NewDiffDetails(key: Option<string>, path: Option<string>, oldval: string, newval: string): (r: DiffDetails)
    ensures r.field == key
    ensures r.path == path
    ensures r.oldValue == oldval
    ensures r.newValue == newval
  {
    DiffDetails(key, oldval, newval, path)
  }
}
