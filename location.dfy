/** Source positions attached to every token and every parsed object
    (src/location.rs). A `Location` is a plain value: the Rust struct is
    `Clone + PartialEq` and is never shared, so `set_filename`, which takes
    `&mut self`, is modelled as a function returning the updated value. */
module Locations {
  import opened Wrappers

  /** `rol` is the 1-based line, `col` the column; `usize` becomes `nat`.
      The destructors `rol` and `col` are the getters `Location::rol` and
      `Location::col`. */
  datatype Location = Location(filename: Option<string>, rol: nat, col: nat)
  {
    /** `Location::filename`: the file name, if one was given or set. */
    function Filename(): (r: Option<string>)
      ensures r.None? <==> filename.None?
      ensures r.Some? ==> r.value == filename.value
    {
      if filename.Some? then Some(filename.value) else None
    }

    /** `Location::set_filename`: the file name becomes `s`; the line and the
        column stay as they were. */
    function SetFilename(s: string): (r: Location)
      ensures r.Filename() == Some(s)
      ensures r.rol == rol && r.col == col
    {
      this.(filename := Some(s))
    }

    /** The derived `PartialEq`: field-by-field comparison, which coincides
        with structural equality of the value. */
    predicate Equals(other: Location)
      ensures Equals(other) <==> this == other
    {
      filename == other.filename && rol == other.rol && col == other.col
    }
  }

  /** `Location::new`: the getters give back exactly what was passed in. */
  function New(filename: Option<string>, rol: nat, col: nat): (l: Location)
    ensures l.Filename() == filename && l.rol == rol && l.col == col
  {
    Location(filename, rol, col)
  }

  /** A location with no file, line 0 and column 0, for objects the
      evaluator synthesises. */
  const NoLocation: Location := Location(None, 0, 0)
}
