/** What several models need of options and sequences. */
module Collections {

  datatype Option<T> = None | Some(value: T)

  /** All elements but the last. */
  function Init<T>(s: seq<T>): seq<T>
    requires s != []
  {
    s[..|s| - 1]
  }

  function Last<T>(s: seq<T>): T
    requires s != []
  {
    s[|s| - 1]
  }
}
