/** The optional value that stands for a nil pointer, an invalid prefix or a missing map entry. */
module Optional {
  datatype Option<+T> = None | Some(value: T) {
    function GetOr(default: T): (r: T)
    {
      if Some? then value else default
    }

    function Or(other: Option<T>): Option<T> {
      if Some? then this else other
    }
  }
}
