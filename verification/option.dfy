/** Values that may be absent: a dictionary key the game file may leave
    out, or a parse that may fail. */
module Options {

  datatype Option<T> = None | Some(value: T) {

    /** `dict.get(key, default)`: the value when present, the default
        otherwise. */
    function GetOr(default: T): T {
      if Some? then value else default
    }
  }
}
