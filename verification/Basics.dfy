/** What all modules share. */
module Basics {

  datatype Option<+T> = None | Some(value: T)

  function Elems(s: seq<string>): set<string> {
    set x | x in s
  }
}
