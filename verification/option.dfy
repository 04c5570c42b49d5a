/** The optional value used wherever the extension's JavaScript yields a value or
    `undefined`/`null`: `Array.prototype.find`, `lastIndexOf` returning -1, a store
    record that is missing, a DOM query that finds nothing. */
module Opt {

  datatype Option<+T> = None | Some(value: T) {

    /** This option when it holds a value, else `other` (JavaScript's `a || b`
        on an object-or-null). */
    function OrElse(other: Option<T>): Option<T> {
      if Some? then this else other
    }
  }
}
