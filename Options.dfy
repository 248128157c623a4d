/** The optional value `Array.prototype.find` hands back: the element it
    found, or nothing (`undefined`). */
module Options {
  datatype Option<T> = None | Some(value: T)
}
