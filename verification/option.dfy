/** The absent-or-present value that stands in for JavaScript's `undefined`
    results (an `Array.prototype.find` that matched nothing, an array index
    past the end). */
module Optional {

  datatype Option<+T> = None | Some(value: T)
}
