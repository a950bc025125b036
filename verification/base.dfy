/** Values shared by every view of the dashboard: JavaScript's nullable strings
    with their truthiness and `||`, and the content-box size a view is handed
    whenever its container is observed. */
module Base {

  /** A nullable value. JavaScript's `null` and `undefined` are both `None`. */
  datatype Option<+T> = None | Some(value: T)

  /** JavaScript truthiness of a nullable string: `null`, `undefined` and `""`
      are falsy, every other string is truthy. */
  predicate Truthy(s: Option<string>) {
    s.Some? && s.value != ""
  }

  /** The expression `a || b` on nullable strings: `a` when it is truthy, else `b`. */
  function Or(a: Option<string>, b: Option<string>): Option<string> {
    if Truthy(a) then a else b
  }

  /** A container's content box, in CSS pixels (never negative when observed). */
  datatype Size = Size(width: real, height: real)

  /** A size large enough to draw in: neither side below its minimum. Every
      view skips a resize that does not fit. */
  predicate Fits(s: Size, minWidth: real, minHeight: real) {
    !(s.width < minWidth || s.height < minHeight)
  }
}
