/** Small shared datatypes: optional values, fallible results, orderings and panics. */
module Wrappers {
  datatype Option<T> = None | Some(value: T)

  /** A Rust `Result`: `Ok` carries the value, `Err` the error. */
  datatype Result<T, E> = Ok(value: T) | Err(error: E)

  /** `core::cmp::Ordering`. */
  datatype Ordering = Less | Equal | Greater

  /**
   * The outcome of code that may panic (`unwrap` on `None`, `todo!`,
   * `unimplemented!`, a failed `assert!`, a `RefCell` borrow conflict):
   * either it returns a value or the whole computation aborts.
   */
  datatype Outcome<T> = Done(value: T) | Panic

  function Flip(o: Ordering): Ordering
  {
    match o
    case Less => Greater
    case Equal => Equal
    case Greater => Less
  }

  /** Lexicographic comparison of two strings by character code, as Rust's `str::cmp` orders UTF-8 text. */
  function CompareStrings(a: string, b: string): (r: Ordering)
    ensures r == Equal <==> a == b
  {
    if a == [] && b == [] then Equal
    else if a == [] then Less
    else if b == [] then Greater
    else if a[0] < b[0] then Less
    else if a[0] > b[0] then Greater
    else CompareStrings(a[1..], b[1..])
  }

  /** Swapping the operands of a string comparison flips its answer. */
  lemma {:induction false} CompareStringsFlip(a: string, b: string)
    ensures CompareStrings(b, a) == Flip(CompareStrings(a, b))
  {
    if a != [] && b != [] && a[0] == b[0] {
      CompareStringsFlip(a[1..], b[1..]);
    }
  }
}
