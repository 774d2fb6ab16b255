/** Small things that several modules need. */
module Wrappers {
  /** An optional value. */
  datatype Option<+T> = None | Some(value: T)

  /** A value, or what was thrown instead. */
  datatype Result<+T, +E> = Ok(value: T) | Err(error: E)

  /** A property of a plain object. An absent one, unlike one that is null, gives way to a default. */
  datatype Property<+T> = Absent | Null | Given(value: T)

  /** A nullable column after a property has been saved into it. */
  function Overwrite<T>(column: Option<T>, p: Property<T>): Option<T> {
    match p
    case Absent => column
    case Null => None
    case Given(v) => Some(v)
  }

  /** What a loop has built so far, put in front of what a recursive specification gives for the rest. */
  ghost function Prepend<T, S>(done: seq<T>, rest: (seq<T>, S)): (seq<T>, S) {
    (done + rest.0, rest.1)
  }

  lemma PrependNothing<T, S>(rest: (seq<T>, S))
    ensures Prepend([], rest) == rest
  {
    assert [] + rest.0 == rest.0;
  }

  lemma PrependOne<T, S>(done: seq<T>, next: T, rest: (seq<T>, S))
    ensures Prepend(done, ([next] + rest.0, rest.1)) == Prepend(done + [next], rest)
  {
    assert done + ([next] + rest.0) == done + [next] + rest.0;
  }
}
