/** Values shared by the models: results that may be missing or an error, and what holds of any sequence. */
module Wrappers {
  datatype Option<+T> = None | Some(value: T)

  datatype Result<+T, +E> = Ok(value: T) | Err(error: E)

  lemma Assoc<T>(a: seq<T>, b: seq<T>, c: seq<T>)
    ensures a + b + c == a + (b + c)
  {
  }

  predicate EndsLine(s: string) {
    s != "" && s[|s| - 1] == '\n'
  }
}
