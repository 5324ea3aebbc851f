/** What every other module uses. */
module Wrappers {

  datatype Option<+T> = None | Some(value: T)

  datatype Result<+T, +E> = Ok(value: T) | Err(error: E)

  function Minimum(a: nat, b: nat): nat {
    if a <= b then a else b
  }

  /** Upper case within ASCII. */
  function UpperCase(c: char): char {
    if 'a' <= c <= 'z' then c - 32 as char else c
  }
}
