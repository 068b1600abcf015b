/**
  What several of the models need.
 */
module Prelude {

  datatype Option<T> = None | Some(value: T)

  function Min(a: nat, b: nat): (m: nat) { if a < b then a else b }
}
