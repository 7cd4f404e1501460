/** A value that may be missing. */
module Options {

  datatype Option<T> = None | Some(value: T)
}

module Octets {

  type Byte = b: int | 0 <= b < 256
}

module Counting {

  function One(b: bool): nat {
    if b then 1 else 0
  }
}

/** What the programs with a single lock holder have in common. */
module Processes {

  datatype Holder = Nobody | Held(w: nat)

  /** The j-th letter, going round the alphabet. */
  function Letter(j: int): int {
    'a' as int + j % 26
  }
}
