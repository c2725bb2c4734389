/** The stock option type and the linked stack that stands for std::stack. */
module Wrappers {

  datatype Option<+T> = None | Some(value: T)

  datatype Stack<T> = Empty | Push(top: T, rest: Stack<T>)

  function Depth<T>(s: Stack<T>): nat {
    if s.Empty? then 0 else 1 + Depth(s.rest)
  }
}
