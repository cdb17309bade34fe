/** Reading a map of numbers. */
module Lookup {

  /** The entry of a key; 0, as a new entry has it, where there is none. */
  function Get(m: map<string, nat>, key: string): nat {
    if key in m then m[key] else 0
  }
}
