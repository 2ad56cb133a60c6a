/** What the page ring of src/ade9000.c and the logs of src/alarm.c have in common. */
module Rings {

  /** N slots, the one to write next, the one to read from, and a count. */
  datatype Ring<T> = Ring(slots: seq<T>, fr: nat, re: nat, count: nat)

  /** The slot k places after position p. */
  function Ahead(n: nat, p: nat, k: nat): nat { if p + k < n then p + k else p + k - n }
}
