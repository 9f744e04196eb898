/**
  Scripts of I/O outcomes. The network is not modelled: every connect attempt
  and every write is given its outcome by a finite script of booleans
  (true = the call returned normally, false = it threw), consumed in order.
 */
module Outcomes {

  /** The index of the first success in a script that has one. */
  function FirstTrue(s: seq<bool>): (k: nat)
    requires true in s
    ensures k < |s| && s[k]
    ensures forall i :: 0 <= i < k ==> !s[i]
  {
    if s[0] then 0 else FirstTrue(s[1..]) + 1
  }

  /** s concatenated n times. */
  function Repeat<T>(s: seq<T>, n: nat): (r: seq<T>)
    ensures |r| == n * |s|
  {
    if n == 0 then [] else Repeat(s, n - 1) + s
  }
}
