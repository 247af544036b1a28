/** What the condition variables of all threads share. */
module Monitors {

  /** pthread_cond_broadcast: every thread gets the signal. */
  function Broadcast<T>(ts: seq<T>, signal: T -> T): (r: seq<T>)
    ensures |r| == |ts| && forall i :: 0 <= i < |ts| ==> r[i] == signal(ts[i])
  {
    seq(|ts|, i requires 0 <= i < |ts| => signal(ts[i]))
  }

  /** How many threads are in some place. */
  function Count<T>(ts: seq<T>, there: T -> bool): nat {
    if ts == [] then 0 else (if there(ts[0]) then 1 else 0) + Count(ts[1..], there)
  }

  lemma {:induction false} CountUpdate<T>(ts: seq<T>, there: T -> bool, i: nat, t: T)
    requires i < |ts|
    ensures Count(ts[i := t], there) + (if there(ts[i]) then 1 else 0) == Count(ts, there) + (if there(t) then 1 else 0)
  {
    if i == 0 {
      assert ts[i := t][1..] == ts[1..];
    } else {
      assert ts[i := t][1..] == ts[1..][i - 1 := t];
      CountUpdate(ts[1..], there, i - 1, t);
    }
  }

  /** A signal moves nobody. */
  lemma {:induction false} CountBroadcast<T(!new)>(ts: seq<T>, signal: T -> T, there: T -> bool)
    requires forall t :: there(signal(t)) == there(t)
    ensures Count(Broadcast(ts, signal), there) == Count(ts, there)
  {
    if ts != [] {
      assert Broadcast(ts, signal)[1..] == Broadcast(ts[1..], signal);
      CountBroadcast(ts[1..], signal, there);
    }
  }

  lemma {:induction false} CountNone<T>(n: nat, t: T, there: T -> bool)
    requires !there(t)
    ensures Count(seq(n, _ => t), there) == 0
  {
    if n > 0 {
      assert seq(n, _ => t)[1..] == seq(n - 1, _ => t);
      CountNone(n - 1, t, there);
    }
  }
}
