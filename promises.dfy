/** React Native promises as the Android modules use them: a promise is
    settled by resolving or rejecting it, and only its first settlement
    counts; later ones are ignored. */
module Promises {
  import opened Wrappers

  class Promise {
    constructor () {}
  }

  datatype Outcome = Resolve(value: bool) | Reject(code: string, message: string)

  datatype Settlement = Settlement(promise: Promise, outcome: Outcome)

  /** What `p` settled to, given every settlement made so far, oldest
      first: the first one made on `p`. */
  function OutcomeOf(log: seq<Settlement>, p: Promise): (r: Option<Outcome>)
    ensures r.None? <==> forall i | 0 <= i < |log| :: log[i].promise != p
    ensures r.Some? ==> exists i | 0 <= i < |log| :: log[i] == Settlement(p, r.value) &&
                                                      forall j | 0 <= j < i :: log[j].promise != p
    decreases |log|
  {
    if log == [] then None
    else if log[0].promise == p then Some(log[0].outcome)
    else
      var rest := OutcomeOf(log[1..], p);
      assert forall i | 1 <= i < |log| :: log[i] == log[1..][i - 1];
      if rest.Some? then
        ghost var k :| 0 <= k < |log[1..]| && log[1..][k] == Settlement(p, rest.value) &&
                       forall j | 0 <= j < k :: log[1..][j].promise != p;
        assert log[k + 1] == Settlement(p, rest.value);
        assert forall j | 0 <= j < k + 1 :: log[j].promise != p by {
          forall j | 0 <= j < k + 1 ensures log[j].promise != p {
            if j > 0 {
              assert log[j] == log[1..][j - 1];
            }
          }
        }
        rest
      else rest
  }

  /** Settling once more changes the outcome only of a promise that was
      not settled before. */
  lemma {:induction false} OutcomeOfAppend(log: seq<Settlement>, s: Settlement, p: Promise)
    ensures OutcomeOf(log + [s], p) ==
              if OutcomeOf(log, p).Some? then OutcomeOf(log, p)
              else if s.promise == p then Some(s.outcome)
              else None
    decreases |log|
  {
    if log != [] {
      assert (log + [s])[1..] == log[1..] + [s];
      OutcomeOfAppend(log[1..], s, p);
    }
  }

  /** The bridge the promises are settled through: it keeps every
      settlement, oldest first. */
  class Bridge {
    var settlements: seq<Settlement>

    constructor ()
      ensures settlements == []
    {
      settlements := [];
    }

    /** `promise.resolve(…)` or `promise.reject(…)`. */
    method Settle(p: Promise, o: Outcome)
      modifies this
      ensures settlements == old(settlements) + [Settlement(p, o)]
      // only the first settlement of a promise counts
      ensures OutcomeOf(settlements, p) == if OutcomeOf(old(settlements), p).Some? then OutcomeOf(old(settlements), p) else Some(o)
    {
      OutcomeOfAppend(settlements, Settlement(p, o), p);
      settlements := settlements + [Settlement(p, o)];
    }
  }
}
