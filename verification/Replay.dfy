/** Operations one after the other, and how many of them still take effect. */
module Replay {

  function Least(m: nat, n: nat): nat {
    if m <= n then m else n
  }

  /** The state after all of `ops`. */
  function DoAll<S, O>(s: S, ops: seq<O>, effect: (S, O) -> S): S {
    if ops == [] then s else effect(DoAll(s, ops[..|ops| - 1], effect), ops[|ops| - 1])
  }

  lemma {:induction false} DoAllSnoc<S, O>(s: S, ops: seq<O>, op: O, effect: (S, O) -> S)
    ensures DoAll(s, ops + [op], effect) == effect(DoAll(s, ops, effect), op)
  {
    assert (ops + [op])[..|ops|] == ops;
  }

  lemma {:induction false} DoNothing<S, O>(s: S, effect: (S, O) -> S)
    ensures DoAll(s, [], effect) == s
  {
  }

  lemma {:induction false} DoAllMore<S, O>(s: S, ops: seq<O>, more: seq<O>, effect: (S, O) -> S)
    ensures DoAll(s, ops + more, effect) == DoAll(DoAll(s, ops, effect), more, effect)
    decreases |more|
  {
    if more == [] {
      assert ops + more == ops;
    } else {
      hide DoAll;
      var front, last := more[..|more| - 1], more[|more| - 1];
      assert more == front + [last] && ops + more == (ops + front) + [last];
      DoAllMore(s, ops, front, effect);
      DoAllSnoc(s, ops + front, last, effect);
      DoAllSnoc(DoAll(s, ops, effect), front, last, effect);
    }
  }
}
