// Linked queues as sequences without repetition.
module Queues {
  predicate NoDup(s: seq<nat>) {
    s == [] || (s[0] !in s[1..] && NoDup(s[1..]))
  }

  // 's' with the entry 'r' unlinked.
  function Without(s: seq<nat>, r: nat): (t: seq<nat>)
    ensures forall x :: x in t ==> x in s
    ensures forall x :: x in s && x != r ==> x in t
    ensures NoDup(s) ==> NoDup(t) && r !in t
    ensures r in s ==> |t| == |s| - 1
  {
    if s == [] then []
    else if s[0] == r then s[1..]
    else
      var rest := Without(s[1..], r);
      assert ([s[0]] + rest)[1..] == rest;
      [s[0]] + rest
  }

  lemma {:induction false} NoDupAppend(s: seq<nat>, r: nat)
    requires NoDup(s) && r !in s
    ensures NoDup(s + [r])
  {
    if s == [] {
      assert [r][1..] == [];
    } else {
      NoDupAppend(s[1..], r);
      assert (s + [r])[1..] == s[1..] + [r];
    }
  }

  lemma NoDupPrepend(s: seq<nat>, r: nat)
    requires NoDup(s) && r !in s
    ensures NoDup([r] + s)
  {
    assert ([r] + s)[1..] == s;
  }
}
