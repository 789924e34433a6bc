/**
 * The answer buttons: the four field values in shuffled order, and which of
 * them a click credits as correct.
 */
module Choices {
  import opened Weapons

  /** Every swap names two positions of a sequence of length `n`. */
  ghost predicate SwapsWithin(swaps: seq<(nat, nat)>, n: nat) {
    forall k :: 0 <= k < |swaps| ==> swaps[k].0 < n && swaps[k].1 < n
  }

  /**
   * `choices.sort(() => Math.random() - 0.5)`: the sort rearranges the array
   * in place. Which permutation it produces depends on the random
   * comparator, so the exchanges it performs are given as `swaps`; every
   * permutation is reachable this way.
   */
  method Shuffle(values: seq<JsValue>, swaps: seq<(nat, nat)>) returns (shuffled: seq<JsValue>)
    requires SwapsWithin(swaps, |values|)
    ensures |shuffled| == |values|
    ensures multiset(shuffled) == multiset(values)
  {
    var a := new JsValue[|values|](i requires 0 <= i < |values| => values[i]);
    assert a[..] == values;
    for k := 0 to |swaps|
      invariant multiset(a[..]) == multiset(values)
    {
      var (i, j) := swaps[k];
      a[i], a[j] := a[j], a[i];
    }
    shuffled := a[..];
  }

  /** A click on the button showing `choice` is credited to `w` (`choice === w.attack`). */
  function IsCorrect(w: Weapon, choice: JsValue): (b: bool)
    ensures b <==> choice == Stats(w)[0]
  {
    choice == w.attack
  }

  /** Among buttons that show a rearrangement of the weapon's four values, one is credited. */
  lemma AttackOffered(w: Weapon, choices: seq<JsValue>) returns (k: nat)
    requires multiset(choices) == multiset(Stats(w))
    ensures k < |choices| && IsCorrect(w, choices[k])
  {
    assert w.attack in multiset(choices);
    k :| 0 <= k < |choices| && choices[k] == w.attack;
  }

  /**
   * When `===` tells the attack apart from the other three fields, no two
   * of those buttons are credited.
   */
  lemma AttackButtonUnique(w: Weapon, choices: seq<JsValue>, j: nat, k: nat)
    requires multiset(choices) == multiset(Stats(w))
    requires w.attack != w.defense && w.attack != w.weight && w.attack != w.dexterity
    requires j < k < |choices|
    ensures !(IsCorrect(w, choices[j]) && IsCorrect(w, choices[k]))
  {
    assert multiset(Stats(w))[w.attack] == 1;
    if IsCorrect(w, choices[j]) && IsCorrect(w, choices[k]) {
      TwoOccurrences(choices, j, k);
      assert false;
    }
  }

  /** A value at two distinct positions occurs at least twice in the multiset. */
  lemma {:induction false} TwoOccurrences(s: seq<JsValue>, j: nat, k: nat)
    requires j < k < |s| && s[j] == s[k]
    ensures multiset(s)[s[j]] >= 2
  {
    var x := s[j];
    assert s == s[..j] + [x] + s[j + 1..k] + [x] + s[k + 1..];
    assert multiset(s) == multiset(s[..j]) + multiset{x} + multiset(s[j + 1..k]) + multiset{x} + multiset(s[k + 1..]);
  }
}
