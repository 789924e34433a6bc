/** The records the quiz works on: weapons as the catalog delivers them. */
module Weapons {

  /** Number of weapons drawn for one quiz. */
  const MaxWeapons: nat := 25

  /**
   * A JavaScript value as far as `===` can tell two values apart:
   * `undefined`, a number, a string, or an object, which is equal only to
   * itself (its identity is `id`). A field the record lacks reads as
   * `undefined`; a field holding an array or object is a `Ref`. `null`,
   * `true` and `false` are not given constructors of their own: each is
   * equal only to itself, so each can be encoded as a `Ref` with an `id`
   * reserved for it.
   */
  datatype JsValue = Undefined | Num(n: real) | Str(s: string) | Ref(id: nat)

  /** A catalog record with the fields the quiz reads. */
  datatype Weapon = Weapon(
    name: string,
    attack: JsValue,
    defense: JsValue,
    weight: JsValue,
    dexterity: JsValue)

  /** The four answers offered for a weapon, in the order the literal lists them. */
  function Stats(w: Weapon): (s: seq<JsValue>)
    ensures |s| == 4 && s[0] == w.attack
  {
    [w.attack, w.defense, w.weight, w.dexterity]
  }

  /** `ws.some(w => w.name === n)`: scans from the front and stops at the first hit. */
  function NameTaken(ws: seq<Weapon>, n: string): (b: bool)
    ensures b <==> exists i :: 0 <= i < |ws| && ws[i].name == n
  {
    if ws == [] then false
    else if ws[0].name == n then true
    else
      var rest := NameTaken(ws[1..], n);
      assert forall i :: 0 < i < |ws| ==> ws[i] == ws[1..][i - 1];
      rest
  }

  /** No two weapons share a name. */
  ghost predicate DistinctNames(ws: seq<Weapon>) {
    forall i, j :: 0 <= i < j < |ws| ==> ws[i].name != ws[j].name
  }

  /** `ws.map(w => w.name)`: the names, in order. */
  function Names(ws: seq<Weapon>): (r: seq<string>)
    ensures |r| == |ws|
    ensures forall i :: 0 <= i < |ws| ==> r[i] == ws[i].name
  {
    if ws == [] then [] else Names(ws[..|ws| - 1]) + [ws[|ws| - 1].name]
  }

  /** The set of names that occur in `ws`. */
  ghost function NameSet(ws: seq<Weapon>): set<string> {
    if ws == [] then {} else NameSet(ws[..|ws| - 1]) + {ws[|ws| - 1].name}
  }

  lemma {:induction false} NameSetMembers(ws: seq<Weapon>, n: string)
    ensures n in NameSet(ws) <==> exists i :: 0 <= i < |ws| && ws[i].name == n
  {
    if ws != [] {
      var init := ws[..|ws| - 1];
      NameSetMembers(init, n);
      assert forall i :: 0 <= i < |init| ==> init[i] == ws[i];
    }
  }

  /** Names drawn from a subsequence of `all` are names of `all`. */
  lemma NameSetWithin(ws: seq<Weapon>, all: seq<Weapon>)
    requires forall i :: 0 <= i < |ws| ==> ws[i] in all
    ensures NameSet(ws) <= NameSet(all)
  {
    forall n | n in NameSet(ws) ensures n in NameSet(all) {
      NameSetMembers(ws, n);
      var i :| 0 <= i < |ws| && ws[i].name == n;
      var j :| 0 <= j < |all| && all[j] == ws[i];
      NameSetMembers(all, n);
    }
  }

  /** With pairwise distinct names there are as many names as weapons. */
  lemma {:induction false} DistinctNameCount(ws: seq<Weapon>)
    requires DistinctNames(ws)
    ensures |NameSet(ws)| == |ws|
  {
    if ws != [] {
      var init := ws[..|ws| - 1];
      assert DistinctNames(init);
      DistinctNameCount(init);
      NameSetMembers(init, ws[|ws| - 1].name);
    }
  }
}
