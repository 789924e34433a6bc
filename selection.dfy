/**
 * Choosing the quiz's weapons by rejection sampling: draw a random catalog
 * entry, keep it unless a chosen weapon already has its name, and stop at
 * MaxWeapons. The random draws are an explicit sequence of catalog indices.
 */
module Selection {
  import opened Weapons

  /** Every draw is an index into the catalog. */
  ghost predicate InCatalog(all: seq<Weapon>, picks: seq<nat>) {
    forall i :: 0 <= i < |picks| ==> picks[i] < |all|
  }

  /**
   * The weapons chosen after starting from `chosen` and consuming `picks`
   * until MaxWeapons are chosen or the draws run out.
   */
  function Sample(all: seq<Weapon>, picks: seq<nat>, chosen: seq<Weapon>): (r: seq<Weapon>)
    requires InCatalog(all, picks)
    ensures |chosen| <= |r| && r[..|chosen|] == chosen
    ensures forall i :: |chosen| <= i < |r| ==> r[i] in all
    ensures DistinctNames(chosen) ==> DistinctNames(r)
    ensures |chosen| <= MaxWeapons ==> |r| <= MaxWeapons
    decreases |picks|
  {
    if |chosen| >= MaxWeapons || picks == [] then chosen
    else
      var candidate := all[picks[0]];
      var next := if NameTaken(chosen, candidate.name) then chosen else chosen + [candidate];
      var r := Sample(all, picks[1..], next);
      assert r[..|chosen|] == next[..|chosen|];
      r
  }

  /** One round of the loop: the next draw is kept unless its name is taken. */
  lemma SampleStep(all: seq<Weapon>, picks: seq<nat>, chosen: seq<Weapon>)
    requires InCatalog(all, picks) && picks != [] && |chosen| < MaxWeapons
    ensures var candidate := all[picks[0]];
      Sample(all, picks, chosen) ==
      Sample(all, picks[1..], if NameTaken(chosen, candidate.name) then chosen else chosen + [candidate])
  {
  }

  /** The names of the drawn catalog entries. */
  ghost function PickedNames(all: seq<Weapon>, picks: seq<nat>): set<string>
    requires InCatalog(all, picks)
  {
    set i | 0 <= i < |picks| :: all[picks[i]].name
  }

  /**
   * When sampling stops short of MaxWeapons, every drawn weapon's name is
   * among the chosen ones: each draw was either kept or a duplicate.
   */
  lemma {:induction false} SampleCoversPicks(all: seq<Weapon>, picks: seq<nat>, chosen: seq<Weapon>)
    requires InCatalog(all, picks)
    requires |Sample(all, picks, chosen)| < MaxWeapons
    ensures forall i :: 0 <= i < |picks| ==> NameTaken(Sample(all, picks, chosen), all[picks[i]].name)
  {
    if picks != [] {
      var r := Sample(all, picks, chosen);
      var candidate := all[picks[0]];
      var next := if NameTaken(chosen, candidate.name) then chosen else chosen + [candidate];
      assert r == Sample(all, picks[1..], next);
      SampleCoversPicks(all, picks[1..], next);
      if !NameTaken(chosen, candidate.name) {
        assert next[|chosen|].name == candidate.name;
      }
      assert NameTaken(next, candidate.name);
      var k :| 0 <= k < |next| && next[k].name == candidate.name;
      assert r[..|next|] == next;
      assert r[k] == next[k];
      forall i | 0 <= i < |picks| ensures NameTaken(r, all[picks[i]].name) {
        if i > 0 {
          assert picks[i] == picks[1..][i - 1];
        }
      }
    }
  }

  /**
   * Sampling from an empty start ends with exactly MaxWeapons weapons as
   * soon as the draws name at least MaxWeapons distinct weapons.
   */
  lemma SampleFills(all: seq<Weapon>, picks: seq<nat>)
    requires InCatalog(all, picks)
    requires |PickedNames(all, picks)| >= MaxWeapons
    ensures |Sample(all, picks, [])| == MaxWeapons
  {
    var r := Sample(all, picks, []);
    if |r| < MaxWeapons {
      SampleCoversPicks(all, picks, []);
      forall n | n in PickedNames(all, picks) ensures n in NameSet(r) {
        var i :| 0 <= i < |picks| && all[picks[i]].name == n;
        NameSetMembers(r, n);
      }
      DistinctNameCount(r);
      SubsetCard(PickedNames(all, picks), NameSet(r));
      assert false;
    }
  }

  /**
   * Sampling can end with MaxWeapons weapons only if the catalog holds at
   * least that many distinct names; with fewer the source's loop never ends.
   */
  lemma SampleNeedsNames(all: seq<Weapon>, picks: seq<nat>)
    requires InCatalog(all, picks)
    ensures |Sample(all, picks, [])| <= |NameSet(all)|
  {
    var r := Sample(all, picks, []);
    DistinctNameCount(r);
    NameSetWithin(r, all);
    SubsetCard(NameSet(r), NameSet(all));
  }

  lemma SubsetCard<T>(a: set<T>, b: set<T>)
    requires a <= b
    ensures |a| <= |b|
  {
    assert b == a + (b - a);
  }
}
