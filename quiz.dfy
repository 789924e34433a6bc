/**
 * The quiz session: the page's module-level state and the handlers that
 * change it, with the page's elements and the network left out.
 */
module Quiz {
  import opened Weapons
  import opened Selection
  import opened Choices
  import opened Scoring

  /** How loading the weapons ends. */
  datatype FetchOutcome =
    | Started(weapon: Weapon, choices: seq<JsValue>)  // 25 weapons chosen, the first one shown
    | StillSampling                                    // the supplied draws ran out first
    | TypeError                                        // the catalog is empty

  /** What a click on "next" shows. */
  datatype Screen =
    | Question(weapon: Weapon, choices: seq<JsValue>)
    | Results(score: Score)

  class Session {
    /** The weapons drawn for this quiz. */
    var weapons: seq<Weapon>
    /** `currentWeaponIndex`. */
    var index: nat
    /** `correctAnswers` and `incorrectAnswers`. */
    var correct: seq<Weapon>
    var incorrect: seq<Weapon>
    /** The values on the answer buttons now on the page (empty before the first weapon is shown). */
    var choices: seq<JsValue>
    /** The position in `weapons` of the weapon those buttons were made for. */
    var shown: nat
    /** Every answer click so far, in order. */
    ghost var log: seq<Click>

    /**
     * The chosen weapons and the two answer lists are consistent with the
     * clicks, and there are no clicks before there are weapons.
     */
    ghost predicate ListsValid()
      reads this
    {
      && |weapons| <= MaxWeapons
      && DistinctNames(weapons)
      && (weapons == [] ==> log == [])
      && correct == CorrectAnswers(log)
      && incorrect == IncorrectAnswers(log)
    }

    /**
     * The buttons on the page belong to a chosen weapon, the current one
     * while a weapon is current, and show its four values.
     */
    ghost predicate ButtonsValid()
      reads this
    {
      |choices| > 0 ==>
        && shown < |weapons|
        && (index < |weapons| ==> shown == index)
        && multiset(choices) == multiset(Stats(weapons[shown]))
    }

    ghost predicate Valid()
      reads this
    {
      ListsValid() && ButtonsValid()
    }

    /** The page's initial state. */
    constructor ()
      ensures Valid()
      ensures weapons == [] && index == 0 && correct == [] && incorrect == []
      ensures choices == [] && log == []
    {
      weapons, index, correct, incorrect := [], 0, [], [];
      choices, shown := [], 0;
      log := [];
    }

    /**
     * `fetchWeapons` once the catalog `all` has arrived: draw weapons by
     * rejection sampling until 25 are chosen, then show the first.
     */
    method Fetch(all: seq<Weapon>, picks: seq<nat>, swaps: seq<(nat, nat)>) returns (outcome: FetchOutcome)
      requires Valid() && weapons == [] && index == 0
      requires InCatalog(all, picks)
      requires SwapsWithin(swaps, 4)
      modifies this
      ensures Valid()
      ensures |all| == 0 ==> outcome == TypeError && weapons == []
      ensures |all| > 0 ==> weapons == Sample(all, picks, [])
      ensures outcome.Started? <==> |all| > 0 && |weapons| == MaxWeapons
      ensures outcome.Started? ==>
        outcome.weapon == weapons[0] && outcome.choices == choices && shown == 0 &&
        multiset(choices) == multiset(Stats(weapons[0]))
      ensures !outcome.Started? ==> choices == old(choices) && shown == old(shown)
      ensures index == old(index) && log == old(log)
      ensures correct == old(correct) && incorrect == old(incorrect)
    {
      assert choices == [] && log == [];
      if |all| == 0 {
        return TypeError;
      }
      Draw(all, picks);
      assert ListsValid();
      if |weapons| < MaxWeapons {
        return StillSampling;
      }
      Display(swaps);
      return Started(weapons[0], choices);
    }

    /**
     * The sampling loop of `fetchWeapons`: keep each drawn catalog entry
     * unless a chosen weapon has its name, until 25 are chosen or the draws
     * run out.
     */
    method Draw(all: seq<Weapon>, picks: seq<nat>)
      requires InCatalog(all, picks) && weapons == []
      modifies this`weapons
      ensures weapons == Sample(all, picks, [])
      ensures |weapons| <= MaxWeapons && DistinctNames(weapons)
    {
      var p := 0;
      while |weapons| < MaxWeapons && p < |picks|
        invariant p <= |picks|
        invariant Sample(all, picks[p..], weapons) == Sample(all, picks, [])
      {
        var candidate := all[picks[p]];
        SampleStep(all, picks[p..], weapons);
        assert picks[p..][1..] == picks[p + 1..];
        if !NameTaken(weapons, candidate.name) {
          weapons := weapons + [candidate];
        }
        p := p + 1;
      }
      assert weapons == Sample(all, picks[p..], weapons);
    }

    /** `displayWeapon`: put up the current weapon's four values in shuffled order. */
    method Display(swaps: seq<(nat, nat)>)
      requires ListsValid() && index < |weapons|
      requires SwapsWithin(swaps, 4)
      modifies this`choices, this`shown
      ensures Valid()
      ensures shown == index && |choices| == 4
      ensures multiset(choices) == multiset(Stats(weapons[index]))
      ensures weapons[index].attack in choices
    {
      choices := Shuffle(Stats(weapons[index]), swaps);
      shown := index;
      assert |choices| == |Stats(weapons[index])|;
      var _ := AttackOffered(weapons[shown], choices);
    }

    /**
     * A click on the answer button at position `k`: the weapon the button
     * was made for goes to `correctAnswers` if the value on the button is
     * `===` its attack, and to `incorrectAnswers` otherwise.
     */
    method Answer(k: nat)
      requires Valid() && k < |choices|
      modifies this`correct, this`incorrect, this`log
      ensures Valid()
      ensures log == old(log) + [Click(weapons[shown], choices[k])]
      ensures IsCorrect(weapons[shown], choices[k]) ==>
        correct == old(correct) + [weapons[shown]] && incorrect == old(incorrect)
      ensures !IsCorrect(weapons[shown], choices[k]) ==>
        correct == old(correct) && incorrect == old(incorrect) + [weapons[shown]]
      ensures index < |weapons| ==> weapons[shown] == weapons[index]
    {
      var w := weapons[shown];
      ghost var clicks := log + [Click(w, choices[k])];
      ClickAppends(log, Click(w, choices[k]));
      if choices[k] == w.attack {
        correct := correct + [w];
      } else {
        incorrect := incorrect + [w];
      }
      log := clicks;
    }

    /** The "next" button: move to the next weapon, or to the results after the last. */
    method Next(swaps: seq<(nat, nat)>) returns (screen: Screen)
      requires Valid()
      requires SwapsWithin(swaps, 4)
      modifies this`index, this`choices, this`shown
      ensures Valid()
      ensures index == old(index) + 1
      ensures screen.Question? <==> index < |weapons|
      ensures screen.Question? ==>
        screen.weapon == weapons[index] && screen.choices == choices && shown == index &&
        |choices| == 4 && multiset(choices) == multiset(Stats(weapons[index]))
      ensures screen.Results? ==>
        screen.score == CurrentScore() && choices == old(choices) && shown == old(shown)
    {
      index := index + 1;
      if index < |weapons| {
        Display(swaps);
        screen := Question(weapons[index], choices);
      } else {
        screen := Results(CurrentScore());
      }
    }

    /** The counts `displayResults` shows: the answers credited so far out of all weapons. */
    function CurrentScore(): (s: Score)
      reads this
      requires Valid()
      ensures s.correct == |CorrectAnswers(log)| && s.total == |weapons|
      ensures s.correct + |incorrect| == |log|
      ensures s.total == 0 ==> s.correct == 0
    {
      ClicksPartition(log);
      Score(|correct|, |weapons|)
    }

    /** The "view results" button: the names of the weapons in each list, in click order. */
    method ViewResults() returns (correctNames: seq<string>, incorrectNames: seq<string>)
      requires Valid()
      ensures correctNames == Names(CorrectAnswers(log))
      ensures incorrectNames == Names(IncorrectAnswers(log))
      ensures |correctNames| + |incorrectNames| == |log|
    {
      ClicksPartition(log);
      correctNames := Names(correct);
      incorrectNames := Names(incorrect);
    }
  }
}

/**
 * A run of the page: nothing stops the player from clicking the correct
 * button of the first weapon again and again, so the results screen can
 * report more correct answers than there are weapons.
 */
module Scenarios {
  import opened Weapons
  import opened Selection
  import opened Choices
  import opened Scoring
  import opened Quiz

  /** The page after loading a catalog whose draws name at least 25 different weapons. */
  method Start(all: seq<Weapon>, picks: seq<nat>) returns (session: Session)
    requires InCatalog(all, picks) && |PickedNames(all, picks)| >= MaxWeapons
    ensures fresh(session) && session.Valid()
    ensures |session.weapons| == MaxWeapons && session.index == 0 && session.shown == 0
    ensures multiset(session.choices) == multiset(Stats(session.weapons[0]))
    ensures session.correct == [] && session.incorrect == []
  {
    session := new Session();
    SampleFills(all, picks);
    assert picks != [];
    assert picks[0] < |all|;
    var outcome := session.Fetch(all, picks, []);
    assert outcome.Started?;
  }

  /** The player looks along the buttons for the one showing the attack value. */
  method FindCorrectButton(w: Weapon, choices: seq<JsValue>) returns (k: nat)
    requires multiset(choices) == multiset(Stats(w))
    ensures k < |choices| && IsCorrect(w, choices[k])
  {
    ghost var target := AttackOffered(w, choices);
    k := 0;
    while choices[k] != w.attack
      invariant k <= target
      invariant forall j :: 0 <= j < k ==> choices[j] != w.attack
      decreases target - k
    {
      k := k + 1;
    }
  }

  /** Click the answer button at position `k` of the first weapon `clicks` times. */
  method ClickRepeatedly(session: Session, k: nat, clicks: nat)
    requires session.Valid() && session.shown == 0 && k < |session.choices|
    modifies session
    ensures session.Valid()
    ensures session.weapons == old(session.weapons) && session.choices == old(session.choices)
    ensures IsCorrect(session.weapons[0], session.choices[k]) ==>
      |session.correct| == |old(session.correct)| + clicks
  {
    var n := 0;
    while n < clicks
      invariant n <= clicks
      invariant session.Valid() && session.shown == 0
      invariant session.weapons == old(session.weapons) && session.choices == old(session.choices)
      invariant IsCorrect(session.weapons[0], session.choices[k]) ==>
        |session.correct| == |old(session.correct)| + n
    {
      session.Answer(k);
      n := n + 1;
    }
  }

  /**
   * Load such a catalog, then click the first weapon's correct button
   * `clicks` times.
   */
  method RepeatedCorrectClicks(all: seq<Weapon>, picks: seq<nat>, clicks: nat) returns (score: Score)
    requires InCatalog(all, picks) && |PickedNames(all, picks)| >= MaxWeapons
    requires clicks > MaxWeapons
    ensures score.total == MaxWeapons && score.correct == clicks
    ensures Percentage(score).value > 100.0
  {
    var session := Start(all, picks);
    var k := FindCorrectButton(session.weapons[0], session.choices);
    ClickRepeatedly(session, k, clicks);
    score := session.CurrentScore();
    assert score.total > 0 && score.correct > score.total;
    PercentageAtMostHundred(score);
  }

  /** Find and click the correct button of the current weapon. */
  method AnswerCorrectly(session: Session)
    requires session.Valid() && session.index < |session.weapons| && |session.choices| > 0
    modifies session
    ensures session.Valid()
    ensures session.weapons == old(session.weapons) && session.index == old(session.index)
    ensures session.correct == old(session.correct) + [session.weapons[session.index]]
  {
    var k := FindCorrectButton(session.weapons[session.shown], session.choices);
    session.Answer(k);
  }

  /** Press "next" while another weapon follows, then click that weapon's correct button. */
  method NextAndAnswerCorrectly(session: Session)
    requires session.Valid() && session.index + 1 < |session.weapons|
    modifies session
    ensures session.Valid()
    ensures session.weapons == old(session.weapons) && session.index == old(session.index) + 1
    ensures session.correct == old(session.correct) + [session.weapons[session.index]]
  {
    var screen := session.Next([]);
    AnswerCorrectly(session);
  }

  /**
   * Load such a catalog, answer the first weapon correctly, press "next",
   * answer the second weapon correctly and open the results: the correct
   * list names the two weapons in click order, and the names differ.
   */
  method TwoCorrectAnswers(all: seq<Weapon>, picks: seq<nat>) returns (listed: seq<string>)
    requires InCatalog(all, picks) && |PickedNames(all, picks)| >= MaxWeapons
    ensures |listed| == 2 && listed[0] != listed[1]
  {
    var session := Start(all, picks);
    ghost var weapons := session.weapons;
    AnswerCorrectly(session);
    NextAndAnswerCorrectly(session);
    assert session.correct == [weapons[0], weapons[1]];
    assert weapons[0].name != weapons[1].name;
    var unlisted;
    listed, unlisted := session.ViewResults();
    assert listed == Names(session.correct);
  }
}
