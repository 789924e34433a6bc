/**
 * What the answer clicks add up to: the lists of correctly and incorrectly
 * answered weapons, and the score shown on the results screen.
 */
module Scoring {
  import opened Weapons
  import opened Choices

  datatype Option<T> = None | Some(value: T)

  /** One click on an answer button: the weapon the button belongs to and the value it shows. */
  datatype Click = Click(weapon: Weapon, choice: JsValue)

  /** `correctAnswers` after the clicks in `log`: the credited clicks' weapons, in click order. */
  function CorrectAnswers(log: seq<Click>): (r: seq<Weapon>)
    ensures |r| <= |log|
    ensures forall w :: w in r ==> Click(w, w.attack) in log
  {
    if log == [] then []
    else
      var last := log[|log| - 1];
      var init := CorrectAnswers(log[..|log| - 1]);
      assert forall c :: c in log[..|log| - 1] ==> c in log;
      if IsCorrect(last.weapon, last.choice) then init + [last.weapon] else init
  }

  /** `incorrectAnswers` after the clicks in `log`: the other clicks' weapons, in click order. */
  function IncorrectAnswers(log: seq<Click>): (r: seq<Weapon>)
    ensures |r| <= |log|
    ensures forall w :: w in r ==> exists c :: Click(w, c) in log && c != w.attack
  {
    if log == [] then []
    else
      var last := log[|log| - 1];
      var init := IncorrectAnswers(log[..|log| - 1]);
      assert forall c :: c in log[..|log| - 1] ==> c in log;
      if IsCorrect(last.weapon, last.choice) then init else init + [last.weapon]
  }

  /**
   * One more click appends its weapon to the end of exactly one list and
   * leaves the other as it was.
   */
  lemma ClickAppends(log: seq<Click>, c: Click)
    ensures IsCorrect(c.weapon, c.choice) ==>
      CorrectAnswers(log + [c]) == CorrectAnswers(log) + [c.weapon] &&
      IncorrectAnswers(log + [c]) == IncorrectAnswers(log)
    ensures !IsCorrect(c.weapon, c.choice) ==>
      CorrectAnswers(log + [c]) == CorrectAnswers(log) &&
      IncorrectAnswers(log + [c]) == IncorrectAnswers(log) + [c.weapon]
  {
  }

  /**
   * The lists grow only at their ends: the clicks `b` after the clicks `a`
   * add the weapons they credit, and those they do not, behind the lists
   * `a` produced.
   */
  lemma {:induction false} ClicksConcat(a: seq<Click>, b: seq<Click>)
    ensures CorrectAnswers(a + b) == CorrectAnswers(a) + CorrectAnswers(b)
    ensures IncorrectAnswers(a + b) == IncorrectAnswers(a) + IncorrectAnswers(b)
  {
    if b != [] {
      var init := b[..|b| - 1];
      assert (a + b)[..|a + b| - 1] == a + init;
      ClicksConcat(a, init);
    } else {
      assert a + b == a;
    }
  }

  /** Every click lands in exactly one of the two lists. */
  lemma {:induction false} ClicksPartition(log: seq<Click>)
    ensures |CorrectAnswers(log)| + |IncorrectAnswers(log)| == |log|
  {
    if log != [] {
      ClicksPartition(log[..|log| - 1]);
    }
  }

  /** `correct` out of `total`, as the results screen shows it. */
  datatype Score = Score(correct: nat, total: nat)

  /**
   * `(correct / total) * 100` before it is formatted. None stands for what
   * JavaScript computes when `total` is 0: NaN when `correct` is 0 too, and
   * Infinity when `correct` is positive. The second cannot happen in the
   * quiz: no answer button exists before weapons are chosen, so `correct`
   * is 0 while `total` is.
   */
  function Percentage(s: Score): (p: Option<real>)
    ensures p.None? <==> s.total == 0
    ensures p.Some? ==> p.value * (s.total as real) == 100.0 * (s.correct as real)
  {
    if s.total == 0 then None
    else Some((s.correct as real) / (s.total as real) * 100.0)
  }

  /**
   * The percentage is at most 100 exactly when no more answers were
   * credited than there are weapons; nothing in the quiz ensures this.
   */
  lemma PercentageAtMostHundred(s: Score)
    requires s.total > 0
    ensures 0.0 <= Percentage(s).value
    ensures Percentage(s).value <= 100.0 <==> s.correct <= s.total
  {
    var p := Percentage(s).value;
    var t := s.total as real;
    assert p * t == 100.0 * (s.correct as real);
    if p > 100.0 {
      assert p * t > 100.0 * t;
    } else {
      assert p * t <= 100.0 * t;
    }
  }
}
