# Weapon quiz session, modelled in Dafny

This project models the quiz that `app/js/main.js` runs in the browser. The page
loads the weapon catalog of a game-data API. It draws 25 weapons with distinct
names by rejection sampling. For each weapon it offers the values of four fields
(`attack`, `defense`, `weight`, `dexterity`) as shuffled answer buttons. A click
on a button files the weapon under `correctAnswers` when the value on the button
is `===` the weapon's `attack`, and under `incorrectAnswers` otherwise. "Next"
moves to the next weapon, and after the last one it shows the score. "View
results" lists the names in each list.

The project has five modules:

- `Weapons` (weapons.dfy): the records. `JsValue` is a JavaScript value as far as
  `===` tells values apart: `undefined`, a number, a string, or an object. An
  object equals only itself, so it is modelled by an identity. A field that
  holds an array or an object is such an identity, and a field the record lacks
  (say the catalog spells it `defence`) is `undefined`. `null`, `true` and
  `false` are each equal only to themselves, so they can be written as reserved
  identities. `Weapon`,
  the `.some(...)` name test (`NameTaken`) and the `.map(w => w.name)` lists
  (`Names`) are here too.
- `Selection` (selection.dfy): the sampling loop as a specification function
  `Sample`, plus lemmas on when it fills up.
- `Choices` (choices.dfy): the shuffle of the four answer values, and which
  buttons a click credits.
- `Scoring` (scoring.dfy): the two answer lists, computed from the sequence of
  clicks, plus the score and the percentage.
- `Quiz` (quiz.dfy): class `Session`, which holds the page's module-level
  state (`weapons`, `currentWeaponIndex`, `correctAnswers`, `incorrectAnswers`)
  and the buttons currently on the page. Its methods are the handlers. A
  second module, `Scenarios`, drives a session the way a player would.

The random draws of `Math.floor(Math.random() * allWeapons.length)` are a
sequence of catalog indices supplied by the caller. The random-comparator sort
of the answer values is a sequence of swaps supplied by the caller, applied in
place to an array. Every permutation can be reached this way.

What the proofs establish:

- After sampling, the weapons have pairwise distinct names. Each added weapon
  comes from the catalog, and there are never more than 25.
- Sampling reaches 25 as soon as the draws name 25 distinct weapons.
- Sampling can reach 25 only if the catalog holds 25 distinct names. With fewer
  names the page's loop never ends.
- `displayWeapon` is only called with an index inside `weapons`.
- The buttons show a permutation of the weapon's four values, so the attack
  value is always on one of them. When `===` tells the attack apart from the
  other three fields, exactly one button is credited.
- Each answer click appends the weapon whose buttons are on the page to the end
  of exactly one list. Both lists therefore stay in click order, and together
  they hold one entry per click. The lists of a run split at any click into the
  lists before it followed by the lists after it.
- No answer can be given before weapons are chosen, so the score never has
  correct answers out of 0 weapons (which JavaScript would show as Infinity).
- "Next" adds exactly 1 to the index. It shows a weapon exactly when the new
  index is inside `weapons`, and then the buttons show that weapon's four
  values, so the next answer is filed under it. Otherwise it shows the score.
  `Scenarios.TwoCorrectAnswers` answers two weapons across a "next" and finds
  two different names in the correct list.

Two behaviours of the page follow from the source as written, and the model
keeps them:

- Nothing stops a player from clicking an answer button again.
  `Scenarios.RepeatedCorrectClicks` proves that any number of clicks above 25
  on the first weapon's correct button gives that many correct answers out of
  25 weapons, which is over 100%. The scenario reads the score as `Session.CurrentScore`
  computes it, without pressing "next" 25 times first.
- After the last "next" the last weapon's buttons stay on the page. Clicks on
  them still file that weapon, and `Session.Answer` models this through the
  `shown` field.

## Model

| member | source | states |
|---|---|---|
| `Weapons.Stats` | app/js/main.js:34-39 | four answers are offered for a weapon, the first of them its attack |
| `Weapons.NameTaken` | app/js/main.js:17 | true exactly when some chosen weapon already has the given name |
| `Weapons.Names` | app/js/main.js:85-90 | the names list has one entry per weapon, each the name of the weapon at the same position |
| `Selection.Sample` | app/js/main.js:14-20 | the chosen weapons start with the ones chosen before and only add catalog entries; distinct names stay distinct; at most 25 weapons when starting from at most 25 |
| `Selection.SampleCoversPicks` | app/js/main.js:14-20 | when sampling ends below 25, every drawn weapon's name is among the chosen ones |
| `Selection.SampleFills` | app/js/main.js:14-20 | draws that name at least 25 distinct weapons give exactly 25 weapons |
| `Selection.SampleNeedsNames` | app/js/main.js:14-20 | sampling never chooses more weapons than the catalog has distinct names, so it reaches 25 only if the catalog has 25 distinct names |
| `Choices.IsCorrect` | app/js/main.js:47 | a click is credited exactly when the value on the button is the first of the weapon's four answers, its attack |
| `Choices.Shuffle` | app/js/main.js:34-40 | the shuffled answers are a permutation of the four field values |
| `Choices.AttackOffered` | app/js/main.js:34-47 | some button of a shuffled set shows the attack value and is credited |
| `Choices.AttackButtonUnique` | app/js/main.js:34-47 | if the attack differs under `===` from the other three fields, no two buttons are credited |
| `Scoring.CorrectAnswers` | app/js/main.js:46-48 | every weapon in the correct list was clicked with its own attack value, and there are no more entries than clicks |
| `Scoring.IncorrectAnswers` | app/js/main.js:46-51 | every weapon in the incorrect list was clicked with a value other than its attack, and there are no more entries than clicks |
| `Scoring.ClicksConcat` | app/js/main.js:46-51 | the lists after clicks `a` then `b` are the lists after `a` followed by the lists `b` alone would give: entries are only ever appended, in click order |
| `Scoring.ClicksPartition` | app/js/main.js:46-51 | the two lists together have exactly one entry per click |
| `Scoring.Percentage` | app/js/main.js:74 | no percentage (NaN, or Infinity for correct answers out of 0 weapons) exactly when there are no weapons; otherwise percentage times total equals 100 times correct |
| `Scoring.PercentageAtMostHundred` | app/js/main.js:72-74 | the percentage is never negative, and it is at most 100 exactly when correct is at most total |
| `Quiz.Session.constructor` | app/js/main.js:4-7 | the page starts with no weapons, index 0, empty lists and no buttons |
| `Quiz.Session.Fetch` | app/js/main.js:9-23 | the weapons become `Sample` of the draws; the first weapon is shown exactly when 25 were chosen; an empty catalog raises a TypeError; index and lists unchanged |
| `Quiz.Session.Draw` | app/js/main.js:14-20 | the chosen weapons are exactly `Sample` of the draws, so their names are distinct and there are at most 25 |
| `Quiz.Session.Display` | app/js/main.js:25-40 | called only with an index inside `weapons`; the buttons show a permutation of that weapon's four values, including its attack |
| `Quiz.Session.Answer` | app/js/main.js:46-53 | the weapon whose buttons are shown goes to the end of the correct list if the clicked value is its attack and to the incorrect list otherwise; while a weapon is current it is `weapons[index]`; weapons and index unchanged |
| `Quiz.Session.Next` | app/js/main.js:58-66 | the index grows by exactly 1; a weapon is shown exactly when the new index is inside `weapons`, and then the four buttons show a permutation of that weapon's values and belong to it; otherwise the score is shown and the buttons stay |
| `Quiz.Session.CurrentScore` | app/js/main.js:72-73 | correct is the number of credited clicks, total is the number of weapons, and correct plus incorrect is the number of clicks; with no weapons there are no correct answers |
| `Quiz.Session.ViewResults` | app/js/main.js:85-90 | the listed names are those of the credited and uncredited clicks, in click order, one per click |
| `Scenarios.TwoCorrectAnswers` | app/js/main.js:46-90 | answering the first weapon, pressing "next" and answering the second correctly lists two different names as correct |
| `Scenarios.RepeatedCorrectClicks` | app/js/main.js:46-53 | on a catalog that fills the quiz, repeated clicks on one correct button give more correct answers than weapons and a percentage over 100 |

## Left out

- The network request and JSON decoding (`fetch`, `response.json()`, `data.data`): the catalog is a parameter of `Session.Fetch`.
- Everything that touches the page: reading and writing elements, `innerHTML`, creating buttons, `classList`, and registering listeners. The handlers are methods of `Session`.
- Quiz.Session.Next: the visibility of the "next" button (hidden after a weapon is shown, shown after an answer) is not modelled. It can be called in any state, so the model allows more click sequences than the page.
- Choices.Shuffle: any sequence of swaps is allowed, so it admits every order, while an engine's sort also moves `undefined` elements to the end without calling the comparator; the orders the page can produce are a subset of those modelled.
- `Math.random`: the draws and the shuffle's swaps are caller-supplied sequences. No statement about their distribution is made, and a sort with a random comparator is not uniform.
- Quiz.Session.Fetch: when the supplied draws run out before 25 weapons are chosen it returns `StillSampling`, while the page would keep drawing (forever, if the catalog has fewer than 25 distinct names; see `Selection.SampleNeedsNames`).
- Quiz.Session.Fetch: on an empty catalog the page first pushes `undefined` into `weapons` and throws on the next round; the model returns `TypeError` and leaves `weapons` empty.
- Catalog records without a `name` field (whose name would be `undefined`): names are strings.
- Floating point and `.toFixed(2)`: numbers are reals and the percentage is exact; NaN, which the catalog's JSON cannot carry, only appears as the missing percentage.
- The `<li>` strings built for the name lists: only the sequences of names are modelled.
- Quiz.Session.Fetch: requires the initial state, because `fetchWeapons` runs once, at page load.
