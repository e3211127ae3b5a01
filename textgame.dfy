/** The text version of Eco Defender: a pollution level starts at 50 and
    every turn the player's choice picks the range from which a random
    change to it is drawn; the game ends as soon as the level leaves the
    open interval (0, 100).

    The typed choices and the random draws are parameters: turn `i` uses
    `choices[i]` and `draws[i]`, and each draw lies in the range its choice
    selects. Since the inputs are finite, the loop also stops when they run
    out; the outcome then says that the game is still undecided. */
module TextGame {
  import opened Lists

  const StartPollution: int := 50
  const PollutionLimit: int := 100

  /** Inclusive bounds of a `random.randint` draw. */
  datatype Span = Span(lo: int, hi: int)

  /** The two endings of the game. */
  datatype Outcome = Restored | Critical

  /** The loop guard: a turn is played only while this holds. */
  predicate Playing(pollution: int) {
    0 < pollution < PollutionLimit
  }

  /** The change range for the player's input: planting trees ("1") always
      lowers pollution, an invalid input always raises it, and every change
      lies between -10 and 5. */
  function ChangeRange(choice: string): (r: Span)
    ensures -10 <= r.lo <= r.hi <= 5
    ensures r.hi < 0 <==> choice == "1"
    ensures r.lo > 0 <==> choice != "1" && choice != "2" && choice != "3"
  {
    if choice == "1" then Span(-10, -5)
    else if choice == "2" then Span(-5, 0)
    else if choice == "3" then Span(-2, 2)
    else Span(1, 5)
  }

  predicate InSpan(d: int, s: Span) {
    s.lo <= d <= s.hi
  }

  /** One draw per input, each within the range of its choice. */
  predicate Fair(choices: seq<string>, draws: seq<int>) {
    |choices| == |draws| && forall i :: 0 <= i < |choices| ==> InSpan(draws[i], ChangeRange(choices[i]))
  }

  lemma FairSuffix(choices: seq<string>, draws: seq<int>, i: nat)
    requires Fair(choices, draws) && i <= |choices|
    ensures Fair(choices[i..], draws[i..])
  {
    assert forall k :: 0 <= k < |choices| - i ==> choices[i..][k] == choices[i + k] && draws[i..][k] == draws[i + k];
  }

  /** The pollution level when the loop stops, starting from `p`. */
  function Final(p: int, choices: seq<string>, draws: seq<int>): int
    requires |choices| == |draws|
    decreases |choices|
  {
    if !Playing(p) || choices == [] then p
    else Final(p + draws[0], choices[1..], draws[1..])
  }

  /** The number of turns played, starting from `p`. */
  function Turns(p: int, choices: seq<string>, draws: seq<int>): nat
    requires |choices| == |draws|
    decreases |choices|
  {
    if !Playing(p) || choices == [] then 0
    else 1 + Turns(p + draws[0], choices[1..], draws[1..])
  }

  /** Played from inside the field, the game ends between -9 and 104: the
      last turn starts between 1 and 99 and changes pollution by -10 to 5.
      The loop stops only at an edge or when the inputs run out, after at
      most one turn per input. */
  lemma {:induction false} FinalBounds(p: int, choices: seq<string>, draws: seq<int>)
    requires Fair(choices, draws)
    requires -9 <= p <= 104
    ensures -9 <= Final(p, choices, draws) <= 104
    ensures Turns(p, choices, draws) <= |choices|
    ensures Turns(p, choices, draws) < |choices| ==> !Playing(Final(p, choices, draws))
    decreases |choices|
  {
    if Playing(p) && choices != [] {
      assert InSpan(draws[0], ChangeRange(choices[0]));
      FairSuffix(choices, draws, 1);
      FinalBounds(p + draws[0], choices[1..], draws[1..]);
    }
  }

  /** Planting trees every turn: each turn lowers pollution by at least 5,
      so a game starting at `p` is won after fewer than p / 5 + 1 turns. */
  lemma {:induction false} TreesWin(p: int, choices: seq<string>, draws: seq<int>)
    requires Fair(choices, draws)
    requires forall i :: 0 <= i < |choices| ==> choices[i] == "1"
    requires p < PollutionLimit && p <= 5 * |choices|
    ensures Final(p, choices, draws) <= 0
    ensures 5 * (Turns(p, choices, draws) - 1) < p || Turns(p, choices, draws) == 0
    decreases |choices|
  {
    if Playing(p) {
      assert draws[0] <= -5;
      FairSuffix(choices, draws, 1);
      TreesWin(p + draws[0], choices[1..], draws[1..]);
    }
  }

  /** From the starting level, ten turns of planting trees always win. */
  lemma TreesWinInTen(choices: seq<string>, draws: seq<int>)
    requires Fair(choices, draws) && |choices| >= 10
    requires forall i :: 0 <= i < |choices| ==> choices[i] == "1"
    ensures Final(StartPollution, choices, draws) <= 0
    ensures 1 <= Turns(StartPollution, choices, draws) <= 10
  {
    TreesWin(StartPollution, choices, draws);
  }

  /** `game_loop`: play turns while the pollution is strictly between 0 and
      100, then announce the ending. The outcome is `None` only when the
      inputs ran out with the game still undecided. */
  method GameLoop(choices: seq<string>, draws: seq<int>)
      returns (pollution: int, turn: int, outcome: Option<Outcome>)
    requires Fair(choices, draws)
    ensures pollution == Final(StartPollution, choices, draws)
    ensures turn == 1 + Turns(StartPollution, choices, draws)
    ensures -9 <= pollution <= 104
    ensures outcome == Some(Restored) <==> pollution <= 0
    ensures outcome == Some(Critical) <==> pollution >= PollutionLimit
    ensures outcome == None <==> Playing(pollution)
    ensures outcome == None ==> turn == |choices| + 1
  {
    pollution, turn := StartPollution, 1;
    var i := 0;
    while Playing(pollution) && i < |choices|
      invariant 0 <= i <= |choices| && turn == i + 1
      invariant -9 <= pollution <= 104
      invariant Final(pollution, choices[i..], draws[i..]) == Final(StartPollution, choices, draws)
      invariant i + Turns(pollution, choices[i..], draws[i..]) == Turns(StartPollution, choices, draws)
    {
      var span := ChangeRange(choices[i]);
      var change := draws[i];
      assert InSpan(change, span);
      assert choices[i..][1..] == choices[i + 1..] && draws[i..][1..] == draws[i + 1..];
      pollution := pollution + change;
      turn := turn + 1;
      i := i + 1;
    }
    if Playing(pollution) {
      outcome := None;
    } else if pollution <= 0 {
      outcome := Some(Restored);
    } else {
      outcome := Some(Critical);
    }
  }
}
