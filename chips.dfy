/** `suggest_chips` (app.py:171-216): a rule per chip, each gated by the chip's used flag. */
module Chips {
  import opened Types

  datatype Chip = BenchBoost | TripleCaptain | Wildcard | FreeHit

  /** The `usedChips` flags of the request; a missing key reads as not used. */
  datatype UsedChips = UsedChips(benchBoost: bool, tripleCaptain: bool, wildcard: bool, freeHit: bool)

  const BenchBoostThreshold: real := 15.0
  const TripleCaptainThreshold: real := 8.5
  const WildcardMinUpgrades := 5
  const FreeHitMinGain: real := 3.0

  /** The position of a chip in the order the rules are tried. */
  function Rank(c: Chip): nat {
    match c
    case BenchBoost => 0
    case TripleCaptain => 1
    case Wildcard => 2
    case FreeHit => 3
  }

  /** `sum(...)` of the scores of (player, difficulty) pairs. */
  function TotalScore(s: seq<(Player, int)>, rate: Rater): real {
    if s == [] then 0.0 else rate(s[0].0, s[0].1) + TotalScore(s[1..], rate)
  }

  /** `max(starters, key=score)`: the first pair with the highest score. */
  function BestCaptain(s: seq<(Player, int)>, rate: Rater): (r: (Player, int))
    requires s != []
    ensures r in s
    ensures forall e :: e in s ==> rate(e.0, e.1) <= rate(r.0, r.1)
  {
    if |s| == 1 then s[0]
    else
      var rest := BestCaptain(s[1..], rate);
      assert s == [s[0]] + s[1..];
      if rate(rest.0, rest.1) > rate(s[0].0, s[0].1) then rest else s[0]
  }

  /** `suggest_chips`. */
  method SuggestChips(
    starting: seq<(Player, int)>, bench: seq<(Player, int)>, other: seq<Suggestion>,
    used: UsedChips, rate: Rater)
    returns (chips: seq<Chip>)
    ensures BenchBoost in chips <==>
      !used.benchBoost && bench != [] && TotalScore(bench, rate) > BenchBoostThreshold
    ensures TripleCaptain in chips <==>
      !used.tripleCaptain && exists e :: e in starting && rate(e.0, e.1) > TripleCaptainThreshold
    ensures Wildcard in chips <==> !used.wildcard && |other| >= WildcardMinUpgrades
    ensures FreeHit in chips <==> !used.freeHit && other != [] && other[0].scoreGain > FreeHitMinGain
    ensures forall i, j :: 0 <= i < j < |chips| ==> Rank(chips[i]) < Rank(chips[j])
  {
    chips := [];
    if !used.benchBoost && bench != [] {
      var totalBenchScore := TotalScore(bench, rate);
      if totalBenchScore > BenchBoostThreshold {
        chips := chips + [BenchBoost];
      }
    }
    if !used.tripleCaptain && starting != [] {
      var captain := BestCaptain(starting, rate);
      var captainScore := rate(captain.0, captain.1);
      if captainScore > TripleCaptainThreshold {
        chips := chips + [TripleCaptain];
      }
    }
    if !used.wildcard && |other| >= WildcardMinUpgrades {
      chips := chips + [Wildcard];
    }
    if !used.freeHit && other != [] && other[0].scoreGain > FreeHitMinGain {
      chips := chips + [FreeHit];
    }
  }
}
