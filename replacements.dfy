/** `suggest_replacements` (app.py:123-169): for each squad player, the best
    same-position, not-dearer, strictly better player from outside the squad. */
module Replacements {
  import opened Types
  import opened Sorting
  import opened Lookups

  /** The in-place ascending sort of the squad by score, worst player first. */
  function ByScoreAscending(rate: Rater): ((Player, int), (Player, int)) -> bool {
    (a: (Player, int), b: (Player, int)) => rate(a.0, a.1) <= rate(b.0, b.1)
  }

  lemma ByScoreAscendingIsPreorder(rate: Rater)
    ensures TotalPreorder(ByScoreAscending(rate))
  {
  }

  function SquadIds(squad: seq<(Player, int)>): set<int> {
    set e | e in squad :: e.0.id
  }

  /** `p` is a clear upgrade on `out` (whose score is `outScore`) from outside the squad. */
  predicate Qualifies(p: Player, out: Player, outScore: real, ids: set<int>, cat: Catalog, rate: Rater) {
    && p.elementType == out.elementType
    && p.id !in ids
    && p.nowCost <= out.nowCost
    && AdjustedScore(p, cat, rate) > outScore
  }

  /** The `candidates` list built over the catalogue players `els`, in their order. */
  function Candidates(els: seq<Player>, out: Player, outScore: real, ids: set<int>, cat: Catalog, rate: Rater)
    : (r: seq<Scored>)
    ensures forall c :: c in r <==>
      c.player in els && Qualifies(c.player, out, outScore, ids, cat, rate)
      && c.score == AdjustedScore(c.player, cat, rate)
  {
    if els == [] then []
    else
      var last := els[|els| - 1];
      var front := Candidates(els[..|els| - 1], out, outScore, ids, cat, rate);
      assert els == els[..|els| - 1] + [last];
      if Qualifies(last, out, outScore, ids, cat, rate)
      then front + [Scored(last, AdjustedScore(last, cat, rate))]
      else front
  }

  /** The candidate that comes first after sorting the candidates by score, best first. */
  function BestUpgrade(entry: (Player, int), ids: set<int>, cat: Catalog, rate: Rater): (r: Option<Scored>)
    ensures r.Some? ==>
      && r.value.player in cat.elements
      && Qualifies(r.value.player, entry.0, rate(entry.0, entry.1), ids, cat, rate)
      && r.value.score == AdjustedScore(r.value.player, cat, rate)
  {
    var cands := Candidates(cat.elements, entry.0, rate(entry.0, entry.1), ids, cat, rate);
    if cands == [] then None
    else
      var sorted := SortBy(cands, ScoreAtLeast);
      assert sorted[0] in multiset(cands);
      Some(sorted[0])
  }

  function MakeSuggestion(entry: (Player, int), best: Scored, teams: seq<Team>, rate: Rater): Suggestion {
    Suggestion(
      entry.0, ClubLogoUrl(entry.0.team, teams), PlayerFaceUrl(entry.0.photo),
      best.player, ClubLogoUrl(best.player.team, teams), PlayerFaceUrl(best.player.photo),
      best.score - rate(entry.0, entry.1))
  }

  /** The suggestions made for the squad entries `ranked`, in their order. */
  function SuggestionsFor(ranked: seq<(Player, int)>, ids: set<int>, cat: Catalog, rate: Rater): (r: seq<Suggestion>)
    ensures |r| <= |ranked|
  {
    if ranked == [] then []
    else
      var last := ranked[|ranked| - 1];
      var front := SuggestionsFor(ranked[..|ranked| - 1], ids, cat, rate);
      match BestUpgrade(last, ids, cat, rate)
      case None => front
      case Some(best) => front + [MakeSuggestion(last, best, cat.teams, rate)]
  }

  /** The squad entries that receive a suggestion, in order. */
  function Upgradable(ranked: seq<(Player, int)>, ids: set<int>, cat: Catalog, rate: Rater): (r: seq<(Player, int)>)
    ensures |r| <= |ranked|
  {
    if ranked == [] then []
    else
      var last := ranked[|ranked| - 1];
      var front := Upgradable(ranked[..|ranked| - 1], ids, cat, rate);
      if BestUpgrade(last, ids, cat, rate).Some? then front + [last] else front
  }

  /** Everything the source promises about one suggestion made for squad entry `e`. */
  ghost predicate IsBestUpgrade(s: Suggestion, e: (Player, int), ids: set<int>, cat: Catalog, rate: Rater) {
    var outScore := rate(e.0, e.1);
    && s.outgoing == e.0
    && s.incoming in cat.elements
    && s.incoming.elementType == e.0.elementType
    && s.incoming.id !in ids
    && s.incoming.nowCost <= e.0.nowCost
    && s.scoreGain == AdjustedScore(s.incoming, cat, rate) - outScore
    && s.scoreGain > 0.0
    && (forall p :: p in cat.elements && Qualifies(p, e.0, outScore, ids, cat, rate) ==>
          AdjustedScore(p, cat, rate) <= AdjustedScore(s.incoming, cat, rate))
    && s.outClubLogoUrl == ClubLogoUrl(e.0.team, cat.teams)
    && s.inClubLogoUrl == ClubLogoUrl(s.incoming.team, cat.teams)
    && s.outFaceUrl == PlayerFaceUrl(e.0.photo)
    && s.inFaceUrl == PlayerFaceUrl(s.incoming.photo)
  }

  /** Suggestion `k` is the best upgrade for the `k`-th upgradable squad entry. */
  ghost predicate PairedBestUpgrades(sugs: seq<Suggestion>, ups: seq<(Player, int)>, ids: set<int>, cat: Catalog, rate: Rater) {
    |sugs| == |ups| && forall k :: 0 <= k < |sugs| ==> IsBestUpgrade(sugs[k], ups[k], ids, cat, rate)
  }

  /** A squad entry gets an upgrade exactly when some catalogue player qualifies, and the
      upgrade chosen qualifies and scores at least as well as every qualifying player. */
  lemma BestUpgradeIsBest(e: (Player, int), ids: set<int>, cat: Catalog, rate: Rater)
    ensures BestUpgrade(e, ids, cat, rate).Some? <==>
      exists p :: p in cat.elements && Qualifies(p, e.0, rate(e.0, e.1), ids, cat, rate)
    ensures BestUpgrade(e, ids, cat, rate).Some? ==>
      IsBestUpgrade(MakeSuggestion(e, BestUpgrade(e, ids, cat, rate).value, cat.teams, rate), e, ids, cat, rate)
  {
    var outScore := rate(e.0, e.1);
    var cands := Candidates(cat.elements, e.0, outScore, ids, cat, rate);
    if p :| p in cat.elements && Qualifies(p, e.0, outScore, ids, cat, rate) {
      assert Scored(p, AdjustedScore(p, cat, rate)) in cands;
    }
    if cands != [] {
      var sorted := SortBy(cands, ScoreAtLeast);
      ScoreAtLeastIsPreorder();
      SortByIsSorted(cands, ScoreAtLeast);
      var best := sorted[0];
      assert best in multiset(cands);
      forall p | p in cat.elements && Qualifies(p, e.0, outScore, ids, cat, rate)
        ensures AdjustedScore(p, cat, rate) <= best.score
      {
        var c := Scored(p, AdjustedScore(p, cat, rate));
        assert c in multiset(sorted);
        var k :| 0 <= k < |sorted| && sorted[k] == c;
        if k > 0 {
          assert ScoreAtLeast(sorted[0], sorted[k]);
        }
      }
    }
  }

  /** One suggestion per upgradable squad entry, in squad order, each the best upgrade for it. */
  lemma {:induction false} SuggestionsForSpec(ranked: seq<(Player, int)>, ids: set<int>, cat: Catalog, rate: Rater)
    ensures |Upgradable(ranked, ids, cat, rate)| <= |ranked|
    ensures multiset(Upgradable(ranked, ids, cat, rate)) <= multiset(ranked)
    ensures PairedBestUpgrades(SuggestionsFor(ranked, ids, cat, rate), Upgradable(ranked, ids, cat, rate), ids, cat, rate)
  {
    if ranked != [] {
      var last := ranked[|ranked| - 1];
      SuggestionsForSpec(ranked[..|ranked| - 1], ids, cat, rate);
      BestUpgradeIsBest(last, ids, cat, rate);
    }
    UpgradableSub(ranked, ids, cat, rate);
  }

  /** Every squad entry with at least one qualifying catalogue player is upgradable. */
  lemma {:induction false} UpgradableComplete(ranked: seq<(Player, int)>, ids: set<int>, cat: Catalog, rate: Rater)
    ensures forall e :: e in ranked ==>
      (e in Upgradable(ranked, ids, cat, rate) <==>
        exists p :: p in cat.elements && Qualifies(p, e.0, rate(e.0, e.1), ids, cat, rate))
  {
    if ranked != [] {
      var last := ranked[|ranked| - 1];
      var front := ranked[..|ranked| - 1];
      UpgradableComplete(front, ids, cat, rate);
      BestUpgradeIsBest(last, ids, cat, rate);
      assert ranked == front + [last];
      forall e | e in ranked
        ensures e in Upgradable(ranked, ids, cat, rate) <==>
          exists p :: p in cat.elements && Qualifies(p, e.0, rate(e.0, e.1), ids, cat, rate)
      {
        BestUpgradeIsBest(e, ids, cat, rate);
        UpgradableWithin(front, ids, cat, rate);
      }
    }
  }

  /** Each squad entry appears among the upgradable entries at most as often as in the squad:
      one suggestion per entry. */
  lemma {:induction false} UpgradableSub(ranked: seq<(Player, int)>, ids: set<int>, cat: Catalog, rate: Rater)
    ensures multiset(Upgradable(ranked, ids, cat, rate)) <= multiset(ranked)
  {
    if ranked != [] {
      var front := ranked[..|ranked| - 1];
      var last := ranked[|ranked| - 1];
      UpgradableSub(front, ids, cat, rate);
      assert ranked == front + [last];
      assert multiset(ranked) == multiset(front) + multiset{last};
      if BestUpgrade(last, ids, cat, rate).Some? {
        assert Upgradable(ranked, ids, cat, rate) == Upgradable(front, ids, cat, rate) + [last];
      }
    }
  }

  /** When the squad's player ids are distinct, no two suggestions replace the same player. */
  lemma {:induction false} OneSuggestionPerPlayer(ranked: seq<(Player, int)>, ids: set<int>, cat: Catalog, rate: Rater)
    requires forall i, j :: 0 <= i < j < |ranked| ==> ranked[i].0.id != ranked[j].0.id
    ensures forall i, j :: 0 <= i < j < |Upgradable(ranked, ids, cat, rate)| ==>
      Upgradable(ranked, ids, cat, rate)[i].0.id != Upgradable(ranked, ids, cat, rate)[j].0.id
    ensures var sugs := SuggestionsFor(ranked, ids, cat, rate);
      forall i, j :: 0 <= i < j < |sugs| ==> sugs[i].outgoing.id != sugs[j].outgoing.id
  {
    if ranked != [] {
      var front := ranked[..|ranked| - 1];
      var last := ranked[|ranked| - 1];
      OneSuggestionPerPlayer(front, ids, cat, rate);
      UpgradableWithin(front, ids, cat, rate);
      var ups := Upgradable(ranked, ids, cat, rate);
      forall e | e in Upgradable(front, ids, cat, rate)
        ensures e.0.id != last.0.id
      {
        var k :| 0 <= k < |front| && front[k] == e;
      }
    }
    SuggestionsForSpec(ranked, ids, cat, rate);
  }

  lemma {:induction false} UpgradableWithin(ranked: seq<(Player, int)>, ids: set<int>, cat: Catalog, rate: Rater)
    ensures forall e :: e in Upgradable(ranked, ids, cat, rate) ==>
      e in ranked && BestUpgrade(e, ids, cat, rate).Some?
  {
    if ranked != [] {
      UpgradableWithin(ranked[..|ranked| - 1], ids, cat, rate);
    }
  }

  lemma CandidatesSnoc(els: seq<Player>, p: Player, out: Player, outScore: real, ids: set<int>, cat: Catalog, rate: Rater)
    ensures Candidates(els + [p], out, outScore, ids, cat, rate)
      == Candidates(els, out, outScore, ids, cat, rate)
         + (if Qualifies(p, out, outScore, ids, cat, rate) then [Scored(p, AdjustedScore(p, cat, rate))] else [])
  {
    assert (els + [p])[..|els|] == els;
  }

  lemma SuggestionsForSnoc(ranked: seq<(Player, int)>, e: (Player, int), ids: set<int>, cat: Catalog, rate: Rater)
    ensures SuggestionsFor(ranked + [e], ids, cat, rate)
      == SuggestionsFor(ranked, ids, cat, rate)
         + (match BestUpgrade(e, ids, cat, rate)
            case None => []
            case Some(best) => [MakeSuggestion(e, best, cat.teams, rate)])
  {
    assert (ranked + [e])[..|ranked|] == ranked;
  }

  /** The first of the sorted candidates is the best upgrade `BestUpgrade` picks. */
  lemma BestOfCandidates(entry: (Player, int), ids: set<int>, cat: Catalog, rate: Rater, candidates: seq<Scored>)
    requires candidates == Candidates(cat.elements, entry.0, rate(entry.0, entry.1), ids, cat, rate)
    ensures BestUpgrade(entry, ids, cat, rate) == if candidates == [] then None else Some(SortBy(candidates, ScoreAtLeast)[0])
  {
  }

  /** The inner loop of `suggest_replacements`: the catalogue players that beat `out`. */
  method CollectCandidates(out: Player, outScore: real, ids: set<int>, cat: Catalog, rate: Rater)
    returns (candidates: seq<Scored>)
    ensures candidates == Candidates(cat.elements, out, outScore, ids, cat, rate)
  {
    candidates := [];
    var j := 0;
    while j < |cat.elements|
      invariant 0 <= j <= |cat.elements|
      invariant candidates == Candidates(cat.elements[..j], out, outScore, ids, cat, rate)
    {
      var p := cat.elements[j];
      assert cat.elements[..j + 1] == cat.elements[..j] + [p];
      CandidatesSnoc(cat.elements[..j], p, out, outScore, ids, cat, rate);
      if p.elementType == out.elementType && p.id !in ids {
        var candidateScore := rate(p, FixtureDifficulty(p.team, cat.nextGameweek, cat.fixtures));
        if p.nowCost <= out.nowCost && candidateScore > outScore {
          candidates := candidates + [Scored(p, candidateScore)];
        }
      }
      j := j + 1;
    }
    assert cat.elements[..j] == cat.elements;
  }

  /** The outer loop of `suggest_replacements`, over the squad sorted worst first. */
  method SuggestForRanked(ranked: seq<(Player, int)>, ids: set<int>, cat: Catalog, rate: Rater)
    returns (suggestions: seq<Suggestion>)
    ensures suggestions == SuggestionsFor(ranked, ids, cat, rate)
  {
    suggestions := [];
    var i := 0;
    while i < |ranked|
      invariant 0 <= i <= |ranked|
      invariant suggestions == SuggestionsFor(ranked[..i], ids, cat, rate)
    {
      var (out, difficulty) := ranked[i];
      var outScore := rate(out, difficulty);
      var candidates := CollectCandidates(out, outScore, ids, cat, rate);
      assert ranked[..i + 1] == ranked[..i] + [ranked[i]];
      SuggestionsForSnoc(ranked[..i], ranked[i], ids, cat, rate);
      BestOfCandidates(ranked[i], ids, cat, rate, candidates);
      if candidates != [] {
        var best := SortBy(candidates, ScoreAtLeast)[0];
        suggestions := suggestions + [MakeSuggestion(ranked[i], best, cat.teams, rate)];
      }
      i := i + 1;
    }
    assert ranked[..i] == ranked;
  }

  /** `suggest_replacements`. The squad list is sorted in place in the source; here the
      reordered list is returned as `ranked`. */
  method SuggestReplacements(squad: seq<(Player, int)>, cat: Catalog, rate: Rater)
    returns (ranked: seq<(Player, int)>, suggestions: seq<Suggestion>)
    ensures multiset(ranked) == multiset(squad)
    ensures SortedBy(ranked, ByScoreAscending(rate))
    ensures suggestions == SuggestionsFor(ranked, SquadIds(ranked), cat, rate)
    ensures |suggestions| <= |squad|
    ensures multiset(Upgradable(ranked, SquadIds(ranked), cat, rate)) <= multiset(ranked)
    ensures PairedBestUpgrades(suggestions, Upgradable(ranked, SquadIds(ranked), cat, rate), SquadIds(ranked), cat, rate)
  {
    if squad == [] {
      ranked, suggestions := [], [];
      SuggestionsForSpec(ranked, SquadIds(ranked), cat, rate);
      return;
    }
    ranked := SortBy(squad, ByScoreAscending(rate));
    ByScoreAscendingIsPreorder(rate);
    SortByIsSorted(squad, ByScoreAscending(rate));
    var ids := SquadIds(ranked);
    suggestions := SuggestForRanked(ranked, ids, cat, rate);
    SuggestionsForSpec(ranked, ids, cat, rate);
  }
}
