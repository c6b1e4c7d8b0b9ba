/** `suggest_wildcard_team` (app.py:218-296): a greedy 15-man squad, best score first,
    under the budget, the position limits and the three-per-club rule; then a starting XI
    and bench picked from it and labelled. */
module Wildcard {
  import opened Types
  import opened Sorting
  import opened Lineups

  const TeamLimit := 3
  /** The budget of 100.0 (millions), in the catalogue's price unit of tenths. */
  const Budget := 1000

  /** `pos_limits`: two goalkeepers, five defenders, five midfielders, three forwards. */
  function PosLimit(pos: int): int
    requires IsPosition(pos)
  {
    if pos == Goalkeeper then 2 else if pos == Forward then 3 else 5
  }

  /** `team_counts[team]`: how many players of `s` come from club `team`. */
  function TeamCount(s: seq<Scored>, team: int): nat {
    if s == [] then 0
    else TeamCount(s[..|s| - 1], team) + (if s[|s| - 1].player.team == team then 1 else 0)
  }

  /** What the squad has spent, in tenths. */
  function TotalCost(s: seq<Scored>): int {
    if s == [] then 0 else TotalCost(s[..|s| - 1]) + s[|s| - 1].player.nowCost
  }

  /** The tests a candidate must pass to join the squad. */
  predicate Admits(squad: seq<Scored>, x: Scored)
    requires IsPosition(x.player.elementType)
  {
    && TeamCount(squad, x.player.team) < TeamLimit
    && PosCount(squad, x.player.elementType) < PosLimit(x.player.elementType)
    && Budget - TotalCost(squad) >= x.player.nowCost
  }

  /** The greedy loop over the ranked players, from a partial squad. */
  function Greedy(ranked: seq<Scored>, squad: seq<Scored>): (r: seq<Scored>)
    requires AllPositioned(ranked)
    ensures |squad| <= |r| <= |squad| + |ranked|
    ensures |squad| <= SquadSize ==> |r| <= SquadSize
  {
    if ranked == [] || |squad| == SquadSize then squad
    else if Admits(squad, ranked[0]) then Greedy(ranked[1..], squad + [ranked[0]])
    else Greedy(ranked[1..], squad)
  }

  ghost predicate CatalogPositioned(cat: Catalog) {
    forall p :: p in cat.elements ==> IsPosition(p.elementType)
  }

  /** The whole catalogue paired with scores and ranked best first; every player in it
      has a position when every catalogue player has one. */
  function RankedCatalog(cat: Catalog, rate: Rater): (r: seq<Scored>)
    ensures forall x :: x in r <==> x in Rated(cat.elements, cat, rate)
    ensures CatalogPositioned(cat) ==> AllPositioned(r)
  {
    var rated := Rated(cat.elements, cat, rate);
    SortByMembers(rated, ScoreAtLeast);
    assert forall x :: x in rated ==> exists k :: 0 <= k < |cat.elements| && x.player == cat.elements[k];
    SortBy(rated, ScoreAtLeast)
  }

  /** The squad the greedy loop of app.py:240-255 builds. */
  ghost function WildcardSquad(cat: Catalog, rate: Rater): seq<Scored>
    requires CatalogPositioned(cat)
  {
    Greedy(RankedCatalog(cat, rate), [])
  }

  /** The limits every wildcard squad keeps. */
  ghost predicate WithinLimits(squad: seq<Scored>) {
    && |squad| <= SquadSize
    && TotalCost(squad) <= Budget
    && (forall pos :: IsPosition(pos) ==> PosCount(squad, pos) <= PosLimit(pos))
    && (forall team :: TeamCount(squad, team) <= TeamLimit)
  }

  lemma PosCountSnoc(s: seq<Scored>, x: Scored, pos: int)
    ensures PosCount(s + [x], pos) == PosCount(s, pos) + (if x.player.elementType == pos then 1 else 0)
  {
    PosCountAppend(s, [x], pos);
    assert [x][..0] == [];
  }

  lemma TeamCountSnoc(s: seq<Scored>, x: Scored, team: int)
    ensures TeamCount(s + [x], team) == TeamCount(s, team) + (if x.player.team == team then 1 else 0)
  {
    assert (s + [x])[..|s|] == s;
  }

  lemma TotalCostSnoc(s: seq<Scored>, x: Scored)
    ensures TotalCost(s + [x]) == TotalCost(s) + x.player.nowCost
  {
    assert (s + [x])[..|s|] == s;
  }

  /** Adding an admitted player keeps the limits. */
  lemma AdmitKeepsLimits(squad: seq<Scored>, x: Scored)
    requires IsPosition(x.player.elementType)
    requires WithinLimits(squad) && |squad| < SquadSize && Admits(squad, x)
    ensures WithinLimits(squad + [x])
  {
    TotalCostSnoc(squad, x);
    forall pos | IsPosition(pos) ensures PosCount(squad + [x], pos) <= PosLimit(pos) {
      PosCountSnoc(squad, x, pos);
    }
    forall team ensures TeamCount(squad + [x], team) <= TeamLimit {
      TeamCountSnoc(squad, x, team);
    }
  }

  /** The greedy squad never breaks the budget, a position limit or the club limit. */
  lemma {:induction false} GreedyWithinLimits(ranked: seq<Scored>, squad: seq<Scored>)
    requires AllPositioned(ranked) && WithinLimits(squad)
    ensures WithinLimits(Greedy(ranked, squad))
    decreases |ranked|
  {
    if ranked != [] && |squad| != SquadSize {
      if Admits(squad, ranked[0]) {
        AdmitKeepsLimits(squad, ranked[0]);
        GreedyWithinLimits(ranked[1..], squad + [ranked[0]]);
      } else {
        GreedyWithinLimits(ranked[1..], squad);
      }
    }
  }

  /** The loop only appends, and only players taken from the ranking. */
  lemma {:induction false} GreedyExtends(ranked: seq<Scored>, squad: seq<Scored>)
    requires AllPositioned(ranked)
    ensures |squad| <= |Greedy(ranked, squad)|
    ensures Greedy(ranked, squad)[..|squad|] == squad
    ensures multiset(Greedy(ranked, squad)[|squad|..]) <= multiset(ranked)
    decreases |ranked|
  {
    var r := Greedy(ranked, squad);
    if ranked == [] || |squad| == SquadSize {
      assert r[|squad|..] == [];
    } else {
      assert ranked == [ranked[0]] + ranked[1..];
      if Admits(squad, ranked[0]) {
        var s' := squad + [ranked[0]];
        GreedyExtends(ranked[1..], s');
        assert r[..|s'|][..|squad|] == squad;
        assert r[|squad|..] == [ranked[0]] + r[|s'|..];
      } else {
        GreedyExtends(ranked[1..], squad);
      }
    }
  }

  lemma TeamCountAppend(a: seq<Scored>, b: seq<Scored>, team: int)
    ensures TeamCount(a + b, team) >= TeamCount(a, team)
    decreases |b|
  {
    if b != [] {
      var b' := b[..|b| - 1];
      TeamCountAppend(a, b', team);
      assert (a + b)[..|a + b| - 1] == a + b';
    } else {
      assert a + b == a;
    }
  }

  lemma TotalCostAppend(a: seq<Scored>, b: seq<Scored>)
    requires forall x :: x in b ==> x.player.nowCost >= 0
    ensures TotalCost(a + b) >= TotalCost(a)
    decreases |b|
  {
    if b != [] {
      var b' := b[..|b| - 1];
      assert b[|b| - 1] in b;
      TotalCostAppend(a, b');
      assert (a + b)[..|a + b| - 1] == a + b';
    } else {
      assert a + b == a;
    }
  }

  /** A player once turned away stays turned away as the squad grows, prices being non-negative. */
  lemma RejectionPersists(squad: seq<Scored>, more: seq<Scored>, x: Scored)
    requires IsPosition(x.player.elementType)
    requires forall y :: y in more ==> y.player.nowCost >= 0
    requires !Admits(squad, x)
    ensures !Admits(squad + more, x)
  {
    TeamCountAppend(squad, more, x.player.team);
    PosCountAppend(squad, more, x.player.elementType);
    TotalCostAppend(squad, more);
  }

  /** Either the squad is full, or every ranked player left out fails a test against the
      final squad: no one skipped could still be added. */
  lemma {:induction false} GreedyMaximal(ranked: seq<Scored>, squad: seq<Scored>)
    requires AllPositioned(ranked)
    requires forall y :: y in ranked ==> y.player.nowCost >= 0
    requires |squad| <= SquadSize
    ensures var r := Greedy(ranked, squad);
      |r| == SquadSize || forall x :: x in ranked && x !in r ==> !Admits(r, x)
    decreases |ranked|
  {
    var r := Greedy(ranked, squad);
    if ranked != [] && |squad| != SquadSize {
      var x0 := ranked[0];
      assert forall x :: x in ranked ==> x == x0 || x in ranked[1..];
      if Admits(squad, x0) {
        GreedyMaximal(ranked[1..], squad + [x0]);
        GreedyExtends(ranked[1..], squad + [x0]);
        assert r[..|squad| + 1][|squad|] == x0;
      } else {
        GreedyMaximal(ranked[1..], squad);
        GreedyExtends(ranked[1..], squad);
        var more := r[|squad|..];
        assert r == squad + more;
        forall y | y in more ensures y.player.nowCost >= 0 {
          assert y in multiset(more);
        }
        RejectionPersists(squad, more, x0);
      }
    }
  }

  /** Taking players in ranked order keeps the squad ordered best first. */
  lemma {:induction false} GreedySorted(ranked: seq<Scored>, squad: seq<Scored>)
    requires AllPositioned(ranked)
    requires SortedBy(ranked, ScoreAtLeast) && SortedBy(squad, ScoreAtLeast)
    requires forall a, b :: a in squad && b in ranked ==> a.score >= b.score
    ensures SortedBy(Greedy(ranked, squad), ScoreAtLeast)
    decreases |ranked|
  {
    if ranked != [] && |squad| != SquadSize {
      var x0 := ranked[0];
      assert forall b :: b in ranked[1..] ==> x0.score >= b.score by {
        forall b | b in ranked[1..] ensures x0.score >= b.score {
          var k :| 0 <= k < |ranked[1..]| && ranked[1..][k] == b;
          assert ScoreAtLeast(ranked[0], ranked[k + 1]);
        }
      }
      assert SortedBy(ranked[1..], ScoreAtLeast) by {
        forall i, j | 0 <= i < j < |ranked[1..]| ensures ScoreAtLeast(ranked[1..][i], ranked[1..][j]) {
          assert ScoreAtLeast(ranked[i + 1], ranked[j + 1]);
        }
      }
      if Admits(squad, x0) {
        var s' := squad + [x0];
        assert SortedBy(s', ScoreAtLeast) by {
          forall i, j | 0 <= i < j < |s'| ensures ScoreAtLeast(s'[i], s'[j]) {
            if j == |squad| {
              assert s'[i] in squad;
            }
          }
        }
        GreedySorted(ranked[1..], s');
      } else {
        GreedySorted(ranked[1..], squad);
      }
    }
  }

  /** The wildcard squad: within the limits, ordered best first, drawn from the
      catalogue, and maximal. */
  lemma WildcardSquadSpec(cat: Catalog, rate: Rater)
    requires CatalogPositioned(cat)
    requires forall p :: p in cat.elements ==> p.nowCost >= 0
    ensures WithinLimits(WildcardSquad(cat, rate))
    ensures SortedBy(WildcardSquad(cat, rate), ScoreAtLeast)
    ensures multiset(WildcardSquad(cat, rate)) <= multiset(RankedCatalog(cat, rate))
    ensures |WildcardSquad(cat, rate)| == SquadSize
      || forall x :: x in RankedCatalog(cat, rate) && x !in WildcardSquad(cat, rate) ==>
           !Admits(WildcardSquad(cat, rate), x)
  {
    var ranked := RankedCatalog(cat, rate);
    var rated := Rated(cat.elements, cat, rate);
    forall y | y in ranked ensures y.player.nowCost >= 0 {
      var k :| 0 <= k < |rated| && rated[k] == y;
      assert cat.elements[k] in cat.elements;
    }
    assert WithinLimits([]) by {
      forall pos | IsPosition(pos) ensures PosCount([], pos) <= PosLimit(pos) {
      }
    }
    GreedyWithinLimits(ranked, []);
    ScoreAtLeastIsPreorder();
    SortByIsSorted(rated, ScoreAtLeast);
    GreedySorted(ranked, []);
    GreedyExtends(ranked, []);
    assert Greedy(ranked, [])[0..] == Greedy(ranked, []);
    GreedyMaximal(ranked, []);
  }

  /** One turn of the greedy loop, while the squad is not full. */
  lemma GreedyStep(ranked: seq<Scored>, i: nat, squad: seq<Scored>)
    requires AllPositioned(ranked) && i < |ranked| && |squad| != SquadSize
    ensures Greedy(ranked[i..], squad) ==
      Greedy(ranked[i + 1..], if Admits(squad, ranked[i]) then squad + [ranked[i]] else squad)
  {
    assert ranked[i..][0] == ranked[i] && ranked[i..][1..] == ranked[i + 1..];
  }

  /** The counters after a player joins. */
  lemma CountersAfterJoin(squad: seq<Scored>, x: Scored)
    ensures TotalCost(squad + [x]) == TotalCost(squad) + x.player.nowCost
    ensures forall q :: PosCount(squad + [x], q) == PosCount(squad, q) + (if q == x.player.elementType then 1 else 0)
    ensures forall t :: TeamCount(squad + [x], t) == TeamCount(squad, t) + (if t == x.player.team then 1 else 0)
  {
    TotalCostSnoc(squad, x);
    forall q ensures PosCount(squad + [x], q) == PosCount(squad, q) + (if q == x.player.elementType then 1 else 0) {
      PosCountSnoc(squad, x, q);
    }
    forall t ensures TeamCount(squad + [x], t) == TeamCount(squad, t) + (if t == x.player.team then 1 else 0) {
      TeamCountSnoc(squad, x, t);
    }
  }

  /** The loop's running state agrees with the squad: the budget left, and the counts
      per position and per club (a club not yet in the map counts zero). */
  ghost predicate Counters(squad: seq<Scored>, budget: int, posCounts: map<int, int>, teamCounts: map<int, int>) {
    && budget == Budget - TotalCost(squad)
    && (forall pos :: IsPosition(pos) ==> pos in posCounts && posCounts[pos] == PosCount(squad, pos))
    && (forall t :: TeamCount(squad, t) == if t in teamCounts then teamCounts[t] else 0)
  }

  /** One candidate of the greedy loop: skipped when its club is full, else taken when its
      position has room and the budget covers its price. */
  method Consider(
    squad: seq<Scored>, budget: int, posCounts: map<int, int>, teamCounts: map<int, int>, x: Scored)
    returns (squad': seq<Scored>, budget': int, posCounts': map<int, int>, teamCounts': map<int, int>)
    requires IsPosition(x.player.elementType)
    requires Counters(squad, budget, posCounts, teamCounts)
    ensures squad' == if Admits(squad, x) then squad + [x] else squad
    ensures Counters(squad', budget', posCounts', teamCounts')
  {
    squad', budget', posCounts', teamCounts' := squad, budget, posCounts, teamCounts;
    var pos := x.player.elementType;
    var price := x.player.nowCost;
    var teamId := x.player.team;
    var teamCount := if teamId in teamCounts then teamCounts[teamId] else 0;
    if teamCount >= TeamLimit {
      return;
    }
    if posCounts[pos] < PosLimit(pos) && budget >= price {
      CountersAfterJoin(squad, x);
      squad' := squad + [x];
      budget' := budget - price;
      posCounts' := posCounts[pos := posCounts[pos] + 1];
      teamCounts' := teamCounts[teamId := teamCount + 1];
    }
  }

  /** Scoring and ranking the catalogue (app.py:220-229), then the greedy loop. */
  method BuildSquad(cat: Catalog, rate: Rater) returns (squad: seq<Scored>)
    requires CatalogPositioned(cat)
    ensures squad == WildcardSquad(cat, rate)
  {
    var scored := ScorePlayers(cat.elements, cat, rate);
    var ranked := SortBy(scored, ScoreAtLeast);
    assert ranked == RankedCatalog(cat, rate);
    squad := PickGreedily(ranked);
  }

  /** The greedy loop of app.py:240-255, with its running budget and counters. */
  method PickGreedily(ranked: seq<Scored>) returns (squad: seq<Scored>)
    requires AllPositioned(ranked)
    ensures squad == Greedy(ranked, [])
  {
    var budget := Budget;
    var posCounts := map[Goalkeeper := 0, Defender := 0, Midfielder := 0, Forward := 0];
    var teamCounts: map<int, int> := map[];
    squad := [];
    var i := 0;
    while i < |ranked|
      invariant 0 <= i <= |ranked|
      invariant Greedy(ranked, []) == Greedy(ranked[i..], squad)
      invariant Counters(squad, budget, posCounts, teamCounts)
    {
      if |squad| == SquadSize {
        break;
      }
      assert ranked[i] in ranked;
      GreedyStep(ranked, i, squad);
      squad, budget, posCounts, teamCounts := Consider(squad, budget, posCounts, teamCounts, ranked[i]);
      i := i + 1;
    }
    assert i == |ranked| ==> ranked[i..] == [];
  }

  function Outfielders(s: seq<Scored>): nat {
    PosCount(s, Defender) + PosCount(s, Midfielder) + PosCount(s, Forward)
  }

  /** Best goalkeeper in goal; among outfielders, whoever starts outscores whoever sits. */
  ghost predicate BestInRole(xi: seq<Scored>, bench: seq<Scored>) {
    forall a, b :: a in xi && b in bench && IsGk(a) == IsGk(b) ==> a.score >= b.score
  }

  /** The split of app.py:257-284: best goalkeeper starts and the second sits; the
      outfielders, pooled and sorted, fill the XI up to eleven and the rest sit. No
      formation minimum is enforced. */
  method SplitSquad(squad: seq<Scored>) returns (xi: seq<Scored>, bench: seq<Scored>)
    ensures multiset(xi + bench) <= multiset(squad)
    ensures AllPositioned(squad) && PosCount(squad, Goalkeeper) <= 2 ==> multiset(xi + bench) == multiset(squad)
    ensures |xi| <= StartersWanted
    ensures PosCount(xi, Goalkeeper) == if PosCount(squad, Goalkeeper) > 0 then 1 else 0
    ensures PosCount(squad, Goalkeeper) > 0 && Outfielders(squad) >= 10 ==> |xi| == StartersWanted
    ensures BestInRole(xi, bench)
    ensures BenchOrdered(bench)
  {
    var gkp := SortBy(OfPosition(squad, Goalkeeper), ScoreAtLeast);
    var defs := SortBy(OfPosition(squad, Defender), ScoreAtLeast);
    var mids := SortBy(OfPosition(squad, Midfielder), ScoreAtLeast);
    var fwds := SortBy(OfPosition(squad, Forward), ScoreAtLeast);
    var pool := SortBy(defs + mids + fwds, ScoreAtLeast);
    xi, bench := FillLineup(gkp, pool);
    SplitFacts(squad, gkp, defs, mids, fwds, pool, 3 + StartersWanted - |Take(gkp, 1)| - |Take(pool, 3)|, xi, bench);
  }

  /** Steps 1 and 3 to 5 of the split: first goalkeeper in, second on the bench; the top
      three of the pool in, then as many more as make eleven; the rest of the pool on the bench. */
  method FillLineup(gkp: seq<Scored>, pool: seq<Scored>) returns (xi: seq<Scored>, bench: seq<Scored>)
    ensures xi == Take(gkp, 1) + Take(pool, 3 + StartersWanted - |Take(gkp, 1)| - |Take(pool, 3)|)
    ensures bench == Take(Drop(gkp, 1), 1) + Drop(pool, 3 + StartersWanted - |Take(gkp, 1)| - |Take(pool, 3)|)
  {
    var starter, second := SeatKeepers(gkp);
    xi := starter + Take(pool, 3);
    var need := StartersWanted - |xi|;
    xi := xi + Take(Drop(pool, 3), need);
    bench := second + Drop(pool, 3 + need);
    TakeDropSplit(pool, 3, need);
  }

  /** Step 1 of the split: the first goalkeeper popped into the XI, the next onto the bench. */
  method SeatKeepers(gkp: seq<Scored>) returns (starter: seq<Scored>, second: seq<Scored>)
    ensures starter == Take(gkp, 1) && second == Take(Drop(gkp, 1), 1)
  {
    var keepers := gkp;
    starter, second := [], [];
    if keepers != [] {
      starter := starter + [keepers[0]];
      keepers := keepers[1..];
    }
    assert keepers == Drop(gkp, 1);
    if keepers != [] {
      second := second + [keepers[0]];
      keepers := keepers[1..];
    }
  }

  lemma SplitFacts(
    squad: seq<Scored>, keepers: seq<Scored>, defs: seq<Scored>, mids: seq<Scored>, fwds: seq<Scored>,
    pool: seq<Scored>, k: nat, xi: seq<Scored>, bench: seq<Scored>)
    requires keepers == SortBy(OfPosition(squad, Goalkeeper), ScoreAtLeast)
    requires defs == SortBy(OfPosition(squad, Defender), ScoreAtLeast)
    requires mids == SortBy(OfPosition(squad, Midfielder), ScoreAtLeast)
    requires fwds == SortBy(OfPosition(squad, Forward), ScoreAtLeast)
    requires pool == SortBy(defs + mids + fwds, ScoreAtLeast)
    requires k >= StartersWanted - |Take(keepers, 1)|
    requires |pool| >= 3 ==> k == StartersWanted - |Take(keepers, 1)|
    requires xi == Take(keepers, 1) + Take(pool, k)
    requires bench == Take(Drop(keepers, 1), 1) + Drop(pool, k)
    ensures multiset(xi + bench) <= multiset(squad)
    ensures AllPositioned(squad) && PosCount(squad, Goalkeeper) <= 2 ==> multiset(xi + bench) == multiset(squad)
    ensures |xi| <= StartersWanted
    ensures PosCount(xi, Goalkeeper) == if PosCount(squad, Goalkeeper) > 0 then 1 else 0
    ensures PosCount(squad, Goalkeeper) > 0 && Outfielders(squad) >= 10 ==> |xi| == StartersWanted
    ensures BestInRole(xi, bench)
    ensures BenchOrdered(bench)
  {
    PositionList(squad, Goalkeeper);
    PositionList(squad, Defender);
    PositionList(squad, Midfielder);
    PositionList(squad, Forward);
    OutfieldPool(defs, mids, fwds);
    SplitMultiset(squad, keepers, pool, k, xi, bench);
    SplitRoles(keepers, pool, k, xi, bench);
  }

  /** `sorted([p for p in squad if p['player']['element_type'] == pos], ...)`. */
  lemma PositionList(squad: seq<Scored>, pos: int)
    ensures multiset(SortBy(OfPosition(squad, pos), ScoreAtLeast)) == multiset(OfPosition(squad, pos))
    ensures AllOf(SortBy(OfPosition(squad, pos), ScoreAtLeast), pos)
    ensures SortedBy(SortBy(OfPosition(squad, pos), ScoreAtLeast), ScoreAtLeast)
    ensures |SortBy(OfPosition(squad, pos), ScoreAtLeast)| == PosCount(squad, pos)
  {
    ScoreAtLeastIsPreorder();
    SortByMembers(OfPosition(squad, pos), ScoreAtLeast);
    SortByIsSorted(OfPosition(squad, pos), ScoreAtLeast);
  }

  /** The outfield players pooled and sorted. */
  lemma OutfieldPool(defs: seq<Scored>, mids: seq<Scored>, fwds: seq<Scored>)
    requires AllOf(defs, Defender) && AllOf(mids, Midfielder) && AllOf(fwds, Forward)
    ensures multiset(SortBy(defs + mids + fwds, ScoreAtLeast)) == multiset(defs) + multiset(mids) + multiset(fwds)
    ensures NoneOf(SortBy(defs + mids + fwds, ScoreAtLeast), Goalkeeper)
    ensures SortedBy(SortBy(defs + mids + fwds, ScoreAtLeast), ScoreAtLeast)
    ensures |SortBy(defs + mids + fwds, ScoreAtLeast)| == |defs| + |mids| + |fwds|
  {
    ScoreAtLeastIsPreorder();
    SortByMembers(defs + mids + fwds, ScoreAtLeast);
    SortByIsSorted(defs + mids + fwds, ScoreAtLeast);
  }

  lemma SplitMultiset(squad: seq<Scored>, keepers: seq<Scored>, pool: seq<Scored>, k: nat, xi: seq<Scored>, bench: seq<Scored>)
    requires multiset(keepers) == multiset(OfPosition(squad, Goalkeeper))
    requires multiset(pool) == multiset(OfPosition(squad, Defender)) + multiset(OfPosition(squad, Midfielder))
      + multiset(OfPosition(squad, Forward))
    requires xi == Take(keepers, 1) + Take(pool, k)
    requires bench == Take(Drop(keepers, 1), 1) + Drop(pool, k)
    ensures multiset(xi + bench) <= multiset(squad)
    ensures AllPositioned(squad) && PosCount(squad, Goalkeeper) <= 2 ==> multiset(xi + bench) == multiset(squad)
  {
    TakeDropSplit(keepers, 1, 1);
    TakeDropJoin(pool, k);
    TakeDropJoin(keepers, 2);
    var two := Take(keepers, 2);
    assert multiset(xi + bench) == multiset(two) + multiset(pool) by {
      assert multiset(Take(pool, k) + Drop(pool, k)) == multiset(pool);
      assert multiset(Take(keepers, 1) + Take(Drop(keepers, 1), 1)) == multiset(two);
    }
    assert multiset(two) <= multiset(keepers) by {
      assert multiset(keepers) == multiset(two) + multiset(Drop(keepers, 2));
    }
    PositionsCover(squad);
    if PosCount(squad, Goalkeeper) <= 2 {
      assert |keepers| == |multiset(keepers)|;
      assert two == keepers;
    }
  }

  lemma SplitRoles(keepers: seq<Scored>, pool: seq<Scored>, k: nat, xi: seq<Scored>, bench: seq<Scored>)
    requires AllOf(keepers, Goalkeeper) && SortedBy(keepers, ScoreAtLeast)
    requires NoneOf(pool, Goalkeeper) && SortedBy(pool, ScoreAtLeast)
    requires k >= StartersWanted - |Take(keepers, 1)|
    requires |pool| >= 3 ==> k == StartersWanted - |Take(keepers, 1)|
    requires xi == Take(keepers, 1) + Take(pool, k)
    requires bench == Take(Drop(keepers, 1), 1) + Drop(pool, k)
    ensures |xi| <= StartersWanted
    ensures PosCount(xi, Goalkeeper) == if |keepers| > 0 then 1 else 0
    ensures |keepers| > 0 && |pool| >= 10 ==> |xi| == StartersWanted
    ensures BestInRole(xi, bench)
    ensures BenchOrdered(bench)
  {
    var top := Take(keepers, 1);
    var second := Take(Drop(keepers, 1), 1);
    assert second + Drop(Drop(keepers, 1), 1) == Drop(keepers, 1);
    assert top + Drop(keepers, 1) == keepers;
    assert Take(pool, k) + Drop(pool, k) == pool;
    assert AllOf(top, Goalkeeper) && AllOf(second, Goalkeeper);
    assert NoneOf(Take(pool, k), Goalkeeper) && NoneOf(Drop(pool, k), Goalkeeper);
    PosCountAppend(top, Take(pool, k), Goalkeeper);
    PosCountUniform(top, Goalkeeper);
    PosCountNone(Take(pool, k), Goalkeeper);
    TakeBeforeDrop(keepers, 1, ScoreAtLeast);
    TakeBeforeDrop(pool, k, ScoreAtLeast);
    forall a, b | a in xi && b in bench && IsGk(a) == IsGk(b) ensures a.score >= b.score {
      if IsGk(a) {
        assert a in top && b in Drop(keepers, 1);
        assert ScoreAtLeast(a, b);
      } else {
        assert a in Take(pool, k) && b in Drop(pool, k);
        assert ScoreAtLeast(a, b);
      }
    }
    SortedSlices(keepers, 1, ScoreAtLeast);
    SortedSlices(Drop(keepers, 1), 1, ScoreAtLeast);
    SortedSlices(pool, k, ScoreAtLeast);
    BenchOrderedConcat(second, Drop(pool, k));
  }

  /** `suggest_wildcard_team`: the greedy squad, split and labelled. The XI and bench
      the lineup labels are returned beside it. */
  method SuggestWildcardTeam(cat: Catalog, rate: Rater)
    returns (lineup: seq<LineupEntry>, xi: seq<Scored>, bench: seq<Scored>)
    requires CatalogPositioned(cat)
    ensures multiset(EntryPlayers(lineup)) == multiset(PlayersOf(WildcardSquad(cat, rate)))
    ensures |lineup| <= SquadSize
    ensures forall i :: StartersWanted <= i < |lineup| ==> lineup[i].role == Sub
    ensures Labelled(lineup, xi, bench)
    ensures multiset(xi + bench) == multiset(WildcardSquad(cat, rate))
    ensures |xi| <= StartersWanted
    ensures PosCount(xi, Goalkeeper) == if PosCount(WildcardSquad(cat, rate), Goalkeeper) > 0 then 1 else 0
    ensures BestInRole(xi, bench) && BenchOrdered(bench)
  {
    var squad := BuildSquad(cat, rate);
    WildcardSquadShape(cat, rate);
    lineup, xi, bench := LabelSquad(squad);
  }

  /** Steps 1 to 6 of app.py:257-296 on a squad of positioned players with at most two
      goalkeepers: the XI and bench of `SplitSquad`, labelled by `FormatLineup`. */
  method LabelSquad(squad: seq<Scored>) returns (lineup: seq<LineupEntry>, xi: seq<Scored>, bench: seq<Scored>)
    requires AllPositioned(squad) && PosCount(squad, Goalkeeper) <= 2
    ensures multiset(EntryPlayers(lineup)) == multiset(PlayersOf(squad))
    ensures |lineup| == |squad|
    ensures forall i :: StartersWanted <= i < |lineup| ==> lineup[i].role == Sub
    ensures Labelled(lineup, xi, bench)
    ensures multiset(xi + bench) == multiset(squad)
    ensures |xi| <= StartersWanted
    ensures PosCount(xi, Goalkeeper) == if PosCount(squad, Goalkeeper) > 0 then 1 else 0
    ensures PosCount(squad, Goalkeeper) > 0 && Outfielders(squad) >= 10 ==> |xi| == StartersWanted
    ensures BestInRole(xi, bench) && BenchOrdered(bench)
  {
    xi, bench := SplitSquad(squad);
    lineup := FormatLineup(xi, bench);
    LabelFacts(squad, xi, bench, lineup);
  }

  lemma LabelFacts(squad: seq<Scored>, xi: seq<Scored>, bench: seq<Scored>, lineup: seq<LineupEntry>)
    requires multiset(xi + bench) == multiset(squad)
    requires multiset(EntryPlayers(lineup)) == multiset(PlayersOf(xi + bench))
    requires |lineup| == |xi| + |bench| && |xi| <= StartersWanted
    requires forall j :: 0 <= j < |bench| ==> lineup[|xi| + j] == LineupEntry(bench[j].player, Sub)
    ensures multiset(EntryPlayers(lineup)) == multiset(PlayersOf(squad))
    ensures |lineup| == |squad|
    ensures forall i :: StartersWanted <= i < |lineup| ==> lineup[i].role == Sub
  {
    SameSize(xi + bench, squad);
    BenchRoles(lineup, |xi|, bench);
  }

  lemma BenchRoles(lineup: seq<LineupEntry>, starters: nat, bench: seq<Scored>)
    requires starters <= StartersWanted && |lineup| == starters + |bench|
    requires forall j :: 0 <= j < |bench| ==> lineup[starters + j] == LineupEntry(bench[j].player, Sub)
    ensures forall i :: StartersWanted <= i < |lineup| ==> lineup[i].role == Sub
  {
    forall i | StartersWanted <= i < |lineup| ensures lineup[i].role == Sub {
      assert lineup[starters + (i - starters)] == LineupEntry(bench[i - starters].player, Sub);
    }
  }

  lemma SameSize(a: seq<Scored>, b: seq<Scored>)
    requires multiset(a) == multiset(b)
    ensures |a| == |b|
    ensures multiset(PlayersOf(a)) == multiset(PlayersOf(b))
  {
    assert |multiset(a)| == |multiset(b)|;
    PlayersOfPerm(a, b);
  }

  /** Every wildcard squad fits the limits and has only positioned players. */
  lemma WildcardSquadShape(cat: Catalog, rate: Rater)
    requires CatalogPositioned(cat)
    ensures WithinLimits(WildcardSquad(cat, rate))
    ensures AllPositioned(WildcardSquad(cat, rate))
  {
    var squad := WildcardSquad(cat, rate);
    assert WithinLimits([]) by {
      forall pos | IsPosition(pos) ensures PosCount([], pos) <= PosLimit(pos) {
      }
    }
    GreedyWithinLimits(RankedCatalog(cat, rate), []);
    GreedyExtends(RankedCatalog(cat, rate), []);
    assert squad[0..] == squad;
    forall x | x in squad ensures IsPosition(x.player.elementType) {
      assert x in multiset(squad);
    }
  }
}
