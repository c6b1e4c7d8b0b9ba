/** The lineup suggested after the free transfer (app.py:411-461): the new squad is
    scored, a starting XI is seeded with one goalkeeper, three defenders, two
    midfielders and one forward, the four best remaining outfielders complete it, and
    the rest form the bench. */
module Formation {
  import opened Types
  import opened Sorting
  import opened Lineups
  import Wildcard
  import Analysis

  function Min(a: int, b: int): int {
    if a <= b then a else b
  }

  /** How many of each position the XI is seeded with (app.py:440-443). */
  const GoalkeeperSeats := 1
  const DefenderSeats := 3
  const MidfielderSeats := 2
  const ForwardSeats := 1
  /** How many outfielders complete the XI (app.py:447). */
  const OpenSeats := 4

  /** Every starter outscores every substitute who plays in the same position. */
  ghost predicate BestInPosition(xi: seq<Scored>, bench: seq<Scored>) {
    forall a, b :: a in xi && b in bench && a.player.elementType == b.player.elementType ==> a.score >= b.score
  }

  /** A squad that can fill the seeded formation and the open seats. */
  ghost predicate FullFormation(s: seq<Scored>) {
    && PosCount(s, Goalkeeper) >= GoalkeeperSeats
    && PosCount(s, Defender) >= DefenderSeats
    && PosCount(s, Midfielder) >= MidfielderSeats
    && PosCount(s, Forward) >= ForwardSeats
    && Wildcard.Outfielders(s) >= DefenderSeats + MidfielderSeats + ForwardSeats + OpenSeats
  }

  /** A position list, all of one position and best score first. */
  ghost predicate Ranked(list: seq<Scored>, pos: int) {
    AllOf(list, pos) && SortedBy(list, ScoreAtLeast)
  }

  /** The outfielders left over after seeding, best first (app.py:441-446). */
  function PoolOf(defs: seq<Scored>, mids: seq<Scored>, fwds: seq<Scored>): seq<Scored> {
    SortBy(Drop(defs, DefenderSeats) + Drop(mids, MidfielderSeats) + Drop(fwds, ForwardSeats), ScoreAtLeast)
  }

  /** The XI and bench of app.py:431-450. Players whose `element_type` is not a position
      fall out of all four lists and so out of the lineup. */
  method PickFormationXi(squad: seq<Scored>) returns (xi: seq<Scored>, bench: seq<Scored>)
    ensures multiset(xi + bench) <= multiset(squad)
    ensures AllPositioned(squad) ==> multiset(xi + bench) == multiset(squad)
    ensures |xi| <= StartersWanted
    ensures PosCount(xi, Goalkeeper) == Min(GoalkeeperSeats, PosCount(squad, Goalkeeper))
    ensures PosCount(xi, Defender) >= Min(DefenderSeats, PosCount(squad, Defender))
    ensures PosCount(xi, Midfielder) >= Min(MidfielderSeats, PosCount(squad, Midfielder))
    ensures PosCount(xi, Forward) >= Min(ForwardSeats, PosCount(squad, Forward))
    ensures FullFormation(squad) ==> |xi| == StartersWanted
    ensures BestInPosition(xi, bench)
    ensures BenchOrdered(bench)
  {
    var gkp := SortBy(OfPosition(squad, Goalkeeper), ScoreAtLeast);
    var defs := SortBy(OfPosition(squad, Defender), ScoreAtLeast);
    var mids := SortBy(OfPosition(squad, Midfielder), ScoreAtLeast);
    var fwds := SortBy(OfPosition(squad, Forward), ScoreAtLeast);
    xi, bench := SeedFormation(gkp, defs, mids, fwds);
    FormationFacts(squad, gkp, defs, mids, fwds, xi, bench);
  }

  /** The list surgery of app.py:437-450: pop the best goalkeeper into the XI, seed the
      XI from the head of each outfield list and pool the tails, sort the pool, take four. */
  method SeedFormation(gkp: seq<Scored>, defs: seq<Scored>, mids: seq<Scored>, fwds: seq<Scored>)
    returns (xi: seq<Scored>, bench: seq<Scored>)
    ensures xi == Take(gkp, GoalkeeperSeats) + Take(defs, DefenderSeats) + Take(mids, MidfielderSeats)
      + Take(fwds, ForwardSeats) + Take(PoolOf(defs, mids, fwds), OpenSeats)
    ensures bench == Drop(gkp, GoalkeeperSeats) + SortBy(Drop(PoolOf(defs, mids, fwds), OpenSeats), ScoreAtLeast)
  {
    var keepers := gkp;
    xi := [];
    var pool := [];
    if keepers != [] {
      xi := xi + [keepers[0]];
      keepers := keepers[1..];
    }
    assert xi == Take(gkp, GoalkeeperSeats) && keepers == Drop(gkp, GoalkeeperSeats);
    ghost var seeded := xi;
    xi := xi + Take(defs, DefenderSeats);
    pool := pool + Drop(defs, DefenderSeats);
    xi := xi + Take(mids, MidfielderSeats);
    pool := pool + Drop(mids, MidfielderSeats);
    xi := xi + Take(fwds, ForwardSeats);
    pool := pool + Drop(fwds, ForwardSeats);
    assert xi == seeded + Take(defs, DefenderSeats) + Take(mids, MidfielderSeats) + Take(fwds, ForwardSeats);
    assert pool == Drop(defs, DefenderSeats) + Drop(mids, MidfielderSeats) + Drop(fwds, ForwardSeats);
    pool := SortBy(pool, ScoreAtLeast);
    assert pool == PoolOf(defs, mids, fwds);
    xi := xi + Take(pool, OpenSeats);
    bench := keepers + SortBy(Drop(pool, OpenSeats), ScoreAtLeast);
  }

  lemma FormationFacts(
    squad: seq<Scored>, gkp: seq<Scored>, defs: seq<Scored>, mids: seq<Scored>, fwds: seq<Scored>,
    xi: seq<Scored>, bench: seq<Scored>)
    requires gkp == SortBy(OfPosition(squad, Goalkeeper), ScoreAtLeast)
    requires defs == SortBy(OfPosition(squad, Defender), ScoreAtLeast)
    requires mids == SortBy(OfPosition(squad, Midfielder), ScoreAtLeast)
    requires fwds == SortBy(OfPosition(squad, Forward), ScoreAtLeast)
    requires xi == Take(gkp, GoalkeeperSeats) + Take(defs, DefenderSeats) + Take(mids, MidfielderSeats)
      + Take(fwds, ForwardSeats) + Take(PoolOf(defs, mids, fwds), OpenSeats)
    requires bench == Drop(gkp, GoalkeeperSeats) + SortBy(Drop(PoolOf(defs, mids, fwds), OpenSeats), ScoreAtLeast)
    ensures multiset(xi + bench) <= multiset(squad)
    ensures AllPositioned(squad) ==> multiset(xi + bench) == multiset(squad)
    ensures |xi| <= StartersWanted
    ensures PosCount(xi, Goalkeeper) == Min(GoalkeeperSeats, PosCount(squad, Goalkeeper))
    ensures PosCount(xi, Defender) >= Min(DefenderSeats, PosCount(squad, Defender))
    ensures PosCount(xi, Midfielder) >= Min(MidfielderSeats, PosCount(squad, Midfielder))
    ensures PosCount(xi, Forward) >= Min(ForwardSeats, PosCount(squad, Forward))
    ensures FullFormation(squad) ==> |xi| == StartersWanted
    ensures BestInPosition(xi, bench)
    ensures BenchOrdered(bench)
  {
    Wildcard.PositionList(squad, Goalkeeper);
    Wildcard.PositionList(squad, Defender);
    Wildcard.PositionList(squad, Midfielder);
    Wildcard.PositionList(squad, Forward);
    var pool := PoolOf(defs, mids, fwds);
    var tail := SortBy(Drop(pool, OpenSeats), ScoreAtLeast);
    ScoreAtLeastIsPreorder();
    SortByIsSorted(Drop(defs, DefenderSeats) + Drop(mids, MidfielderSeats) + Drop(fwds, ForwardSeats), ScoreAtLeast);
    SortByIsSorted(Drop(pool, OpenSeats), ScoreAtLeast);
    PositionsCover(squad);
    FormationMultiset(gkp, defs, mids, fwds, pool, tail, xi, bench);
    PoolPositions(defs, mids, fwds, pool);
    FormationCounts(gkp, defs, mids, fwds, pool, xi);
    FormationRoles(gkp, defs, mids, fwds, pool, tail, xi, bench);
  }

  /** The XI and bench hold the four position lists, each player once. */
  lemma FormationMultiset(
    gkp: seq<Scored>, defs: seq<Scored>, mids: seq<Scored>, fwds: seq<Scored>,
    pool: seq<Scored>, tail: seq<Scored>, xi: seq<Scored>, bench: seq<Scored>)
    requires multiset(pool) == multiset(Drop(defs, DefenderSeats) + Drop(mids, MidfielderSeats) + Drop(fwds, ForwardSeats))
    requires multiset(tail) == multiset(Drop(pool, OpenSeats))
    requires xi == Take(gkp, GoalkeeperSeats) + Take(defs, DefenderSeats) + Take(mids, MidfielderSeats)
      + Take(fwds, ForwardSeats) + Take(pool, OpenSeats)
    requires bench == Drop(gkp, GoalkeeperSeats) + tail
    ensures multiset(xi + bench) == multiset(gkp) + multiset(defs) + multiset(mids) + multiset(fwds)
  {
    TakeDropJoin(gkp, GoalkeeperSeats);
    TakeDropJoin(defs, DefenderSeats);
    TakeDropJoin(mids, MidfielderSeats);
    TakeDropJoin(fwds, ForwardSeats);
    TakeDropJoin(pool, OpenSeats);
    assert multiset(Take(pool, OpenSeats)) + multiset(tail) == multiset(pool) by {
      assert multiset(pool) == multiset(Take(pool, OpenSeats) + Drop(pool, OpenSeats));
    }
    assert multiset(xi + bench) == multiset(Take(gkp, GoalkeeperSeats)) + multiset(Drop(gkp, GoalkeeperSeats))
      + multiset(Take(defs, DefenderSeats)) + multiset(Take(mids, MidfielderSeats)) + multiset(Take(fwds, ForwardSeats))
      + multiset(pool);
    assert multiset(gkp) == multiset(Take(gkp, GoalkeeperSeats)) + multiset(Drop(gkp, GoalkeeperSeats)) by {
      assert multiset(gkp) == multiset(Take(gkp, GoalkeeperSeats) + Drop(gkp, GoalkeeperSeats));
    }
    assert multiset(defs) == multiset(Take(defs, DefenderSeats)) + multiset(Drop(defs, DefenderSeats)) by {
      assert multiset(defs) == multiset(Take(defs, DefenderSeats) + Drop(defs, DefenderSeats));
    }
    assert multiset(mids) == multiset(Take(mids, MidfielderSeats)) + multiset(Drop(mids, MidfielderSeats)) by {
      assert multiset(mids) == multiset(Take(mids, MidfielderSeats) + Drop(mids, MidfielderSeats));
    }
    assert multiset(fwds) == multiset(Take(fwds, ForwardSeats)) + multiset(Drop(fwds, ForwardSeats)) by {
      assert multiset(fwds) == multiset(Take(fwds, ForwardSeats) + Drop(fwds, ForwardSeats));
    }
  }

  /** Where a pooled outfielder comes from, by its position. */
  lemma PoolPositions(defs: seq<Scored>, mids: seq<Scored>, fwds: seq<Scored>, pool: seq<Scored>)
    requires AllOf(defs, Defender) && AllOf(mids, Midfielder) && AllOf(fwds, Forward)
    requires multiset(pool) == multiset(Drop(defs, DefenderSeats) + Drop(mids, MidfielderSeats) + Drop(fwds, ForwardSeats))
    ensures |pool| == |Drop(defs, DefenderSeats)| + |Drop(mids, MidfielderSeats)| + |Drop(fwds, ForwardSeats)|
    ensures NoneOf(pool, Goalkeeper)
    ensures forall b :: b in pool && b.player.elementType == Defender ==> b in Drop(defs, DefenderSeats)
    ensures forall b :: b in pool && b.player.elementType == Midfielder ==> b in Drop(mids, MidfielderSeats)
    ensures forall b :: b in pool && b.player.elementType == Forward ==> b in Drop(fwds, ForwardSeats)
  {
    TakeDropJoin(defs, DefenderSeats);
    TakeDropJoin(mids, MidfielderSeats);
    TakeDropJoin(fwds, ForwardSeats);
    var all := Drop(defs, DefenderSeats) + Drop(mids, MidfielderSeats) + Drop(fwds, ForwardSeats);
    assert |pool| == |multiset(all)|;
    forall b | b in pool ensures b in all {
      assert b in multiset(all);
    }
  }

  lemma FormationCounts(
    gkp: seq<Scored>, defs: seq<Scored>, mids: seq<Scored>, fwds: seq<Scored>,
    pool: seq<Scored>, xi: seq<Scored>)
    requires AllOf(gkp, Goalkeeper) && AllOf(defs, Defender) && AllOf(mids, Midfielder) && AllOf(fwds, Forward)
    requires NoneOf(pool, Goalkeeper)
    requires |pool| == |Drop(defs, DefenderSeats)| + |Drop(mids, MidfielderSeats)| + |Drop(fwds, ForwardSeats)|
    requires xi == Take(gkp, GoalkeeperSeats) + Take(defs, DefenderSeats) + Take(mids, MidfielderSeats)
      + Take(fwds, ForwardSeats) + Take(pool, OpenSeats)
    ensures |xi| <= StartersWanted
    ensures PosCount(xi, Goalkeeper) == Min(GoalkeeperSeats, |gkp|)
    ensures PosCount(xi, Defender) >= Min(DefenderSeats, |defs|)
    ensures PosCount(xi, Midfielder) >= Min(MidfielderSeats, |mids|)
    ensures PosCount(xi, Forward) >= Min(ForwardSeats, |fwds|)
    ensures |gkp| >= GoalkeeperSeats && |defs| >= DefenderSeats && |mids| >= MidfielderSeats && |fwds| >= ForwardSeats
      && |defs| + |mids| + |fwds| >= DefenderSeats + MidfielderSeats + ForwardSeats + OpenSeats
      ==> |xi| == StartersWanted
  {
    TakeOfOne(gkp, GoalkeeperSeats, Goalkeeper);
    TakeOfOne(defs, DefenderSeats, Defender);
    TakeOfOne(mids, MidfielderSeats, Midfielder);
    TakeOfOne(fwds, ForwardSeats, Forward);
    TakeDropJoin(pool, OpenSeats);
    SeatCounts(Take(gkp, GoalkeeperSeats), Take(defs, DefenderSeats), Take(mids, MidfielderSeats),
      Take(fwds, ForwardSeats), Take(pool, OpenSeats));
  }

  lemma TakeOfOne(list: seq<Scored>, k: nat, pos: int)
    requires AllOf(list, pos)
    ensures AllOf(Take(list, k), pos)
  {
    TakeDropJoin(list, k);
  }

  /** Position counts of an XI laid out as goalkeeper, defenders, midfielders, forwards, others. */
  lemma SeatCounts(g: seq<Scored>, d: seq<Scored>, m: seq<Scored>, f: seq<Scored>, o: seq<Scored>)
    requires AllOf(g, Goalkeeper) && AllOf(d, Defender) && AllOf(m, Midfielder) && AllOf(f, Forward)
    requires NoneOf(o, Goalkeeper)
    ensures PosCount(g + d + m + f + o, Goalkeeper) == |g|
    ensures PosCount(g + d + m + f + o, Defender) >= |d|
    ensures PosCount(g + d + m + f + o, Midfielder) >= |m|
    ensures PosCount(g + d + m + f + o, Forward) >= |f|
  {
    var xi := g + d + m + f + o;
    assert xi == g + (d + m + f + o);
    GoalkeeperSeat(g, d + m + f + o);
    assert xi == g + d + (m + f + o);
    SeatAtLeast(g, d, m + f + o, Defender);
    assert xi == (g + d) + m + (f + o);
    SeatAtLeast(g + d, m, f + o, Midfielder);
    SeatAtLeast(g + d + m, f, o, Forward);
  }

  /** The seeded goalkeeper is the only one in the XI. */
  lemma GoalkeeperSeat(g: seq<Scored>, rest: seq<Scored>)
    requires AllOf(g, Goalkeeper) && NoneOf(rest, Goalkeeper)
    ensures PosCount(g + rest, Goalkeeper) == |g|
  {
    PosCountAppend(g, rest, Goalkeeper);
    PosCountUniform(g, Goalkeeper);
    PosCountNone(rest, Goalkeeper);
  }

  /** Seats given to one position stay counted for that position. */
  lemma SeatAtLeast(pre: seq<Scored>, seats: seq<Scored>, post: seq<Scored>, pos: int)
    requires AllOf(seats, pos)
    ensures PosCount(pre + seats + post, pos) >= |seats|
  {
    PosCountAppend(pre + seats, post, pos);
    PosCountAppend(pre, seats, pos);
    PosCountUniform(seats, pos);
  }

  lemma FormationRoles(
    gkp: seq<Scored>, defs: seq<Scored>, mids: seq<Scored>, fwds: seq<Scored>,
    pool: seq<Scored>, tail: seq<Scored>, xi: seq<Scored>, bench: seq<Scored>)
    requires Ranked(gkp, Goalkeeper) && Ranked(defs, Defender) && Ranked(mids, Midfielder) && Ranked(fwds, Forward)
    requires SortedBy(pool, ScoreAtLeast) && NoneOf(pool, Goalkeeper)
    requires forall b :: b in pool && b.player.elementType == Defender ==> b in Drop(defs, DefenderSeats)
    requires forall b :: b in pool && b.player.elementType == Midfielder ==> b in Drop(mids, MidfielderSeats)
    requires forall b :: b in pool && b.player.elementType == Forward ==> b in Drop(fwds, ForwardSeats)
    requires SortedBy(tail, ScoreAtLeast) && multiset(tail) == multiset(Drop(pool, OpenSeats))
    requires xi == Take(gkp, GoalkeeperSeats) + Take(defs, DefenderSeats) + Take(mids, MidfielderSeats)
      + Take(fwds, ForwardSeats) + Take(pool, OpenSeats)
    requires bench == Drop(gkp, GoalkeeperSeats) + tail
    ensures BestInPosition(xi, bench)
    ensures BenchOrdered(bench)
  {
    TakeDropJoin(gkp, GoalkeeperSeats);
    TakeDropJoin(pool, OpenSeats);
    forall b | b in tail ensures b in Drop(pool, OpenSeats) {
      assert b in multiset(tail);
    }
    SortedSlices(gkp, GoalkeeperSeats, ScoreAtLeast);
    BenchOrderedConcat(Drop(gkp, GoalkeeperSeats), tail);
    TakeBeforeDrop(gkp, GoalkeeperSeats, ScoreAtLeast);
    TakeBeforeDrop(pool, OpenSeats, ScoreAtLeast);
    SeedBeats(defs, DefenderSeats, Defender, pool);
    SeedBeats(mids, MidfielderSeats, Midfielder, pool);
    SeedBeats(fwds, ForwardSeats, Forward, pool);
    forall a, b | a in xi && b in bench && a.player.elementType == b.player.elementType ensures a.score >= b.score {
      if b in Drop(gkp, GoalkeeperSeats) {
        assert a in Take(gkp, GoalkeeperSeats);
        assert ScoreAtLeast(a, b);
      } else if a in Take(pool, OpenSeats) {
        assert ScoreAtLeast(a, b);
      }
    }
  }

  /** A seeded player outscores every pooled player of its own position. */
  lemma SeedBeats(list: seq<Scored>, k: nat, pos: int, pool: seq<Scored>)
    requires Ranked(list, pos)
    requires forall b :: b in pool && b.player.elementType == pos ==> b in Drop(list, k)
    ensures forall a, b :: a in Take(list, k) && b in pool && a.player.elementType == b.player.elementType ==>
      a.score >= b.score
  {
    TakeDropJoin(list, k);
    TakeBeforeDrop(list, k, ScoreAtLeast);
    forall a, b | a in Take(list, k) && b in pool && a.player.elementType == b.player.elementType
      ensures a.score >= b.score
    {
      assert ScoreAtLeast(a, b);
    }
  }

  // ---------------------------------------------------------------------------
  // The suggested lineup (app.py:411-461)
  // ---------------------------------------------------------------------------

  ghost predicate PlayersPositioned(players: seq<Player>) {
    forall p :: p in players ==> IsPosition(p.elementType)
  }

  /** `suggested_lineup_ft`: empty without a free transfer; otherwise the squad after
      the transfer (players told apart by id, see Analysis.NewSquadById), scored, split
      into the formation XI and bench, and labelled. */
  method SuggestedLineupFt(squad: seq<Player>, free: seq<Suggestion>, cat: Catalog, rate: Rater)
    returns (lineup: seq<LineupEntry>, xi: seq<Scored>, bench: seq<Scored>)
    ensures free == [] ==> lineup == [] && xi == [] && bench == []
    ensures free != [] && PlayersPositioned(Analysis.NewSquadById(squad, free)) ==>
      multiset(EntryPlayers(lineup)) == multiset(Analysis.NewSquadById(squad, free))
    ensures |lineup| <= |Analysis.NewSquadById(squad, free)|
    ensures forall i :: StartersWanted <= i < |lineup| ==> lineup[i].role == Sub
    ensures free != [] && FullFormation(Rated(Analysis.NewSquadById(squad, free), cat, rate)) ==>
      |lineup| >= StartersWanted && lineup[0].role == Captain && lineup[1].role == ViceCaptain &&
      (forall i :: 2 <= i < StartersWanted ==> lineup[i].role == Starter)
    ensures free != [] ==> Labelled(lineup, xi, bench)
    ensures free != [] ==> var scored := Rated(Analysis.NewSquadById(squad, free), cat, rate);
      && multiset(xi + bench) <= multiset(scored)
      && PosCount(xi, Goalkeeper) == Min(GoalkeeperSeats, PosCount(scored, Goalkeeper))
      && PosCount(xi, Defender) >= Min(DefenderSeats, PosCount(scored, Defender))
      && PosCount(xi, Midfielder) >= Min(MidfielderSeats, PosCount(scored, Midfielder))
      && PosCount(xi, Forward) >= Min(ForwardSeats, PosCount(scored, Forward))
    ensures free != [] ==> BestInPosition(xi, bench) && BenchOrdered(bench)
  {
    lineup, xi, bench := [], [], [];
    if free != [] {
      var newSquad := Analysis.NewSquadById(squad, free);
      var scored := ScorePlayers(newSquad, cat, rate);
      xi, bench := PickFormationXi(scored);
      lineup := FormatLineup(xi, bench);
      LineupFacts(newSquad, scored, xi, bench, lineup);
    }
  }

  lemma LineupFacts(newSquad: seq<Player>, scored: seq<Scored>, xi: seq<Scored>, bench: seq<Scored>, lineup: seq<LineupEntry>)
    requires PlayersOf(scored) == newSquad
    requires multiset(xi + bench) <= multiset(scored)
    requires (forall x :: x in scored ==> IsPosition(x.player.elementType)) ==> multiset(xi + bench) == multiset(scored)
    requires |xi| <= StartersWanted
    requires FullFormation(scored) ==> |xi| == StartersWanted
    requires |lineup| == |xi| + |bench|
    requires forall i :: 0 <= i < |xi| ==> lineup[i].role == RoleAt(i)
    requires forall j :: 0 <= j < |bench| ==> lineup[|xi| + j] == LineupEntry(bench[j].player, Sub)
    requires multiset(EntryPlayers(lineup)) == multiset(PlayersOf(xi + bench))
    ensures PlayersPositioned(newSquad) ==> multiset(EntryPlayers(lineup)) == multiset(newSquad)
    ensures |lineup| <= |newSquad|
    ensures forall i :: StartersWanted <= i < |lineup| ==> lineup[i].role == Sub
    ensures FullFormation(scored) ==>
      |lineup| >= StartersWanted && lineup[0].role == Captain && lineup[1].role == ViceCaptain &&
      (forall i :: 2 <= i < StartersWanted ==> lineup[i].role == Starter)
  {
    Wildcard.BenchRoles(lineup, |xi|, bench);
    assert |xi + bench| <= |scored| by {
      var extra := multiset(scored) - multiset(xi + bench);
      assert multiset(scored) == multiset(xi + bench) + extra;
      assert |multiset(scored)| == |multiset(xi + bench)| + |extra|;
    }
    if PlayersPositioned(newSquad) {
      forall x | x in scored ensures IsPosition(x.player.elementType) {
        var k :| 0 <= k < |scored| && scored[k] == x;
        assert PlayersOf(scored)[k] == x.player;
      }
      Wildcard.SameSize(xi + bench, scored);
    }
  }
}
