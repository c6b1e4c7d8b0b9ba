/** What the two lineup builders share (app.py:257-296, 423-461): filtering a scored
    squad by position, scoring players against their next fixture, the order of a
    bench, and labelling a starting XI and bench with roles. */
module Lineups {
  import opened Types
  import opened Sorting
  import opened Lookups

  // ---------------------------------------------------------------------------
  // Positions
  // ---------------------------------------------------------------------------

  predicate IsGk(x: Scored) {
    x.player.elementType == Goalkeeper
  }

  /** `[p for p in s if p['player']['element_type'] == pos]`. */
  function OfPosition(s: seq<Scored>, pos: int): (r: seq<Scored>)
    ensures forall x :: x in r <==> x in s && x.player.elementType == pos
  {
    if s == [] then []
    else
      var init := OfPosition(s[..|s| - 1], pos);
      assert s == s[..|s| - 1] + [s[|s| - 1]];
      if s[|s| - 1].player.elementType == pos then init + [s[|s| - 1]] else init
  }

  /** How many players of `s` play in position `pos`. */
  function PosCount(s: seq<Scored>, pos: int): nat {
    |OfPosition(s, pos)|
  }

  ghost predicate AllOf(s: seq<Scored>, pos: int) {
    forall x :: x in s ==> x.player.elementType == pos
  }

  ghost predicate NoneOf(s: seq<Scored>, pos: int) {
    forall x :: x in s ==> x.player.elementType != pos
  }

  lemma {:induction false} OfPositionAppend(a: seq<Scored>, b: seq<Scored>, pos: int)
    ensures OfPosition(a + b, pos) == OfPosition(a, pos) + OfPosition(b, pos)
  {
    if b == [] {
      assert a + b == a;
    } else {
      var b' := b[..|b| - 1];
      OfPositionAppend(a, b', pos);
      assert (a + b)[..|a + b| - 1] == a + b';
      assert (a + b)[|a + b| - 1] == b[|b| - 1];
    }
  }

  lemma PosCountAppend(a: seq<Scored>, b: seq<Scored>, pos: int)
    ensures PosCount(a + b, pos) == PosCount(a, pos) + PosCount(b, pos)
  {
    OfPositionAppend(a, b, pos);
  }

  /** Filtering keeps every copy of a player of the position and no copy of any other. */
  lemma {:induction false} OfPositionCount(s: seq<Scored>, pos: int)
    ensures forall x :: multiset(OfPosition(s, pos))[x] == (if x.player.elementType == pos then multiset(s)[x] else 0)
  {
    if s != [] {
      var init := s[..|s| - 1];
      OfPositionCount(init, pos);
      assert s == init + [s[|s| - 1]];
    }
  }

  /** A list of one position filters to itself. */
  lemma {:induction false} OfPositionAll(s: seq<Scored>, pos: int)
    requires AllOf(s, pos)
    ensures OfPosition(s, pos) == s
  {
    if s != [] {
      OfPositionAll(s[..|s| - 1], pos);
      assert s == s[..|s| - 1] + [s[|s| - 1]];
    }
  }

  /** A list of one position counts fully there and nowhere else. */
  lemma PosCountUniform(s: seq<Scored>, pos: int)
    requires AllOf(s, pos)
    ensures forall q :: PosCount(s, q) == if q == pos then |s| else 0
  {
    OfPositionAll(s, pos);
    forall q | q != pos ensures PosCount(s, q) == 0 {
      if OfPosition(s, q) != [] {
        assert OfPosition(s, q)[0] in OfPosition(s, q);
      }
    }
  }

  lemma PosCountNone(s: seq<Scored>, pos: int)
    requires NoneOf(s, pos)
    ensures PosCount(s, pos) == 0
  {
    if OfPosition(s, pos) != [] {
      assert OfPosition(s, pos)[0] in OfPosition(s, pos);
    }
  }

  /** The four position lists together. */
  ghost function ByPosition(s: seq<Scored>): multiset<Scored> {
    multiset(OfPosition(s, Goalkeeper)) + multiset(OfPosition(s, Defender))
      + multiset(OfPosition(s, Midfielder)) + multiset(OfPosition(s, Forward))
  }

  /** The four position lists never hold more than the squad, and hold exactly the
      squad when every player has a position. */
  lemma {:induction false} PositionsCover(s: seq<Scored>)
    ensures ByPosition(s) <= multiset(s)
    ensures AllPositioned(s) ==> ByPosition(s) == multiset(s)
  {
    if s != [] {
      var init := s[..|s| - 1];
      var x := s[|s| - 1];
      assert s == init + [x];
      PositionsCover(init);
      assert AllPositioned(s) ==> AllPositioned(init);
      ByPositionSnoc(init, x);
    }
  }

  lemma ByPositionSnoc(init: seq<Scored>, x: Scored)
    ensures ByPosition(init + [x]) == ByPosition(init) + (if IsPosition(x.player.elementType) then multiset{x} else multiset{})
  {
    var s := init + [x];
    assert s[..|s| - 1] == init;
    var t := x.player.elementType;
    var g, d, m, f := OfPosition(init, Goalkeeper), OfPosition(init, Defender), OfPosition(init, Midfielder), OfPosition(init, Forward);
    if t == Goalkeeper {
      assert OfPosition(s, Goalkeeper) == g + [x];
    } else if t == Defender {
      assert OfPosition(s, Defender) == d + [x];
    } else if t == Midfielder {
      assert OfPosition(s, Midfielder) == m + [x];
    } else if t == Forward {
      assert OfPosition(s, Forward) == f + [x];
    }
  }

  // ---------------------------------------------------------------------------
  // Scoring
  // ---------------------------------------------------------------------------

  /** Each player paired with its score against its next-gameweek fixture. */
  function Rated(players: seq<Player>, cat: Catalog, rate: Rater): seq<Scored> {
    seq(|players|, k requires 0 <= k < |players| => Scored(players[k], AdjustedScore(players[k], cat, rate)))
  }

  /** The scoring loops of app.py:222-226 and 423-427. */
  method ScorePlayers(players: seq<Player>, cat: Catalog, rate: Rater) returns (scored: seq<Scored>)
    ensures scored == Rated(players, cat, rate)
    ensures PlayersOf(scored) == players
  {
    scored := [];
    for k := 0 to |players|
      invariant |scored| == k
      invariant forall j :: 0 <= j < k ==> scored[j] == Scored(players[j], AdjustedScore(players[j], cat, rate))
    {
      var difficulty := FixtureDifficulty(players[k].team, cat.nextGameweek, cat.fixtures);
      var score := rate(players[k], difficulty);
      scored := scored + [Scored(players[k], score)];
    }
  }

  // ---------------------------------------------------------------------------
  // Lineup shape
  // ---------------------------------------------------------------------------

  /** Goalkeepers first, and within goalkeepers and within outfielders best score first. */
  ghost predicate BenchOrdered(bench: seq<Scored>) {
    && (forall i, j :: 0 <= i < j < |bench| && IsGk(bench[j]) ==> IsGk(bench[i]))
    && (forall i, j :: 0 <= i < j < |bench| && IsGk(bench[i]) == IsGk(bench[j]) ==>
          bench[i].score >= bench[j].score)
  }

  lemma BenchOrderedConcat(keepers: seq<Scored>, outfield: seq<Scored>)
    requires AllOf(keepers, Goalkeeper) && NoneOf(outfield, Goalkeeper)
    requires SortedBy(keepers, ScoreAtLeast) && SortedBy(outfield, ScoreAtLeast)
    ensures BenchOrdered(keepers + outfield)
  {
    var b := keepers + outfield;
    forall i, j | 0 <= i < j < |b| && IsGk(b[j]) ensures IsGk(b[i]) {
      if j >= |keepers| {
        assert false;
      } else {
        assert b[i] in keepers;
      }
    }
    forall i, j | 0 <= i < j < |b| && IsGk(b[i]) == IsGk(b[j]) ensures b[i].score >= b[j].score {
      if j < |keepers| {
        assert ScoreAtLeast(keepers[i], keepers[j]);
      } else if i >= |keepers| {
        assert ScoreAtLeast(outfield[i - |keepers|], outfield[j - |keepers|]);
      } else {
        assert false;
      }
    }
  }

  lemma PlayersOfAppend(a: seq<Scored>, b: seq<Scored>)
    ensures PlayersOf(a + b) == PlayersOf(a) + PlayersOf(b)
  {
    assert |PlayersOf(a + b)| == |PlayersOf(a) + PlayersOf(b)|;
    forall i | 0 <= i < |a + b| ensures PlayersOf(a + b)[i] == (PlayersOf(a) + PlayersOf(b))[i] {
      if i >= |a| {
        assert (a + b)[i] == b[i - |a|];
      }
    }
  }

  /** Reordering scored players reorders their players the same way. */
  lemma {:induction false} PlayersOfPerm(a: seq<Scored>, b: seq<Scored>)
    requires multiset(a) == multiset(b)
    ensures multiset(PlayersOf(a)) == multiset(PlayersOf(b))
    decreases |a|
  {
    if a != [] {
      var x := a[0];
      assert x in multiset(b);
      var j :| 0 <= j < |b| && b[j] == x;
      var b' := b[..j] + b[j + 1..];
      assert b == b[..j] + [x] + b[j + 1..];
      assert a == [x] + a[1..];
      assert multiset(b) == multiset(b[..j]) + multiset{x} + multiset(b[j + 1..]);
      assert multiset(a) == multiset{x} + multiset(a[1..]);
      assert multiset(b') == multiset(b[..j]) + multiset(b[j + 1..]);
      forall y ensures multiset(a[1..])[y] == multiset(b')[y] {
        assert multiset(a)[y] == multiset{x}[y] + multiset(a[1..])[y];
        assert multiset(b)[y] == multiset(b[..j])[y] + multiset{x}[y] + multiset(b[j + 1..])[y];
        assert multiset(b')[y] == multiset(b[..j])[y] + multiset(b[j + 1..])[y];
      }
      assert multiset(a[1..]) == multiset(b');
      PlayersOfPerm(a[1..], b');
      PlayersOfAppend([x], a[1..]);
      PlayersOfAppend(b[..j] + [x], b[j + 1..]);
      PlayersOfAppend(b[..j], [x]);
      PlayersOfAppend(b[..j], b[j + 1..]);
    }
  }

  /** The role of the `i`-th starter once the XI is sorted by score. */
  function RoleAt(i: nat): Role {
    if i == 0 then Captain else if i == 1 then ViceCaptain else Starter
  }

  /** The XI ordered for labelling: best score first. */
  lemma StartersByScore(xi: seq<Scored>)
    ensures forall i, j :: 0 <= i < j < |xi| ==> SortBy(xi, ScoreAtLeast)[i].score >= SortBy(xi, ScoreAtLeast)[j].score
    ensures forall x :: x in SortBy(xi, ScoreAtLeast) <==> x in xi
    ensures xi != [] ==> forall x :: x in xi ==> x.score <= SortBy(xi, ScoreAtLeast)[0].score
  {
    var ranked := SortBy(xi, ScoreAtLeast);
    ScoreAtLeastIsPreorder();
    SortByIsSorted(xi, ScoreAtLeast);
    SortByMembers(xi, ScoreAtLeast);
    forall i, j | 0 <= i < j < |xi| ensures ranked[i].score >= ranked[j].score {
      assert ScoreAtLeast(ranked[i], ranked[j]);
    }
    if xi != [] {
      forall x | x in xi ensures x.score <= ranked[0].score {
        var k :| 0 <= k < |ranked| && ranked[k] == x;
        if k > 0 {
          assert ScoreAtLeast(ranked[0], ranked[k]);
        }
      }
    }
  }

  /** `lineup` labels `xi` and `bench` as app.py:286-296 and 452-461 do: the XI sorted by
      score, best first, as Captain, Vice-Captain and Starters, so that the captain is
      the XI's top scorer; then the bench, in its own order, as Subs. */
  ghost predicate Labelled(lineup: seq<LineupEntry>, xi: seq<Scored>, bench: seq<Scored>) {
    var ranked := SortBy(xi, ScoreAtLeast);
    && |lineup| == |xi| + |bench|
    && (forall i :: 0 <= i < |xi| ==> lineup[i] == LineupEntry(ranked[i].player, RoleAt(i)))
    && (forall j :: 0 <= j < |bench| ==> lineup[|xi| + j] == LineupEntry(bench[j].player, Sub))
    && (forall i, j :: 0 <= i < j < |xi| ==> ranked[i].score >= ranked[j].score)
    && (xi != [] ==> forall x :: x in xi ==> x.score <= ranked[0].score)
  }

  /** Labelling (app.py:286-296, 452-461). */
  method FormatLineup(xi: seq<Scored>, bench: seq<Scored>) returns (lineup: seq<LineupEntry>)
    ensures Labelled(lineup, xi, bench)
    ensures multiset(EntryPlayers(lineup[..|xi|])) == multiset(PlayersOf(xi))
    ensures multiset(EntryPlayers(lineup)) == multiset(PlayersOf(xi + bench))
  {
    var ranked := SortBy(xi, ScoreAtLeast);
    lineup := [];
    for i := 0 to |ranked|
      invariant |lineup| == i
      invariant forall k :: 0 <= k < i ==> lineup[k] == LineupEntry(ranked[k].player, RoleAt(k))
    {
      var role := Starter;
      if i == 0 {
        role := Captain;
      }
      if i == 1 {
        role := ViceCaptain;
      }
      lineup := lineup + [LineupEntry(ranked[i].player, role)];
    }
    for j := 0 to |bench|
      invariant |lineup| == |ranked| + j
      invariant forall k :: 0 <= k < |ranked| ==> lineup[k] == LineupEntry(ranked[k].player, RoleAt(k))
      invariant forall k :: 0 <= k < j ==> lineup[|ranked| + k] == LineupEntry(bench[k].player, Sub)
    {
      lineup := lineup + [LineupEntry(bench[j].player, Sub)];
    }
    LineupPlayers(xi, ranked, bench, lineup);
    StartersByScore(xi);
  }

  lemma LineupPlayers(xi: seq<Scored>, ranked: seq<Scored>, bench: seq<Scored>, lineup: seq<LineupEntry>)
    requires multiset(ranked) == multiset(xi) && |ranked| == |xi|
    requires |lineup| == |ranked| + |bench|
    requires forall k :: 0 <= k < |ranked| ==> lineup[k].player == ranked[k].player
    requires forall k :: 0 <= k < |bench| ==> lineup[|ranked| + k].player == bench[k].player
    ensures multiset(EntryPlayers(lineup[..|xi|])) == multiset(PlayersOf(xi))
    ensures multiset(EntryPlayers(lineup)) == multiset(PlayersOf(xi + bench))
  {
    var starters := EntryPlayers(lineup[..|xi|]);
    forall k | 0 <= k < |xi| ensures starters[k] == PlayersOf(ranked)[k] {
      assert lineup[..|xi|][k] == lineup[k];
    }
    assert starters == PlayersOf(ranked);
    PlayersOfPerm(ranked, xi);
    PlayersOfAppend(ranked, bench);
    var all := EntryPlayers(lineup);
    forall k | 0 <= k < |lineup| ensures all[k] == PlayersOf(ranked + bench)[k] {
      if k >= |ranked| {
        assert lineup[|ranked| + (k - |ranked|)].player == bench[k - |ranked|].player;
      }
    }
    assert all == PlayersOf(ranked + bench);
    PlayersOfPerm(ranked + bench, xi + bench);
  }
}
