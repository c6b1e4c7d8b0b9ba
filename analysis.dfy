/** The request handling of the `/analyze` handler (app.py:343-494) taken apart into
    standalone pieces: validating the request, the bench as the complement of the
    starters, the split of the sorted suggestions into one free transfer and the rest,
    the squad after the free transfer, and the ordering of the team details. */
module Analysis {
  import opened Types
  import opened Sorting

  // ---------------------------------------------------------------------------
  // Selecting players from a list
  // ---------------------------------------------------------------------------

  /** `[p for p in s if keep(p)]`. */
  function Select(s: seq<Player>, keep: Player -> bool): (r: seq<Player>)
    ensures |r| <= |s|
  {
    if s == [] then []
    else
      var init := Select(s[..|s| - 1], keep);
      if keep(s[|s| - 1]) then init + [s[|s| - 1]] else init
  }

  /** Exactly the players `keep` accepts stay. */
  lemma {:induction false} SelectMembers(s: seq<Player>, keep: Player -> bool)
    ensures forall p :: p in Select(s, keep) <==> p in s && keep(p)
  {
    if s != [] {
      var init := s[..|s| - 1];
      assert s == init + [s[|s| - 1]];
      SelectMembers(init, keep);
    }
  }

  lemma {:induction false} SelectNone(s: seq<Player>, keep: Player -> bool)
    requires forall p :: p in s ==> !keep(p)
    ensures Select(s, keep) == []
  {
    if s != [] {
      var init := s[..|s| - 1];
      assert s == init + [s[|s| - 1]];
      SelectNone(init, keep);
    }
  }

  lemma {:induction false} SelectAppend(a: seq<Player>, b: seq<Player>, keep: Player -> bool)
    ensures Select(a + b, keep) == Select(a, keep) + Select(b, keep)
  {
    if b == [] {
      assert a + b == a;
    } else {
      var b' := b[..|b| - 1];
      assert b == b' + [b[|b| - 1]];
      assert (a + b)[..|a + b| - 1] == a + b';
      assert (a + b)[|a + b| - 1] == b[|b| - 1];
      SelectAppend(a, b', keep);
    }
  }

  /** Keeping what `keep` accepts and keeping what `drop` accepts, for complementary
      tests, share the list out between them. */
  lemma {:induction false} SelectSplit(s: seq<Player>, keep: Player -> bool, drop: Player -> bool)
    requires forall p :: keep(p) == !drop(p)
    ensures multiset(Select(s, keep)) + multiset(Select(s, drop)) == multiset(s)
  {
    if s != [] {
      var init := s[..|s| - 1];
      assert s == init + [s[|s| - 1]];
      SelectSplit(init, keep, drop);
    }
  }

  lemma {:induction false} SelectAll(s: seq<Player>, keep: Player -> bool)
    requires forall p :: p in s ==> keep(p)
    ensures Select(s, keep) == s
  {
    if s != [] {
      var init := s[..|s| - 1];
      assert s == init + [s[|s| - 1]];
      SelectAll(init, keep);
    }
  }

  // ---------------------------------------------------------------------------
  // Request validation (app.py:346-377)
  // ---------------------------------------------------------------------------

  /** The request body: `starting_ids` and `bench_ids` (None when the key is missing)
      and whether a `captain_id` key is present. */
  datatype Request = Request(startingIds: Option<seq<int>>, benchIds: Option<seq<int>>, hasCaptainId: bool)

  /** The three 400 answers; the sizes carry the count the message reports. */
  datatype RequestError = MissingFields | WrongSquadSize(provided: nat) | WrongStartingSize(provided: nat)

  /** An accepted request: the starting ids, the resolved starters and the resolved squad. */
  datatype Squad = Squad(startingIds: seq<int>, starting: seq<Player>, all: seq<Player>)

  /** `player_map.get(id)` for `player_map = {p['id']: p for p in elements}`: a later
      player with the same id overwrites an earlier one. */
  function Lookup(elements: seq<Player>, id: int): (r: Option<Player>)
    ensures r.None? <==> forall p :: p in elements ==> p.id != id
    ensures r.Some? ==> r.value in elements && r.value.id == id
  {
    if elements == [] then None
    else if elements[|elements| - 1].id == id then Some(elements[|elements| - 1])
    else
      assert elements == elements[..|elements| - 1] + [elements[|elements| - 1]];
      Lookup(elements[..|elements| - 1], id)
  }

  /** A later list overrides an earlier one: the map built from `a + b` finds the
      player `b` has for an id, and falls back on `a` only when `b` has none. */
  lemma {:induction false} LookupAppend(a: seq<Player>, b: seq<Player>, id: int)
    ensures Lookup(a + b, id) == if Lookup(b, id).Some? then Lookup(b, id) else Lookup(a, id)
  {
    if b == [] {
      assert a + b == a;
    } else {
      var b' := b[..|b| - 1];
      assert (a + b)[..|a + b| - 1] == a + b';
      assert (a + b)[|a + b| - 1] == b[|b| - 1];
      LookupAppend(a, b', id);
    }
  }

  /** `[player_map[pid] for pid in ids if pid in player_map]`: unknown ids are skipped. */
  function Resolve(ids: seq<int>, elements: seq<Player>): (r: seq<Player>)
    ensures |r| <= |ids|
    ensures forall p :: p in r ==> p in elements && p.id in ids
  {
    if ids == [] then []
    else
      var init := ids[..|ids| - 1];
      assert ids == init + [ids[|ids| - 1]];
      match Lookup(elements, ids[|ids| - 1])
      case None => Resolve(init, elements)
      case Some(p) => Resolve(init, elements) + [p]
  }

  lemma {:induction false} ResolveAppend(a: seq<int>, b: seq<int>, elements: seq<Player>)
    ensures Resolve(a + b, elements) == Resolve(a, elements) + Resolve(b, elements)
  {
    if b == [] {
      assert a + b == a;
    } else {
      var b' := b[..|b| - 1];
      assert b == b' + [b[|b| - 1]];
      assert (a + b)[..|a + b| - 1] == a + b';
      assert (a + b)[|a + b| - 1] == b[|b| - 1];
      ResolveAppend(a, b', elements);
    }
  }

  /** No id is dropped exactly when every id names a catalogue player. */
  lemma {:induction false} ResolveComplete(ids: seq<int>, elements: seq<Player>)
    ensures |Resolve(ids, elements)| == |ids| <==> forall id :: id in ids ==> Lookup(elements, id).Some?
  {
    if ids != [] {
      var init := ids[..|ids| - 1];
      var last := ids[|ids| - 1];
      assert ids == init + [last];
      assert forall id :: id in ids <==> id in init || id == last;
      ResolveComplete(init, elements);
      if Lookup(elements, last).None? {
        assert |Resolve(ids, elements)| == |Resolve(init, elements)| < |ids|;
        assert last in ids && !Lookup(elements, last).Some?;
      } else {
        assert Resolve(ids, elements) == Resolve(init, elements) + [Lookup(elements, last).value];
      }
    }
  }

  /** The request carries `starting_ids`, `bench_ids` and `captain_id`. */
  predicate HasKeys(req: Request) {
    req.startingIds.Some? && req.benchIds.Some? && req.hasCaptainId
  }

  /** The 400 checks of app.py:346-377, in the source's order: missing keys, then a
      squad that does not resolve to 15 players, then starters that do not resolve to 11. */
  function ValidateRequest(req: Request, elements: seq<Player>): (r: Result<Squad, RequestError>)
    ensures r == Err(MissingFields) <==> !HasKeys(req)
    ensures HasKeys(req) ==>
      (r.Ok? <==>
        |Resolve(req.startingIds.value + req.benchIds.value, elements)| == SquadSize
        && |Resolve(req.startingIds.value, elements)| == StartersWanted)
    ensures r.Ok? ==> r.value.startingIds == req.startingIds.value
    ensures r.Ok? ==> r.value.all == Resolve(req.startingIds.value + req.benchIds.value, elements)
    ensures r.Ok? ==> r.value.starting == Resolve(req.startingIds.value, elements)
    ensures r.Ok? ==> |r.value.all| == SquadSize && |r.value.starting| == StartersWanted
    ensures r.Ok? ==> r.value.all[..StartersWanted] == r.value.starting
    ensures r.Ok? ==> forall p :: p in r.value.all ==> p in elements
    ensures r.Err? && r.error.WrongSquadSize? ==>
      HasKeys(req) && r.error.provided == |Resolve(req.startingIds.value + req.benchIds.value, elements)|
      && r.error.provided != SquadSize
    ensures r.Err? && r.error.WrongStartingSize? ==>
      HasKeys(req) && |Resolve(req.startingIds.value + req.benchIds.value, elements)| == SquadSize
      && r.error.provided == |Resolve(req.startingIds.value, elements)| && r.error.provided != StartersWanted
  {
    if !HasKeys(req) then Err(MissingFields)
    else
      var s, b := req.startingIds.value, req.benchIds.value;
      var starting := Resolve(s, elements);
      var all := Resolve(s + b, elements);
      ResolveAppend(s, b, elements);
      if |all| != SquadSize then Err(WrongSquadSize(|all|))
      else if |starting| != StartersWanted then Err(WrongStartingSize(|starting|))
      else Ok(Squad(s, starting, all))
  }

  /** Eleven starting ids and four bench ids, all in the catalogue, are accepted. */
  lemma FullSquadAccepted(req: Request, elements: seq<Player>)
    requires req.startingIds.Some? && req.benchIds.Some? && req.hasCaptainId
    requires |req.startingIds.value| == StartersWanted && |req.benchIds.value| == SquadSize - StartersWanted
    requires forall id :: id in req.startingIds.value + req.benchIds.value ==> Lookup(elements, id).Some?
    ensures ValidateRequest(req, elements).Ok?
  {
    var s, b := req.startingIds.value, req.benchIds.value;
    ResolveComplete(s + b, elements);
    ResolveComplete(s, elements);
  }

  // ---------------------------------------------------------------------------
  // The bench (app.py:393)
  // ---------------------------------------------------------------------------

  function Starting(startingIds: seq<int>): Player -> bool {
    (p: Player) => p.id in startingIds
  }

  function NotStarting(startingIds: seq<int>): Player -> bool {
    (p: Player) => p.id !in startingIds
  }

  /** `[p for p in all_players if p['id'] not in starting_ids]`. */
  function BenchPlayers(all: seq<Player>, startingIds: seq<int>): (r: seq<Player>)
    ensures forall p :: p in r <==> p in all && p.id !in startingIds
  {
    SelectMembers(all, NotStarting(startingIds));
    Select(all, NotStarting(startingIds))
  }

  /** The squad players whose id is a starting id, in squad order. */
  function StartersIn(all: seq<Player>, startingIds: seq<int>): (r: seq<Player>)
    ensures forall p :: p in r <==> p in all && p.id in startingIds
  {
    SelectMembers(all, Starting(startingIds));
    Select(all, Starting(startingIds))
  }

  /** The bench and the squad players picked by a starting id share the squad out. */
  lemma BenchComplement(all: seq<Player>, startingIds: seq<int>)
    ensures multiset(StartersIn(all, startingIds)) + multiset(BenchPlayers(all, startingIds)) == multiset(all)
  {
    SelectSplit(all, Starting(startingIds), NotStarting(startingIds));
  }

  /** For an accepted request the resolved starters open the list of squad players with a
      starting id, and the bench holds at most four players, all resolved from `bench_ids`. */
  lemma AcceptedBench(req: Request, elements: seq<Player>)
    requires ValidateRequest(req, elements).Ok?
    ensures var sq := ValidateRequest(req, elements).value;
      StartersIn(sq.all, sq.startingIds) == sq.starting + StartersIn(Resolve(req.benchIds.value, elements), sq.startingIds)
    ensures var sq := ValidateRequest(req, elements).value;
      |BenchPlayers(sq.all, sq.startingIds)| <= SquadSize - StartersWanted
    ensures var sq := ValidateRequest(req, elements).value;
      forall p :: p in BenchPlayers(sq.all, sq.startingIds) ==> p in Resolve(req.benchIds.value, elements)
  {
    var sq := ValidateRequest(req, elements).value;
    var s, b := req.startingIds.value, req.benchIds.value;
    ResolveAppend(s, b, elements);
    var rest := Resolve(b, elements);
    AcceptedParts(sq.starting, rest, s);
  }

  lemma AcceptedParts(starting: seq<Player>, rest: seq<Player>, s: seq<int>)
    requires forall p :: p in starting ==> p.id in s
    ensures Select(starting + rest, Starting(s)) == starting + Select(rest, Starting(s))
    ensures Select(starting + rest, NotStarting(s)) == Select(rest, NotStarting(s))
  {
    StartersKept(starting, rest, Starting(s));
    StartersDropped(starting, rest, NotStarting(s));
  }

  lemma StartersKept(starting: seq<Player>, rest: seq<Player>, keep: Player -> bool)
    requires forall p :: p in starting ==> keep(p)
    ensures Select(starting + rest, keep) == starting + Select(rest, keep)
  {
    SelectAppend(starting, rest, keep);
    SelectAll(starting, keep);
  }

  lemma StartersDropped(starting: seq<Player>, rest: seq<Player>, keep: Player -> bool)
    requires forall p :: p in starting ==> !keep(p)
    ensures Select(starting + rest, keep) == Select(rest, keep)
  {
    SelectAppend(starting, rest, keep);
    SelectNone(starting, keep);
  }

  // ---------------------------------------------------------------------------
  // Free transfer and other suggestions (app.py:401-406)
  // ---------------------------------------------------------------------------

  /** The comparator of `sort(key=score_gain, reverse=True)`. */
  predicate GainAtLeast(a: Suggestion, b: Suggestion) {
    a.scoreGain >= b.scoreGain
  }

  /** Sorts the suggestions by gain, best first, and keeps the first as the free transfer. */
  method SplitSuggestions(suggestions: seq<Suggestion>) returns (free: seq<Suggestion>, other: seq<Suggestion>)
    ensures free + other == SortBy(suggestions, GainAtLeast)
    ensures |free| <= 1 && (free == [] <==> suggestions == [])
    ensures multiset(free + other) == multiset(suggestions)
    ensures SortedBy(free + other, GainAtLeast)
    ensures free != [] ==> forall s :: s in suggestions ==> s.scoreGain <= free[0].scoreGain
  {
    var sorted := SortBy(suggestions, GainAtLeast);
    assert TotalPreorder(GainAtLeast);
    SortByIsSorted(suggestions, GainAtLeast);
    free := Take(sorted, 1);
    other := Drop(sorted, 1);
    TakeDropJoin(sorted, 1);
    if free != [] {
      forall s | s in suggestions ensures s.scoreGain <= free[0].scoreGain {
        assert s in multiset(sorted);
        var k :| 0 <= k < |sorted| && sorted[k] == s;
        if k > 0 {
          assert GainAtLeast(sorted[0], sorted[k]);
        }
      }
    }
  }

  // ---------------------------------------------------------------------------
  // The squad after the free transfer (app.py:413-421)
  // ---------------------------------------------------------------------------

  /** `[t['in_player_object'] for t in free_transfers]`. */
  function Incoming(free: seq<Suggestion>): seq<Player> {
    seq(|free|, i requires 0 <= i < |free| => free[i].incoming)
  }

  /** `{t['out'] for t in free_transfers}`: the outgoing players' web names. */
  function OutNames(free: seq<Suggestion>): set<string> {
    set t | t in free :: t.outgoing.webName
  }

  function NameNotIn(names: set<string>): Player -> bool {
    (p: Player) => p.webName !in names
  }

  function NameIn(names: set<string>): Player -> bool {
    (p: Player) => p.webName in names
  }

  /** As written: every squad player whose web name is an outgoing name leaves. */
  function NewSquadByName(squad: seq<Player>, free: seq<Suggestion>): (r: seq<Player>)
    ensures forall p :: p in r <==> (p in squad && p.webName !in OutNames(free)) || p in Incoming(free)
  {
    SelectMembers(squad, NameNotIn(OutNames(free)));
    Select(squad, NameNotIn(OutNames(free)))
      + Incoming(free)
  }

  /** Two squad players who share the outgoing player's web name both leave, so one
      transfer takes the squad down by at least one player. */
  lemma NameRemovalShrinksSquad(squad: seq<Player>, t: Suggestion, other: Player)
    requires t.outgoing in squad && other in squad && other != t.outgoing
    requires other.webName == t.outgoing.webName
    ensures |NewSquadByName(squad, [t])| < |squad|
  {
    var names := OutNames([t]);
    assert t.outgoing.webName in names by { assert t in [t]; }
    SelectLosesTwo(squad, NameNotIn(names), NameIn(names), t.outgoing, other);
    assert |Incoming([t])| == 1;
  }

  lemma SelectLosesTwo(s: seq<Player>, keep: Player -> bool, drop: Player -> bool, a: Player, b: Player)
    requires forall p :: keep(p) == !drop(p)
    requires a in s && b in s && a != b && drop(a) && drop(b)
    ensures |Select(s, keep)| <= |s| - 2
  {
    SelectSizes(s, keep, drop);
    SelectsTwo(s, drop, a, b);
  }

  lemma SelectSizes(s: seq<Player>, keep: Player -> bool, drop: Player -> bool)
    requires forall p :: keep(p) == !drop(p)
    ensures |Select(s, keep)| + |Select(s, drop)| == |s|
  {
    SelectSplit(s, keep, drop);
    assert |multiset(Select(s, keep)) + multiset(Select(s, drop))| == |multiset(s)|;
  }

  lemma SelectsTwo(s: seq<Player>, drop: Player -> bool, a: Player, b: Player)
    requires a in s && b in s && a != b && drop(a) && drop(b)
    ensures |Select(s, drop)| >= 2
  {
    var gone := Select(s, drop);
    SelectMembers(s, drop);
    assert a in gone && b in gone;
    assert multiset{a, b} <= multiset(gone);
    assert |multiset{a, b}| == 2;
  }

  /** Ids of the outgoing players. */
  function OutIds(free: seq<Suggestion>): set<int> {
    set t | t in free :: t.outgoing.id
  }

  function IdNotIn(ids: set<int>): Player -> bool {
    (p: Player) => p.id !in ids
  }

  /** As intended: exactly the outgoing players leave, told apart by id. */
  function NewSquadById(squad: seq<Player>, free: seq<Suggestion>): (r: seq<Player>)
    ensures forall p :: p in r <==> (p in squad && p.id !in OutIds(free)) || p in Incoming(free)
  {
    SelectMembers(squad, IdNotIn(OutIds(free)));
    Select(squad, IdNotIn(OutIds(free)))
      + Incoming(free)
  }

  ghost predicate DistinctIds(s: seq<Player>) {
    forall i, j :: 0 <= i < j < |s| ==> s[i].id != s[j].id
  }

  /** In a squad with distinct ids, one transfer swaps the outgoing player for the
      incoming one and keeps the squad's size. */
  lemma TransferSwapsOne(squad: seq<Player>, t: Suggestion)
    requires DistinctIds(squad) && t.outgoing in squad
    ensures multiset(NewSquadById(squad, [t])) == multiset(squad) - multiset{t.outgoing} + multiset{t.incoming}
    ensures |NewSquadById(squad, [t])| == |squad|
  {
    assert OutIds([t]) == {t.outgoing.id};
    assert Incoming([t]) == [t.incoming];
    var k :| 0 <= k < |squad| && squad[k] == t.outgoing;
    SelectDropsOne(squad, k, IdNotIn(OutIds([t])));
    WithoutSlot(squad, k);
  }

  lemma WithoutSlot(s: seq<Player>, k: nat)
    requires k < |s|
    ensures multiset(s[..k] + s[k + 1..]) == multiset(s) - multiset{s[k]}
  {
    assert s == s[..k] + [s[k]] + s[k + 1..];
  }

  /** Keeping the players whose id differs from the `k`-th player's removes exactly that slot. */
  lemma SelectDropsOne(s: seq<Player>, k: nat, keep: Player -> bool)
    requires DistinctIds(s) && k < |s|
    requires forall p :: keep(p) == (p.id != s[k].id)
    ensures Select(s, keep) == s[..k] + s[k + 1..]
  {
    OthersKept(s, k, keep);
    DropSlot(s, k, keep);
  }

  lemma OthersKept(s: seq<Player>, k: nat, keep: Player -> bool)
    requires DistinctIds(s) && k < |s|
    requires forall p :: keep(p) == (p.id != s[k].id)
    ensures forall p :: p in s[..k] ==> keep(p)
    ensures forall p :: p in s[k + 1..] ==> keep(p)
  {
    forall p | p in s[..k] ensures keep(p) {
      var i :| 0 <= i < k && s[..k][i] == p;
      assert s[i].id != s[k].id;
    }
    forall p | p in s[k + 1..] ensures keep(p) {
      var i :| 0 <= i < |s| - k - 1 && s[k + 1..][i] == p;
      assert s[k + 1 + i].id != s[k].id;
    }
  }

  lemma DropSlot(s: seq<Player>, k: nat, keep: Player -> bool)
    requires k < |s| && !keep(s[k])
    requires forall p :: p in s[..k] ==> keep(p)
    requires forall p :: p in s[k + 1..] ==> keep(p)
    ensures Select(s, keep) == s[..k] + s[k + 1..]
  {
    assert s == s[..k] + [s[k]] + s[k + 1..];
    DropMiddle(s[..k], s[k], s[k + 1..], keep);
  }

  lemma DropMiddle(before: seq<Player>, x: Player, after: seq<Player>, keep: Player -> bool)
    requires forall p :: p in before ==> keep(p)
    requires forall p :: p in after ==> keep(p)
    requires !keep(x)
    ensures Select(before + [x] + after, keep) == before + after
  {
    SelectAll(before, keep);
    SelectAll(after, keep);
    SelectAppend(before + [x], after, keep);
    SelectAppend(before, [x], keep);
    SelectNone([x], keep);
  }



  // ---------------------------------------------------------------------------
  // Team details (app.py:485-494)
  // ---------------------------------------------------------------------------

  /** One row of `team_details`; the price stays in tenths and `form` is not kept. */
  datatype Detail = Detail(name: string, price: int, points: int, role: Role)

  function DetailOf(p: Player, startingIds: seq<int>): Detail {
    Detail(p.webName, p.nowCost, p.totalPoints, if p.id in startingIds then Starter else Sub)
  }

  /** The rows before sorting, one per squad player in squad order. */
  function DetailsOf(all: seq<Player>, startingIds: seq<int>): seq<Detail> {
    seq(|all|, i requires 0 <= i < |all| => DetailOf(all[i], startingIds))
  }

  /** Python's `<=` on strings: lexicographic by code point, a prefix first. */
  predicate StrLe(a: string, b: string) {
    a == [] || (b != [] && (a[0] < b[0] || (a[0] == b[0] && StrLe(a[1..], b[1..]))))
  }

  lemma {:induction false} StrLeTotal(a: string, b: string)
    ensures StrLe(a, b) || StrLe(b, a)
  {
    if a != [] && b != [] && a[0] == b[0] {
      StrLeTotal(a[1..], b[1..]);
    }
  }

  lemma {:induction false} StrLeTrans(a: string, b: string, c: string)
    requires StrLe(a, b) && StrLe(b, c)
    ensures StrLe(a, c)
  {
    if a != [] && a[0] == b[0] && b[0] == c[0] {
      StrLeTrans(a[1..], b[1..], c[1..]);
    }
  }

  /** The comparator of `sort(key=lambda x: (x['role'] != 'Starter', x['name']))`:
      starters first, then by name. */
  predicate DetailBefore(x: Detail, y: Detail) {
    (x.role == Starter && y.role != Starter) ||
    ((x.role == Starter) == (y.role == Starter) && StrLe(x.name, y.name))
  }

  lemma DetailBeforeIsPreorder()
    ensures TotalPreorder(DetailBefore)
  {
    forall x, y ensures DetailBefore(x, y) || DetailBefore(y, x) {
      StrLeTotal(x.name, y.name);
    }
    forall x, y, z | DetailBefore(x, y) && DetailBefore(y, z) ensures DetailBefore(x, z) {
      if (x.role == Starter) == (y.role == Starter) == (z.role == Starter) {
        StrLeTrans(x.name, y.name, z.name);
      }
    }
  }

  /** Builds one row per squad player and sorts them: starters before substitutes,
      and by name within each group. */
  method TeamDetails(all: seq<Player>, startingIds: seq<int>) returns (details: seq<Detail>)
    ensures multiset(details) == multiset(DetailsOf(all, startingIds))
    ensures forall i, j :: 0 <= i < j < |details| && details[j].role == Starter ==> details[i].role == Starter
    ensures forall i, j :: 0 <= i < j < |details| && details[i].role == details[j].role ==>
      StrLe(details[i].name, details[j].name)
  {
    var rows := [];
    for i := 0 to |all|
      invariant |rows| == i
      invariant forall k :: 0 <= k < i ==> rows[k] == DetailOf(all[k], startingIds)
    {
      rows := rows + [DetailOf(all[i], startingIds)];
    }
    assert rows == DetailsOf(all, startingIds);
    details := SortBy(rows, DetailBefore);
    DetailBeforeIsPreorder();
    SortByIsSorted(rows, DetailBefore);
    forall i, j | 0 <= i < j < |details| ensures DetailBefore(details[i], details[j]) {
    }
  }
}
