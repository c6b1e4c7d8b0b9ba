/** Records of the fantasy-football catalogue as the analysis server sees them. */
module Types {
  import Sorting

  datatype Option<T> = None | Some(value: T)

  datatype Result<T, E> = Ok(value: T) | Err(error: E)

  /** A row of the catalogue's `elements` list. `nowCost` is the price in tenths
      (`now_cost`); `photo` is None when the key is missing or null. */
  datatype Player = Player(
    id: int,
    webName: string,
    elementType: int,
    team: int,
    nowCost: int,
    totalPoints: int,
    photo: Option<string>)

  datatype Team = Team(id: int, code: int)

  /** A row of the fixtures list; `event` is the gameweek, None when unscheduled. */
  datatype Fixture = Fixture(
    event: Option<int>,
    teamH: int,
    teamA: int,
    teamHDifficulty: int,
    teamADifficulty: int)

  /** What the server fetched: players, teams, fixtures and the next gameweek id. */
  datatype Catalog = Catalog(
    elements: seq<Player>,
    teams: seq<Team>,
    fixtures: seq<Fixture>,
    nextGameweek: Option<int>)

  /** The fixture-adjusted player score, left opaque: player and difficulty to a score. */
  type Rater = (Player, int) -> real

  /** A player paired with its fixture-adjusted score (`{'player': p, 'score': s}`). */
  datatype Scored = Scored(player: Player, score: real)

  datatype Role = Captain | ViceCaptain | Starter | Sub

  datatype LineupEntry = LineupEntry(player: Player, role: Role)

  /** One transfer suggestion. The source keeps only the outgoing player's name;
      the model keeps the whole record so that the name and id are both at hand. */
  datatype Suggestion = Suggestion(
    outgoing: Player,
    outClubLogoUrl: string,
    outFaceUrl: string,
    incoming: Player,
    inClubLogoUrl: string,
    inFaceUrl: string,
    scoreGain: real)

  const Goalkeeper := 1
  const Defender := 2
  const Midfielder := 3
  const Forward := 4

  /** A full squad: fifteen players, eleven of whom start. */
  const SquadSize := 15
  const StartersWanted := 11

  predicate IsPosition(t: int) {
    Goalkeeper <= t <= Forward
  }

  predicate AllPositioned(s: seq<Scored>) {
    forall x :: x in s ==> IsPosition(x.player.elementType)
  }

  /** The comparator of every `sort(key=score, reverse=True)` in the source. */
  predicate ScoreAtLeast(a: Scored, b: Scored) {
    a.score >= b.score
  }

  lemma ScoreAtLeastIsPreorder()
    ensures Sorting.TotalPreorder(ScoreAtLeast)
  {
  }

  /** The players of a scored list, in order. */
  function PlayersOf(s: seq<Scored>): seq<Player> {
    seq(|s|, i requires 0 <= i < |s| => s[i].player)
  }

  /** The players of a lineup, in order. */
  function EntryPlayers(l: seq<LineupEntry>): seq<Player> {
    seq(|l|, i requires 0 <= i < |l| => l[i].player)
  }
}
