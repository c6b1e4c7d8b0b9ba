/** Fixture-difficulty lookup and the club-badge and player-photo URLs (app.py:48-68, 110-121). */
module Lookups {
  import opened Types

  // ---------------------------------------------------------------------------
  // Fixture difficulty
  // ---------------------------------------------------------------------------

  /** The difficulty used when no fixture data applies. */
  const NeutralDifficulty := 3

  /** Python truthiness of the gameweek id: None and 0 are both falsy. */
  predicate GameweekGiven(gameweek: Option<int>) {
    gameweek.Some? && gameweek.value != 0
  }

  /** Fixture `f` is in gameweek `gw` and `team` plays in it, at home or away. */
  predicate Involves(f: Fixture, team: int, gw: int) {
    f.event == Some(gw) && (f.teamH == team || f.teamA == team)
  }

  /** The difficulty `f` gives `team`; the home side is checked first. */
  function DifficultyFor(f: Fixture, team: int): int {
    if f.teamH == team then f.teamHDifficulty else f.teamADifficulty
  }

  /** The loop over `all_fixtures`: the first fixture of the gameweek involving the team decides. */
  function SearchDifficulty(team: int, gw: int, fixtures: seq<Fixture>): (r: int)
    ensures r == NeutralDifficulty
            || exists i :: 0 <= i < |fixtures| && Involves(fixtures[i], team, gw) && r == DifficultyFor(fixtures[i], team)
  {
    if fixtures == [] then NeutralDifficulty
    else if fixtures[0].event == Some(gw) && fixtures[0].teamH == team then fixtures[0].teamHDifficulty
    else if fixtures[0].event == Some(gw) && fixtures[0].teamA == team then fixtures[0].teamADifficulty
    else
      var rest := SearchDifficulty(team, gw, fixtures[1..]);
      assert forall i :: 0 <= i < |fixtures[1..]| ==> fixtures[1..][i] == fixtures[i + 1];
      rest
  }

  /** `get_player_fixture_difficulty`: the neutral difficulty, or the difficulty some fixture
      of the requested gameweek gives the club. */
  function FixtureDifficulty(team: int, gameweek: Option<int>, fixtures: seq<Fixture>): (r: int)
    ensures r == NeutralDifficulty
            || (GameweekGiven(gameweek)
                && exists i :: 0 <= i < |fixtures| && Involves(fixtures[i], team, gameweek.value)
                               && r == DifficultyFor(fixtures[i], team))
  {
    if fixtures == [] || !GameweekGiven(gameweek) then NeutralDifficulty
    else SearchDifficulty(team, gameweek.value, fixtures)
  }

  lemma {:induction false} SearchDifficultyNone(team: int, gw: int, fixtures: seq<Fixture>)
    requires forall i :: 0 <= i < |fixtures| ==> !Involves(fixtures[i], team, gw)
    ensures SearchDifficulty(team, gw, fixtures) == NeutralDifficulty
  {
    if fixtures != [] {
      assert !Involves(fixtures[0], team, gw);
      forall i | 0 <= i < |fixtures[1..]| ensures !Involves(fixtures[1..][i], team, gw) {
        assert fixtures[1..][i] == fixtures[i + 1];
      }
      SearchDifficultyNone(team, gw, fixtures[1..]);
    }
  }

  lemma {:induction false} SearchDifficultyFirst(team: int, gw: int, fixtures: seq<Fixture>, k: nat)
    requires k < |fixtures| && Involves(fixtures[k], team, gw)
    requires forall i :: 0 <= i < k ==> !Involves(fixtures[i], team, gw)
    ensures SearchDifficulty(team, gw, fixtures) == DifficultyFor(fixtures[k], team)
  {
    if k > 0 {
      assert !Involves(fixtures[0], team, gw);
      forall i | 0 <= i < k - 1 ensures !Involves(fixtures[1..][i], team, gw) {
        assert fixtures[1..][i] == fixtures[i + 1];
      }
      SearchDifficultyFirst(team, gw, fixtures[1..], k - 1);
    }
  }

  /** The neutral 3 is returned when there are no fixtures, no usable gameweek, or no
      fixture of that gameweek involving the team. */
  lemma FixtureDifficultyDefault(team: int, gameweek: Option<int>, fixtures: seq<Fixture>)
    requires fixtures == [] || !GameweekGiven(gameweek)
             || forall i :: 0 <= i < |fixtures| ==> !Involves(fixtures[i], team, gameweek.value)
    ensures FixtureDifficulty(team, gameweek, fixtures) == NeutralDifficulty
  {
    if fixtures != [] && GameweekGiven(gameweek) {
      SearchDifficultyNone(team, gameweek.value, fixtures);
    }
  }

  /** Otherwise the first involving fixture in list order decides, home before away. */
  lemma FixtureDifficultyFirstMatch(team: int, gameweek: Option<int>, fixtures: seq<Fixture>, k: nat)
    requires GameweekGiven(gameweek)
    requires k < |fixtures| && Involves(fixtures[k], team, gameweek.value)
    requires forall i :: 0 <= i < k ==> !Involves(fixtures[i], team, gameweek.value)
    ensures FixtureDifficulty(team, gameweek, fixtures) == DifficultyFor(fixtures[k], team)
  {
    SearchDifficultyFirst(team, gameweek.value, fixtures, k);
  }

  /** A catalogue player's score adjusted for its next-gameweek fixture. */
  function AdjustedScore(p: Player, cat: Catalog, rate: Rater): real {
    rate(p, FixtureDifficulty(p.team, cat.nextGameweek, cat.fixtures))
  }

  // ---------------------------------------------------------------------------
  // Decimal rendering of integers, as an f-string renders them
  // ---------------------------------------------------------------------------

  predicate IsAsciiDigit(c: char) {
    '0' <= c <= '9'
  }

  /** `str.isdigit()`, restricted to ASCII digits; the empty string is not digits. */
  predicate IsDigitString(s: string) {
    |s| > 0 && forall i :: 0 <= i < |s| ==> IsAsciiDigit(s[i])
  }

  function DigitChar(d: nat): (c: char)
    requires d < 10
    ensures IsAsciiDigit(c) && (c as int) - ('0' as int) == d
  {
    (('0' as int) + d) as char
  }

  function NatToDecimal(n: nat): (r: string)
    ensures IsDigitString(r)
  {
    if n < 10 then [DigitChar(n)] else NatToDecimal(n / 10) + [DigitChar(n % 10)]
  }

  function IntToDecimal(n: int): string {
    if n < 0 then "-" + NatToDecimal(-n) else NatToDecimal(n)
  }

  /** The value of a string of ASCII digits, most significant first. */
  function DecimalValue(s: string): nat
    requires forall i :: 0 <= i < |s| ==> IsAsciiDigit(s[i])
  {
    if s == [] then 0
    else
      assert IsAsciiDigit(s[|s| - 1]);
      DecimalValue(s[..|s| - 1]) * 10 + ((s[|s| - 1] as int) - ('0' as int))
  }

  /** Reading back a rendered natural number gives the number. */
  lemma {:induction false} DecimalRoundTrip(n: nat)
    ensures DecimalValue(NatToDecimal(n)) == n
  {
    if n >= 10 {
      DecimalRoundTrip(n / 10);
      var s := NatToDecimal(n);
      assert s[..|s| - 1] == NatToDecimal(n / 10);
    }
  }

  // ---------------------------------------------------------------------------
  // Club badge URL
  // ---------------------------------------------------------------------------

  const Https := "https://"
  const LeagueHost := "resources.premierleague.com"
  const WikimediaHost := "upload.wikimedia.org"

  const LogoPrefix := Https + LeagueHost + "/premierleague/badges/70/t"
  const ImageSuffix := ".png"

  function LogoUrl(code: int): string {
    LogoPrefix + IntToDecimal(code) + ImageSuffix
  }

  lemma LogoUrlNonEmpty(code: int)
    ensures LogoUrl(code) != ""
  {
    assert |LogoPrefix| > 0;
  }

  /** `get_club_logo_url`: empty, or the badge URL of some team with the requested id. */
  function ClubLogoUrl(teamId: int, teams: seq<Team>): (r: string)
    ensures r == "" || exists k :: 0 <= k < |teams| && teams[k].id == teamId && r == LogoUrl(teams[k].code)
  {
    if teams == [] then ""
    else if teams[0].id == teamId then LogoUrl(teams[0].code)
    else
      var rest := ClubLogoUrl(teamId, teams[1..]);
      assert forall k :: 0 <= k < |teams[1..]| ==> teams[1..][k] == teams[k + 1];
      rest
  }

  /** The URL comes from the code of the first team with the requested id. */
  lemma {:induction false} ClubLogoUrlFirstMatch(teamId: int, teams: seq<Team>, k: nat)
    requires k < |teams| && teams[k].id == teamId
    requires forall i :: 0 <= i < k ==> teams[i].id != teamId
    ensures ClubLogoUrl(teamId, teams) == LogoUrl(teams[k].code)
  {
    if k > 0 {
      assert teams[0].id != teamId;
      ClubLogoUrlFirstMatch(teamId, teams[1..], k - 1);
    }
  }

  /** The empty string comes back exactly when no team has the id. */
  lemma {:induction false} ClubLogoUrlEmpty(teamId: int, teams: seq<Team>)
    ensures ClubLogoUrl(teamId, teams) == "" <==> forall i :: 0 <= i < |teams| ==> teams[i].id != teamId
  {
    if teams != [] {
      ClubLogoUrlEmpty(teamId, teams[1..]);
      assert teams[0].id != teamId ==>
        ((forall i :: 0 <= i < |teams[1..]| ==> teams[1..][i].id != teamId)
          <==> (forall i :: 0 <= i < |teams| ==> teams[i].id != teamId));
      LogoUrlNonEmpty(teams[0].code);
    }
  }

  // ---------------------------------------------------------------------------
  // Player photo URL
  // ---------------------------------------------------------------------------

  const Placeholder := Https + WikimediaHost + "/wikipedia/commons/8/89/Portrait_Placeholder.png"
  const FacePrefix := Https + LeagueHost + "/premierleague/photos/players/40x40/p"

  /** `s.replace('.jpg', '')`: occurrences removed left to right without overlap. */
  function StripJpg(s: string): string
    decreases |s|
  {
    if |s| >= 4 && s[..4] == ".jpg" then StripJpg(s[4..])
    else if s == [] then []
    else [s[0]] + StripJpg(s[1..])
  }

  function FaceUrl(photoId: string): string {
    FacePrefix + photoId + ImageSuffix
  }

  lemma FaceUrlIsNotPlaceholder(photoId: string)
    ensures FaceUrl(photoId) != Placeholder
  {
    assert LeagueHost[0] == 'r' && WikimediaHost[0] == 'u';
    assert FaceUrl(photoId)[|Https|] == 'r';
    assert Placeholder[|Https|] == 'u';
  }

  /** `get_player_face_url`: `photo` is None when the player, the key or its value is missing. */
  function PlayerFaceUrl(photo: Option<string>): (r: string)
    ensures r == Placeholder <==> photo.None? || photo.value == "" || !IsDigitString(StripJpg(photo.value))
    ensures r != Placeholder ==> IsDigitString(StripJpg(photo.value)) && r == FaceUrl(StripJpg(photo.value))
  {
    if photo.None? || photo.value == "" then Placeholder
    else
      var photoId := StripJpg(photo.value);
      if !IsDigitString(photoId) then Placeholder
      else
        FaceUrlIsNotPlaceholder(photoId);
        FaceUrl(photoId)
  }

  lemma {:induction false} StripJpgKeepsDigits(d: string, t: string)
    requires forall i :: 0 <= i < |d| ==> IsAsciiDigit(d[i])
    ensures StripJpg(d + t) == d + StripJpg(t)
  {
    if d != [] {
      var s := d + t;
      assert s[0] == d[0] && IsAsciiDigit(d[0]);
      assert |s| >= 4 ==> s[..4][0] == s[0];
      assert StripJpg(s) == [s[0]] + StripJpg(s[1..]);
      assert s[1..] == d[1..] + t;
      StripJpgKeepsDigits(d[1..], t);
      assert StripJpg(s) == [d[0]] + (d[1..] + StripJpg(t));
      assert [d[0]] + (d[1..] + StripJpg(t)) == ([d[0]] + d[1..]) + StripJpg(t);
      assert [d[0]] + d[1..] == d;
    } else {
      assert d + t == t;
    }
  }

  /** A catalogue photo name `<digits>.jpg` yields the URL embedding exactly those digits,
      and the embedded id reads back as the number it names. */
  lemma FaceUrlOfPhotoName(n: nat)
    ensures PlayerFaceUrl(Some(NatToDecimal(n) + ".jpg")) == FaceUrl(NatToDecimal(n))
    ensures DecimalValue(NatToDecimal(n)) == n
  {
    var d := NatToDecimal(n);
    StripJpgKeepsDigits(d, ".jpg");
    assert StripJpg(".jpg") == "" by { assert ".jpg"[..4] == ".jpg"; }
    assert d + ".jpg" != "";
    DecimalRoundTrip(n);
  }
}
