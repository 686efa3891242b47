/**
 * The SQLite-backed lap logic, over the teams and tags tables held as maps
 * from primary key to row.  A tag read counts unless the tag was read less
 * than MIN_LAP_SECS ago; a counted read bumps the tag row and then the
 * owning team's row, sets the team's bit for the current hour, and yields a
 * notification carrying the team's competition rank.
 */
module SqlStore {
  import opened GoStd

  const MIN_LAP_SECS: int := 60
  const NANOS_PER_SECOND: int := 1_000_000_000
  /** The duplicate-read window in nanoseconds, the unit of tag_last_updated. */
  const MIN_LAP_NANOS: int := MIN_LAP_SECS * NANOS_PER_SECOND
  const MAX_INT32: int := 0x7FFF_FFFF
  /** getTeamRanks ranks the first 999 rows of the leaderboard. */
  const LEADERBOARD_SIZE: int := 999
  const TIE_MARKER: string := " (T)"

  /** A row of the teams table as the queries return it; Rank is never stored. */
  datatype Team = Team(hours: bv64, laps: int, leader: string, name: string, rank: string, teamID: int)

  datatype Tag = Tag(laps: int, lastUpdated: int, tagID: int, teamID: int)

  datatype Notification = Notification(tagID: int, teamID: int, teamLaps: int, teamName: string, teamRank: string)

  datatype LapError = UnassignedTag | DuplicateRead

  /** A constraint an INSERT violates: a primary key already present, or a foreign key to a missing team. */
  datatype InsertError = DuplicateKey(key: int) | MissingTeam(teamID: int)

  datatype TeamRow = TeamRow(hours: bv64, laps: int, leader: string, name: string)

  datatype TagRow = TagRow(laps: int, lastUpdated: int, teamID: int)

  /** The database: each table keyed by its primary key. */
  datatype Tables = Tables(teams: map<int, TeamRow>, tags: map<int, TagRow>)

  function RowTeam(teamID: int, row: TeamRow): Team {
    Team(row.hours, row.laps, row.leader, row.name, "", teamID)
  }

  function RowTag(tagID: int, row: TagRow): Tag {
    Tag(row.laps, row.lastUpdated, tagID, row.teamID)
  }

  /** The Team that getOneTeam fills in when no row matches: Go's zero value. */
  const NO_TEAM: Team := Team(0, 0, "", "", "", 0)

  // ---------------------------------------------------------------------
  // Counting a lap
  // ---------------------------------------------------------------------

  /** The duplicate check: a read less than MIN_LAP_SECS after the last counted one. */
  predicate IsDuplicateRead(lastUpdated: int, now: int) {
    now - lastUpdated < MIN_LAP_NANOS
  }

  /** incrementLaps' two updates: the tag row, then the team row (a missing team row is not updated). */
  function AfterLapRows(t: Tables, tag: Tag, now: int): Tables {
    var tags := if tag.tagID in t.tags
      then t.tags[tag.tagID := t.tags[tag.tagID].(laps := t.tags[tag.tagID].laps + 1, lastUpdated := now)]
      else t.tags;
    var teams := if tag.teamID in t.teams
      then t.teams[tag.teamID := t.teams[tag.teamID].(laps := t.teams[tag.teamID].laps + 1)]
      else t.teams;
    Tables(teams, tags)
  }

  /** uint(1) << hour on a 64-bit uint: zero once the shift reaches the width. */
  function HourBit(hour: bv64): bv64 {
    if hour < 64 then (1 as bv64) << hour else 0
  }

  /** The mask after the hour update: it gains the hour's bit, written only when the bit was clear. */
  function MaskWithHour(hours: bv64, hour: bv64): bv64 {
    if hours & HourBit(hour) == 0 then hours | HourBit(hour) else hours
  }

  function WithHour(row: TeamRow, hour: bv64): TeamRow {
    row.(hours := MaskWithHour(row.hours, hour))
  }

  /** The hour update on the teams table; a missing team row is not updated. */
  function AfterHours(t: Tables, teamID: int, hour: bv64): Tables {
    if teamID in t.teams then t.(teams := t.teams[teamID := WithHour(t.teams[teamID], hour)]) else t
  }

  /** The tables after IncrementLaps(tagID, hour) at time now. */
  function AfterIncrementLaps(t: Tables, tagID: int, hour: bv64, now: int): Tables {
    if tagID !in t.tags || IsDuplicateRead(t.tags[tagID].lastUpdated, now) then t
    else AfterHours(AfterLapRows(t, RowTag(tagID, t.tags[tagID]), now), t.tags[tagID].teamID, hour)
  }

  /** The notification for a counted read: the owning team's id, name and laps as read back, and its rank. */
  function LapNotification(t: Tables, tagID: int, teamID: int, rank: string): Notification {
    var team := if teamID in t.teams then RowTeam(teamID, t.teams[teamID]) else NO_TEAM;
    Notification(tagID, team.teamID, team.laps, team.name, rank)
  }

  // ---------------------------------------------------------------------
  // The leaderboard and the rank walk
  // ---------------------------------------------------------------------

  predicate OnBoard(board: seq<Team>, teamID: int) {
    exists i :: 0 <= i < |board| && board[i].teamID == teamID
  }

  predicate DistinctIDs(board: seq<Team>) {
    forall i, j :: 0 <= i < j < |board| ==> board[i].teamID != board[j].teamID
  }

  predicate SortedByLapsDesc(board: seq<Team>) {
    forall i, j :: 0 <= i < j < |board| ==> board[j].laps <= board[i].laps
  }

  /** The number of rows LIMIT keeps: all of them for a negative limit, as in SQLite. */
  function BoardSize(limit: int, rows: nat): nat {
    if limit < 0 || limit > rows then rows else limit
  }

  /**
   * What SELECT … ORDER BY team_laps DESC LIMIT limit may return: distinct
   * rows of the table, most laps first, as many as the limit allows, and no
   * row left out that has more laps than one kept.  The order among equal lap
   * counts is not fixed.
   */
  ghost predicate IsLeaderboard(t: Tables, limit: int, board: seq<Team>) {
    && |board| == BoardSize(limit, |t.teams|)
    && (forall i :: 0 <= i < |board| ==> board[i].teamID in t.teams && board[i] == RowTeam(board[i].teamID, t.teams[board[i].teamID]))
    && DistinctIDs(board)
    && SortedByLapsDesc(board)
    && (forall i, k :: 0 <= i < |board| && k in t.teams && !OnBoard(board, k) ==> t.teams[k].laps <= board[i].laps)
  }

  /** A rank number and whether the tie marker follows it. */
  datatype RankMark = RankMark(rank: int, tied: bool)

  /** How getTeamRanks writes a rank: the number in decimal, then " (T)" for a tie. */
  function RankText(m: RankMark): string {
    Itoa(m.rank) + (if m.tied then TIE_MARKER else "")
  }

  /**
   * The state of getTeamRanks' loop: rank, prevLaps, and for each team
   * walked so far the rank and tie flag its string was written from.
   */
  datatype Walk = Walk(rank: int, prevLaps: int, marks: map<int, RankMark>)

  /** The ranks map of a walk: each team's string. */
  function RankStrings(marks: map<int, RankMark>): map<int, string> {
    map id | id in marks :: RankText(marks[id])
  }

  /** One iteration of the walk, for the team at position nextRank (counting from 1). */
  function WalkStep(w: Walk, team: Team, nextRank: int): Walk {
    var rank := if team.laps < w.prevLaps then nextRank else w.rank;
    Walk(rank, team.laps, w.marks[team.teamID := RankMark(rank, team.laps == w.prevLaps)])
  }

  /** The walk over the first n teams of the board. */
  function WalkPrefix(board: seq<Team>, n: nat): Walk
    requires n <= |board|
  {
    if n == 0 then Walk(0, MAX_INT32, map[]) else WalkStep(WalkPrefix(board, n - 1), board[n - 1], n)
  }

  /** getOneTeamRank's answer for a board: the team's rank string, or "" for a team not on it. */
  function TeamRank(board: seq<Team>, teamID: int): string {
    var marks := WalkPrefix(board, |board|).marks;
    if teamID in marks then RankText(marks[teamID]) else ""
  }

  /** The number of teams on the board with more laps than laps. */
  function CountAbove(board: seq<Team>, laps: int): nat {
    if board == [] then 0 else (if board[0].laps > laps then 1 else 0) + CountAbove(board[1..], laps)
  }

  /**
   * Competition ranking, the reference for the walk: one more than the
   * number of teams with strictly more laps, marked as a tie when the team
   * right before has the same count.
   */
  function RankAt(board: seq<Team>, i: nat): string
    requires i < |board|
  {
    RankText(MarkAt(board, i))
  }

  function MarkAt(board: seq<Team>, i: nat): RankMark
    requires i < |board|
  {
    RankMark(1 + CountAbove(board, board[i].laps), i > 0 && board[i - 1].laps == board[i].laps)
  }

  predicate BelowMaxInt32(board: seq<Team>) {
    forall i :: 0 <= i < |board| ==> board[i].laps < MAX_INT32
  }

  lemma {:induction false} CountAboveSplit(a: seq<Team>, b: seq<Team>, laps: int)
    ensures CountAbove(a + b, laps) == CountAbove(a, laps) + CountAbove(b, laps)
    decreases |a|
  {
    if a == [] {
      assert a + b == b;
    } else {
      assert (a + b)[1..] == a[1..] + b;
      CountAboveSplit(a[1..], b, laps);
    }
  }

  lemma {:induction false} CountAboveAll(s: seq<Team>, laps: int)
    requires forall i :: 0 <= i < |s| ==> s[i].laps > laps
    ensures CountAbove(s, laps) == |s|
    decreases |s|
  {
    if s != [] {
      CountAboveAll(s[1..], laps);
    }
  }

  lemma {:induction false} CountAboveNone(s: seq<Team>, laps: int)
    requires forall i :: 0 <= i < |s| ==> s[i].laps <= laps
    ensures CountAbove(s, laps) == 0
    decreases |s|
  {
    if s != [] {
      CountAboveNone(s[1..], laps);
    }
  }

  lemma SortedAt(board: seq<Team>, k: nat, j: nat)
    requires SortedByLapsDesc(board) && k <= j < |board|
    ensures board[j].laps <= board[k].laps
  {
    if k < j {
      assert board[j].laps <= board[k].laps;
    }
  }

  /** On a sorted board, the first team of a lap count has exactly its position's worth of teams above it. */
  lemma CountAboveAtGroupStart(board: seq<Team>, i: nat)
    requires SortedByLapsDesc(board) && i < |board|
    requires i == 0 || board[i - 1].laps > board[i].laps
    ensures CountAbove(board, board[i].laps) == i
  {
    var laps := board[i].laps;
    assert board == board[..i] + board[i..];
    CountAboveSplit(board[..i], board[i..], laps);
    CountAboveBefore(board, i);
    CountAboveFrom(board, i);
  }

  /** Before the first team of a lap count, every team has more laps. */
  lemma CountAboveBefore(board: seq<Team>, i: nat)
    requires SortedByLapsDesc(board) && i < |board|
    requires i == 0 || board[i - 1].laps > board[i].laps
    ensures CountAbove(board[..i], board[i].laps) == i
  {
    var above := board[..i];
    forall k | 0 <= k < |above| ensures above[k].laps > board[i].laps {
      SortedAt(board, k, i - 1);
    }
    CountAboveAll(above, board[i].laps);
  }

  /** From a team on, no team of a sorted board has more laps. */
  lemma CountAboveFrom(board: seq<Team>, i: nat)
    requires SortedByLapsDesc(board) && i < |board|
    ensures CountAbove(board[i..], board[i].laps) == 0
  {
    var rest := board[i..];
    forall k | 0 <= k < |rest| ensures rest[k].laps <= board[i].laps {
      SortedAt(board, i, i + k);
    }
    CountAboveNone(rest, board[i].laps);
  }

  /** The walk's rank and prevLaps after n teams of a sorted board with counts below MaxInt32. */
  lemma {:induction false} WalkCounters(board: seq<Team>, n: nat)
    requires n <= |board|
    requires SortedByLapsDesc(board) && BelowMaxInt32(board)
    ensures n == 0 ==> WalkPrefix(board, n).rank == 0 && WalkPrefix(board, n).prevLaps == MAX_INT32
    ensures n > 0 ==> WalkPrefix(board, n).prevLaps == board[n - 1].laps
    ensures n > 0 ==> WalkPrefix(board, n).rank == 1 + CountAbove(board, board[n - 1].laps)
    decreases n
  {
    if n > 0 {
      WalkCounters(board, n - 1);
      var w := WalkPrefix(board, n - 1);
      assert WalkPrefix(board, n).rank == if board[n - 1].laps < w.prevLaps then n else w.rank;
      assert WalkPrefix(board, n).prevLaps == board[n - 1].laps;
      if n == 1 {
        CountAboveAtGroupStart(board, 0);
      } else if board[n - 2].laps > board[n - 1].laps {
        CountAboveAtGroupStart(board, n - 1);
      } else {
        assert board[n - 1].laps <= board[n - 2].laps;
      }
    }
  }

  /** The strings the step for position n writes is that position's RankAt. */
  lemma WalkStepText(board: seq<Team>, n: nat)
    requires 0 < n <= |board|
    requires SortedByLapsDesc(board) && BelowMaxInt32(board)
    ensures board[n - 1].teamID in WalkPrefix(board, n).marks
    ensures WalkPrefix(board, n).marks[board[n - 1].teamID] == MarkAt(board, n - 1)
  {
    WalkCounters(board, n - 1);
    if n == 1 || board[n - 2].laps > board[n - 1].laps {
      CountAboveAtGroupStart(board, n - 1);
    }
  }

  /** A step of the walk leaves the string of an earlier team alone when ids are distinct. */
  lemma WalkStepKeeps(board: seq<Team>, n: nat, m: nat)
    requires m < n - 1 && n <= |board| && DistinctIDs(board)
    ensures board[m].teamID in WalkPrefix(board, n - 1).marks ==>
      board[m].teamID in WalkPrefix(board, n).marks
      && WalkPrefix(board, n).marks[board[m].teamID] == WalkPrefix(board, n - 1).marks[board[m].teamID]
  {
    assert board[m].teamID != board[n - 1].teamID;
  }

  /**
   * The walk computes competition ranks: on a board sorted by descending
   * laps, with distinct team ids and every count below MaxInt32, the string
   * of the team at position m, once the walk has passed it, is its RankAt.
   */
  lemma WalkMatchesRankAt(board: seq<Team>, n: nat, m: nat)
    requires m < n <= |board|
    requires SortedByLapsDesc(board) && DistinctIDs(board) && BelowMaxInt32(board)
    ensures board[m].teamID in WalkPrefix(board, n).marks
    ensures WalkPrefix(board, n).marks[board[m].teamID] == MarkAt(board, m)
  {
    WalkStepText(board, m + 1);
    WalkKeepsFrom(board, m + 1, n, m);
  }

  /** Once the walk has written the string of position m, later steps with other ids leave it alone. */
  lemma {:induction false} WalkKeepsFrom(board: seq<Team>, k: nat, n: nat, m: nat)
    requires m < k <= n <= |board| && DistinctIDs(board)
    requires board[m].teamID in WalkPrefix(board, k).marks
    ensures board[m].teamID in WalkPrefix(board, n).marks
    ensures WalkPrefix(board, n).marks[board[m].teamID] == WalkPrefix(board, k).marks[board[m].teamID]
    decreases n - k
  {
    if k < n {
      var id := board[m].teamID;
      WalkStepKeeps(board, k + 1, m);
      var mid := WalkPrefix(board, k + 1).marks;
      assert id in mid && mid[id] == WalkPrefix(board, k).marks[id];
      WalkKeepsFrom(board, k + 1, n, m);
      assert WalkPrefix(board, n).marks[id] == mid[id];
    } else {
      assert k == n;
    }
  }

  /** Each team's rank string, straight from the reference ranking. */
  lemma TeamRankIsRankAt(board: seq<Team>, i: nat)
    requires i < |board|
    requires SortedByLapsDesc(board) && DistinctIDs(board) && BelowMaxInt32(board)
    ensures TeamRank(board, board[i].teamID) == RankAt(board, i)
  {
    WalkMatchesRankAt(board, |board|, i);
  }

  /** Only teams on the board get a string from the walk. */
  lemma {:induction false} WalkKeys(board: seq<Team>, n: nat, k: int)
    requires n <= |board|
    ensures k in WalkPrefix(board, n).marks ==> OnBoard(board[..n], k)
    decreases n
  {
    if n > 0 {
      WalkKeys(board, n - 1, k);
      if k in WalkPrefix(board, n - 1).marks {
        var i :| 0 <= i < n - 1 && board[..n - 1][i].teamID == k;
        assert board[..n][i].teamID == k;
      }
      assert board[..n][n - 1].teamID == board[n - 1].teamID;
    }
  }

  /** A team missing from the board gets "". */
  lemma TeamRankOffBoard(board: seq<Team>, teamID: int)
    requires !OnBoard(board, teamID)
    ensures TeamRank(board, teamID) == ""
  {
    WalkKeys(board, |board|, teamID);
    assert board[..|board|] == board;
  }

  /**
   * The marker is asymmetric: the first team of a group with equal laps has
   * none, the next one has it, and both share the rank number.
   */
  lemma TieMarkerAsymmetric(board: seq<Team>, i: nat)
    requires SortedByLapsDesc(board) && i + 1 < |board|
    requires i == 0 || board[i - 1].laps > board[i].laps
    requires board[i].laps == board[i + 1].laps
    ensures RankAt(board, i) == Itoa(1 + i)
    ensures RankAt(board, i + 1) == RankAt(board, i) + TIE_MARKER
  {
    CountAboveAtGroupStart(board, i);
  }

  function TeamWithLaps(teamID: int, laps: int): Team {
    Team(0, laps, "", "", "", teamID)
  }

  /** A board with lap counts 10, 10, 7, 5, 5, 5 for teams 0 to 5. */
  function ExampleBoard(): seq<Team> {
    [TeamWithLaps(0, 10), TeamWithLaps(1, 10), TeamWithLaps(2, 7), TeamWithLaps(3, 5), TeamWithLaps(4, 5), TeamWithLaps(5, 5)]
  }

  lemma ExampleBoardShape()
    ensures SortedByLapsDesc(ExampleBoard()) && DistinctIDs(ExampleBoard()) && BelowMaxInt32(ExampleBoard())
    ensures forall i :: 0 <= i < 6 ==> ExampleBoard()[i].teamID == i
  {
    var board := ExampleBoard();
    assert |board| == 6;
    assert board[0].laps == 10 && board[1].laps == 10 && board[2].laps == 7;
    assert board[3].laps == 5 && board[4].laps == 5 && board[5].laps == 5;
    forall i, j | 0 <= i < j < 6 ensures board[j].laps <= board[i].laps {
    }
  }

  lemma ExampleDigits()
    ensures Itoa(1) == "1" && Itoa(3) == "3" && Itoa(4) == "4"
  {
    assert DigitChar(1) == '1' && DigitChar(3) == '3' && DigitChar(4) == '4';
  }

  /** The two teams with 10 laps rank 1, the second marked as a tie. */
  lemma ExampleBoardLeaders()
    ensures RankAt(ExampleBoard(), 0) == "1" && RankAt(ExampleBoard(), 1) == "1 (T)"
  {
    var board := ExampleBoard();
    ExampleBoardShape();
    ExampleDigits();
    assert board[0].laps == 10 && board[1].laps == 10;
    CountAboveAtGroupStart(board, 0);
    assert RankAt(board, 0) == Itoa(1) + "";
    assert RankAt(board, 1) == Itoa(1) + TIE_MARKER;
  }

  /** The team with 7 laps ranks 3. */
  lemma ExampleBoardThird()
    ensures RankAt(ExampleBoard(), 2) == "3"
  {
    var board := ExampleBoard();
    ExampleBoardShape();
    ExampleDigits();
    assert board[1].laps == 10 && board[2].laps == 7;
    CountAboveAtGroupStart(board, 2);
    assert RankAt(board, 2) == Itoa(3) + "";
  }

  /** The three teams with 5 laps rank 4, the later two marked as ties. */
  lemma ExampleBoardLast()
    ensures RankAt(ExampleBoard(), 3) == "4" && RankAt(ExampleBoard(), 4) == "4 (T)" && RankAt(ExampleBoard(), 5) == "4 (T)"
  {
    var board := ExampleBoard();
    ExampleBoardShape();
    ExampleDigits();
    assert board[2].laps == 7 && board[3].laps == 5 && board[4].laps == 5 && board[5].laps == 5;
    CountAboveAtGroupStart(board, 3);
    assert RankAt(board, 3) == Itoa(4) + "";
    assert RankAt(board, 4) == Itoa(4) + TIE_MARKER;
    assert RankAt(board, 5) == Itoa(4) + TIE_MARKER;
  }

  /** Laps 10, 10, 7, 5, 5, 5 rank as 1, 1 (T), 3, 4, 4 (T), 4 (T). */
  lemma RanksExample()
    ensures TeamRank(ExampleBoard(), 0) == "1" && TeamRank(ExampleBoard(), 1) == "1 (T)"
    ensures TeamRank(ExampleBoard(), 2) == "3"
    ensures TeamRank(ExampleBoard(), 3) == "4" && TeamRank(ExampleBoard(), 4) == "4 (T)" && TeamRank(ExampleBoard(), 5) == "4 (T)"
  {
    var board := ExampleBoard();
    ExampleBoardShape();
    ExampleBoardLeaders();
    ExampleBoardThird();
    ExampleBoardLast();
    TeamRankIsRankAt(board, 0);
    TeamRankIsRankAt(board, 1);
    TeamRankIsRankAt(board, 2);
    TeamRankIsRankAt(board, 3);
    TeamRankIsRankAt(board, 4);
    TeamRankIsRankAt(board, 5);
  }

  /** A lap count at MaxInt32 or more defeats the walk: such a leader is ranked 0. */
  lemma WalkAtMaxInt32(team: Team)
    requires team.laps >= MAX_INT32
    ensures TeamRank([team], team.teamID) == (if team.laps == MAX_INT32 then "0" + TIE_MARKER else "0")
  {
    assert WalkPrefix([team], 1) == WalkStep(Walk(0, MAX_INT32, map[]), team, 1);
    assert Itoa(0) == "0";
  }

  /** Some team in a non-empty set has the most laps. */
  lemma {:induction false} MaxLapsExists(rows: map<int, TeamRow>, s: set<int>)
    requires s != {} && s <= rows.Keys
    ensures exists id :: id in s && forall k :: k in s ==> rows[k].laps <= rows[id].laps
    decreases |s|
  {
    EmptyOrMember(s);
    var x :| x in s;
    var rest := s - {x};
    EmptyOrMember(rest);
    assert forall k :: k in s ==> k == x || k in rest;
    if rest == {} {
      assert forall k :: k in s ==> rows[k].laps <= rows[x].laps;
    } else {
      MaxLapsExists(rows, rest);
      var y :| y in rest && forall k :: k in rest ==> rows[k].laps <= rows[y].laps;
      if rows[x].laps <= rows[y].laps {
        assert forall k :: k in s ==> rows[k].laps <= rows[y].laps;
      } else {
        assert forall k :: k in s ==> rows[k].laps <= rows[x].laps;
      }
    }
  }

  /**
   * The selection so far: rows taken out of remaining in order of descending
   * laps, each at least as high as every row still remaining.
   */
  predicate BoardSoFar(rows: map<int, TeamRow>, board: seq<Team>, remaining: set<int>) {
    && remaining <= rows.Keys
    && |board| + |remaining| == |rows|
    && (forall i :: 0 <= i < |board| ==>
          board[i].teamID in rows && board[i].teamID !in remaining && board[i] == RowTeam(board[i].teamID, rows[board[i].teamID]))
    && (forall k :: k in rows && k !in remaining ==> OnBoard(board, k))
    && DistinctIDs(board) && SortedByLapsDesc(board)
    && (forall i, k :: 0 <= i < |board| && k in remaining ==> rows[k].laps <= board[i].laps)
  }

  /** Taking a remaining row with the most laps extends the selection. */
  lemma BoardSoFarGrows(rows: map<int, TeamRow>, board: seq<Team>, remaining: set<int>, id: int)
    requires BoardSoFar(rows, board, remaining)
    requires id in remaining && forall k :: k in remaining ==> rows[k].laps <= rows[id].laps
    ensures BoardSoFar(rows, board + [RowTeam(id, rows[id])], remaining - {id})
  {
    var team := RowTeam(id, rows[id]);
    var board', remaining' := board + [team], remaining - {id};
    var n := |board|;
    assert board'[n] == team;
    forall i | 0 <= i < n ensures board'[i] == board[i] {
    }
    forall i | 0 <= i < |board'|
      ensures board'[i].teamID in rows && board'[i].teamID !in remaining'
      ensures board'[i] == RowTeam(board'[i].teamID, rows[board'[i].teamID])
    {
    }
    forall k | k in rows && k !in remaining' ensures OnBoard(board', k) {
      if k == id {
        assert board'[n].teamID == k;
      } else {
        var i :| 0 <= i < n && board[i].teamID == k;
        assert board'[i].teamID == k;
      }
    }
    forall i, j | 0 <= i < j < |board'| ensures board'[i].teamID != board'[j].teamID {
      if j == n {
        assert board[i].teamID !in remaining;
      }
    }
    forall i, j | 0 <= i < j < |board'| ensures board'[j].laps <= board'[i].laps {
      if j == n {
        assert rows[id].laps <= board[i].laps;
      }
    }
    forall i, k | 0 <= i < |board'| && k in remaining' ensures rows[k].laps <= board'[i].laps {
      if i < n {
        assert rows[k].laps <= board[i].laps;
      }
    }
    assert |remaining'| == |remaining| - 1;
  }

  /** A selection of the required size is a leaderboard. */
  lemma BoardSoFarDone(t: Tables, limit: int, board: seq<Team>, remaining: set<int>)
    requires BoardSoFar(t.teams, board, remaining) && |board| == BoardSize(limit, |t.teams|)
    ensures IsLeaderboard(t, limit, board)
  {
    forall i, k | 0 <= i < |board| && k in t.teams && !OnBoard(board, k) ensures t.teams[k].laps <= board[i].laps {
      assert k in remaining;
    }
  }

  // ---------------------------------------------------------------------
  // Hours
  // ---------------------------------------------------------------------

  // The hour update on one mask, one fact per lemma: the solver's bit-vector
  // reasoning is cheap for each on its own.

  /** The new mask is the old one or-ed with the hour's bit (whether or not it was written). */
  lemma MaskIsOr(hours: bv64, hour: bv64)
    ensures MaskWithHour(hours, hour) == hours | HourBit(hour)
  {
  }

  /** The two branches of the update, as the method takes them. */
  lemma MaskCases(hours: bv64, hour: bv64)
    ensures hours & HourBit(hour) == 0 ==> MaskWithHour(hours, hour) == hours | HourBit(hour)
    ensures hours & HourBit(hour) != 0 ==> MaskWithHour(hours, hour) == hours
  {
  }

  /** No bit of the mask is ever cleared. */
  lemma MaskKeepsBits(hours: bv64, hour: bv64)
    ensures MaskWithHour(hours, hour) & hours == hours
  {
  }

  /** Afterwards the hour's bit is set. */
  lemma MaskSetsBit(hours: bv64, hour: bv64)
    ensures MaskWithHour(hours, hour) & HourBit(hour) == HourBit(hour)
  {
  }

  /** The mask changes exactly when the bit was clear and the hour is below the width. */
  lemma MaskChanges(hours: bv64, hour: bv64)
    ensures MaskWithHour(hours, hour) != hours <==> hours & HourBit(hour) == 0 && hour < 64
  {
  }

  /**
   * The hour update on the tables: the team row becomes WithHour of itself,
   * every other row and the tags table stay, and the tables change exactly
   * when the row does.
   */
  lemma HoursOnlyGainBit(t: Tables, teamID: int, hour: bv64)
    requires teamID in t.teams
    ensures var t' := AfterHours(t, teamID, hour);
      && t'.tags == t.tags && t'.teams.Keys == t.teams.Keys
      && t'.teams[teamID] == WithHour(t.teams[teamID], hour)
      && (forall k :: k in t.teams && k != teamID ==> t'.teams[k] == t.teams[k])
      && (t' == t <==> WithHour(t.teams[teamID], hour) == t.teams[teamID])
  {
    if WithHour(t.teams[teamID], hour) == t.teams[teamID] {
      assert t.teams[teamID := t.teams[teamID]] == t.teams;
    }
  }

  /** For the hours of the event (0 to 23) the mask stays within 24 bits. */
  lemma HoursWithinDay(hours: bv64, hour: bv64)
    requires hour < 24 && hours < 0x100_0000
    ensures HourBit(hour) != 0
    ensures hours | HourBit(hour) < 0x100_0000
  {
    DayBit(hours, hour);
  }

  lemma DayBit(hours: bv64, n: bv64)
    requires n < 24 && hours < 0x100_0000
    ensures (1 as bv64) << n != 0
    ensures hours | ((1 as bv64) << n) < 0x100_0000
  {
  }

  // ---------------------------------------------------------------------
  // The duplicate window
  // ---------------------------------------------------------------------

  /** A read exactly MIN_LAP_SECS after the last counted one counts; one a nanosecond sooner does not. */
  lemma WindowBoundary(lastUpdated: int)
    ensures !IsDuplicateRead(lastUpdated, lastUpdated + MIN_LAP_NANOS)
    ensures IsDuplicateRead(lastUpdated, lastUpdated + MIN_LAP_NANOS - 1)
  {
  }

  /**
   * A tag read at T counts, a read at T+30 s is a duplicate and changes
   * nothing, and a read at T+61 s counts again: two laps in all, with the
   * last update at T+61 s.
   */
  lemma WindowExample(t: Tables, tagID: int, hour: bv64, start: int)
    requires tagID in t.tags && !IsDuplicateRead(t.tags[tagID].lastUpdated, start)
    ensures var t1 := AfterIncrementLaps(t, tagID, hour, start);
      var t2 := AfterIncrementLaps(t1, tagID, hour, start + 30 * NANOS_PER_SECOND);
      var t3 := AfterIncrementLaps(t2, tagID, hour, start + 61 * NANOS_PER_SECOND);
      && t2 == t1
      && t3.tags[tagID].laps == t.tags[tagID].laps + 2
      && t3.tags[tagID].lastUpdated == start + 61 * NANOS_PER_SECOND
  {
  }

  /**
   * A counted read adds one lap to the tag row and, when the owner's row
   * exists, one to it; it sets the tag's last update and changes no other row.
   */
  lemma CountedReadEffect(t: Tables, tagID: int, hour: bv64, now: int)
    requires tagID in t.tags && !IsDuplicateRead(t.tags[tagID].lastUpdated, now)
    ensures var t' := AfterIncrementLaps(t, tagID, hour, now);
      var owner := t.tags[tagID].teamID;
      && t'.tags.Keys == t.tags.Keys && t'.teams.Keys == t.teams.Keys
      && t'.tags[tagID] == t.tags[tagID].(laps := t.tags[tagID].laps + 1, lastUpdated := now)
      && (forall k :: k in t.tags && k != tagID ==> t'.tags[k] == t.tags[k])
      && (owner in t.teams ==>
            t'.teams[owner].laps == t.teams[owner].laps + 1 && t'.teams[owner].hours == t.teams[owner].hours | HourBit(hour))
      && (forall k :: k in t.teams && k != owner ==> t'.teams[k] == t.teams[k])
  {
    var owner := t.tags[tagID].teamID;
    var mid := AfterLapRows(t, RowTag(tagID, t.tags[tagID]), now);
    if owner in t.teams {
      HoursOnlyGainBit(mid, owner, hour);
      MaskIsOr(mid.teams[owner].hours, hour);
    }
  }

  /** A read of an unknown tag or a duplicate changes nothing. */
  lemma UncountedReadEffect(t: Tables, tagID: int, hour: bv64, now: int)
    requires tagID !in t.tags || IsDuplicateRead(t.tags[tagID].lastUpdated, now)
    ensures AfterIncrementLaps(t, tagID, hour, now) == t
  {
  }

  // ---------------------------------------------------------------------
  // Inserting rows
  // ---------------------------------------------------------------------

  /**
   * insertTeams' loop: one INSERT per team, with laps and hours 0, stopping
   * at the first id already present.  Returns the rows written so far and the error.
   */
  function InsertTeamRows(rows: map<int, TeamRow>, batch: seq<Team>): (map<int, TeamRow>, Option<InsertError>)
    decreases |batch|
  {
    if batch == [] then (rows, None)
    else if batch[0].teamID in rows then (rows, Some(DuplicateKey(batch[0].teamID)))
    else InsertTeamRows(rows[batch[0].teamID := TeamRow(0, 0, batch[0].leader, batch[0].name)], batch[1..])
  }

  /**
   * insertTags' loop: one INSERT per tag with tag_laps 0 and
   * tag_last_updated 0, stopping at the first id already present or, when
   * foreign keys are enforced, the first tag of a missing team.
   */
  function InsertTagRows(rows: map<int, TagRow>, teams: set<int>, foreignKeys: bool, batch: seq<Tag>): (map<int, TagRow>, Option<InsertError>)
    decreases |batch|
  {
    if batch == [] then (rows, None)
    else if batch[0].tagID in rows then (rows, Some(DuplicateKey(batch[0].tagID)))
    else if foreignKeys && batch[0].teamID !in teams then (rows, Some(MissingTeam(batch[0].teamID)))
    else InsertTagRows(rows[batch[0].tagID := TagRow(0, 0, batch[0].teamID)], teams, foreignKeys, batch[1..])
  }

  predicate TeamIDsFresh(rows: map<int, TeamRow>, batch: seq<Team>) {
    && (forall i :: 0 <= i < |batch| ==> batch[i].teamID !in rows)
    && (forall i, j :: 0 <= i < j < |batch| ==> batch[i].teamID != batch[j].teamID)
  }

  predicate TagIDsFresh(rows: map<int, TagRow>, batch: seq<Tag>) {
    && (forall i :: 0 <= i < |batch| ==> batch[i].tagID !in rows)
    && (forall i, j :: 0 <= i < j < |batch| ==> batch[i].tagID != batch[j].tagID)
  }

  /** The team inserts never change or drop a row that was there before. */
  lemma {:induction false} InsertTeamRowsKeeps(rows: map<int, TeamRow>, batch: seq<Team>)
    ensures forall k :: k in rows ==> k in InsertTeamRows(rows, batch).0 && InsertTeamRows(rows, batch).0[k] == rows[k]
    decreases |batch|
  {
    if batch != [] && batch[0].teamID !in rows {
      InsertTeamRowsKeeps(rows[batch[0].teamID := TeamRow(0, 0, batch[0].leader, batch[0].name)], batch[1..]);
    }
  }

  /** The team inserts succeed exactly when every id is new and distinct. */
  lemma {:induction false} InsertTeamRowsOk(rows: map<int, TeamRow>, batch: seq<Team>)
    ensures InsertTeamRows(rows, batch).1.None? <==> TeamIDsFresh(rows, batch)
    decreases |batch|
  {
    if batch != [] {
      var id := batch[0].teamID;
      var next := rows[id := TeamRow(0, 0, batch[0].leader, batch[0].name)];
      InsertTeamRowsOk(next, batch[1..]);
      if id !in rows {
        if TeamIDsFresh(rows, batch) {
          assert TeamIDsFresh(next, batch[1..]) by {
            forall i | 0 <= i < |batch[1..]| ensures batch[1..][i].teamID !in next {
              assert batch[0].teamID != batch[i + 1].teamID;
            }
          }
        }
        if TeamIDsFresh(next, batch[1..]) {
          forall i, j | 0 <= i < j < |batch| ensures batch[i].teamID != batch[j].teamID {
            if i > 0 {
              assert batch[1..][i - 1].teamID != batch[1..][j - 1].teamID;
            } else {
              assert batch[1..][j - 1].teamID !in next;
            }
          }
        }
      } else {
        assert batch[0].teamID in rows;
      }
    }
  }

  /** After a successful run of inserts each team is stored with no laps and no hours. */
  lemma {:induction false} InsertTeamRowsStores(rows: map<int, TeamRow>, batch: seq<Team>)
    requires InsertTeamRows(rows, batch).1.None?
    ensures forall i :: 0 <= i < |batch| ==>
      (batch[i].teamID in InsertTeamRows(rows, batch).0 &&
       InsertTeamRows(rows, batch).0[batch[i].teamID] == TeamRow(0, 0, batch[i].leader, batch[i].name))
    decreases |batch|
  {
    if batch != [] {
      var next := rows[batch[0].teamID := TeamRow(0, 0, batch[0].leader, batch[0].name)];
      InsertTeamRowsStores(next, batch[1..]);
      InsertTeamRowsKeeps(next, batch[1..]);
      var rows' := InsertTeamRows(rows, batch).0;
      forall i | 0 <= i < |batch| ensures batch[i].teamID in rows' && rows'[batch[i].teamID] == TeamRow(0, 0, batch[i].leader, batch[i].name) {
        if i > 0 {
          assert batch[1..][i - 1] == batch[i];
        }
      }
    }
  }

  /** After a successful run of inserts the keys are the old ones and the batch's ids, and no others. */
  lemma {:induction false} InsertTeamRowsKeys(rows: map<int, TeamRow>, batch: seq<Team>)
    requires InsertTeamRows(rows, batch).1.None?
    ensures forall k :: k in InsertTeamRows(rows, batch).0 <==> k in rows || exists i :: 0 <= i < |batch| && batch[i].teamID == k
    decreases |batch|
  {
    if batch != [] {
      var next := rows[batch[0].teamID := TeamRow(0, 0, batch[0].leader, batch[0].name)];
      InsertTeamRowsKeys(next, batch[1..]);
      var rows' := InsertTeamRows(rows, batch).0;
      forall k ensures k in rows' <==> k in rows || exists i :: 0 <= i < |batch| && batch[i].teamID == k {
        if exists i :: 0 <= i < |batch[1..]| && batch[1..][i].teamID == k {
          var i :| 0 <= i < |batch[1..]| && batch[1..][i].teamID == k;
          assert batch[i + 1].teamID == k;
        }
        if exists i :: 0 <= i < |batch| && batch[i].teamID == k {
          var i :| 0 <= i < |batch| && batch[i].teamID == k;
          if i > 0 {
            assert batch[1..][i - 1].teamID == k;
          }
        }
      }
    }
  }

  /**
   * The team inserts succeed exactly when every id is new and distinct; then
   * each team is stored with no laps and no hours, the keys are exactly the
   * old ones and the new ones, and the earlier rows stay.
   */
  lemma InsertTeamRowsSpec(rows: map<int, TeamRow>, batch: seq<Team>)
    ensures var (rows', err) := InsertTeamRows(rows, batch);
      && (err.None? <==> TeamIDsFresh(rows, batch))
      && (err.None? ==> forall i :: 0 <= i < |batch| ==>
            batch[i].teamID in rows' && rows'[batch[i].teamID] == TeamRow(0, 0, batch[i].leader, batch[i].name))
      && (err.None? ==> forall k :: k in rows' <==> k in rows || exists i :: 0 <= i < |batch| && batch[i].teamID == k)
      && (forall k :: k in rows ==> k in rows' && rows'[k] == rows[k])
  {
    InsertTeamRowsKeeps(rows, batch);
    InsertTeamRowsOk(rows, batch);
    if InsertTeamRows(rows, batch).1.None? {
      InsertTeamRowsStores(rows, batch);
      InsertTeamRowsKeys(rows, batch);
    }
  }

  /** The tag inserts never change or drop a row that was there before. */
  lemma {:induction false} InsertTagRowsKeeps(rows: map<int, TagRow>, teams: set<int>, foreignKeys: bool, batch: seq<Tag>)
    ensures forall k :: k in rows ==>
      (k in InsertTagRows(rows, teams, foreignKeys, batch).0 && InsertTagRows(rows, teams, foreignKeys, batch).0[k] == rows[k])
    decreases |batch|
  {
    if batch != [] && batch[0].tagID !in rows && !(foreignKeys && batch[0].teamID !in teams) {
      InsertTagRowsKeeps(rows[batch[0].tagID := TagRow(0, 0, batch[0].teamID)], teams, foreignKeys, batch[1..]);
    }
  }

  /** Every team of the batch is in the teams table. */
  predicate TeamsExist(teams: set<int>, batch: seq<Tag>) {
    forall i :: 0 <= i < |batch| ==> batch[i].teamID in teams
  }

  /** The tag inserts succeed exactly when every id is new and distinct and, with foreign keys on, every team exists. */
  lemma {:induction false} InsertTagRowsOk(rows: map<int, TagRow>, teams: set<int>, foreignKeys: bool, batch: seq<Tag>)
    ensures InsertTagRows(rows, teams, foreignKeys, batch).1.None? <==>
      TagIDsFresh(rows, batch) && (foreignKeys ==> TeamsExist(teams, batch))
    decreases |batch|
  {
    if batch != [] {
      var id := batch[0].tagID;
      var next := rows[id := TagRow(0, 0, batch[0].teamID)];
      InsertTagRowsOk(next, teams, foreignKeys, batch[1..]);
      if id !in rows && !(foreignKeys && batch[0].teamID !in teams) {
        if TagIDsFresh(rows, batch) {
          assert TagIDsFresh(next, batch[1..]) by {
            forall i | 0 <= i < |batch[1..]| ensures batch[1..][i].tagID !in next {
              assert batch[0].tagID != batch[i + 1].tagID;
            }
          }
        }
        if TagIDsFresh(next, batch[1..]) {
          forall i, j | 0 <= i < j < |batch| ensures batch[i].tagID != batch[j].tagID {
            if i > 0 {
              assert batch[1..][i - 1].tagID != batch[1..][j - 1].tagID;
            } else {
              assert batch[1..][j - 1].tagID !in next;
            }
          }
        }
        if foreignKeys && TeamsExist(teams, batch[1..]) {
          forall i | 0 <= i < |batch| ensures batch[i].teamID in teams {
            if i > 0 {
              assert batch[1..][i - 1].teamID in teams;
            }
          }
        }
      } else if id in rows {
        assert batch[0].tagID in rows;
      } else {
        assert batch[0].teamID !in teams;
      }
    }
  }

  /** After a successful run of inserts each tag is stored with no laps and last update 0, owned by its team. */
  lemma {:induction false} InsertTagRowsStores(rows: map<int, TagRow>, teams: set<int>, foreignKeys: bool, batch: seq<Tag>)
    requires InsertTagRows(rows, teams, foreignKeys, batch).1.None?
    ensures forall i :: 0 <= i < |batch| ==>
      (batch[i].tagID in InsertTagRows(rows, teams, foreignKeys, batch).0 &&
       InsertTagRows(rows, teams, foreignKeys, batch).0[batch[i].tagID] == TagRow(0, 0, batch[i].teamID))
    decreases |batch|
  {
    if batch != [] {
      var next := rows[batch[0].tagID := TagRow(0, 0, batch[0].teamID)];
      InsertTagRowsStores(next, teams, foreignKeys, batch[1..]);
      InsertTagRowsKeeps(next, teams, foreignKeys, batch[1..]);
      var rows' := InsertTagRows(rows, teams, foreignKeys, batch).0;
      forall i | 0 <= i < |batch| ensures batch[i].tagID in rows' && rows'[batch[i].tagID] == TagRow(0, 0, batch[i].teamID) {
        if i > 0 {
          assert batch[1..][i - 1] == batch[i];
        }
      }
    }
  }

  /** After a successful run of inserts the keys are the old ones and the batch's ids, and no others. */
  lemma {:induction false} InsertTagRowsKeys(rows: map<int, TagRow>, teams: set<int>, foreignKeys: bool, batch: seq<Tag>)
    requires InsertTagRows(rows, teams, foreignKeys, batch).1.None?
    ensures forall k :: k in InsertTagRows(rows, teams, foreignKeys, batch).0 <==>
      k in rows || exists i :: 0 <= i < |batch| && batch[i].tagID == k
    decreases |batch|
  {
    if batch != [] {
      var next := rows[batch[0].tagID := TagRow(0, 0, batch[0].teamID)];
      InsertTagRowsKeys(next, teams, foreignKeys, batch[1..]);
      var rows' := InsertTagRows(rows, teams, foreignKeys, batch).0;
      forall k ensures k in rows' <==> k in rows || exists i :: 0 <= i < |batch| && batch[i].tagID == k {
        if exists i :: 0 <= i < |batch[1..]| && batch[1..][i].tagID == k {
          var i :| 0 <= i < |batch[1..]| && batch[1..][i].tagID == k;
          assert batch[i + 1].tagID == k;
        }
        if exists i :: 0 <= i < |batch| && batch[i].tagID == k {
          var i :| 0 <= i < |batch| && batch[i].tagID == k;
          if i > 0 {
            assert batch[1..][i - 1].tagID == k;
          }
        }
      }
    }
  }

  /**
   * The tag inserts succeed exactly when every id is new and distinct and,
   * with foreign keys on, every team exists; then each tag is stored with no
   * laps and last update 0, owned by its team, the keys are exactly the old
   * ones and the new ones, and the earlier rows stay.
   */
  lemma InsertTagRowsSpec(rows: map<int, TagRow>, teams: set<int>, foreignKeys: bool, batch: seq<Tag>)
    ensures var (rows', err) := InsertTagRows(rows, teams, foreignKeys, batch);
      && (err.None? <==> TagIDsFresh(rows, batch) && (foreignKeys ==> TeamsExist(teams, batch)))
      && (err.None? ==> forall i :: 0 <= i < |batch| ==>
            batch[i].tagID in rows' && rows'[batch[i].tagID] == TagRow(0, 0, batch[i].teamID))
      && (err.None? ==> forall k :: k in rows' <==> k in rows || exists i :: 0 <= i < |batch| && batch[i].tagID == k)
      && (forall k :: k in rows ==> k in rows' && rows'[k] == rows[k])
  {
    InsertTagRowsKeeps(rows, teams, foreignKeys, batch);
    InsertTagRowsOk(rows, teams, foreignKeys, batch);
    if InsertTagRows(rows, teams, foreignKeys, batch).1.None? {
      InsertTagRowsStores(rows, teams, foreignKeys, batch);
      InsertTagRowsKeys(rows, teams, foreignKeys, batch);
    }
  }

  /** A tag that was never read is past the duplicate window at any time from 60 s after the epoch. */
  lemma NewTagNotDuplicate(rows: map<int, TagRow>, teams: set<int>, foreignKeys: bool, batch: seq<Tag>, i: nat, now: int)
    requires i < |batch| && InsertTagRows(rows, teams, foreignKeys, batch).1.None?
    requires now >= MIN_LAP_NANOS
    ensures batch[i].tagID in InsertTagRows(rows, teams, foreignKeys, batch).0
    ensures !IsDuplicateRead(InsertTagRows(rows, teams, foreignKeys, batch).0[batch[i].tagID].lastUpdated, now)
  {
    InsertTagRowsSpec(rows, teams, foreignKeys, batch);
  }

  // ---------------------------------------------------------------------
  // Import
  // ---------------------------------------------------------------------

  /** Tags first..last inclusive, all of one team (none when last < first). */
  function TagRange(first: int, last: int, teamID: int): (tags: seq<Tag>)
    ensures |tags| == if last < first then 0 else last - first + 1
    ensures forall k :: 0 <= k < |tags| ==> tags[k] == Tag(0, 0, first + k, teamID)
    decreases last - first
  {
    if last < first then [] else TagRange(first, last - 1, teamID) + [Tag(0, 0, last, teamID)]
  }

  /**
   * When `for tagID := first; tagID <= last; tagID++` never ends on a 64-bit
   * int: the range is not empty and ends at MaxInt64, so every tagID passes
   * the test and the ++ after MaxInt64 wraps to MinInt64.
   */
  predicate TagLoopEndless(first: int, last: int) {
    first <= last && last == MAX_INT64
  }

  /** The tag loop's tagID after n rounds of its 64-bit ++ from first. */
  function TagAfter(first: int, n: nat): (tagID: int)
    requires InInt64(first)
    ensures InInt64(tagID)
    decreases n
  {
    if n == 0 then first else Inc64(TagAfter(first, n - 1))
  }

  /** Below an end that is not endless, the ++ never wraps: n rounds add n. */
  lemma {:induction false} TagAfterCounts(first: int, last: int, n: nat)
    requires InInt64(first) && InInt64(last) && !TagLoopEndless(first, last) && (n == 0 || first + n <= last + 1)
    ensures TagAfter(first, n) == first + n
    decreases n
  {
    if n > 0 {
      TagAfterCounts(first, last, n - 1);
    }
  }

  /** The tag loop runs for ever exactly when its range is endless: then no round leaves a tagID past last. */
  lemma TagLoopEnds(first: int, last: int)
    requires InInt64(first) && InInt64(last)
    ensures TagLoopEndless(first, last) <==> forall n: nat :: TagAfter(first, n) <= last
  {
    if !TagLoopEndless(first, last) {
      var n := if last < first then 0 else last - first + 1;
      TagAfterCounts(first, last, n);
      assert TagAfter(first, n) > last;
    }
  }

  /**
   * Why a roster stops being imported at some row: the row is short or its
   * range column has no '-', and Import panics; or the range ends at
   * MaxInt64, and Import's tag loop never ends.
   */
  datatype RowFault = RowPanics | RangeNeverEnds

  /**
   * The tags one roster row asks for: none for an empty range column;
   * otherwise the column split at '-', both ends read with Atoi's fallback
   * value (so a bad number counts as 0 and one past the int64 range as the
   * nearest bound), a column without '-' panics, and a range that ends at
   * MaxInt64 never ends.
   */
  function RowTags(range: string, teamID: int): Result<seq<Tag>, RowFault> {
    if range == "" then Ok([])
    else
      var parts := Split(range, '-');
      if |parts| < 2 then Err(RowPanics)
      else
        var first := AtoiValue(parts[0]);
        var last := AtoiValue(parts[1]);
        if TagLoopEndless(first, last) then Err(RangeNeverEnds)
        else Ok(TagRange(first, last, teamID))
  }

  /** The roster rows after the header: team ids count up from 0; an error is the first row's fault. */
  function ParseRoster(rows: seq<seq<string>>): Result<(seq<Team>, seq<Tag>), RowFault>
    decreases |rows|
  {
    if rows == [] then Ok(([], []))
    else
      var row := rows[|rows| - 1];
      var teamID := |rows| - 1;
      match ParseRoster(rows[..|rows| - 1])
      case Err(fault) => Err(fault)
      case Ok((teams, tags)) =>
        if |row| < 6 then Err(RowPanics)
        else
          match RowTags(row[5], teamID)
          case Err(fault) => Err(fault)
          case Ok(rowTags) => Ok((teams + [Team(0, 0, row[1], row[0], "", teamID)], tags + rowTags))
  }

  /** Every tag a row asks for belongs to that row's team, and an empty range column asks for none. */
  lemma RowTagsOwner(range: string, teamID: int)
    requires RowTags(range, teamID).Ok?
    ensures range == "" ==> RowTags(range, teamID).value == []
    ensures forall k :: 0 <= k < |RowTags(range, teamID).value| ==> RowTags(range, teamID).value[k].teamID == teamID
  {
  }

  /** A roster that parses ends with a full row, and its teams are those of the rows before it and then that row's team. */
  lemma RosterLastRow(rows: seq<seq<string>>)
    requires rows != [] && ParseRoster(rows).Ok?
    ensures ParseRoster(rows[..|rows| - 1]).Ok? && |rows[|rows| - 1]| >= 6
    ensures ParseRoster(rows).value.0 ==
      ParseRoster(rows[..|rows| - 1]).value.0 + [Team(0, 0, rows[|rows| - 1][1], rows[|rows| - 1][0], "", |rows| - 1)]
  {
  }

  /** Import's numbering of teams: the i-th row after the header becomes team i with that row's name and leader. */
  lemma {:induction false} RosterTeams(rows: seq<seq<string>>)
    requires ParseRoster(rows).Ok?
    ensures |ParseRoster(rows).value.0| == |rows|
    ensures forall i :: 0 <= i < |rows| ==>
      |rows[i]| >= 6 && ParseRoster(rows).value.0[i] == Team(0, 0, rows[i][1], rows[i][0], "", i)
    decreases |rows|
  {
    if rows != [] {
      var n := |rows| - 1;
      var prefix := rows[..n];
      RosterLastRow(rows);
      RosterTeams(prefix);
      var teams := ParseRoster(rows).value.0;
      var before := ParseRoster(prefix).value.0;
      forall i | 0 <= i < |rows| ensures |rows[i]| >= 6 && teams[i] == Team(0, 0, rows[i][1], rows[i][0], "", i) {
        if i < n {
          assert prefix[i] == rows[i];
          assert teams[i] == before[i];
        }
      }
    }
  }

  /** Every tag of an imported roster belongs to a team whose row named a range. */
  lemma {:induction false} RosterTagOwners(rows: seq<seq<string>>)
    requires ParseRoster(rows).Ok?
    ensures forall k :: 0 <= k < |ParseRoster(rows).value.1| ==>
      0 <= ParseRoster(rows).value.1[k].teamID < |rows| &&
      |rows[ParseRoster(rows).value.1[k].teamID]| >= 6 && rows[ParseRoster(rows).value.1[k].teamID][5] != ""
    decreases |rows|
  {
    if rows != [] {
      var n := |rows| - 1;
      var prefix := rows[..n];
      RosterTagOwners(prefix);
      RosterTeams(prefix);
      var tags := ParseRoster(rows).value.1;
      var before := ParseRoster(prefix).value.1;
      var rowTags := RowTags(rows[n][5], n).value;
      RowTagsOwner(rows[n][5], n);
      assert tags == before + rowTags;
      forall k | 0 <= k < |tags| ensures 0 <= tags[k].teamID < |rows| && |rows[tags[k].teamID]| >= 6 && rows[tags[k].teamID][5] != "" {
        if k < |before| {
          assert tags[k] == before[k];
          assert prefix[before[k].teamID] == rows[before[k].teamID];
        } else {
          assert tags[k] == rowTags[k - |before|];
        }
      }
    }
  }

  /**
   * Import's numbering: the i-th row after the header becomes team i with
   * that row's name and leader, and every tag belongs to a team whose row
   * named a range.
   */
  lemma RosterNumbering(rows: seq<seq<string>>)
    requires ParseRoster(rows).Ok?
    ensures var (teams, tags) := ParseRoster(rows).value;
      && |teams| == |rows|
      && (forall i :: 0 <= i < |rows| ==> |rows[i]| >= 6 && teams[i] == Team(0, 0, rows[i][1], rows[i][0], "", i))
      && (forall k :: 0 <= k < |tags| ==> 0 <= tags[k].teamID < |rows| && rows[tags[k].teamID][5] != "")
  {
    RosterTeams(rows);
    RosterTagOwners(rows);
  }

  /** A range column "a-b" of plain numbers yields the tags a..b of the row's team, unless it ends at MaxInt64. */
  lemma RangeColumn(a: int, b: int, teamID: int)
    requires InInt64(a) && InInt64(b) && a >= 0 && b >= 0
    ensures RowTags(Itoa(a) + "-" + Itoa(b), teamID) ==
      if TagLoopEndless(a, b) then Err(RangeNeverEnds) else Ok(TagRange(a, b, teamID))
  {
    ItoaPlain(a);
    ItoaPlain(b);
    SplitTwo(Itoa(a), '-', Itoa(b));
    AtoiItoa(a);
    AtoiItoa(b);
    assert Itoa(a) + "-" + Itoa(b) == Itoa(a) + ['-'] + Itoa(b);
  }

  /** A range column that splits into two parts asks for the tags between their Atoi values. */
  lemma RowTagsOfParts(range: string, first: string, last: string, teamID: int)
    requires range != "" && Split(range, '-') == [first, last]
    ensures RowTags(range, teamID) ==
      if TagLoopEndless(AtoiValue(first), AtoiValue(last)) then Err(RangeNeverEnds)
      else Ok(TagRange(AtoiValue(first), AtoiValue(last), teamID))
  {
  }

  /** "a-end" for a plain number a splits into a and end when end holds no '-'. */
  lemma RangeParts(a: int, end: string)
    requires a >= 0 && '-' !in end
    ensures Split(Itoa(a) + "-" + end, '-') == [Itoa(a), end]
  {
    ItoaPlain(a);
    SplitTwo(Itoa(a), '-', end);
    assert Itoa(a) + "-" + end == Itoa(a) + ['-'] + end;
  }

  /** A range "a-end" whose end reads as MaxInt64 is one whose tag loop never ends. */
  lemma RangeEndIsMax(a: int, end: string, teamID: int)
    requires InInt64(a) && a >= 0 && '-' !in end && AtoiValue(end) == MAX_INT64
    ensures RowTags(Itoa(a) + "-" + end, teamID) == Err(RangeNeverEnds)
  {
    RangeParts(a, end);
    AtoiItoa(a);
    RowTagsOfParts(Itoa(a) + "-" + end, Itoa(a), end, teamID);
  }

  /**
   * A range column whose end is a number past MaxInt64 reads as MaxInt64,
   * so Import's tag loop never ends on it.
   */
  lemma RangeEndPastMax(a: int, b: string, teamID: int)
    requires InInt64(a) && a >= 0
    requires |b| > 0 && AllDigits(b) && DigitsValue(b) >= MAX_INT64
    ensures RowTags(Itoa(a) + "-" + b, teamID) == Err(RangeNeverEnds)
  {
    NoDashInDigits(b, "");
    assert b + "" == b;
    AtoiValueMax(b);
    RangeEndIsMax(a, b, teamID);
  }

  /**
   * Atoi stops at the first digit that takes a number past 2^64 - 1, so a
   * range end such as "99999999999999999999 " reads as MaxInt64 whatever
   * follows those digits, and Import's tag loop never ends on it.
   */
  lemma RangeEndOverflows(a: int, digits: string, rest: string, teamID: int)
    requires InInt64(a) && a >= 0
    requires AllDigits(digits) && DigitsValue(digits) > MAX_UINT64 && '-' !in rest
    ensures RowTags(Itoa(a) + "-" + (digits + rest), teamID) == Err(RangeNeverEnds)
  {
    NoDashInDigits(digits, rest);
    AtoiValueOverflow("", digits, rest);
    assert "" + digits + rest == digits + rest;
    RangeEndIsMax(a, digits + rest, teamID);
  }

  /** Digits hold no '-', so a run of them followed by dash-free text has none. */
  lemma NoDashInDigits(digits: string, rest: string)
    requires AllDigits(digits) && '-' !in rest
    ensures '-' !in digits + rest
  {
    forall i | 0 <= i < |digits + rest| ensures (digits + rest)[i] != '-' {
      if i < |digits| {
        assert IsDigit(digits[i]);
      } else {
        assert (digits + rest)[i] == rest[i - |digits|];
      }
    }
  }

  /**
   * A roster saved with "\r\n" line endings, as spreadsheets write it,
   * reads as the same records: a header and one row whose range column is
   * empty import that row's team and no tags.
   */
  lemma CrlfRoster(header: seq<string>, row: seq<string>)
    requires |header| == 6 && |row| == 6 && row[5] == ""
    requires forall i :: 0 <= i < 6 ==> ',' !in header[i] && ',' !in row[i]
    ensures var csv := ReadCsv([Join(header, ',') + "\r\n", Join(row, ',') + "\r\n"]);
      && csv == CsvRead([header, row], true)
      && ParseRoster(csv.records[1..]) == Ok(([Team(0, 0, row[1], row[0], "", 0)], []))
  {
    var lines := [Join(header, ',') + "\r\n", Join(row, ',') + "\r\n"];
    CrlfLine(header);
    CrlfLine(row);
    assert lines[1..] == [lines[1]] && lines[1..][1..] == [];
    assert ReadCsvFrom(lines[1..], Some(6)) == CsvRead([row], true);
    assert [header, row][1..] == [row];
    OneTeamRoster(row);
  }

  /** A csv line of comma-free fields ended by "\r\n" reads as those fields. */
  lemma CrlfLine(fields: seq<string>)
    requires |fields| >= 2 && forall i :: 0 <= i < |fields| ==> ',' !in fields[i]
    ensures Chomp(Join(fields, ',') + "\r\n") == Join(fields, ',') != ""
    ensures Split(Join(fields, ','), ',') == fields
  {
    var text := Join(fields, ',');
    SplitJoin(fields, ',');
    assert text == fields[0] + [','] + Join(fields[1..], ',');
    assert (text + "\r\n")[..|text|] == text;
  }

  /** A roster of one six-column row with an empty range column is that row's team and no tags. */
  lemma OneTeamRoster(row: seq<string>)
    requires |row| == 6 && row[5] == ""
    ensures ParseRoster([row]) == Ok(([Team(0, 0, row[1], row[0], "", 0)], []))
  {
    var rows := [row];
    assert rows[..|rows| - 1] == [];
    assert ParseRoster(rows[..|rows| - 1]) == Ok(([], []));
    assert rows[|rows| - 1] == row;
    assert RowTags(row[5], 0) == Ok([]);
    var team := Team(0, 0, row[1], row[0], "", 0);
    var noTeams: seq<Team> := [];
    var noTags: seq<Tag> := [];
    assert noTeams + [team] == [team] && noTags + noTags == [];
  }

  datatype ImportResult = Imported | CannotOpen | ReadError | ImportPanicked | ImportNeverEnds | TeamsRejected(teamError: InsertError) | TagsRejected(tagError: InsertError)

  // ---------------------------------------------------------------------
  // The data store
  // ---------------------------------------------------------------------

  class DataStore {
    var teams: map<int, TeamRow>
    var tags: map<int, TagRow>
    /** Whether PRAGMA foreign_keys = ON holds on this connection. */
    const foreignKeys: bool

    function Snapshot(): Tables
      reads this
    {
      Tables(teams, tags)
    }

    constructor (foreignKeys: bool)
      ensures Snapshot() == Tables(map[], map[]) && this.foreignKeys == foreignKeys
    {
      teams := map[];
      tags := map[];
      this.foreignKeys := foreignKeys;
    }

    /** getOneTag: the tag's row, or "Unassigned tag". */
    method GetOneTag(tagID: int) returns (r: Result<Tag, LapError>)
      ensures r.Ok? <==> tagID in tags
      ensures r.Ok? ==> (r.value.tagID == tagID && r.value.teamID == tags[tagID].teamID
        && r.value.laps == tags[tagID].laps && r.value.lastUpdated == tags[tagID].lastUpdated)
      ensures r.Err? ==> r.error == UnassignedTag
    {
      if tagID in tags {
        r := Ok(RowTag(tagID, tags[tagID]));
      } else {
        r := Err(UnassignedTag);
      }
    }

    /** GetOneTeam: the team's row, or Go's zero Team when no row matches. */
    method GetOneTeam(teamID: int) returns (team: Team)
      ensures teamID in teams ==> (team.teamID == teamID && team.laps == teams[teamID].laps
        && team.name == teams[teamID].name && team.leader == teams[teamID].leader
        && team.hours == teams[teamID].hours && team.rank == "")
      ensures teamID !in teams ==> team == NO_TEAM
    {
      if teamID in teams {
        team := RowTeam(teamID, teams[teamID]);
      } else {
        team := NO_TEAM;
      }
    }

    /** incrementLaps: refuses a duplicate read, otherwise updates the tag row and then the team row. */
    method RecordLap(tag: Tag, now: int) returns (err: Option<LapError>)
      modifies this
      ensures IsDuplicateRead(tag.lastUpdated, now) ==> err == Some(DuplicateRead) && Snapshot() == old(Snapshot())
      ensures !IsDuplicateRead(tag.lastUpdated, now) ==> err == None && Snapshot() == AfterLapRows(old(Snapshot()), tag, now)
    {
      if now - tag.lastUpdated < MIN_LAP_NANOS {
        return Some(DuplicateRead);
      }
      if tag.tagID in tags {
        tags := tags[tag.tagID := tags[tag.tagID].(laps := tags[tag.tagID].laps + 1, lastUpdated := now)];
      }
      if tag.teamID in teams {
        teams := teams[tag.teamID := teams[tag.teamID].(laps := teams[tag.teamID].laps + 1)];
      }
      err := None;
    }

    /** incrementHours: UPDATE teams SET team_hours = hours WHERE team_id = teamID. */
    method IncrementHours(teamID: int, hours: bv64)
      modifies this
      ensures tags == old(tags)
      ensures teams == if teamID in old(teams) then old(teams)[teamID := old(teams)[teamID].(hours := hours)] else old(teams)
    {
      if teamID in teams {
        teams := teams[teamID := teams[teamID].(hours := hours)];
      }
    }

    /**
     * IncrementLaps' hour step, given the team as read back: when the hour's
     * bit is clear, the mask with the bit set is written to the team's row.
     */
    method CountHour(team: Team, teamID: int, hour: bv64)
      requires teamID in teams ==> team.hours == teams[teamID].hours
      requires teamID !in teams ==> team == NO_TEAM
      modifies this
      ensures tags == old(tags)
      ensures teamID in old(teams) ==> teams == old(teams)[teamID := WithHour(old(teams)[teamID], hour)]
      ensures teamID !in old(teams) ==> teams == old(teams)
    {
      MaskCases(team.hours, hour);
      if team.hours & HourBit(hour) == 0 {
        IncrementHours(teamID, team.hours | HourBit(hour));
      } else if teamID in teams {
        assert teams[teamID := teams[teamID]] == teams;
      }
    }

    /**
     * IncrementLaps: an unknown tag or a duplicate read is an error and
     * changes nothing; a counted read updates the rows and returns the
     * notification, whose rank comes from a leaderboard of the updated tables.
     */
    method IncrementLaps(tagID: int, hour: bv64, now: int) returns (r: Result<Notification, LapError>, ghost board: seq<Team>)
      modifies this
      ensures Snapshot() == AfterIncrementLaps(old(Snapshot()), tagID, hour, now)
      ensures tagID !in old(tags) ==> r == Err(UnassignedTag)
      ensures tagID in old(tags) && IsDuplicateRead(old(tags)[tagID].lastUpdated, now) ==> r == Err(DuplicateRead)
      ensures r.Ok? <==> tagID in old(tags) && !IsDuplicateRead(old(tags)[tagID].lastUpdated, now)
      ensures r.Ok? ==>
        && IsLeaderboard(Snapshot(), LEADERBOARD_SIZE, board)
        && r.value == LapNotification(Snapshot(), tagID, old(tags)[tagID].teamID, TeamRank(board, old(tags)[tagID].teamID))
    {
      board := [];
      var found := GetOneTag(tagID);
      if found.Err? {
        return Err(found.error), board;
      }
      var tag := found.value;
      ghost var before := Snapshot();
      assert tag == RowTag(tagID, before.tags[tagID]);
      var err := RecordLap(tag, now);
      if err.Some? {
        return Err(err.value), board;
      }
      ghost var counted := Snapshot();
      var team := GetOneTeam(tag.teamID);
      CountHour(team, tag.teamID, hour);
      assert Snapshot() == AfterHours(counted, tag.teamID, hour);
      var rank;
      rank, board := GetOneTeamRank(tag.teamID);
      r := Ok(Notification(tagID, team.teamID, team.laps, team.name, rank));
    }

    /** GetLeaderboard: the teams by descending laps, at most limit of them. */
    method GetLeaderboard(limit: int) returns (board: seq<Team>)
      ensures IsLeaderboard(Snapshot(), limit, board)
    {
      var size := BoardSize(limit, |teams|);
      var remaining := teams.Keys;
      board := [];
      while |board| < size
        invariant |board| <= size && BoardSoFar(teams, board, remaining)
        decreases size - |board|
      {
        EmptyOrMember(remaining);
        MaxLapsExists(teams, remaining);
        var id :| id in remaining && forall k :: k in remaining ==> teams[k].laps <= teams[id].laps;
        BoardSoFarGrows(teams, board, remaining, id);
        board := board + [RowTeam(id, teams[id])];
        remaining := remaining - {id};
      }
      BoardSoFarDone(Snapshot(), limit, board, remaining);
    }

    /** getTeamRanks: the rank string of every team on the leaderboard. */
    method GetTeamRanks() returns (ranks: map<int, string>, board: seq<Team>)
      ensures IsLeaderboard(Snapshot(), LEADERBOARD_SIZE, board)
      ensures ranks == RankStrings(WalkPrefix(board, |board|).marks)
    {
      board := GetLeaderboard(LEADERBOARD_SIZE);
      ranks := RankWalk(board);
    }

    /** getOneTeamRank: the team's rank string, "" for a team without one. */
    method GetOneTeamRank(teamID: int) returns (rank: string, ghost board: seq<Team>)
      ensures IsLeaderboard(Snapshot(), LEADERBOARD_SIZE, board)
      ensures rank == TeamRank(board, teamID)
    {
      var ranks;
      ranks, board := GetTeamRanks();
      rank := if teamID in ranks then ranks[teamID] else "";
    }

    /** InsertTeams: the team inserts in one transaction, so all are stored or none. */
    method InsertTeams(batch: seq<Team>) returns (err: Option<InsertError>)
      modifies this
      ensures tags == old(tags)
      ensures err == InsertTeamRows(old(teams), batch).1
      ensures teams == if err.None? then InsertTeamRows(old(teams), batch).0 else old(teams)
    {
      var written := teams;
      var i := 0;
      while i < |batch|
        invariant 0 <= i <= |batch|
        invariant InsertTeamRows(written, batch[i..]) == InsertTeamRows(teams, batch)
        decreases |batch| - i
      {
        assert batch[i..][0] == batch[i] && batch[i..][1..] == batch[i + 1..];
        var team := batch[i];
        if team.teamID in written {
          return Some(DuplicateKey(team.teamID));
        }
        written := written[team.teamID := TeamRow(0, 0, team.leader, team.name)];
        i := i + 1;
      }
      teams := written;
      err := None;
    }

    /** Stores the tags one INSERT at a time until the first failure; the shared loop of both tag inserts. */
    method InsertTagsNoTx(batch: seq<Tag>) returns (err: Option<InsertError>)
      modifies this
      ensures teams == old(teams)
      ensures (tags, err) == InsertTagRows(old(tags), teams.Keys, foreignKeys, batch)
    {
      var i := 0;
      while i < |batch|
        invariant 0 <= i <= |batch| && teams == old(teams)
        invariant InsertTagRows(tags, teams.Keys, foreignKeys, batch[i..]) == InsertTagRows(old(tags), teams.Keys, foreignKeys, batch)
        decreases |batch| - i
      {
        assert batch[i..][0] == batch[i] && batch[i..][1..] == batch[i + 1..];
        var tag := batch[i];
        if tag.tagID in tags {
          return Some(DuplicateKey(tag.tagID));
        }
        if foreignKeys && tag.teamID !in teams {
          return Some(MissingTeam(tag.teamID));
        }
        tags := tags[tag.tagID := TagRow(0, 0, tag.teamID)];
        i := i + 1;
      }
      err := None;
    }

    /** InsertTags: the tag inserts in one transaction, so all are stored or none. */
    method InsertTags(batch: seq<Tag>) returns (err: Option<InsertError>)
      modifies this
      ensures teams == old(teams)
      ensures err == InsertTagRows(old(tags), teams.Keys, foreignKeys, batch).1
      ensures tags == if err.None? then InsertTagRows(old(tags), teams.Keys, foreignKeys, batch).0 else old(tags)
    {
      var before := tags;
      err := InsertTagsNoTx(batch);
      if err.Some? {
        tags := before;
      }
    }

    /**
     * Import: the roster file must open; its first record is a header, and
     * each later record is a team numbered in row order, with name, leader
     * and an optional tag range in the sixth column.  A file that does not
     * open, a panic, a range whose loop never ends or a read error stores
     * nothing; otherwise the teams are inserted in one transaction and then
     * the tags in another.
     */
    method Import(present: bool, lines: seq<string>) returns (result: ImportResult)
      modifies this
      ensures !present ==> result == CannotOpen && Snapshot() == old(Snapshot())
      ensures present ==>
        var csv := ReadCsv(lines);
        var rows := if |csv.records| > 0 then csv.records[1..] else [];
        match ParseRoster(rows)
        case Err(fault) =>
          result == (if fault == RowPanics then ImportPanicked else ImportNeverEnds) && Snapshot() == old(Snapshot())
        case Ok((newTeams, newTags)) =>
          if !csv.ok then result == ReadError && Snapshot() == old(Snapshot())
          else
            var (teamRows, teamErr) := InsertTeamRows(old(teams), newTeams);
            if teamErr.Some? then result == TeamsRejected(teamErr.value) && Snapshot() == old(Snapshot())
            else
              var (tagRows, tagErr) := InsertTagRows(old(tags), teamRows.Keys, foreignKeys, newTags);
              && teams == teamRows
              && (tagErr.Some? ==> result == TagsRejected(tagErr.value) && tags == old(tags))
              && (tagErr.None? ==> result == Imported && tags == tagRows)
    {
      if !present {
        return CannotOpen;
      }
      var csv := ReadCsv(lines);
      var rows := if |csv.records| > 0 then csv.records[1..] else [];
      var roster := ReadRoster(rows);
      if roster.Err? {
        return if roster.error == RowPanics then ImportPanicked else ImportNeverEnds;
      }
      var (newTeams, newTags) := roster.value;
      if !csv.ok {
        return ReadError;
      }
      var teamErr := InsertTeams(newTeams);
      if teamErr.Some? {
        return TeamsRejected(teamErr.value);
      }
      var tagErr := InsertTags(newTags);
      if tagErr.Some? {
        return TagsRejected(tagErr.value);
      }
      result := Imported;
    }
  }

  /** Import's loop over the roster rows after the header. */
  method ReadRoster(rows: seq<seq<string>>) returns (roster: Result<(seq<Team>, seq<Tag>), RowFault>)
    ensures roster == ParseRoster(rows)
  {
    var newTeams: seq<Team> := [];
    var newTags: seq<Tag> := [];
    var teamID := 0;
    while teamID < |rows|
      invariant 0 <= teamID <= |rows|
      invariant ParseRoster(rows[..teamID]) == Ok((newTeams, newTags))
      decreases |rows| - teamID
    {
      ParseRosterStep(rows, teamID);
      var team, rowTags := ParseRow(rows[teamID], teamID, newTags);
      if rowTags.Err? {
        FaultStays(rows, teamID + 1);
        return Err(rowTags.error);
      }
      newTeams := newTeams + [team];
      newTags := rowTags.value;
      teamID := teamID + 1;
    }
    assert rows[..teamID] == rows;
    roster := Ok((newTeams, newTags));
  }

  /**
   * The body of Import's loop: the team a roster row names, and the tags
   * collected so far followed by that row's range, or the row's fault.
   * Where the tag loop would never end the model stops with
   * RangeNeverEnds before entering it.
   */
  method ParseRow(record: seq<string>, teamID: nat, tags: seq<Tag>) returns (team: Team, out: Result<seq<Tag>, RowFault>)
    ensures |record| < 6 ==> out == Err(RowPanics)
    ensures |record| >= 6 ==> team == Team(0, 0, record[1], record[0], "", teamID)
    ensures |record| >= 6 ==>
      out == match RowTags(record[5], teamID) case Err(fault) => Err(fault) case Ok(rowTags) => Ok(tags + rowTags)
  {
    team := Team(0, 0, "", "", "", teamID);
    if |record| < 6 {
      return team, Err(RowPanics);
    }
    team := Team(0, 0, record[1], record[0], "", teamID);
    var tagRange := record[5];
    if tagRange == "" {
      assert tags + [] == tags;
      return team, Ok(tags);
    }
    var splitTags := Split(tagRange, '-');
    if |splitTags| < 2 {
      return team, Err(RowPanics);
    }
    var firstTag := AtoiValue(splitTags[0]);
    var lastTag := AtoiValue(splitTags[1]);
    if firstTag <= lastTag && lastTag == MAX_INT64 {
      return team, Err(RangeNeverEnds);
    }
    var all := AppendTagRange(tags, firstTag, lastTag, teamID);
    out := Ok(all);
  }

  /** Parsing one more roster row is parsing the rows before it, then that row. */
  lemma ParseRosterStep(rows: seq<seq<string>>, n: nat)
    requires n < |rows|
    ensures ParseRoster(rows[..n + 1]) ==
      match ParseRoster(rows[..n])
      case Err(fault) => Err(fault)
      case Ok((teams, tags)) =>
        if |rows[n]| < 6 then Err(RowPanics)
        else
          match RowTags(rows[n][5], n)
          case Err(fault) => Err(fault)
          case Ok(rowTags) => Ok((teams + [Team(0, 0, rows[n][1], rows[n][0], "", n)], tags + rowTags))
  {
    assert rows[..n + 1][..n] == rows[..n];
    assert rows[..n + 1][n] == rows[n];
  }

  /** A roster that stops at some row stops with that row's fault however many rows follow. */
  lemma {:induction false} FaultStays(rows: seq<seq<string>>, n: nat)
    requires n <= |rows| && ParseRoster(rows[..n]).Err?
    ensures ParseRoster(rows) == ParseRoster(rows[..n])
    decreases |rows| - n
  {
    if n < |rows| {
      assert rows[..n + 1][..n] == rows[..n];
      FaultStays(rows, n + 1);
    } else {
      assert rows[..n] == rows;
    }
  }

  /**
   * Import's inner loop with its 64-bit ++: the tags first..last of one
   * team, appended in order.  It ends exactly when the range is not
   * endless, which its callers check first.
   */
  method AppendTagRange(tags: seq<Tag>, first: int, last: int, teamID: int) returns (out: seq<Tag>)
    requires InInt64(first) && InInt64(last) && !TagLoopEndless(first, last)
    ensures out == tags + TagRange(first, last, teamID)
  {
    out := tags;
    var tagID := first;
    while tagID <= last
      invariant first <= tagID <= if last < first then first else last + 1
      invariant InInt64(tagID)
      invariant out == tags + TagRange(first, tagID - 1, teamID)
      decreases last - tagID
    {
      out := out + [Tag(0, 0, tagID, teamID)];
      tagID := Inc64(tagID);
    }
  }

  /** getTeamRanks' loop over a leaderboard. */
  method RankWalk(board: seq<Team>) returns (ranks: map<int, string>)
    ensures ranks == RankStrings(WalkPrefix(board, |board|).marks)
  {
    ranks := map[];
    var rank, nextRank := 0, 0;
    var prevLaps := MAX_INT32;
    for i := 0 to |board|
      invariant nextRank == i
      invariant WalkPrefix(board, i).rank == rank && WalkPrefix(board, i).prevLaps == prevLaps
      invariant ranks == RankStrings(WalkPrefix(board, i).marks)
    {
      var t := board[i];
      ghost var marks := WalkPrefix(board, i).marks;
      nextRank := nextRank + 1;
      if t.laps < prevLaps {
        rank := nextRank;
      }
      ghost var mark := RankMark(rank, t.laps == prevLaps);
      var text := Itoa(rank);
      if t.laps == prevLaps {
        text := text + TIE_MARKER;
      } else {
        assert text + "" == text;
      }
      assert text == RankText(mark);
      RankStringsUpdate(marks, t.teamID, mark);
      ranks := ranks[t.teamID := text];
      prevLaps := t.laps;
      assert WalkPrefix(board, i + 1) == Walk(rank, prevLaps, marks[t.teamID := mark]);
    }
  }

  /** Writing one team's mark writes that team's string and leaves the other strings alone. */
  lemma RankStringsUpdate(marks: map<int, RankMark>, id: int, mark: RankMark)
    ensures RankStrings(marks[id := mark]) == RankStrings(marks)[id := RankText(mark)]
  {
    var l, r := RankStrings(marks[id := mark]), RankStrings(marks)[id := RankText(mark)];
    assert l.Keys == r.Keys;
    forall k | k in l.Keys ensures l[k] == r[k] {
      if k != id {
        assert l[k] == RankText(marks[k]);
      }
    }
  }
}
