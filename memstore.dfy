/**
 * The in-memory registry: teams in a slice whose index is the team key, tags
 * in a map keyed by the number on the tag, every mutation mirrored into the
 * journal.  A tag read counts as a lap only when more than MIN_LAP_SECS have
 * passed since the tag's last counted read (or since it was registered).
 */
module MemStore {
  import opened GoStd
  import Journal

  const MIN_LAP_SECS: int := 10
  const NANOS_PER_SECOND: int := 1_000_000_000
  /** The de-dup window in nanoseconds, the unit of every timestamp here. */
  const MIN_LAP_NANOS: int := MIN_LAP_SECS * NANOS_PER_SECOND

  datatype Team = Team(name: string, leader: string, laps: int, tagKeys: seq<int>)

  datatype Tag = Tag(laps: int, lastUpdated: int, tagKey: int, teamKey: int)

  /** The registry's value: the teams slice and the tags map. */
  datatype Registry = Registry(teams: seq<Team>, tags: map<int, Tag>)

  /** The lap counts of the tags named by keys, added up (a missing key adds 0). */
  function SumLaps(tags: map<int, Tag>, keys: seq<int>): int {
    if keys == [] then 0
    else (if keys[0] in tags then tags[keys[0]].laps else 0) + SumLaps(tags, keys[1..])
  }

  predicate NoDuplicates(keys: seq<int>) {
    forall i, j :: 0 <= i < j < |keys| ==> keys[i] != keys[j]
  }

  /**
   * The registry invariant: every tag is stored under its own key and is
   * owned by an existing team; a team's TagKeys lists exactly the tags it
   * owns, each once; and a team's lap count is the sum of its tags' counts.
   */
  ghost predicate Consistent(r: Registry) {
    && (forall k :: k in r.tags ==>
          r.tags[k].tagKey == k && 0 <= r.tags[k].teamKey < |r.teams| && k in r.teams[r.tags[k].teamKey].tagKeys)
    && (forall i, k :: 0 <= i < |r.teams| && k in r.teams[i].tagKeys ==> k in r.tags && r.tags[k].teamKey == i)
    && (forall i :: 0 <= i < |r.teams| ==> NoDuplicates(r.teams[i].tagKeys))
    && (forall i :: 0 <= i < |r.teams| ==> r.teams[i].laps == SumLaps(r.tags, r.teams[i].tagKeys))
  }

  // ---------------------------------------------------------------------
  // The mutations, as functions of the registry
  // ---------------------------------------------------------------------

  /** InsertTeam: a new team with no laps and no tags goes at the end. */
  function AfterInsertTeam(r: Registry, name: string, leader: string): Registry {
    r.(teams := r.teams + [Team(name, leader, 0, [])])
  }

  /**
   * InsertTag: a key already registered changes nothing; a new key becomes a
   * tag of teamKey with no laps, last updated now, listed in the team's TagKeys.
   */
  function AfterInsertTag(r: Registry, teamKey: int, tagKey: int, now: int): Registry
    requires tagKey in r.tags || 0 <= teamKey < |r.teams|
  {
    if tagKey in r.tags then r
    else
      var team := r.teams[teamKey];
      Registry(r.teams[teamKey := team.(tagKeys := team.tagKeys + [tagKey])],
               r.tags[tagKey := Tag(0, now, tagKey, teamKey)])
  }

  /** Whether a read of tagKey at time now counts as a lap. */
  predicate LapAccepted(r: Registry, tagKey: int, now: int) {
    tagKey in r.tags && now - r.tags[tagKey].lastUpdated > MIN_LAP_NANOS
  }

  /** IncrementLaps: an accepted read bumps the tag and its team; any other read changes nothing. */
  function AfterLap(r: Registry, tagKey: int, now: int): Registry
    requires Consistent(r)
  {
    if !LapAccepted(r, tagKey, now) then r
    else
      var tag := r.tags[tagKey];
      var team := r.teams[tag.teamKey];
      Registry(r.teams[tag.teamKey := team.(laps := team.laps + 1)],
               r.tags[tagKey := tag.(laps := tag.laps + 1, lastUpdated := now)])
  }

  /** ZeroLaps: every tag's and every team's lap count becomes 0, nothing else changes. */
  function AfterZero(r: Registry): Registry {
    Registry(seq(|r.teams|, i requires 0 <= i < |r.teams| => r.teams[i].(laps := 0)),
             map k | k in r.tags :: r.tags[k].(laps := 0))
  }

  // ---------------------------------------------------------------------
  // Lap sums
  // ---------------------------------------------------------------------

  lemma {:induction false} SumLapsAppend(tags: map<int, Tag>, keys: seq<int>, k: int)
    ensures SumLaps(tags, keys + [k]) == SumLaps(tags, keys) + (if k in tags then tags[k].laps else 0)
    decreases |keys|
  {
    if keys != [] {
      assert (keys + [k])[1..] == keys[1..] + [k];
      SumLapsAppend(tags, keys[1..], k);
    }
  }

  /** The sum only looks at the listed keys. */
  lemma {:induction false} SumLapsFrame(tags: map<int, Tag>, tags': map<int, Tag>, keys: seq<int>)
    requires forall i :: 0 <= i < |keys| ==> (keys[i] in tags <==> keys[i] in tags')
    requires forall i :: 0 <= i < |keys| && keys[i] in tags ==> tags[keys[i]].laps == tags'[keys[i]].laps
    ensures SumLaps(tags, keys) == SumLaps(tags', keys)
    decreases |keys|
  {
    if keys != [] {
      SumLapsFrame(tags, tags', keys[1..]);
    }
  }

  /** Adding one lap to a tag listed exactly once adds one to the sum. */
  lemma {:induction false} SumLapsBump(tags: map<int, Tag>, keys: seq<int>, k: int, tag': Tag)
    requires k in tags && tag'.laps == tags[k].laps + 1
    requires NoDuplicates(keys)
    ensures SumLaps(tags[k := tag'], keys) == SumLaps(tags, keys) + (if k in keys then 1 else 0)
    decreases |keys|
  {
    if keys != [] {
      SumLapsBump(tags, keys[1..], k, tag');
      assert k in keys <==> keys[0] == k || k in keys[1..];
      if keys[0] == k {
        assert k !in keys[1..] by {
          forall j | 0 <= j < |keys[1..]| ensures keys[1..][j] != k {
            assert keys[1 + j] != keys[0];
          }
        }
      }
    }
  }

  lemma {:induction false} SumLapsZero(tags: map<int, Tag>, keys: seq<int>)
    requires forall k :: k in tags ==> tags[k].laps == 0
    ensures SumLaps(tags, keys) == 0
    decreases |keys|
  {
    if keys != [] {
      SumLapsZero(tags, keys[1..]);
    }
  }

  // ---------------------------------------------------------------------
  // Every mutation keeps the registry consistent
  // ---------------------------------------------------------------------

  lemma InsertTeamKeepsConsistent(r: Registry, name: string, leader: string)
    requires Consistent(r)
    ensures Consistent(AfterInsertTeam(r, name, leader))
  {
    InsertTeamKeepsOwners(r, name, leader);
    InsertTeamKeepsLists(r, name, leader);
  }

  /** InsertTeam appends one team and keeps the others where they were. */
  lemma InsertTeamAppends(r: Registry, name: string, leader: string)
    ensures |AfterInsertTeam(r, name, leader).teams| == |r.teams| + 1
    ensures AfterInsertTeam(r, name, leader).teams[..|r.teams|] == r.teams
  {
    assert (r.teams + [Team(name, leader, 0, [])])[..|r.teams|] == r.teams;
  }

  /** After InsertTeam every tag still has its key and an owner that lists it. */
  lemma InsertTeamKeepsOwners(r: Registry, name: string, leader: string)
    requires Consistent(r)
    ensures var r' := AfterInsertTeam(r, name, leader);
      forall k :: k in r'.tags ==>
        r'.tags[k].tagKey == k && 0 <= r'.tags[k].teamKey < |r'.teams| && k in r'.teams[r'.tags[k].teamKey].tagKeys
  {
    var r' := AfterInsertTeam(r, name, leader);
    forall k | k in r'.tags
      ensures r'.tags[k].tagKey == k && 0 <= r'.tags[k].teamKey < |r'.teams| && k in r'.teams[r'.tags[k].teamKey].tagKeys
    {
      assert r'.teams[r.tags[k].teamKey] == r.teams[r.tags[k].teamKey];
    }
  }

  /** After InsertTeam every team's list names its own tags, once each, and sums to its laps; the new team's is empty. */
  lemma InsertTeamKeepsLists(r: Registry, name: string, leader: string)
    requires Consistent(r)
    ensures var r' := AfterInsertTeam(r, name, leader);
      && (forall i, k :: 0 <= i < |r'.teams| && k in r'.teams[i].tagKeys ==> k in r'.tags && r'.tags[k].teamKey == i)
      && (forall i :: 0 <= i < |r'.teams| ==> NoDuplicates(r'.teams[i].tagKeys))
      && (forall i :: 0 <= i < |r'.teams| ==> r'.teams[i].laps == SumLaps(r'.tags, r'.teams[i].tagKeys))
  {
    var r' := AfterInsertTeam(r, name, leader);
    var n := |r.teams|;
    forall i | 0 <= i < |r'.teams|
      ensures r'.teams[i] == if i == n then Team(name, leader, 0, []) else r.teams[i]
    {
    }
  }

  lemma InsertTagKeepsConsistent(r: Registry, teamKey: int, tagKey: int, now: int)
    requires Consistent(r)
    requires tagKey in r.tags || 0 <= teamKey < |r.teams|
    ensures Consistent(AfterInsertTag(r, teamKey, tagKey, now))
  {
    if tagKey !in r.tags {
      var r' := AfterInsertTag(r, teamKey, tagKey, now);
      var keys := r.teams[teamKey].tagKeys;
      assert tagKey !in keys;
      forall i | 0 <= i < |r'.teams|
        ensures r'.teams[i].laps == SumLaps(r'.tags, r'.teams[i].tagKeys)
        ensures NoDuplicates(r'.teams[i].tagKeys)
      {
        var ks := r.teams[i].tagKeys;
        assert tagKey !in ks;
        SumLapsFrame(r.tags, r'.tags, ks);
        if i == teamKey {
          SumLapsAppend(r'.tags, ks, tagKey);
          assert r'.teams[i].tagKeys == ks + [tagKey];
        }
      }
      forall i, k | 0 <= i < |r'.teams| && k in r'.teams[i].tagKeys
        ensures k in r'.tags && r'.tags[k].teamKey == i
      {
        if i == teamKey && k !in r.teams[i].tagKeys {
          assert k == tagKey;
        }
      }
    }
  }

  lemma LapKeepsConsistent(r: Registry, tagKey: int, now: int)
    requires Consistent(r)
    ensures Consistent(AfterLap(r, tagKey, now))
  {
    if LapAccepted(r, tagKey, now) {
      var r' := AfterLap(r, tagKey, now);
      var tag := r.tags[tagKey];
      var tag' := r'.tags[tagKey];
      forall i | 0 <= i < |r'.teams|
        ensures r'.teams[i].laps == SumLaps(r'.tags, r'.teams[i].tagKeys)
      {
        SumLapsBump(r.tags, r.teams[i].tagKeys, tagKey, tag');
        assert tagKey in r.teams[i].tagKeys ==> i == tag.teamKey;
      }
    }
  }

  lemma ZeroKeepsConsistent(r: Registry)
    requires Consistent(r)
    ensures Consistent(AfterZero(r))
  {
    var r' := AfterZero(r);
    forall i | 0 <= i < |r'.teams|
      ensures r'.teams[i].laps == SumLaps(r'.tags, r'.teams[i].tagKeys)
    {
      SumLapsZero(r'.tags, r'.teams[i].tagKeys);
    }
  }

  // ---------------------------------------------------------------------
  // What the mutations promise
  // ---------------------------------------------------------------------

  /** Inserting an already registered tag changes nothing, whatever team is named. */
  lemma InsertTagIdempotent(r: Registry, teamKey: int, tagKey: int, now: int)
    requires tagKey in r.tags
    ensures AfterInsertTag(r, teamKey, tagKey, now) == r
  {
  }

  /**
   * An accepted read adds exactly one lap to the tag and one to its owner,
   * sets the tag's last update to now, and leaves every other tag and team
   * as it was; the team's lap count stays the sum of its tags' counts.
   */
  lemma AcceptedLapEffect(r: Registry, tagKey: int, now: int)
    requires Consistent(r) && LapAccepted(r, tagKey, now)
    ensures var r' := AfterLap(r, tagKey, now);
      var owner := r.tags[tagKey].teamKey;
      && r'.tags.Keys == r.tags.Keys && |r'.teams| == |r.teams|
      && r'.tags[tagKey].laps == r.tags[tagKey].laps + 1
      && r'.tags[tagKey].lastUpdated == now
      && r'.tags[tagKey].teamKey == owner
      && r'.teams[owner].laps == r.teams[owner].laps + 1
      && r'.teams[owner].tagKeys == r.teams[owner].tagKeys
      && (forall k :: k in r.tags && k != tagKey ==> r'.tags[k] == r.tags[k])
      && (forall i :: 0 <= i < |r.teams| && i != owner ==> r'.teams[i] == r.teams[i])
      && Consistent(r')
  {
    LapKeepsConsistent(r, tagKey, now);
  }

  /** A read of an unregistered tag, or one inside the window, changes nothing. */
  lemma RejectedLapEffect(r: Registry, tagKey: int, now: int)
    requires Consistent(r)
    requires tagKey !in r.tags || now - r.tags[tagKey].lastUpdated <= MIN_LAP_NANOS
    ensures AfterLap(r, tagKey, now) == r
  {
  }

  /** A tag is registered with the current time, so a read within the window after that is dropped. */
  lemma ReadRightAfterRegistrationDropped(r: Registry, teamKey: int, tagKey: int, now: int, later: int)
    requires Consistent(r) && tagKey !in r.tags && 0 <= teamKey < |r.teams|
    requires now <= later <= now + MIN_LAP_NANOS
    ensures Consistent(AfterInsertTag(r, teamKey, tagKey, now))
    ensures AfterLap(AfterInsertTag(r, teamKey, tagKey, now), tagKey, later) == AfterInsertTag(r, teamKey, tagKey, now)
  {
    InsertTagKeepsConsistent(r, teamKey, tagKey, now);
  }

  /** Zeroing clears every count and keeps ownership, TagKeys, names and timestamps. */
  lemma ZeroEffect(r: Registry)
    requires Consistent(r)
    ensures var r' := AfterZero(r);
      && |r'.teams| == |r.teams| && r'.tags.Keys == r.tags.Keys
      && (forall i :: 0 <= i < |r.teams| ==>
            r'.teams[i].laps == 0 && r'.teams[i].tagKeys == r.teams[i].tagKeys
            && r'.teams[i].name == r.teams[i].name && r'.teams[i].leader == r.teams[i].leader)
      && (forall k :: k in r.tags ==>
            r'.tags[k].laps == 0 && r'.tags[k].teamKey == r.tags[k].teamKey
            && r'.tags[k].lastUpdated == r.tags[k].lastUpdated)
      && Consistent(r')
  {
    ZeroKeepsConsistent(r);
  }

  // ---------------------------------------------------------------------
  // Sort comparators
  // ---------------------------------------------------------------------

  /** ByLaps.Less: more laps sorts first (descending order). */
  predicate ByLapsLess(a: Team, b: Team) {
    b.laps < a.laps
  }

  /** ByName.Less: names in Go's string order. */
  predicate ByNameLess(a: Team, b: Team) {
    StringLess(a.name, b.name)
  }

  /** ByLaps is a strict weak order, as sort.Sort requires: equal lap counts are the incomparable ones. */
  lemma ByLapsStrictWeakOrder(a: Team, b: Team, c: Team)
    ensures !ByLapsLess(a, a)
    ensures ByLapsLess(a, b) && ByLapsLess(b, c) ==> ByLapsLess(a, c)
    ensures (!ByLapsLess(a, b) && !ByLapsLess(b, a)) <==> a.laps == b.laps
  {
  }

  /** ByName is a strict order that separates any two teams with different names. */
  lemma ByNameStrictOrder(a: Team, b: Team, c: Team)
    ensures !ByNameLess(a, a)
    ensures ByNameLess(a, b) && ByNameLess(b, c) ==> ByNameLess(a, c)
    ensures a.name != b.name ==> ByNameLess(a, b) || ByNameLess(b, a)
  {
    StringLessIrreflexive(a.name);
    if ByNameLess(a, b) && ByNameLess(b, c) {
      StringLessTransitive(a.name, b.name, c.name);
    }
    if a.name != b.name {
      StringLessTotal(a.name, b.name);
    }
  }

  // ---------------------------------------------------------------------
  // GetTagsByTeam and GetTeamRank, as written and as intended
  // ---------------------------------------------------------------------

  /**
   * GetTagsByTeam as written: the loop ranges over the positions of the
   * team's TagKeys rather than over the keys, so it looks up tags 0, 1, ...;
   * a position that is not a registered key yields nil, None here.
   */
  function TagsByTeamAsWritten(r: Registry, teamKey: int): (tags: seq<Option<Tag>>)
    requires 0 <= teamKey < |r.teams|
    ensures |tags| == |r.teams[teamKey].tagKeys|
  {
    seq(|r.teams[teamKey].tagKeys|, i => if i in r.tags then Some(r.tags[i]) else None)
  }

  /** The registry InitDataStore builds at time now: team "LYB" led by "JB", owning tag 0. */
  function InitRegistry(now: int): Registry {
    Registry([Team("LYB", "JB", 0, [0])], map[0 := Tag(0, now, 0, 0)])
  }

  lemma InitRegistryConsistent(now: int)
    ensures Consistent(InitRegistry(now))
  {
    var r := InitRegistry(now);
    assert r.teams[0].laps == SumLaps(r.tags, [0]) by {
      assert [0][1..] == [];
    }
  }

  /**
   * After InitDataStore, a second team that owns only tag 7 is handed back
   * LYB's tag 0 instead: position 0 of its TagKeys is looked up as a key.
   */
  lemma TagsByTeamAsWrittenMissesTags(name: string, leader: string, now: int)
    ensures var r := AfterInsertTag(AfterInsertTeam(InitRegistry(now), name, leader), 1, 7, now);
      && Consistent(r)
      && r.teams[1].tagKeys == [7] && r.tags[7].teamKey == 1
      && TagsByTeamAsWritten(r, 1) == [Some(r.tags[0])]
      && r.tags[0].teamKey == 0
  {
    var r0 := InitRegistry(now);
    InitRegistryConsistent(now);
    InsertTeamKeepsConsistent(r0, name, leader);
    InsertTeamAppends(r0, name, leader);
    var r1 := AfterInsertTeam(r0, name, leader);
    InsertTagKeepsConsistent(r1, 1, 7, now);
  }

  /**
   * The team keys in the order sort.Sort(ByLaps) leaves them: every team
   * exactly once, more laps first; the order among equal counts is not fixed.
   */
  predicate SortedByLaps(r: Registry, sorted: seq<int>) {
    && |sorted| == |r.teams|
    && (forall q :: 0 <= q < |sorted| ==> 0 <= sorted[q] < |r.teams|)
    && (forall k :: 0 <= k < |r.teams| ==> k in sorted)
    && (forall p, q :: 0 <= p < q < |sorted| ==> sorted[p] != sorted[q])
    && (forall q :: 0 < q < |sorted| ==> r.teams[sorted[q]].laps <= r.teams[sorted[q - 1]].laps)
  }

  /** Each key's count is at most that of every key before it. */
  lemma {:induction false} SortedPairs(r: Registry, sorted: seq<int>)
    requires forall q :: 0 <= q < |sorted| ==> 0 <= sorted[q] < |r.teams|
    requires forall q :: 0 < q < |sorted| ==> r.teams[sorted[q]].laps <= r.teams[sorted[q - 1]].laps
    ensures forall p, q :: 0 <= p < q < |sorted| ==> r.teams[sorted[q]].laps <= r.teams[sorted[p]].laps
    decreases |sorted|
  {
    if |sorted| > 1 {
      var front := sorted[..|sorted| - 1];
      SortedPairs(r, front);
      forall p, q | 0 <= p < q < |sorted|
        ensures r.teams[sorted[q]].laps <= r.teams[sorted[p]].laps
      {
        if q == |sorted| - 1 && p < q - 1 {
          assert front[p] == sorted[p] && front[q - 1] == sorted[q - 1];
        } else if q < |sorted| - 1 {
          assert front[p] == sorted[p] && front[q] == sorted[q];
        }
      }
    }
  }

  /**
   * The loop of GetTeamRank as written, from position i of the sorted keys:
   * the rank grows only when a count exceeds the previous one, and on
   * reaching the team it compares with the next team's count even when
   * there is none, an index out of range (None).
   */
  function RankScanAsWritten(r: Registry, sorted: seq<int>, teamKey: int, i: nat, lastLaps: int, rank: int, tied: bool)
    : (result: Option<(int, bool)>)
    requires 0 <= teamKey < |r.teams|
    requires forall q :: 0 <= q < |sorted| ==> 0 <= sorted[q] < |r.teams|
    requires i <= |sorted|
    ensures result.Some? ==> result.value.0 >= rank
    decreases |sorted| - i
  {
    if i == |sorted| then Some((rank, tied))
    else
      var laps := r.teams[sorted[i]].laps;
      var rank' := if laps > lastLaps then rank + 1 else rank;
      var tied' := if laps > lastLaps then false else if laps == lastLaps then true else tied;
      if sorted[i] == teamKey then
        if i + 1 >= |sorted| then None
        else Some((rank', tied' || r.teams[teamKey].laps == r.teams[sorted[i + 1]].laps))
      else RankScanAsWritten(r, sorted, teamKey, i + 1, laps, rank', tied')
  }

  function GetTeamRankAsWritten(r: Registry, sorted: seq<int>, teamKey: int): (result: Option<(int, bool)>)
    requires 0 <= teamKey < |r.teams| && SortedByLaps(r, sorted)
    ensures result.Some? ==> result.value.0 >= 0
  {
    RankScanAsWritten(r, sorted, teamKey, 0, -1, 0, false)
  }

  /**
   * With lap counts 5, 3 and 1 the second team is reported first (one team
   * has more laps) and asking for the last team indexes past the end.
   */
  lemma GetTeamRankAsWrittenWrong()
    ensures var r := Registry([Team("a", "x", 5, []), Team("b", "y", 3, []), Team("c", "z", 1, [])], map[]);
      && SortedByLaps(r, [0, 1, 2])
      && GetTeamRankAsWritten(r, [0, 1, 2], 1) == Some((1, false))
      && GetTeamRankAsWritten(r, [0, 1, 2], 2) == None
  {
    var r := Registry([Team("a", "x", 5, []), Team("b", "y", 3, []), Team("c", "z", 1, [])], map[]);
    var s := [0, 1, 2];
    assert forall k :: 0 <= k < 3 ==> k == s[k];
    assert RankScanAsWritten(r, s, 1, 1, 5, 1, false) == Some((1, false));
    assert RankScanAsWritten(r, s, 2, 2, 3, 1, false) == None;
  }

  /** How many of the listed teams have more than x laps. */
  function CountMore(r: Registry, keys: seq<int>, x: int): (n: nat)
    requires forall q :: 0 <= q < |keys| ==> 0 <= keys[q] < |r.teams|
    ensures n <= |keys|
  {
    if keys == [] then 0
    else CountMore(r, keys[..|keys| - 1], x) + (if r.teams[keys[|keys| - 1]].laps > x then 1 else 0)
  }

  /** The teams with more than x laps, by key. */
  function TeamsAbove(r: Registry, x: int): set<int> {
    set k | 0 <= k < |r.teams| && r.teams[k].laps > x
  }

  /** Counting along a list that holds each key once counts the keys of the set. */
  lemma {:induction false} CountMoreIsCard(r: Registry, keys: seq<int>, x: int)
    requires forall q :: 0 <= q < |keys| ==> 0 <= keys[q] < |r.teams|
    requires forall p, q :: 0 <= p < q < |keys| ==> keys[p] != keys[q]
    ensures CountMore(r, keys, x) == |set k | k in keys && r.teams[k].laps > x|
    decreases |keys|
  {
    if keys != [] {
      var front := keys[..|keys| - 1];
      var last := keys[|keys| - 1];
      CountMoreIsCard(r, front, x);
      var before := set k | k in front && r.teams[k].laps > x;
      var after := set k | k in keys && r.teams[k].laps > x;
      assert last !in front;
      assert forall k :: k in keys <==> k in front || k == last;
      if r.teams[last].laps > x {
        assert after == before + {last};
      } else {
        assert after == before;
      }
    }
  }

  /**
   * In a list sorted by laps, the position g where a group of equal counts x
   * starts is the number of teams with more than x laps.
   */
  lemma {:induction false} CountMoreAtGroupStart(r: Registry, sorted: seq<int>, g: nat, n: nat)
    requires forall q :: 0 <= q < |sorted| ==> 0 <= sorted[q] < |r.teams|
    requires forall p, q :: 0 <= p < q < |sorted| ==> r.teams[sorted[q]].laps <= r.teams[sorted[p]].laps
    requires g < |sorted| && n <= |sorted|
    requires g > 0 ==> r.teams[sorted[g - 1]].laps != r.teams[sorted[g]].laps
    ensures CountMore(r, sorted[..n], r.teams[sorted[g]].laps) == if n <= g then n else g
    decreases n
  {
    if n > 0 {
      assert sorted[..n][..n - 1] == sorted[..n - 1];
      CountMoreAtGroupStart(r, sorted, g, n - 1);
    }
  }

  /** The position where the sorted team's group of equal counts starts is the number of teams ahead of it. */
  lemma RankAtGroupStart(r: Registry, sorted: seq<int>, p: nat, g: nat)
    requires SortedByLaps(r, sorted) && g <= p < |sorted|
    requires r.teams[sorted[g]].laps == r.teams[sorted[p]].laps
    requires g > 0 ==> r.teams[sorted[g - 1]].laps != r.teams[sorted[g]].laps
    ensures g == |TeamsAbove(r, r.teams[sorted[p]].laps)|
  {
    var x := r.teams[sorted[p]].laps;
    SortedPairs(r, sorted);
    CountMoreAtGroupStart(r, sorted, g, |sorted|);
    assert sorted[..|sorted|] == sorted;
    CountMoreIsCard(r, sorted, x);
    assert (set k | k in sorted && r.teams[k].laps > x) == TeamsAbove(r, x);
  }

  /** Position g of the sorted keys starts a group of equal lap counts. */
  predicate GroupStart(teams: seq<Team>, sorted: seq<int>, g: int) {
    && 0 <= g < |sorted| && 0 <= sorted[g] < |teams|
    && (g > 0 ==> 0 <= sorted[g - 1] < |teams| && teams[sorted[g - 1]].laps != teams[sorted[g]].laps)
  }

  /**
   * The rank the corrected loop gives the team at position p of the sorted
   * keys, from the rank and count it carries in: one more than the number of
   * teams with more laps.
   */
  lemma RankOfPosition(r: Registry, sorted: seq<int>, p: nat, rank: int, lastLaps: int)
    requires SortedByLaps(r, sorted) && p < |sorted|
    requires p > 0 ==> 0 < rank <= p && lastLaps == r.teams[sorted[p - 1]].laps && r.teams[sorted[rank - 1]].laps == lastLaps
    requires p > 0 ==> GroupStart(r.teams, sorted, rank - 1)
    ensures var laps := r.teams[sorted[p]].laps;
      (if p == 0 || laps != lastLaps then p + 1 else rank) == 1 + |TeamsAbove(r, laps)|
  {
    var laps := r.teams[sorted[p]].laps;
    if p == 0 || laps != lastLaps {
      RankAtGroupStart(r, sorted, p, p);
    } else {
      RankAtGroupStart(r, sorted, p, rank - 1);
    }
  }

  /** Another team has the same count exactly when a neighbour in the sorted list does. */
  lemma TiedNeighbour(r: Registry, sorted: seq<int>, p: nat)
    requires SortedByLaps(r, sorted) && p < |sorted|
    ensures var x := r.teams[sorted[p]].laps;
      (exists j :: 0 <= j < |r.teams| && j != sorted[p] && r.teams[j].laps == x) <==>
      ((p > 0 && r.teams[sorted[p - 1]].laps == x) || (p + 1 < |sorted| && r.teams[sorted[p + 1]].laps == x))
  {
    var x := r.teams[sorted[p]].laps;
    SortedPairs(r, sorted);
    if j :| 0 <= j < |r.teams| && j != sorted[p] && r.teams[j].laps == x {
      assert j in sorted;
      var q :| 0 <= q < |sorted| && sorted[q] == j;
      if q < p {
        assert r.teams[sorted[p - 1]].laps <= r.teams[sorted[q]].laps;
      } else {
        assert r.teams[sorted[p + 1]].laps <= r.teams[sorted[p]].laps;
        assert r.teams[sorted[q]].laps <= r.teams[sorted[p + 1]].laps || q == p + 1;
      }
    }
    if p > 0 && r.teams[sorted[p - 1]].laps == x {
      assert sorted[p - 1] != sorted[p];
    }
    if p + 1 < |sorted| && r.teams[sorted[p + 1]].laps == x {
      assert sorted[p + 1] != sorted[p];
    }
  }

  // ---------------------------------------------------------------------
  // The data store
  // ---------------------------------------------------------------------

  class DataStore {
    var teams: seq<Team>
    var tags: map<int, Tag>
    const journal: Journal.Journal

    function Snapshot(): Registry
      reads this
    {
      Registry(teams, tags)
    }

    ghost predicate Valid()
      reads this
    {
      Consistent(Snapshot())
    }

    /** InitDataStore: a fresh journal, then team "LYB" led by "JB" owning tag 0. */
    constructor (file: Journal.JournalFile, now: int)
      modifies file
      ensures Valid() && fresh(journal) && journal.file == file
      ensures Snapshot() == InitRegistry(now)
      ensures journal.State() ==
        Journal.AfterAppend(
          Journal.AfterAppend(Journal.JournalState([], false, old(file.lines), old(file.present), old(file.writable)),
                              Journal.Format(Journal.AddTeam("LYB", "JB"))),
          Journal.Format(Journal.AddTag(0, 0)))
    {
      journal := new Journal.Journal(file);
      teams := [];
      tags := map[];
      new;
      var idx := InsertTeam("LYB", "JB");
      assert teams == [Team("LYB", "JB", 0, [])] && idx == 0;
      assert 0 !in tags;
      InsertTag(idx, 0, now);
      assert teams[0].tagKeys == [0];
      assert teams == [Team("LYB", "JB", 0, [0])];
      assert tags.Keys == {0};
      assert tags == map[0 := Tag(0, now, 0, 0)];
    }

    /** InsertTeam: returns the new team's key, its index in the slice. */
    method InsertTeam(name: string, leader: string) returns (idx: int)
      requires Valid()
      modifies this, journal, journal.file
      ensures Valid()
      ensures idx == old(|teams|) && idx == |teams| - 1
      ensures Snapshot() == AfterInsertTeam(old(Snapshot()), name, leader)
      ensures journal.State() == Journal.AfterAppend(old(journal.State()), Journal.Format(Journal.AddTeam(name, leader)))
    {
      InsertTeamKeepsConsistent(Snapshot(), name, leader);
      InsertTeamAppends(Snapshot(), name, leader);
      teams := teams + [Team(name, leader, 0, [])];
      journal.Team(name, leader);
      return |teams| - 1;
    }

    /** GetTeam: the team under a key; its lap count is the sum over the tags it owns. */
    method GetTeam(teamKey: int) returns (team: Team)
      requires Valid() && 0 <= teamKey < |teams|
      ensures team == teams[teamKey]
      ensures team.laps == SumLaps(tags, team.tagKeys)
      ensures forall k :: k in team.tagKeys <==> k in tags && tags[k].teamKey == teamKey
    {
      team := teams[teamKey];
    }

    /** InsertTag: idempotent for a registered key; a new key needs an existing team. */
    method InsertTag(teamKey: int, tagKey: int, now: int)
      requires Valid()
      requires tagKey in tags || 0 <= teamKey < |teams|
      modifies this, journal, journal.file
      ensures Valid()
      ensures Snapshot() == AfterInsertTag(old(Snapshot()), teamKey, tagKey, now)
      ensures journal.State() ==
        if tagKey in old(tags) then old(journal.State())
        else Journal.AfterAppend(old(journal.State()), Journal.Format(Journal.AddTag(teamKey, tagKey)))
    {
      if tagKey in tags {
        // already registered
      } else {
        InsertTagKeepsConsistent(Snapshot(), teamKey, tagKey, now);
        tags := tags[tagKey := Tag(0, now, tagKey, teamKey)];
        teams := teams[teamKey := teams[teamKey].(tagKeys := teams[teamKey].tagKeys + [tagKey])];
        journal.Tag(teamKey, tagKey);
      }
    }

    /** GetTagIDs: every registered key once, in no particular order. */
    method GetTagIDs() returns (keys: seq<int>)
      ensures forall k :: k in keys <==> k in tags
      ensures NoDuplicates(keys)
      ensures |keys| == |tags|
    {
      keys := [];
      var pending := tags.Keys;
      while pending != {}
        invariant pending <= tags.Keys
        invariant forall k :: k in keys <==> k in tags && k !in pending
        invariant NoDuplicates(keys)
        invariant |keys| + |pending| == |tags|
        decreases pending
      {
        EmptyOrMember(pending);
        var k :| k in pending;
        keys := keys + [k];
        pending := pending - {k};
      }
    }

    /** IncrementLaps: credits a lap to the tag and its team only after the de-dup window. */
    method IncrementLaps(tagKey: int, now: int)
      requires Valid()
      modifies this, journal, journal.file
      ensures Valid()
      ensures Snapshot() == AfterLap(old(Snapshot()), tagKey, now)
      ensures journal.State() ==
        if LapAccepted(old(Snapshot()), tagKey, now)
        then Journal.AfterAppend(old(journal.State()), Journal.Format(Journal.IncrementLap(tagKey)))
        else old(journal.State())
    {
      ghost var before := Snapshot();
      LapKeepsConsistent(before, tagKey, now);
      if tagKey in tags {
        var tag := tags[tagKey];
        var timeDelta := now - tag.lastUpdated;
        if timeDelta > MIN_LAP_NANOS {
          tag := tag.(laps := tag.laps + 1, lastUpdated := now);
          tags := tags[tagKey := tag];
          var team := teams[tag.teamKey];
          teams := teams[tag.teamKey := team.(laps := team.laps + 1)];
          assert Snapshot() == AfterLap(before, tagKey, now);
          journal.Lap(tagKey);
        } else {
          // too soon
        }
      } else {
        // unregistered tag
      }
    }

    /** ZeroLaps: clears every tag's count, then every team's, then journals one record. */
    method ZeroLaps()
      requires Valid()
      modifies this, journal, journal.file
      ensures Valid()
      ensures Snapshot() == AfterZero(old(Snapshot()))
      ensures journal.State() == Journal.AfterAppend(old(journal.State()), Journal.Format(Journal.ZeroAllLaps))
    {
      ghost var before := Snapshot();
      ZeroTagLaps();
      ZeroTeamLaps();
      assert Snapshot() == AfterZero(before);
      ZeroKeepsConsistent(before);
      journal.Zero();
    }

    /** ZeroLaps' first loop: every tag's count set to 0, in no particular order. */
    method ZeroTagLaps()
      modifies this
      ensures tags == map k | k in old(tags) :: old(tags)[k].(laps := 0)
      ensures teams == old(teams)
    {
      var pending := tags.Keys;
      while pending != {}
        invariant pending <= tags.Keys && tags.Keys == old(tags).Keys
        invariant forall k :: k in tags ==> tags[k] == if k in pending then old(tags)[k] else old(tags)[k].(laps := 0)
        invariant teams == old(teams)
        decreases pending
      {
        EmptyOrMember(pending);
        var k :| k in pending;
        tags := tags[k := tags[k].(laps := 0)];
        pending := pending - {k};
      }
      ghost var zeroed := map k | k in old(tags) :: old(tags)[k].(laps := 0);
      assert tags.Keys == zeroed.Keys;
      assert forall k :: k in tags ==> tags[k] == zeroed[k];
    }

    /** ZeroLaps' second loop: every team's count set to 0. */
    method ZeroTeamLaps()
      modifies this
      ensures teams == seq(|old(teams)|, i requires 0 <= i < |old(teams)| => old(teams)[i].(laps := 0))
      ensures tags == old(tags)
    {
      for idx := 0 to |teams|
        invariant tags == old(tags)
        invariant |teams| == |old(teams)|
        invariant forall i :: 0 <= i < |teams| ==> teams[i] == if i < idx then old(teams)[i].(laps := 0) else old(teams)[i]
      {
        teams := teams[idx := teams[idx].(laps := 0)];
      }
    }

    /** Close: flushes the journal. */
    method Close() returns (err: Option<Journal.JournalError>)
      modifies journal, journal.file
      ensures journal.State() == Journal.AfterFlush(old(journal.State()))
      ensures err.None? <==> old(journal.file.writable)
    {
      err := journal.Flush();
    }

    /**
     * GetTagsByTeam, looking up the team's tag keys themselves: the team's
     * tags in TagKeys order, which are exactly the registered tags it owns.
     */
    method GetTagsByTeam(teamKey: int) returns (matching: seq<Tag>)
      requires Valid() && 0 <= teamKey < |teams|
      ensures |matching| == |teams[teamKey].tagKeys|
      ensures forall i :: 0 <= i < |matching| ==>
        teams[teamKey].tagKeys[i] in tags && matching[i] == tags[teams[teamKey].tagKeys[i]]
      ensures forall k :: k in tags ==> (tags[k] in matching <==> tags[k].teamKey == teamKey)
      ensures forall t :: t in matching ==> t.tagKey in tags && tags[t.tagKey] == t
    {
      matching := [];
      var keys := teams[teamKey].tagKeys;
      assert forall k :: k in keys ==> k in tags && tags[k].teamKey == teamKey;
      for i := 0 to |keys|
        invariant |matching| == i
        invariant forall j :: 0 <= j < i ==> keys[j] in tags && matching[j] == tags[keys[j]]
      {
        assert keys[i] in keys;
        matching := matching + [tags[keys[i]]];
      }
      forall k | k in tags && tags[k].teamKey == teamKey
        ensures tags[k] in matching
      {
        assert k in keys;
        var j :| 0 <= j < |keys| && keys[j] == k;
        assert matching[j] == tags[k];
      }
    }

    /**
     * GetTeamRank over the keys in sort.Sort(ByLaps) order, with the rank
     * restarting at each new lap count and the next team looked at only when
     * there is one: the rank is one more than the number of teams with more
     * laps, and the team is tied exactly when another team has its count.
     */
    method GetTeamRank(teamKey: int, sorted: seq<int>) returns (rank: int, tied: bool)
      requires 0 <= teamKey < |teams| && SortedByLaps(Snapshot(), sorted)
      ensures rank == 1 + |TeamsAbove(Snapshot(), teams[teamKey].laps)|
      ensures tied <==> exists j :: 0 <= j < |teams| && j != teamKey && teams[j].laps == teams[teamKey].laps
    {
      var ranked := teams;
      var lastLaps := -1;
      rank := 0;
      tied := false;
      var i := 0;
      assert teamKey in sorted;
      ghost var position :| 0 <= position < |sorted| && sorted[position] == teamKey;
      while sorted[i] != teamKey
        invariant 0 <= i <= position
        invariant i > 0 ==> 0 < rank <= i && lastLaps == ranked[sorted[i - 1]].laps && ranked[sorted[rank - 1]].laps == lastLaps
        invariant i > 0 ==> GroupStart(ranked, sorted, rank - 1)
        decreases |sorted| - i
      {
        var laps := ranked[sorted[i]].laps;
        if i == 0 || laps != lastLaps {
          rank := i + 1;
          tied := false;
        } else {
          tied := true;
        }
        lastLaps := laps;
        i := i + 1;
      }
      // the team's own position
      ghost var rankBefore := rank;
      var laps := ranked[sorted[i]].laps;
      if i == 0 || laps != lastLaps {
        rank := i + 1;
        tied := false;
      } else {
        tied := true;
      }
      if i + 1 < |sorted| && laps == ranked[sorted[i + 1]].laps {
        tied := true;
      }
      RankOfPosition(Snapshot(), sorted, i, rankBefore, lastLaps);
      TiedNeighbour(Snapshot(), sorted, i);
    }
  }
}
