# Relay lap counter — a Dafny model

Relay is the lap counter of a 24-hour charity relay walk. Each walker carries
an RFID tag. A reader by the track reports every tag it sees to the relay
server over a websocket. The server counts a lap for the tag and for the
tag's team, unless the same tag was counted too recently. Every counted lap
becomes a notification on the live leaderboard, carrying the team's
competition rank ("1", "4 (T)").

The core has two generations of storage:

- An in-memory **registry** (`data.go`). It holds teams in a slice and tags
  in a map, and writes every mutation to a CSV **journal**
  (`journal.go`). Replaying the journal rebuilds the registry.
- A **SQLite store** (`db.go`). It holds the tables `teams` and `tags`. It
  counts a lap with a duplicate check of 60 seconds, records the team's
  bit for the current hour of the event, and ranks teams from
  `ORDER BY team_laps DESC`.

The web layer (`web.go`) reads tag ids from the reader's websocket and
counts them through one service goroutine. That goroutine publishes
notifications to the browsers. The web layer also has a form that
registers a range of tags for a team. The reader client (`rfid/rfid.py`)
decodes each hex EPC (the tag's Electronic Product Code) to the tag's text
and drops a re-read of the same tag within 5 seconds. It sends the rest,
buffered while the socket is down, as one comma-joined message.

Time is integer nanoseconds, passed in as `now`. The current hour of the
event is a 64-bit word `hour`. Each outside effect is a parameter:

- whether connecting or sending succeeds (`connects`, `sendOk`);
- whether the journal file can be opened (`JournalFile.present`, `writable`);
- whether the roster file opens, and its lines (`present` and `lines` of `SqlStore.DataStore.Import`);
- whether foreign keys are enforced (`foreignKeys`).

The modules follow the program:

- `GoStd`: the parts of strconv, strings and encoding/csv the core relies on.
- `Journal`: `journal.go` except Replay.
- `MemStore`: `data.go`.
- `JournalReplay`: `journal.go`'s Replay. It is a separate module because
  it needs both the journal and the registry.
- `SqlStore`: `db.go`.
- `Server`: `web.go`.
- `RfidClient`: `rfid/rfid.py`.

Each stateful object is a class over its fields. It has a value snapshot
(`Snapshot()`, `State()`). Each method ensures that its new snapshot is a
pure function of the old one (`AfterLap`, `AfterIncrementLaps`,
`AfterSend`, …). The lemmas are stated about those functions.

Some behaviour below is worth knowing:

- The reader client batches tags while disconnected and sends
  `"12,13"`. The server parses each message with `strconv.Atoi` and drops
  it, so every read in a batch is lost (`RfidClient.BatchedReadsDropped`).
- The journal reader inherits encoding/csv's rule that every record has the
  first record's field count. A journal whose first record is a team or tag
  (three fields) stops with a read error at its first lap or zero record
  (`JournalReplay.MixedJournalFails`).
- The journal is written only once more than `MAX_ENTRIES = 2` entries are
  buffered, so up to two journalled mutations are not yet on disk at any
  time (`Journal.AppendsKeepLog`).
- The comment on `getTeamRanks` promises ranks like "1st" or "23rd (T)".
  The code produces plain numbers, and marks every tied team except the
  first of its group (`SqlStore.TieMarkerAsymmetric`). The model follows
  the code.
- The in-memory registry waits `MIN_LAP_SECS = 10` seconds before counting
  a tag again. The SQLite store waits 60 seconds.

## Model

| member | source | states |
|---|---|---|
| GoStd.Atoi | web.go:224-229 | Atoi succeeds exactly on an optionally signed run of decimal digits whose value fits in 64 bits, and its value is that number |
| GoStd.AtoiValue | db.go:442-443 | the value strconv.Atoi hands back beside an ignored error is the parsed number on success, 0 after a syntax error whose digits stay within 2^64 - 1, MaxInt64 or MinInt64 for a numeral above or below the 64-bit range, and always a 64-bit int |
| GoStd.AtoiValueOverflow | db.go:442-443 | once the digits after the sign pass 2^64 - 1, Atoi gives MaxInt64, or MinInt64 after '-', whatever text follows them |
| GoStd.LeadingDigits | db.go:442-443 | the leading run of a string is a prefix of digits followed by a non-digit or the end |
| GoStd.LeadingDigitsAppend | db.go:442-443 | digits in front of a text lead that text's own leading run |
| GoStd.DigitsValueGrows | db.go:442-443 | appending digits never makes a numeral smaller |
| GoStd.Inc64 | db.go:444 | Go's ++ on a 64-bit int adds one below MaxInt64 and wraps MaxInt64 to MinInt64 |
| GoStd.NatToStringValue | journal.go:48-55 | the decimal text of a natural number is a non-empty run of digits that denotes that number |
| GoStd.AtoiItoa | journal.go:84-90 | reading back the decimal text of any 64-bit int gives that int, the round trip the journal's lap and tag records rely on |
| GoStd.ItoaPlain | journal.go:48-55 | a formatted int never holds a comma, quote or newline, so it stays one csv field; a non-negative one is plain digits |
| GoStd.Split | web.go:121 | strings.Split always yields at least one part |
| GoStd.SplitWithoutSep | web.go:121 | text without the separator splits into itself alone |
| GoStd.SplitAfterPart | web.go:121 | splitting "a,b…" where a has no separator gives a, then the split of the rest |
| GoStd.SplitTwo | db.go:441 | "a-b" with separator-free halves splits into exactly [a, b] |
| GoStd.SplitThree | journal.go:44-51 | "a,b,c" with separator-free parts splits into exactly [a, b, c] |
| GoStd.SplitJoin | rfid/rfid.py:44 | splitting a comma-join of separator-free parts gives the parts back, in order |
| GoStd.StringLessIrreflexive | data.go:83-84 | Go's string < is irreflexive |
| GoStd.StringLessTransitive | data.go:83-84 | Go's string < is transitive |
| GoStd.StringLessTotal | data.go:83-84 | any two different strings are ordered by Go's string < one way or the other |
| GoStd.ReadCsvFrom | journal.go:80-82 | the csv reader yields at most one record per line and every record has at least one field |
| GoStd.ChompLineEndings | db.go:418-424 | a line's text comes back the same whether it ends in "\n", "\r\n", a final '\r' or the end of input |
| Journal.ChompFormat | journal.go:80-82 | a journal line read back without its terminator is the text of its record, except that a team leader's final '\r' is read as part of the line ending |
| Journal.FormatFields | journal.go:44-59 | each journal record splits at its commas into its op code and its arguments, in order, when names hold no comma, quote or newline |
| Journal.Terminated | journal.go:37 | appending adds exactly a newline to each entry, one for one |
| Journal.FlushKeepsLog | journal.go:62-74 | a flush loses no journalled entry as long as every write succeeds: when the file opens, the buffer moves to the end of the file and is emptied; when it does not, nothing changes |
| Journal.AppendEffect | journal.go:35-43 | an append while replaying changes nothing; otherwise the entry plus newline joins the end of the log; the file only grows, and a writable journal never keeps more than MAX_ENTRIES buffered |
| Journal.AppendsKeepLog | journal.go:35-43 | any run of appends to a writable journal not replaying adds exactly those entries, newline-terminated and in order, and leaves at most MAX_ENTRIES unflushed |
| Journal.AppendsWhileReplaying | journal.go:36 | while replaying, no run of appends changes the journal |
| Journal.JournalFile.constructor | journal.go:25-26 | the journal file holds the given lines and open flags |
| Journal.Journal.constructor | data.go:50 | a new journal has an empty buffer and is not replaying |
| Journal.Journal.Flush | journal.go:62-74 | the new state is the flush of the old; the error is returned exactly when the file cannot be opened |
| Journal.Journal.Append | journal.go:35-43 | the new state is the append of the entry to the old |
| Journal.Journal.Team | journal.go:44-47 | appends the team record "t,name,leader" |
| Journal.Journal.Tag | journal.go:48-51 | appends the tag record "g,team,tag" |
| Journal.Journal.Lap | journal.go:52-55 | appends the lap record "l,tag" |
| Journal.Journal.Zero | journal.go:56-59 | appends the zero record "z" |
| MemStore.SumLapsAppend | data.go:163-164 | the laps summed over a team's tag keys grow by the new key's laps when a key is added |
| MemStore.SumLapsFrame | data.go:163-164 | the laps summed over a list of keys depend only on those keys' tags |
| MemStore.SumLapsBump | data.go:159-164 | one more lap on a tag adds one to the sum of exactly those teams that list it |
| MemStore.SumLapsZero | data.go:176-182 | summed over zeroed tags, the laps are 0 |
| MemStore.InsertTeamKeepsConsistent | data.go:60-65 | adding a team keeps the registry consistent (each tag's team lists it, team laps are the sum of their tags' laps) |
| MemStore.InsertTeamKeepsOwners | data.go:60-65 | after adding a team every tag still has its own key and an owner that lists it |
| MemStore.InsertTeamKeepsLists | data.go:60-65 | after adding a team every team lists only its own tags, once each, summing to its laps; the new team has none |
| MemStore.InsertTeamAppends | data.go:60-65 | adding a team appends exactly one team and leaves the others in place |
| MemStore.InsertTagKeepsConsistent | data.go:119-133 | registering a tag keeps the registry consistent |
| MemStore.LapKeepsConsistent | data.go:154-173 | counting a read, or refusing it, keeps the registry consistent |
| MemStore.ZeroKeepsConsistent | data.go:176-184 | zeroing keeps the registry consistent |
| MemStore.InsertTagIdempotent | data.go:120-122 | registering a tag already present changes nothing |
| MemStore.AcceptedLapEffect | data.go:155-166 | an accepted read adds one lap to the tag and one to its owning team, stamps the tag with now, and changes no other tag or team |
| MemStore.RejectedLapEffect | data.go:155-172 | a read of an unknown tag, or within MIN_LAP_SECS of the last counted one, changes nothing |
| MemStore.ReadRightAfterRegistrationDropped | data.go:127 | a tag is stamped at registration, so a read within MIN_LAP_SECS of registering it is not counted |
| MemStore.ZeroEffect | data.go:176-182 | zeroing sets every tag's and team's laps to 0 and keeps names, leaders, tag keys, owners and timestamps |
| MemStore.ByLapsStrictWeakOrder | data.go:85-86 | ByLaps is a strict weak order, most laps first, and two teams are equivalent exactly when their lap counts are equal |
| MemStore.ByNameStrictOrder | data.go:83-84 | ByName is a strict order on teams, total among different names |
| MemStore.TagsByTeamAsWritten | data.go:145-151 | as written, the lookup yields one entry per position in the team's tag keys |
| MemStore.InitRegistryConsistent | data.go:48-57 | the registry InitDataStore builds, team LYB owning tag 0, is consistent |
| MemStore.TagsByTeamAsWrittenMissesTags | data.go:147 | as written, after InitDataStore a second team that owns only tag 7 is handed LYB's tag 0, although tag 7 is registered to it |
| MemStore.SortedPairs | data.go:92 | in a list sorted by ByLaps, every later team has at most the laps of every earlier one |
| MemStore.RankScanAsWritten | data.go:97-113 | the scan as written never returns a rank below the rank it started with |
| MemStore.GetTeamRankAsWritten | data.go:89-116 | as written, every rank returned is non-negative |
| MemStore.GetTeamRankAsWrittenWrong | data.go:99-107 | as written, with laps 5, 3, 1 the second team is ranked 1 and the last team's scan indexes past the end |
| MemStore.CountMore | data.go:97-104 | the number of listed teams with more laps than x is at most the length of the list |
| MemStore.CountMoreIsCard | data.go:97-104 | counting past a list of distinct team keys is the size of the set of those teams with more laps |
| MemStore.CountMoreAtGroupStart | data.go:97-104 | in a sorted list, the teams with more laps than the first of a group are exactly the ones before it |
| MemStore.RankAtGroupStart | data.go:97-104 | the position where a group of equal counts starts is the number of teams with more laps |
| MemStore.RankOfPosition | data.go:97-104 | the intended scan's rank at each position is one plus the number of teams with more laps |
| MemStore.TiedNeighbour | data.go:102-109 | another team has the same laps exactly when a neighbour in the sorted list does |
| MemStore.DataStore.constructor | data.go:48-57 | a new registry holds team "LYB" led by "JB" with tag 0 stamped now, and the journal has the matching team and tag records |
| MemStore.DataStore.InsertTeam | data.go:60-65 | the team is appended, its index is returned, the team record is journalled, and the registry stays consistent |
| MemStore.DataStore.GetTeam | data.go:73-75 | returns the team at the index, whose laps are the sum of its tags' laps and whose tag keys are exactly the tags it owns |
| MemStore.DataStore.InsertTag | data.go:119-133 | a new tag is stamped now, appended to its team's keys and journalled; a known one changes nothing |
| MemStore.DataStore.GetTagIDs | data.go:136-142 | returns every registered tag key exactly once |
| MemStore.DataStore.IncrementLaps | data.go:154-173 | the registry becomes the lap applied to the old one, journalled exactly when counted, and stays consistent |
| MemStore.DataStore.ZeroLaps | data.go:176-184 | every lap count becomes 0, the zero record is journalled, and the registry stays consistent |
| MemStore.DataStore.ZeroTagLaps | data.go:177-179 | every tag's laps become 0 and nothing else changes |
| MemStore.DataStore.ZeroTeamLaps | data.go:180-182 | every team's laps become 0 and nothing else changes |
| MemStore.DataStore.Close | data.go:187-190 | flushes the journal and returns the flush's error |
| MemStore.DataStore.GetTagsByTeam | data.go:145-151 | returns the team's tags, one per tag key in order: exactly the registered tags owned by the team |
| MemStore.DataStore.GetTeamRank | data.go:89-116 | the rank is one plus the number of teams with more laps, and tied holds exactly when another team has the same laps |
| JournalReplay.ApplyRecord | journal.go:83-98 | applying a journalled operation keeps the registry consistent and fails only for a new tag of a team that does not exist |
| JournalReplay.ReplayRecords | journal.go:81-107 | replaying any run of records leaves a consistent registry |
| JournalReplay.DispatchFormat | journal.go:44-59 | round trip: the fields of every formatted record dispatch back to that record, when names are plain text and keys fit in an int |
| JournalReplay.DispatchSkips | journal.go:83-98 | unknown op codes and unparsable numbers are skipped; a team or tag record with fewer than three fields panics |
| JournalReplay.MixedJournalFails | journal.go:80-82 | a journal that starts with a team or tag record and then has a lap or zero record yields only its first record, as read back, before a read error |
| JournalReplay.StepResult | journal.go:82-98 | one record leaves the registry consistent when it does not panic |
| JournalReplay.ReplayStep | journal.go:81-107 | replaying from record i is the step for record i, then the replay of the rest |
| JournalReplay.ReplayRecord | journal.go:83-98 | one record is applied to the registry as the dispatch says, nothing changes on a panic, and nothing is journalled while replaying |
| JournalReplay.Replay | journal.go:77-115 | a missing file changes nothing; otherwise the registry is the replay of the csv records, read errors are reported, the flag is cleared except after a panic, and replaying journals nothing |
| SqlStore.CountAboveAtGroupStart | db.go:239-243 | on a board sorted by laps, the first team of a group of equal laps has exactly its position's worth of teams above it |
| SqlStore.WalkCounters | db.go:237-248 | after n steps of the rank walk, prevLaps is the n-th team's laps and rank is one plus the number of teams with more laps |
| SqlStore.WalkStepText | db.go:244-247 | after step n the n-th team's mark is its competition rank, tied when the team before it had the same laps |
| SqlStore.WalkStepKeeps | db.go:244 | a later step of the walk does not change an earlier team's entry when team ids are distinct |
| SqlStore.WalkMatchesRankAt | db.go:239-249 | every team the walk has passed keeps the mark of its own position |
| SqlStore.WalkKeepsFrom | db.go:239-249 | an entry made by the walk survives to the end when team ids are distinct |
| SqlStore.TeamRankIsRankAt | db.go:253-259 | a team's rank text is one plus the number of teams above it, with " (T)" when the team before it has the same laps |
| SqlStore.WalkKeys | db.go:244 | the walk has entries only for teams on the board |
| SqlStore.TeamRankOffBoard | db.go:258 | a team not on the board gets the empty rank |
| SqlStore.TieMarkerAsymmetric | db.go:245-247 | in a tied group the first team gets the bare rank and the next one the same rank with " (T)" |
| SqlStore.ExampleBoardShape | db.go:239-249 | the worked board of laps 10, 10, 7, 5, 5, 5 is sorted, has distinct ids and stays below MaxInt32 |
| SqlStore.ExampleBoardLeaders | db.go:239-249 | on the worked board the two leaders rank "1" and "1 (T)" |
| SqlStore.ExampleBoardThird | db.go:239-249 | on the worked board the third team ranks "3" |
| SqlStore.ExampleBoardLast | db.go:239-249 | on the worked board the last three rank "4", "4 (T)", "4 (T)" |
| SqlStore.RanksExample | db.go:253-259 | the rank lookup gives the same six ranks on the worked board |
| SqlStore.WalkAtMaxInt32 | db.go:238-242 | a leader with MaxInt32 laps or more is ranked "0", tied at exactly MaxInt32 |
| SqlStore.MaxLapsExists | db.go:224-225 | every non-empty set of rows has one with the most laps |
| SqlStore.BoardSoFarGrows | db.go:224-225 | appending a remaining row with the most laps keeps the partial board a sorted, duplicate-free prefix of the ordered table |
| SqlStore.BoardSoFarDone | db.go:224-225 | a partial board of LIMIT rows is a leaderboard |
| SqlStore.MaskIsOr | db.go:180-186 | the hour update leaves the mask OR the hour's bit |
| SqlStore.MaskCases | db.go:181-185 | the mask is written only when the hour's bit was clear |
| SqlStore.MaskKeepsBits | db.go:180-186 | the hour update never clears a bit |
| SqlStore.MaskSetsBit | db.go:180-186 | after the hour update the hour's bit is set |
| SqlStore.MaskChanges | db.go:180-186 | the mask changes exactly when the bit was clear and the hour is below 64 (Go's shift gives 0 beyond) |
| SqlStore.HoursOnlyGainBit | db.go:129-137 | the hours update rewrites only the owning team's mask and nothing else |
| SqlStore.HoursWithinDay | db.go:41 | for the 24 hours of the event, the bit is non-zero and the mask stays within 24 bits |
| SqlStore.WindowBoundary | db.go:143 | a read exactly minLapSecs after the last one counts, and one a nanosecond sooner does not |
| SqlStore.WindowExample | db.go:141-152 | a read counted at t, then reads at t+30s and t+61s: the second is a duplicate, the third counts |
| SqlStore.CountedReadEffect | db.go:164-186 | a counted read adds one lap to the tag, stamps it with now, adds one lap and the hour's bit to the owner when its row exists, and changes no other row |
| SqlStore.UncountedReadEffect | db.go:168-170 | an unknown tag or a duplicate read changes no table |
| SqlStore.InsertTeamRowsKeeps | db.go:314-332 | team inserts never change or remove an existing row |
| SqlStore.InsertTeamRowsOk | db.go:314-332 | the team inserts succeed exactly when every id is new and the batch has no repeated id |
| SqlStore.InsertTeamRowsStores | db.go:322-328 | after a successful insert, each team's row holds zero laps and hours, its leader and its name |
| SqlStore.InsertTeamRowsKeys | db.go:314-332 | after a successful insert, the table's ids are the old ones plus the batch's |
| SqlStore.InsertTeamRowsSpec | db.go:314-332 | all four team-insert properties together |
| SqlStore.InsertTagRowsKeeps | db.go:342-356 | tag inserts never change or remove an existing row |
| SqlStore.InsertTagRowsOk | db.go:342-356 | the tag inserts succeed exactly when every id is new, none repeats and, with foreign keys on, every team exists |
| SqlStore.InsertTagRowsStores | db.go:350-352 | after a successful insert, each tag's row holds zero laps, timestamp 0 and its team |
| SqlStore.InsertTagRowsKeys | db.go:342-356 | after a successful insert, the table's ids are the old ones plus the batch's |
| SqlStore.InsertTagRowsSpec | db.go:342-356 | all four tag-insert properties together |
| SqlStore.NewTagNotDuplicate | db.go:143 | a freshly inserted tag has timestamp 0, so its first read counts |
| SqlStore.TagRange | db.go:444-446 | the range first..last holds last-first+1 tags (none when last < first), numbered up from first, all with zero laps and the given team |
| SqlStore.RowTagsOwner | db.go:439-447 | a roster row's tags all belong to that row's team, and an empty range column gives none |
| SqlStore.RosterLastRow | db.go:438-448 | parsing a roster adds the last row's team after the others; the last row has the six columns it indexes |
| SqlStore.RosterTeams | db.go:420-448 | team i of the roster is row i's name and leader, numbered i from 0 |
| SqlStore.RosterTagOwners | db.go:439-447 | every roster tag belongs to a row with a non-empty range column |
| SqlStore.RosterNumbering | db.go:419-448 | the roster's teams are its rows in order, numbered from 0, and every tag's team is one of those rows |
| SqlStore.RangeColumn | db.go:439-446 | a range column "a-b" gives exactly the tags a..b of the row's team, except that a range with a <= b == MaxInt64 never ends |
| SqlStore.RangeEndPastMax | db.go:443-444 | a range column whose end is a number at or past MaxInt64 reads that end as MaxInt64, so the tag loop never ends |
| SqlStore.RangeEndOverflows | db.go:443-444 | a range end whose digits pass 2^64 - 1, whatever follows them (as in "1-99999999999999999999 "), reads as MaxInt64, so the tag loop never ends |
| SqlStore.CrlfRoster | db.go:418-447 | a roster saved with "\r\n" line endings reads as the same records, and a header plus one row with an empty range column imports that row's team, numbered 0, and no tags |
| SqlStore.CrlfLine | db.go:418-424 | a line of comma-free fields ended by "\r\n" reads as exactly those fields |
| SqlStore.OneTeamRoster | db.go:438-447 | a roster of one six-column row with no range is that row's team, numbered 0, and no tags |
| SqlStore.TagAfter | db.go:444 | the tag loop's counter after n rounds of 64-bit ++ is always a 64-bit int |
| SqlStore.TagAfterCounts | db.go:444 | when the range does not end at MaxInt64, n rounds of the loop's ++ add exactly n, with no wrap |
| SqlStore.TagLoopEnds | db.go:444 | the loop `tagID <= last; tagID++` runs for ever exactly when first <= last == MaxInt64: then every round leaves tagID <= last, otherwise some round passes last |
| SqlStore.DataStore.constructor | db.go:89-95 | a new store has empty tables and the given foreign-key setting |
| SqlStore.DataStore.GetOneTag | db.go:366-383 | returns the tag's row when it exists and the "Unassigned tag" error exactly when it does not |
| SqlStore.DataStore.GetOneTeam | db.go:261-281 | returns the team's row with an empty rank, or the zero team when it does not exist |
| SqlStore.DataStore.RecordLap | db.go:139-161 | a duplicate read returns the error and changes nothing; any other read bumps the tag row and then the team row |
| SqlStore.DataStore.IncrementHours | db.go:129-137 | stores the given mask in the team's row, if the row exists |
| SqlStore.DataStore.CountHour | db.go:180-186 | the team's mask gains the hour's bit, if its row exists |
| SqlStore.DataStore.IncrementLaps | db.go:163-191 | the tables become the counted read of the old ones; the result is an error exactly for an unknown tag or a duplicate, and otherwise the notification with the team's rank on a leaderboard of the new tables |
| SqlStore.DataStore.GetLeaderboard | db.go:223-227 | the rows returned are a leaderboard of the table: LIMIT distinct rows, most laps first, none left out with more laps |
| SqlStore.DataStore.GetTeamRanks | db.go:230-251 | the rank map is the walk's marks rendered, on a leaderboard of 999 rows |
| SqlStore.DataStore.GetOneTeamRank | db.go:253-259 | the rank is the team's entry in that map, empty for a team not on the board |
| SqlStore.DataStore.InsertTeams | db.go:335-340 | in one transaction: the table becomes the inserted rows when all succeed and stays as it was otherwise |
| SqlStore.DataStore.InsertTagsNoTx | db.go:342-356 | without a transaction: the rows written before the first failure stay |
| SqlStore.DataStore.InsertTags | db.go:359-364 | in one transaction: the table becomes the inserted rows when all succeed and stays as it was otherwise |
| SqlStore.DataStore.Import | db.go:415-454 | a roster file that does not open stores nothing and reports it; a short row or range panics and stores nothing; a range ending at MaxInt64, whose loop never ends, stores nothing; a read error stores nothing; otherwise the roster's teams, then its tags, are inserted in two transactions |
| SqlStore.ParseRow | db.go:438-447 | one roster row gives its team, numbered teamID, and appends the tags of its range column, or the row's fault: a panic when the row or its range is malformed, an endless loop when the range ends at MaxInt64 |
| SqlStore.ParseRosterStep | db.go:421-448 | parsing the roster one row further is that row's parse after the earlier rows |
| SqlStore.FaultStays | db.go:421-448 | once a prefix of the roster stops with a fault, the whole roster stops with the same fault |
| SqlStore.ReadRoster | db.go:423-448 | Import's loop over the rows yields exactly the roster's parse: its teams and tags, or the first row's fault |
| SqlStore.AppendTagRange | db.go:444-446 | the tag loop, stepping with 64-bit ++, appends exactly the tags first..last when the range does not end at MaxInt64 |
| SqlStore.RankWalk | db.go:237-249 | the loop builds exactly the walk's rank map over the board |
| Server.LapsMessage | web.go:224-229 | a message accepted as a tag id is a 64-bit int |
| Server.LapsMessageItoa | web.go:224-229 | every tag id sent as plain decimal reaches the tag channel as itself |
| Server.TagService.constructor | web.go:239-248 | the service starts not started, with nothing pending and nothing published |
| Server.TagService.HandleLapsMessage | web.go:224-233 | a decimal tag id joins the end of the tag channel, and any other message changes nothing |
| Server.TagService.UpdateHour | web.go:264-266 | the hour is set and the event is started |
| Server.TagService.ServeRead | web.go:251-260 | the oldest read is taken; before the start it is dropped; afterwards the tables become its counted read, and exactly one notification with the team's rank is published when it counts and none when it does not |
| Server.NotifyClient.constructor | web.go:283 | a client starts with an empty queue |
| Server.NotifyHub.constructor | web.go:299-303 | the hub starts with no clients |
| Server.NotifyHub.Register | web.go:305-306 | the client joins the set |
| Server.NotifyHub.Unregister | web.go:307-308 | the client leaves the set, and unregistering an unknown client changes nothing |
| Server.NotifyHub.Publish | web.go:309-312 | the notification is queued to every client, or the fan-out blocks at a client whose queue of 10 is full, having queued it at most once anywhere |
| Server.TagFormRange | web.go:121-137 | the form "a-b" registers the tags a..b of the team, none when b < a, and is an endless loop when a <= b == MaxInt64 |
| Server.TagFormSingle | web.go:121-137 | the form "a" registers the single tag a, except that for a == MaxInt64 the loop never ends |
| Server.TagFormRefused | web.go:117-133 | a team id or a tag part that is not a number refuses the form, and an accepted form parsed every part it used |
| Server.TagFormTeam | web.go:121-137 | every tag of an accepted form belongs to the form's team, with ids counting up from the first and zero laps |
| Server.PostTagForm | web.go:113-143 | a refused form, or one whose tag loop would never end, writes nothing; an accepted one goes through the tag inserts without a transaction and returns the team id for the redirect, or the insert's error |
| RfidClient.HexValue | rfid/rfid.py:69 | a hex digit is worth less than 16 |
| RfidClient.HexDigit | rfid/rfid.py:69 | each value below 16 has a hex digit that reads back as it |
| RfidClient.ChunkValue | rfid/rfid.py:69 | a chunk of one or two hex digits is a character code below 256 |
| RfidClient.EncodeEpc | rfid/rfid.py:66-70 | encoding gives two hex digits per character |
| RfidClient.DecodeEpcDefined | rfid/rfid.py:66-70 | an EPC decodes exactly when it is all hex, into one character per two digits, rounding up |
| RfidClient.DecodeEpcChunks | rfid/rfid.py:68-70 | character k of the decoded tag is the value of the k-th two-digit chunk of the EPC |
| RfidClient.DecodeEncodeEpc | rfid/rfid.py:66-70 | round trip: decoding the hex encoding of any text of codes below 256 gives the text back |
| RfidClient.DedupWindow | rfid/rfid.py:72-77 | after a forwarded read, the same tag exactly DEDUP_THRESHOLD later is dropped and a nanosecond after that is forwarded; other tags are unaffected |
| RfidClient.NewTagAccepted | rfid/rfid.py:72 | a tag never seen is forwarded exactly when more than the threshold has passed since the epoch |
| RfidClient.SendWhileDown | rfid/rfid.py:33-42 | while the connection stays down, a send only buffers the tag |
| RfidClient.SendOutcome | rfid/rfid.py:43-53 | a successful send puts the whole buffer, ending with the new tag, on the wire as one message and empties it; a failed send keeps every tag and marks the connection bad |
| RfidClient.SendKeepsTags | rfid/rfid.py:33-53 | no tag is lost or reordered: the tags on the wire, then the buffer, are every tag sent, in order |
| RfidClient.BatchedReadsDropped | rfid/rfid.py:44-49 | a message of two or more comma-joined tags is not a tag id to the server, so none of its reads counts |
| RfidClient.PaddedTagCounts | rfid/rfid.py:104-106 | a tag written as str(t).zfill(4) reaches the server as the number t |
| RfidClient.RelayWebsocket.constructor | rfid/rfid.py:28-31 | a new socket has an empty buffer, is not connected and has sent nothing |
| RfidClient.RelayWebsocket.Send | rfid/rfid.py:33-53 | the new state is the send of the tag on the old one |
| RfidClient.RelayWebsocket.Close | rfid/rfid.py:55-59 | the connection is no longer good and nothing buffered is lost |
| RfidClient.RelayWebsocket.OnClose | rfid/rfid.py:61-63 | the connection is no longer good and nothing buffered is lost |
| RfidClient.TagReader.constructor | rfid/rfid.py:22-23 | the client starts with an empty cache and no socket |
| RfidClient.TagReader.Post | rfid/rfid.py:66-77 | a report that is not hex changes nothing; an accepted tag is stamped in the cache and sent when a socket exists; a duplicate changes nothing |

## Left out

- SQL text, prepared statements, connections and error returns from SQLite (Exec and Step failures) are not modelled. Each table is a map from primary key to row, and the only insert errors are a duplicate key and a missing team.
- SqlStore.DataStore.IncrementLaps: the tag, team and hours updates are separate statements and not atomic; a failure between them is not modelled.
- SqlStore.DataStore.GetLeaderboard: the order among rows with equal laps is whatever SQLite returns, so the model lets it be any order (the board comes from a choice); getAllTeams' read errors are left out.
- The `PRAGMA foreign_keys` setting is a constructor parameter rather than read from the connection.
- SqlStore.DataStore.Import: the source ignores the error from reading the header record, and the model does not track it; reading the ends of a tag range also ignores Atoi's error, which GoStd.AtoiValue models.
- CSV quoting and escapes are not modelled: GoStd.ReadCsv splits plain lines at commas, which is all the journal ever writes when names hold no comma, quote or newline.
- SqlStore.AppendTagRange: requires a range that does not end at MaxInt64, which is exactly when the loop of db.go:444 and web.go:135 ends; SqlStore.ParseRow and Server.PostTagForm test for the endless case before entering the loop and return RangeNeverEnds or EndlessTagRange with nothing written, where the source keeps looping and never returns.
- SqlStore.DataStore.Import and Server.PostTagForm: the endless tag loop also grows the tag slice without bound; the model reports the case instead of modelling memory exhaustion.
- Journal.FlushKeepsLog: the errors of WriteString after a successful open are not modelled (journal.go:65 ignores them and line 72 empties the buffer anyway), so a failed write there would lose the buffered entries.
- 64-bit wrap-around of lap counts and of the hours word above bit 63 is not modelled (the wrap of the tag loops' counter is, through GoStd.Inc64); the duplicate checks compare exact nanoseconds instead of float seconds.
- `lapsToMiles`, `friendlyDate`, HTML templates, static files, the HTTP routes other than the tag form, JSON encoding and websocket framing are not part of this model.
- Server.TagService: the tag channel's buffer of 10 is not modelled (the pending queue is unbounded), nor are the quit channels; the goroutine's select is split into its cases (HandleLapsMessage, UpdateHour, ServeRead).
- Server.NotifyHub: the notify channel's buffer of 10 and the goroutine that drains client queues are not modelled.
- `GetTeams`, `GetTagsForTeam` and sort by name on the SQLite side, `ticker.go`, `relay.go` and `tools/populate.py` are not part of this model.
- JournalReplay.Replay: every replayed record happens at one instant `now`, so the tag timestamps it rebuilds are all now.
- JournalReplay.ApplyRecord: a tag record for a missing team panics at data.go:129 after the tag was already stored at data.go:124; the model stops with the registry as it was before that record.
- MemStore.DataStore.GetTeamRank: the copy and sort.Sort of the teams is not modelled; the sorted order is a parameter, required to be a ByLaps order of the teams (SortedByLaps).
- RfidClient.Post: the EPC's `repr(...).strip("'")` step is taken as giving the hex text itself; Python's int(ch, 16) also accepts signs, spaces and underscores, and the model accepts plain hex digits only.
- RfidClient.PaddedTagCounts: only non-negative tag numbers are modelled; zfill's handling of a sign is not.
- The reader hardware (mercury), signals, logging and the write mode's sleeps are not modelled.
- Helpers rather than operations of the source: SqlStore.DataStore.CountHour, SqlStore.ParseRow, SqlStore.ReadRoster, SqlStore.AppendTagRange and SqlStore.RankWalk are loop bodies or loops of db.go; MemStore.DataStore.ZeroTagLaps and ZeroTeamLaps are the two loops of ZeroLaps; JournalReplay.ReplayRecord is the body of Replay's loop.
- The walk's map is kept as rank marks (a number and a tie flag) and rendered to text by SqlStore.RankText; the text is the same.

## Findings

| source | as written | input that shows it | evidently intended | confidence | as-written member | corrected member |
|---|---|---|---|---|---|---|
| data.go:147 | `for tagKey := range ds.teams[teamKey].TagKeys` binds the position in the slice, not the key, so the lookup fetches tags 0, 1, … | after InitDataStore (team LYB owning tag 0), a second team that owns only tag 7 gets `[Some(tags[0])]`, LYB's tag | iterate over the keys (`for _, tagKey := range`) and return the team's own tags | high, not executed | MemStore.TagsByTeamAsWritten, MemStore.TagsByTeamAsWrittenMissesTags | MemStore.DataStore.GetTagsByTeam |
| data.go:99-107 | on a list sorted most laps first, `laps > lastLaps` holds only for the first team, so the rank stays 1; at the last team `sortedTeams[i+1]` is out of range | laps 5, 3, 1: the team with 3 laps is ranked 1, and ranking the team with 1 lap panics | competition rank (one plus the teams with more laps) and tied when any other team has the same laps | high, not executed | MemStore.GetTeamRankAsWritten, MemStore.GetTeamRankAsWrittenWrong | MemStore.DataStore.GetTeamRank |
