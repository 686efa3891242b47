/**
 * Replaying the journal onto the in-memory registry: each csv record is
 * dispatched on its op code to the registry operation it journals, with
 * journalling switched off for the duration.
 */
module JournalReplay {
  import opened GoStd
  import opened Journal
  import MemStore

  /** What one record asks for: a registry operation, nothing, or an index out of range. */
  datatype Action = Run(op: Record) | Skip | Panic

  /**
   * The dispatch of one record.  Fields are indexed before anything is
   * checked, so a record too short for its op code panics; lap and tag
   * records whose numbers do not parse, and unknown op codes, are skipped.
   */
  function Dispatch(fields: seq<string>): Action
    requires |fields| >= 1
  {
    if fields[0] == OP_INCREMENT_LAPS then
      if |fields| < 2 then Panic
      else
        match Atoi(fields[1])
        case None => Skip
        case Some(tagKey) => Run(IncrementLap(tagKey))
    else if fields[0] == OP_ADD_TAG then
      if |fields| < 3 then Panic
      else if Atoi(fields[1]).Some? && Atoi(fields[2]).Some? then Run(AddTag(Atoi(fields[1]).value, Atoi(fields[2]).value))
      else Skip
    else if fields[0] == OP_ADD_TEAM then
      if |fields| < 3 then Panic else Run(AddTeam(fields[1], fields[2]))
    else if fields[0] == OP_ZERO_LAPS then Run(ZeroAllLaps)
    else Skip
  }

  /** The registry operation a record journals, applied at time now; None is a panic. */
  function ApplyRecord(r: MemStore.Registry, op: Record, now: int): (out: Option<MemStore.Registry>)
    requires MemStore.Consistent(r)
    ensures out.Some? ==> MemStore.Consistent(out.value)
    ensures out.None? <==> op.AddTag? && op.tagKey !in r.tags && !(0 <= op.teamKey < |r.teams|)
  {
    match op
    case AddTeam(name, leader) =>
      MemStore.InsertTeamKeepsConsistent(r, name, leader);
      MemStore.InsertTeamAppends(r, name, leader);
      Some(MemStore.AfterInsertTeam(r, name, leader))
    case AddTag(teamKey, tagKey) =>
      if tagKey in r.tags || 0 <= teamKey < |r.teams| then
        MemStore.InsertTagKeepsConsistent(r, teamKey, tagKey, now);
        Some(MemStore.AfterInsertTag(r, teamKey, tagKey, now))
      else None
    case IncrementLap(tagKey) =>
      MemStore.LapKeepsConsistent(r, tagKey, now);
      Some(MemStore.AfterLap(r, tagKey, now))
    case ZeroAllLaps =>
      MemStore.ZeroKeepsConsistent(r);
      Some(MemStore.AfterZero(r))
  }

  /** Where replaying a run of records ends: the registry, and whether a record panicked. */
  datatype ReplayRun = ReplayRun(registry: MemStore.Registry, panicked: bool)

  /** One record after another until the end or the first panic. */
  function ReplayRecords(r: MemStore.Registry, records: seq<seq<string>>, now: int): (out: ReplayRun)
    requires MemStore.Consistent(r)
    requires forall i :: 0 <= i < |records| ==> |records[i]| >= 1
    ensures MemStore.Consistent(out.registry)
    decreases |records|
  {
    if records == [] then ReplayRun(r, false)
    else
      match Dispatch(records[0])
      case Skip => ReplayRecords(r, records[1..], now)
      case Panic => ReplayRun(r, true)
      case Run(op) =>
        match ApplyRecord(r, op, now)
        case None => ReplayRun(r, true)
        case Some(r') => ReplayRecords(r', records[1..], now)
  }

  /**
   * Round trip: the fields of a formatted record dispatch back to that record,
   * provided names carry no separator and keys fit in an int.
   */
  lemma DispatchFormat(op: Record)
    requires op.AddTeam? ==> PlainText(op.name) && PlainText(op.leader)
    requires op.AddTag? ==> InInt64(op.teamKey) && InInt64(op.tagKey)
    requires op.IncrementLap? ==> InInt64(op.tagKey)
    ensures |Split(Format(op), ',')| >= 1
    ensures Dispatch(Split(Format(op), ',')) == Run(op)
  {
    FormatFields(op);
    match op
    case AddTeam(_, _) =>
    case AddTag(teamKey, tagKey) =>
      AtoiItoa(teamKey);
      AtoiItoa(tagKey);
    case IncrementLap(tagKey) =>
      AtoiItoa(tagKey);
    case ZeroAllLaps =>
  }

  /** Unknown op codes, and lap or tag records with a number that does not parse, are skipped. */
  lemma DispatchSkips(fields: seq<string>)
    requires |fields| >= 1
    ensures fields[0] !in {OP_ADD_TEAM, OP_ADD_TAG, OP_INCREMENT_LAPS, OP_ZERO_LAPS} ==> Dispatch(fields) == Skip
    ensures fields[0] == OP_INCREMENT_LAPS && |fields| >= 2 && Atoi(fields[1]).None? ==> Dispatch(fields) == Skip
    ensures fields[0] == OP_ADD_TAG && |fields| >= 3 && (Atoi(fields[1]).None? || Atoi(fields[2]).None?) ==>
      Dispatch(fields) == Skip
    ensures (fields[0] == OP_ADD_TEAM || fields[0] == OP_ADD_TAG) && |fields| < 3 ==> Dispatch(fields) == Panic
  {
  }

  /**
   * The csv reader fixes the field count from the first record, so a journal
   * that starts with a team or tag record (three fields) stops with a read
   * error at its first lap or zero record (two fields or one).
   */
  lemma MixedJournalFails(first: Record, second: Record, rest: seq<string>)
    requires first.AddTeam? || first.AddTag?
    requires second.IncrementLap? || second.ZeroAllLaps?
    requires first.AddTeam? ==> PlainText(first.name) && PlainText(first.leader)
    ensures ReadCsv([Format(first) + "\n", Format(second) + "\n"] + rest) ==
      CsvRead([Split(Format(ReadBack(first)), ',')], false)
  {
    ChompFormat(first);
    ChompFormat(second);
    FormatFields(ReadBack(first));
    FormatFields(second);
    var lines := [Format(first) + "\n", Format(second) + "\n"] + rest;
    assert Chomp(lines[0]) == Format(ReadBack(first));
    assert lines[1..][0] == Format(second) + "\n";
    assert Chomp(lines[1..][0]) == Format(second);
    var fields := Split(Format(ReadBack(first)), ',');
    assert |fields| == 3;
    assert |Split(Format(second), ',')| < 3;
    assert Format(ReadBack(first)) != "" && Format(second) != "";
    assert ReadCsvFrom(lines[1..], Some(3)) == CsvRead([], false);
  }

  /** Where one record takes the registry: Some of the new registry, or None for a panic. */
  function StepResult(r: MemStore.Registry, fields: seq<string>, now: int): (out: Option<MemStore.Registry>)
    requires MemStore.Consistent(r) && |fields| >= 1
    ensures out.Some? ==> MemStore.Consistent(out.value)
  {
    match Dispatch(fields)
    case Skip => Some(r)
    case Panic => None
    case Run(op) => ApplyRecord(r, op, now)
  }

  /** Replaying from record i is one step, then the rest. */
  lemma ReplayStep(r: MemStore.Registry, records: seq<seq<string>>, i: nat, now: int)
    requires MemStore.Consistent(r)
    requires forall k :: 0 <= k < |records| ==> |records[k]| >= 1
    requires i < |records|
    ensures ReplayRecords(r, records[i..], now) ==
      match StepResult(r, records[i], now)
      case None => ReplayRun(r, true)
      case Some(r') => ReplayRecords(r', records[i + 1..], now)
  {
    assert records[i..][0] == records[i] && records[i..][1..] == records[i + 1..];
  }

  datatype ReplayResult = Replayed | CannotOpen | ReadFailed | Panicked

  /**
   * The body of Replay's loop: one record dispatched onto ds.  On a panic
   * (ok false) the registry is as before; while ds's journal is replaying
   * nothing is journalled.
   */
  method ReplayRecord(ds: MemStore.DataStore, record: seq<string>, now: int) returns (ok: bool)
    requires ds.Valid() && |record| >= 1
    modifies ds, ds.journal, ds.journal.file
    ensures ds.Valid()
    ensures StepResult(old(ds.Snapshot()), record, now) == if ok then Some(ds.Snapshot()) else None
    ensures !ok ==> ds.Snapshot() == old(ds.Snapshot())
    ensures ds.journal.replaying == old(ds.journal.replaying)
    ensures old(ds.journal.replaying) ==> ds.journal.entries == old(ds.journal.entries) && ds.journal.file.lines == old(ds.journal.file.lines)
  {
    ghost var cur := ds.Snapshot();
    match Dispatch(record) {
      case Skip =>
        ok := true;
      case Panic =>
        ok := false;
      case Run(op) =>
        match op {
          case AddTeam(name, leader) =>
            var _ := ds.InsertTeam(name, leader);
          case AddTag(teamKey, tagKey) =>
            if tagKey !in ds.tags && !(0 <= teamKey < |ds.teams|) {
              return false;
            }
            ds.InsertTag(teamKey, tagKey, now);
          case IncrementLap(tagKey) =>
            ds.IncrementLaps(tagKey, now);
          case ZeroAllLaps =>
            ds.ZeroLaps();
        }
        ok := true;
    }
  }

  /**
   * Replay: reads the journal file record by record, at time now, and applies
   * each to ds.  A missing file is an error and changes nothing.  Replaying is
   * switched on first and off again at the end and after a read error, so
   * when ds journals through j nothing is journalled; a panic stops the loop
   * and leaves the flag on.
   */
  method Replay(j: Journal, ds: MemStore.DataStore, now: int) returns (result: ReplayResult)
    requires ds.Valid()
    modifies j, ds, ds.journal, ds.journal.file
    ensures ds.Valid()
    ensures !old(j.file.present) ==> result == CannotOpen && ds.Snapshot() == old(ds.Snapshot()) && j.replaying == old(j.replaying)
    ensures old(j.file.present) ==>
      var csv := ReadCsv(old(j.file.lines));
      var run := ReplayRecords(old(ds.Snapshot()), csv.records, now);
      && ds.Snapshot() == run.registry
      && result == (if run.panicked then Panicked else if csv.ok then Replayed else ReadFailed)
      && j.replaying == run.panicked
    ensures ds.journal == j ==> j.entries == old(j.entries) && j.file.lines == old(j.file.lines)
  {
    if !j.file.present {
      return CannotOpen;
    }
    j.replaying := true;
    var csv := ReadCsv(j.file.lines);
    var records := csv.records;
    ghost var target := ReplayRecords(ds.Snapshot(), records, now);
    var i := 0;
    while i < |records|
      invariant 0 <= i <= |records| && ds.Valid()
      invariant ReplayRecords(ds.Snapshot(), records[i..], now) == target
      invariant j.replaying
      invariant ds.journal == j ==> j.entries == old(j.entries) && j.file.lines == old(j.file.lines)
      decreases |records| - i
    {
      ReplayStep(ds.Snapshot(), records, i, now);
      var ok := ReplayRecord(ds, records[i], now);
      if !ok {
        return Panicked;
      }
      i := i + 1;
    }
    j.replaying := false;
    result := if csv.ok then Replayed else ReadFailed;
  }
}
