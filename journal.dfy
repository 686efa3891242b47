/**
 * The write-ahead journal of the in-memory registry: every mutation is
 * formatted as one comma-separated text record, buffered, and appended to
 * the journal file once the buffer holds more than MAX_ENTRIES records.
 * While a replay runs, appending is switched off.
 */
module Journal {
  import opened GoStd

  const OP_ADD_TEAM: string := "t"
  const OP_ADD_TAG: string := "g"
  const OP_INCREMENT_LAPS: string := "l"
  const OP_ZERO_LAPS: string := "z"

  /** The buffer is flushed as soon as it holds more entries than this. */
  const MAX_ENTRIES: nat := 2

  /** The four mutations the registry journals. */
  datatype Record =
    | AddTeam(name: string, leader: string)
    | AddTag(teamKey: int, tagKey: int)
    | IncrementLap(tagKey: int)
    | ZeroAllLaps

  /** The text of a record, as the Team, Tag, Lap and Zero formatters build it. */
  function Format(r: Record): string {
    match r
    case AddTeam(name, leader) => OP_ADD_TEAM + "," + name + "," + leader
    case AddTag(teamKey, tagKey) => OP_ADD_TAG + "," + Itoa(teamKey) + "," + Itoa(tagKey)
    case IncrementLap(tagKey) => OP_INCREMENT_LAPS + "," + Itoa(tagKey)
    case ZeroAllLaps => OP_ZERO_LAPS
  }

  /** Text that the record format can carry unchanged: no comma, quote or newline. */
  predicate PlainText(s: string) {
    ',' !in s && '"' !in s && '\n' !in s
  }

  /** The fields of each record are its op code and its arguments, in order. */
  lemma FormatFields(r: Record)
    requires r.AddTeam? ==> PlainText(r.name) && PlainText(r.leader)
    ensures Split(Format(r), ',') == match r
      case AddTeam(name, leader) => [OP_ADD_TEAM, name, leader]
      case AddTag(teamKey, tagKey) => [OP_ADD_TAG, Itoa(teamKey), Itoa(tagKey)]
      case IncrementLap(tagKey) => [OP_INCREMENT_LAPS, Itoa(tagKey)]
      case ZeroAllLaps => [OP_ZERO_LAPS]
  {
    match r
    case AddTeam(name, leader) =>
      SplitThree(OP_ADD_TEAM, ',', name, leader);
    case AddTag(teamKey, tagKey) =>
      ItoaPlain(teamKey);
      ItoaPlain(tagKey);
      SplitThree(OP_ADD_TAG, ',', Itoa(teamKey), Itoa(tagKey));
    case IncrementLap(tagKey) =>
      ItoaPlain(tagKey);
      SplitTwo(OP_INCREMENT_LAPS, ',', Itoa(tagKey));
    case ZeroAllLaps =>
      SplitWithoutSep(OP_ZERO_LAPS, ',');
  }

  /**
   * The record the csv reader gives back for a record's line: a team
   * leader's final '\r' reads as part of the "\r\n" line ending.
   */
  function ReadBack(r: Record): Record {
    match r
    case AddTeam(name, leader) =>
      if |leader| > 0 && leader[|leader| - 1] == '\r' then AddTeam(name, leader[..|leader| - 1]) else r
    case _ => r
  }

  /** An int's numeral ends in a digit. */
  lemma ItoaEndsInDigit(n: int)
    ensures |Itoa(n)| > 0 && IsDigit(Itoa(n)[|Itoa(n)| - 1])
  {
    NatToStringDigits(if n < 0 then -n else n);
  }

  /** A team line whose leader ends in '\r' reads back as a "\r\n" line ending. */
  lemma ChompTrailingCr(name: string, leader: string)
    requires PlainText(leader) && |leader| > 0 && leader[|leader| - 1] == '\r'
    ensures PlainText(leader[..|leader| - 1])
    ensures Chomp(Format(AddTeam(name, leader)) + "\n") == Format(AddTeam(name, leader[..|leader| - 1]))
  {
    var shorter := leader[..|leader| - 1];
    assert leader == shorter + "\r";
    assert Format(AddTeam(name, leader)) + "\n" == Format(AddTeam(name, shorter)) + "\r\n";
    assert forall c :: c in shorter ==> c in leader;
  }

  /** A team line whose leader does not end in '\r' reads back unchanged. */
  lemma ChompKeptLeader(name: string, leader: string)
    requires PlainText(leader) && (leader == [] || leader[|leader| - 1] != '\r')
    ensures Chomp(Format(AddTeam(name, leader)) + "\n") == Format(AddTeam(name, leader))
  {
    var text := Format(AddTeam(name, leader));
    if leader != [] {
      assert text[|text| - 1] == leader[|leader| - 1];
      assert leader[|leader| - 1] in leader;
    }
    ChompLineEndings(text);
  }

  /** A line that ends in a numeral reads back unchanged. */
  lemma ChompNumeral(prefix: string, n: int)
    ensures Chomp(prefix + Itoa(n) + "\n") == prefix + Itoa(n)
  {
    ItoaEndsInDigit(n);
    var text := prefix + Itoa(n);
    assert text[|text| - 1] == Itoa(n)[|Itoa(n)| - 1];
    ChompLineEndings(text);
  }

  /** A journal line read back without its terminator is the text of ReadBack of its record. */
  lemma ChompFormat(r: Record)
    requires r.AddTeam? ==> PlainText(r.name) && PlainText(r.leader)
    ensures ReadBack(r).AddTeam? ==> PlainText(ReadBack(r).name) && PlainText(ReadBack(r).leader)
    ensures Chomp(Format(r) + "\n") == Format(ReadBack(r))
  {
    match r
    case AddTeam(name, leader) =>
      if |leader| > 0 && leader[|leader| - 1] == '\r' {
        ChompTrailingCr(name, leader);
      } else {
        ChompKeptLeader(name, leader);
      }
    case AddTag(teamKey, tagKey) =>
      ChompNumeral(OP_ADD_TAG + "," + Itoa(teamKey) + ",", tagKey);
    case IncrementLap(tagKey) =>
      ChompNumeral(OP_INCREMENT_LAPS + ",", tagKey);
    case ZeroAllLaps =>
      ChompLineEndings(Format(r));
  }

  /**
   * The journal buffer and the journal file, as values.  `lines` are the
   * entries written so far, each with its newline; `present` says whether the
   * file exists and `writable` whether opening it for appending succeeds.
   */
  datatype JournalState = JournalState(
    entries: seq<string>,
    replaying: bool,
    lines: seq<string>,
    present: bool,
    writable: bool)

  /** Everything journalled so far: what reached the file, then the buffer. */
  function Log(s: JournalState): seq<string> {
    s.lines + s.entries
  }

  /**
   * Flush: when the file opens, every buffered entry is written to its end in
   * order and the buffer is emptied (the file is created if missing);
   * otherwise nothing changes and an error is reported.
   */
  function AfterFlush(s: JournalState): JournalState {
    if s.writable then s.(lines := s.lines + s.entries, present := true, entries := [])
    else s
  }

  /**
   * append: nothing while replaying; otherwise the entry and its newline go
   * at the end of the buffer, and a buffer longer than MAX_ENTRIES is flushed.
   */
  function AfterAppend(s: JournalState, entry: string): JournalState {
    if s.replaying then s
    else
      var grown := s.(entries := s.entries + [entry + "\n"]);
      if |grown.entries| > MAX_ENTRIES then AfterFlush(grown) else grown
  }

  /** Appending a sequence of entries one after another. */
  function AfterAppends(s: JournalState, es: seq<string>): JournalState
    decreases |es|
  {
    if es == [] then s else AfterAppends(AfterAppend(s, es[0]), es[1..])
  }

  /** Each entry with the newline append adds to it. */
  function Terminated(es: seq<string>): (r: seq<string>)
    ensures |r| == |es| && forall i :: 0 <= i < |es| ==> r[i] == es[i] + "\n"
  {
    if es == [] then [] else [es[0] + "\n"] + Terminated(es[1..])
  }

  lemma FlushKeepsLog(s: JournalState)
    ensures Log(AfterFlush(s)) == Log(s)
    ensures s.writable ==> AfterFlush(s).entries == [] && AfterFlush(s).lines == s.lines + s.entries
    ensures !s.writable ==> AfterFlush(s) == s
  {
  }

  /**
   * One append: while replaying the state is untouched; otherwise the entry is
   * the newest thing journalled, the file only grows at its end, and when
   * flushes succeed the buffer stays within MAX_ENTRIES.
   */
  lemma AppendEffect(s: JournalState, entry: string)
    ensures s.replaying ==> AfterAppend(s, entry) == s
    ensures !s.replaying ==> Log(AfterAppend(s, entry)) == Log(s) + [entry + "\n"]
    ensures s.lines <= AfterAppend(s, entry).lines
    ensures AfterAppend(s, entry).replaying == s.replaying
    ensures AfterAppend(s, entry).writable == s.writable
    ensures s.writable && |s.entries| <= MAX_ENTRIES ==> |AfterAppend(s, entry).entries| <= MAX_ENTRIES
  {
    if !s.replaying {
      var grown := s.(entries := s.entries + [entry + "\n"]);
      assert Log(grown) == Log(s) + [entry + "\n"];
      FlushKeepsLog(grown);
    }
  }

  /**
   * Durability bound: through any run of appends with a working file, nothing
   * journalled is lost or reordered, and at most MAX_ENTRIES of the newest
   * records are not yet in the file.
   */
  lemma {:induction false} AppendsKeepLog(s: JournalState, es: seq<string>)
    requires !s.replaying && s.writable && |s.entries| <= MAX_ENTRIES
    ensures Log(AfterAppends(s, es)) == Log(s) + Terminated(es)
    ensures |AfterAppends(s, es).entries| <= MAX_ENTRIES
    ensures s.lines <= AfterAppends(s, es).lines
    decreases |es|
  {
    if es != [] {
      var next := AfterAppend(s, es[0]);
      AppendEffect(s, es[0]);
      AppendsKeepLog(next, es[1..]);
      var last := AfterAppends(next, es[1..]);
      assert AfterAppends(s, es) == last;
      assert Terminated(es) == [es[0] + "\n"] + Terminated(es[1..]);
      assert Log(last) == Log(s) + [es[0] + "\n"] + Terminated(es[1..]);
      assert s.lines <= next.lines <= last.lines;
    }
  }

  /** While replaying, no run of appends changes anything. */
  lemma {:induction false} AppendsWhileReplaying(s: JournalState, es: seq<string>)
    requires s.replaying
    ensures AfterAppends(s, es) == s
    decreases |es|
  {
    if es != [] {
      AppendsWhileReplaying(AfterAppend(s, es[0]), es[1..]);
    }
  }

  /** The journal file (journal.csv). */
  class JournalFile {
    var lines: seq<string>
    var present: bool
    var writable: bool

    constructor (lines: seq<string>, present: bool, writable: bool)
      ensures this.lines == lines && this.present == present && this.writable == writable
    {
      this.lines := lines;
      this.present := present;
      this.writable := writable;
    }
  }

  datatype JournalError = OpenFailed

  class Journal {
    var entries: seq<string>
    var replaying: bool
    const file: JournalFile

    function State(): JournalState
      reads this, file
    {
      JournalState(entries, replaying, file.lines, file.present, file.writable)
    }

    /** A zero Journal writing to the given file. */
    constructor (file: JournalFile)
      ensures this.file == file && entries == [] && !replaying
    {
      entries := [];
      replaying := false;
      this.file := file;
    }

    method Flush() returns (err: Option<JournalError>)
      modifies this, file
      ensures State() == AfterFlush(old(State()))
      ensures err.None? <==> old(file.writable)
    {
      if file.writable {
        var i := 0;
        while i < |entries|
          invariant 0 <= i <= |entries|
          invariant file.lines == old(file.lines) + entries[..i]
          invariant entries == old(entries) && replaying == old(replaying)
          invariant file.present == old(file.present) && file.writable
        {
          file.lines := file.lines + [entries[i]];
          i := i + 1;
        }
        assert entries[..i] == entries;
        file.present := true;
        entries := [];
        err := None;
      } else {
        err := Some(OpenFailed);
      }
    }

    method Append(entry: string)
      modifies this, file
      ensures State() == AfterAppend(old(State()), entry)
    {
      if !replaying {
        entries := entries + [entry + "\n"];
        if |entries| > MAX_ENTRIES {
          var _ := Flush();
        }
      }
    }

    method Team(name: string, leader: string)
      modifies this, file
      ensures State() == AfterAppend(old(State()), Format(AddTeam(name, leader)))
    {
      Append(OP_ADD_TEAM + "," + name + "," + leader);
    }

    method Tag(teamKey: int, tagKey: int)
      modifies this, file
      ensures State() == AfterAppend(old(State()), Format(AddTag(teamKey, tagKey)))
    {
      Append(OP_ADD_TAG + "," + Itoa(teamKey) + "," + Itoa(tagKey));
    }

    method Lap(tagKey: int)
      modifies this, file
      ensures State() == AfterAppend(old(State()), Format(IncrementLap(tagKey)))
    {
      Append(OP_INCREMENT_LAPS + "," + Itoa(tagKey));
    }

    method Zero()
      modifies this, file
      ensures State() == AfterAppend(old(State()), Format(ZeroAllLaps))
    {
      Append(OP_ZERO_LAPS);
    }
  }
}
