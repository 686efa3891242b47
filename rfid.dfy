/**
 * The reader-side client: each tag the RFID reader reports arrives as its
 * EPC in hex, is decoded to the tag's text, dropped when the same tag was
 * forwarded less than DEDUP_THRESHOLD ago, and otherwise sent to the relay
 * server over a websocket that buffers tags while it is not connected.
 * Time is in integer nanoseconds.
 */
module RfidClient {
  import opened GoStd
  import Server

  // ---------------------------------------------------------------------
  // EPC decoding
  // ---------------------------------------------------------------------

  predicate IsHexDigit(c: char) {
    ('0' <= c <= '9') || ('a' <= c <= 'f') || ('A' <= c <= 'F')
  }

  function HexValue(c: char): (v: nat)
    requires IsHexDigit(c)
    ensures v < 16
  {
    if '0' <= c <= '9' then c as int - '0' as int
    else if 'a' <= c <= 'f' then c as int - 'a' as int + 10
    else c as int - 'A' as int + 10
  }

  /** The upper-case hex digit of d. */
  function HexDigit(d: nat): (c: char)
    requires d < 16
    ensures IsHexDigit(c) && HexValue(c) == d
  {
    if d < 10 then (d + '0' as int) as char else (d - 10 + 'A' as int) as char
  }

  predicate AllHex(s: string) {
    forall i :: 0 <= i < |s| ==> IsHexDigit(s[i])
  }

  /** int(chunk, 16) for a chunk of one or two hex digits. */
  function ChunkValue(chunk: string): (v: nat)
    requires 1 <= |chunk| <= 2 && AllHex(chunk)
    ensures v < 256
  {
    if |chunk| == 1 then HexValue(chunk[0]) else HexValue(chunk[0]) * 16 + HexValue(chunk[1])
  }

  /**
   * post's decoding: the EPC is cut into consecutive two-character chunks
   * (the last one shorter when the length is odd) and each chunk becomes the
   * character whose code is its hex value; a chunk that is not hex raises,
   * which is None here.
   */
  function DecodeEpc(epc: string): (r: Option<string>)
    decreases |epc|
  {
    if epc == [] then Some([])
    else
      var n := if |epc| == 1 then 1 else 2;
      var chunk := epc[..n];
      if !AllHex(chunk) then None
      else
        match DecodeEpc(epc[n..])
        case None => None
        case Some(rest) => Some([ChunkValue(chunk) as char] + rest)
  }

  /** All characters have codes below 256, as chr of a two-digit hex value gives. */
  predicate Latin1(s: string) {
    forall i :: 0 <= i < |s| ==> s[i] as int < 256
  }

  /** Each character as two upper-case hex digits: what the reader's tags hold. */
  function EncodeEpc(s: string): (epc: string)
    requires Latin1(s)
    ensures |epc| == 2 * |s|
  {
    if s == [] then []
    else [HexDigit(s[0] as int / 16), HexDigit(s[0] as int % 16)] + EncodeEpc(s[1..])
  }

  /** Decoding succeeds exactly on all-hex input, and gives one character per chunk: half the length, rounded up. */
  lemma {:induction false} DecodeEpcDefined(epc: string)
    ensures DecodeEpc(epc).Some? <==> AllHex(epc)
    ensures DecodeEpc(epc).Some? ==> |DecodeEpc(epc).value| == (|epc| + 1) / 2
    decreases |epc|
  {
    if epc != [] {
      var n := if |epc| == 1 then 1 else 2;
      DecodeEpcDefined(epc[n..]);
      if AllHex(epc) {
        assert AllHex(epc[..n]);
        assert AllHex(epc[n..]) by {
          forall i | 0 <= i < |epc[n..]| ensures IsHexDigit(epc[n..][i]) {
            assert epc[n..][i] == epc[n + i];
          }
        }
      }
      if DecodeEpc(epc).Some? {
        assert AllHex(epc[..n]);
        assert DecodeEpc(epc[n..]).Some?;
        forall i | 0 <= i < |epc| ensures IsHexDigit(epc[i]) {
          if i >= n {
            assert epc[i] == epc[n..][i - n];
          } else {
            assert epc[i] == epc[..n][i];
          }
        }
      }
    }
  }

  /** Each decoded character is the value of its chunk of the EPC. */
  lemma {:induction false} DecodeEpcChunks(epc: string, k: nat)
    requires DecodeEpc(epc).Some? && k < |DecodeEpc(epc).value|
    ensures 2 * k < |epc|
    ensures var chunk := epc[2 * k..if 2 * k + 2 <= |epc| then 2 * k + 2 else |epc|];
      && 1 <= |chunk| <= 2 && AllHex(chunk)
      && DecodeEpc(epc).value[k] as int == ChunkValue(chunk)
    decreases k
  {
    DecodeEpcDefined(epc);
    var n := if |epc| == 1 then 1 else 2;
    if k > 0 {
      DecodeEpcChunks(epc[n..], k - 1);
      var j := 2 * (k - 1);
      var end := if j + 2 <= |epc[n..]| then j + 2 else |epc[n..]|;
      assert n == 2;
      assert epc[n..][j..end] == epc[2 * k..(if 2 * k + 2 <= |epc| then 2 * k + 2 else |epc|)];
    }
  }

  /** Round trip: decoding the hex of a text whose codes fit a byte gives the text back. */
  lemma {:induction false} DecodeEncodeEpc(s: string)
    requires Latin1(s)
    ensures DecodeEpc(EncodeEpc(s)) == Some(s)
    decreases |s|
  {
    if s != [] {
      var epc := EncodeEpc(s);
      assert epc[2..] == EncodeEpc(s[1..]);
      DecodeEncodeEpc(s[1..]);
      var code := s[0] as int;
      assert ChunkValue(epc[..2]) == code / 16 * 16 + code % 16;
      assert [ChunkValue(epc[..2]) as char] + s[1..] == s;
    }
  }

  // ---------------------------------------------------------------------
  // De-duplication
  // ---------------------------------------------------------------------

  /** A tag is forwarded only when more than this has passed since it was last forwarded. */
  const DEDUP_THRESHOLD_NANOS: int := 5_000_000_000

  /** dedup_cache.get(tag, 0.0): when the tag was last forwarded, the epoch if never. */
  function LastForwarded(cache: map<string, int>, tag: string): int {
    if tag in cache then cache[tag] else 0
  }

  predicate Accepts(cache: map<string, int>, tag: string, now: int) {
    now - LastForwarded(cache, tag) > DEDUP_THRESHOLD_NANOS
  }

  /** The cache after a read: the time of an accepted read is remembered; a rejected read leaves it alone. */
  function AfterRead(cache: map<string, int>, tag: string, now: int): map<string, int> {
    if Accepts(cache, tag, now) then cache[tag := now] else cache
  }

  /**
   * The window is strict and per tag: after a forwarded read at now, a read
   * of the same tag exactly DEDUP_THRESHOLD later is dropped, one a
   * nanosecond after that is forwarded; other tags are unaffected.
   */
  lemma DedupWindow(cache: map<string, int>, tag: string, other: string, now: int)
    requires Accepts(cache, tag, now) && other != tag
    ensures var cache' := AfterRead(cache, tag, now);
      && !Accepts(cache', tag, now + DEDUP_THRESHOLD_NANOS)
      && Accepts(cache', tag, now + DEDUP_THRESHOLD_NANOS + 1)
      && (forall t :: Accepts(cache', other, t) <==> Accepts(cache, other, t))
  {
  }

  /** A tag never seen is forwarded at any time more than DEDUP_THRESHOLD after the epoch. */
  lemma NewTagAccepted(cache: map<string, int>, tag: string, now: int)
    requires tag !in cache
    ensures Accepts(cache, tag, now) <==> now > DEDUP_THRESHOLD_NANOS
  {
  }

  // ---------------------------------------------------------------------
  // The relay websocket
  // ---------------------------------------------------------------------

  /**
   * The websocket's state: tags not yet sent, whether the connection is
   * believed good, and the messages that went over the wire.
   */
  datatype SocketState = SocketState(buffer: seq<string>, good: bool, wire: seq<string>)

  /**
   * send(tag), given whether connecting succeeds (when not connected) and
   * whether sending does: the tag joins the buffer first; once connected,
   * the comma-join of the whole buffer is sent and the buffer emptied, and a
   * failed send keeps the buffer and marks the connection bad.
   */
  function AfterSend(s: SocketState, tag: string, connects: bool, sendOk: bool): SocketState {
    var buffer := s.buffer + [tag];
    var good := s.good || connects;
    if !good then s.(buffer := buffer)
    else if sendOk then SocketState([], true, s.wire + [Join(buffer, ',')])
    else SocketState(buffer, false, s.wire)
  }

  /** close and on_close: the connection is no longer good; nothing buffered is lost. */
  function AfterClose(s: SocketState): SocketState {
    s.(good := false)
  }

  /** While the connection stays down, each send only adds the tag to the buffer. */
  lemma SendWhileDown(s: SocketState, tag: string, sendOk: bool)
    requires !s.good
    ensures AfterSend(s, tag, false, sendOk) == SocketState(s.buffer + [tag], false, s.wire)
  {
  }

  /**
   * A successful send puts the whole buffer, in arrival order and ending with
   * the new tag, on the wire as one message and leaves nothing buffered;
   * a failed one keeps every tag and marks the connection bad.
   */
  lemma SendOutcome(s: SocketState, tag: string, connects: bool, sendOk: bool)
    requires s.good || connects
    ensures sendOk ==> var s' := AfterSend(s, tag, connects, sendOk);
      && s'.buffer == [] && s'.good && |s'.wire| == |s.wire| + 1 && s'.wire[..|s.wire|] == s.wire
      && Split(s'.wire[|s.wire|], ',') == s.buffer + [tag]
    ensures !sendOk ==> AfterSend(s, tag, connects, sendOk) == SocketState(s.buffer + [tag], false, s.wire)
    requires forall i :: 0 <= i < |s.buffer| ==> ',' !in s.buffer[i]
    requires ',' !in tag
  {
    if sendOk {
      var s' := AfterSend(s, tag, connects, sendOk);
      assert s'.wire[..|s.wire|] == s.wire;
      SplitJoin(s.buffer + [tag], ',');
    }
  }

  /** The tags sent so far, each message split back at its commas. */
  function WireTags(wire: seq<string>): seq<string> {
    if wire == [] then [] else WireTags(wire[..|wire| - 1]) + Split(wire[|wire| - 1], ',')
  }

  /** No tag is lost or reordered: what went over the wire, then what is buffered, is every tag sent, in order. */
  lemma {:induction false} SendKeepsTags(s: SocketState, tag: string, connects: bool, sendOk: bool)
    requires forall i :: 0 <= i < |s.buffer| ==> ',' !in s.buffer[i]
    requires ',' !in tag
    ensures var s' := AfterSend(s, tag, connects, sendOk);
      WireTags(s'.wire) + s'.buffer == WireTags(s.wire) + s.buffer + [tag]
  {
    var s' := AfterSend(s, tag, connects, sendOk);
    if (s.good || connects) && sendOk {
      SplitJoin(s.buffer + [tag], ',');
      assert s'.wire[..|s'.wire| - 1] == s.wire;
      assert WireTags(s'.wire) == WireTags(s.wire) + (s.buffer + [tag]);
      assert s'.buffer == [];
    }
  }

  /**
   * The server reads one decimal tag id per message, so a message carrying
   * two or more buffered tags is not a number and none of its reads is
   * counted.
   */
  lemma BatchedReadsDropped(batch: seq<string>)
    requires |batch| >= 2
    ensures Server.LapsMessage(Join(batch, ',')).None?
  {
    var msg := Join(batch, ',');
    var k := |batch[0]|;
    assert msg == batch[0] + [','] + Join(batch[1..], ',');
    assert msg[k] == ',';
    assert !IsDigit(msg[k]);
  }

  /** str.zfill(width) on a string of digits: zeros in front until it is width characters long. */
  function ZFill(s: string, width: nat): string
    decreases width - |s|
  {
    if |s| >= width then s else ZFill("0" + s, width)
  }

  /** One leading zero adds nothing to the value of a run of digits. */
  lemma {:induction false} LeadingZero(s: string)
    requires AllDigits(s)
    ensures AllDigits("0" + s) && DigitsValue("0" + s) == DigitsValue(s)
    decreases |s|
  {
    var t := "0" + s;
    if |s| == 0 {
      assert t[..|t| - 1] == "";
    } else {
      assert t[..|t| - 1] == "0" + s[..|s| - 1];
      LeadingZero(s[..|s| - 1]);
    }
  }

  /** Zero-filling keeps a run of digits a run of digits, with the same value. */
  lemma {:induction false} ZFillValue(s: string, width: nat)
    requires AllDigits(s)
    ensures AllDigits(ZFill(s, width)) && DigitsValue(ZFill(s, width)) == DigitsValue(s)
    ensures |ZFill(s, width)| >= |s|
    decreases width - |s|
  {
    if |s| < width {
      LeadingZero(s);
      ZFillValue("0" + s, width);
    }
  }

  /**
   * The write mode stores tag t as str(t).zfill(4); once read back and
   * decoded, that text reaches the server as the number t.
   */
  lemma PaddedTagCounts(n: nat)
    requires InInt64(n)
    ensures Server.LapsMessage(ZFill(Itoa(n), 4)) == Some(n)
  {
    ItoaPlain(n);
    NatToStringValue(n);
    ZFillValue(Itoa(n), 4);
    var tag := ZFill(Itoa(n), 4);
    assert IsDigit(tag[0]);
  }

  /** RelayWebsocket: the buffer, the good flag, and the messages sent over the connection. */
  class RelayWebsocket {
    var tagBuffer: seq<string>
    var good: bool
    var wire: seq<string>

    function State(): SocketState
      reads this
    {
      SocketState(tagBuffer, good, wire)
    }

    constructor ()
      ensures State() == SocketState([], false, [])
    {
      tagBuffer := [];
      good := false;
      wire := [];
    }

    method Send(tag: string, connects: bool, sendOk: bool)
      modifies this
      ensures State() == AfterSend(old(State()), tag, connects, sendOk)
    {
      tagBuffer := tagBuffer + [tag];
      if !good {
        if connects {
          good := true;
        }
      }
      if good {
        var tags := Join(tagBuffer, ',');
        if sendOk {
          wire := wire + [tags];
          tagBuffer := [];
        } else {
          good := false;
        }
      }
    }

    method Close()
      modifies this
      ensures State() == AfterClose(old(State()))
    {
      good := false;
    }

    method OnClose()
      modifies this
      ensures State() == AfterClose(old(State()))
    {
      good := false;
    }
  }

  /** What post did with one reader report. */
  datatype PostOutcome = NotHex | Duplicate | Forwarded | NoSocket

  /** The module-level state of the client: the de-dup cache and the websocket, once created. */
  class TagReader {
    var dedupCache: map<string, int>
    var ws: RelayWebsocket?

    constructor ()
      ensures dedupCache == map[] && ws == null
    {
      dedupCache := map[];
      ws := null;
    }

    /**
     * post(epc) at time now: a report that is not hex changes nothing; an
     * accepted tag is remembered in the cache whether or not a websocket
     * exists, and sent when one does; a duplicate changes nothing.
     */
    method Post(epc: string, now: int, connects: bool, sendOk: bool) returns (outcome: PostOutcome)
      modifies this, ws
      ensures ws == old(ws)
      ensures DecodeEpc(epc).None? ==> outcome == NotHex && dedupCache == old(dedupCache)
      ensures DecodeEpc(epc).Some? ==>
        var tag := DecodeEpc(epc).value;
        && dedupCache == AfterRead(old(dedupCache), tag, now)
        && (outcome == Duplicate <==> !Accepts(old(dedupCache), tag, now))
        && (ws != null && Accepts(old(dedupCache), tag, now) ==>
              outcome == Forwarded && ws.State() == AfterSend(old(ws.State()), tag, connects, sendOk))
        && (ws == null && Accepts(old(dedupCache), tag, now) ==> outcome == NoSocket)
      ensures ws != null && !(DecodeEpc(epc).Some? && Accepts(old(dedupCache), DecodeEpc(epc).value, now)) ==>
        ws.State() == old(ws.State())
    {
      var decoded := DecodeEpc(epc);
      if decoded.None? {
        return NotHex;
      }
      var tag := decoded.value;
      if now - LastForwarded(dedupCache, tag) > DEDUP_THRESHOLD_NANOS {
        dedupCache := dedupCache[tag := now];
        if ws != null {
          ws.Send(tag, connects, sendOk);
          outcome := Forwarded;
        } else {
          outcome := NoSocket;
        }
      } else {
        outcome := Duplicate;
      }
    }
  }
}
