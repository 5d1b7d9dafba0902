/** The card-reader service of `src/services/nfc.service.js`: a singleton
    holding a serial port, a connection flag and the port's byte streams.
    The serial port is an input: what `navigator.serial.requestPort` grants,
    whether `port.open`, `port.close` and each `writer.write` succeed are
    parameters, the bytes written to the port are recorded, and what the
    port's readable stream delivers is fixed when the port is granted: a
    queue of chunks, then an end. */
module NfcService {
  import opened Wrappers
  import opened Bytes
  import opened Hex
  import opened Apdu

  /** How the port's readable stream behaves once its queued chunks are
      delivered: `read()` reports `done`, `read()` rejects with a message
      (and keeps rejecting), or the port stays open and silent, so a
      pending `read()` never settles. */
  datatype StreamEnd = Closed | Broken(message: string) | Silent

  /** What `requestPort` resolves with: a port, the chunks its readable
      stream delivers, and how the stream behaves after them. */
  datatype SerialGrant = SerialGrant(id: nat, readable: seq<seq<byte>>, end: StreamEnd)

  /** How an awaited exchange with the reader ends: with a value, with a
      thrown error's message, or never (the promise stays pending). */
  datatype Exchange<T> = Answered(value: T) | Threw(message: string) | Hangs

  const ConnectFailedMessage: string := "Impossible de se connecter au lecteur NFC"
  const NotConnectedMessage: string := "Lecteur non connecté"

  /** The read loop's stop test, also `writeToCard`'s success test: at
      least two bytes, the second-to-last being `0x90`. The last byte is
      never examined. */
  predicate StatusMarkerSeen(response: seq<byte>)
  {
    |response| >= 2 && response[|response| - 2] == 0x90
  }

  /** The bytes of the chunks, in order. */
  function Concat(chunks: seq<seq<byte>>): seq<byte>
  {
    if chunks == [] then [] else Concat(chunks[..|chunks| - 1]) + chunks[|chunks| - 1]
  }

  /** How many chunks the read loop takes when it has taken `n` of them
      without seeing the marker. */
  function ChunksReadFrom(chunks: seq<seq<byte>>, n: nat): (k: nat)
    requires n <= |chunks|
    ensures n <= k <= |chunks|
    decreases |chunks| - n
  {
    if n == |chunks| then n
    else if StatusMarkerSeen(Concat(chunks[..n + 1])) then n + 1
    else ChunksReadFrom(chunks, n + 1)
  }

  /** How many chunks `sendCommand` reads from a stream delivering `chunks`. */
  function ChunksRead(chunks: seq<seq<byte>>): nat
  {
    ChunksReadFrom(chunks, 0)
  }

  /** The read loop stops at the first chunk after which the marker is seen,
      or when the stream ends: no shorter prefix of the chunks shows the
      marker, and the loop stops before the end only on the marker. */
  lemma {:induction false} ChunksReadFromStops(chunks: seq<seq<byte>>, n: nat)
    requires n <= |chunks|
    requires forall j :: 0 < j <= n ==> !StatusMarkerSeen(Concat(chunks[..j]))
    ensures var k := ChunksReadFrom(chunks, n);
      (k < |chunks| ==> StatusMarkerSeen(Concat(chunks[..k]))) &&
      (forall j :: 0 < j < k ==> !StatusMarkerSeen(Concat(chunks[..j])))
    decreases |chunks| - n
  {
    if n < |chunks| && !StatusMarkerSeen(Concat(chunks[..n + 1])) {
      ChunksReadFromStops(chunks, n + 1);
    }
  }

  /** `ChunksRead` is the first prefix showing the marker, else all chunks. */
  lemma ChunksReadStops(chunks: seq<seq<byte>>)
    ensures ChunksRead(chunks) <= |chunks|
    ensures ChunksRead(chunks) < |chunks| ==> StatusMarkerSeen(Concat(chunks[..ChunksRead(chunks)]))
    ensures forall j :: 0 < j < ChunksRead(chunks) ==> !StatusMarkerSeen(Concat(chunks[..j]))
  {
    ChunksReadFromStops(chunks, 0);
  }

  /** One more chunk appends its bytes. */
  lemma ConcatSnoc(chunks: seq<seq<byte>>, i: nat)
    requires i < |chunks|
    ensures Concat(chunks[..i + 1]) == Concat(chunks[..i]) + chunks[i]
  {
    assert chunks[..i + 1][..i] == chunks[..i];
  }

  /** What the read loop of `sendCommand` yields on a stream that delivers
      `chunks` and then behaves as `end`: the bytes read up to the first
      chunk showing the marker, or up to `done`; the stream's error; or no
      answer ever, when the port stays silent before any marker. */
  function ReadOutcome(chunks: seq<seq<byte>>, end: StreamEnd): (r: Exchange<seq<byte>>)
    ensures r.Answered? ==> r.value == Concat(chunks[..ChunksRead(chunks)])
    ensures r.Threw? ==> end.Broken? && r.message == end.message
    ensures end.Closed? ==> r.Answered?
  {
    var response := Concat(chunks[..ChunksRead(chunks)]);
    if StatusMarkerSeen(response) then Answered(response)
    else
      match end
      case Closed => Answered(response)
      case Broken(m) => Threw(m)
      case Silent => Hangs
  }

  /** The exchange never settles exactly when the port stays silent and no
      prefix of what it delivers shows the marker; with the marker
      delivered, the stream's end plays no part. */
  lemma ReadHangsIff(chunks: seq<seq<byte>>, end: StreamEnd)
    ensures ReadOutcome(chunks, end).Hangs? <==>
      end.Silent? && forall j :: 0 < j <= |chunks| ==> !StatusMarkerSeen(Concat(chunks[..j]))
    ensures (exists j :: 0 < j <= |chunks| && StatusMarkerSeen(Concat(chunks[..j]))) ==>
      ReadOutcome(chunks, end) == ReadOutcome(chunks, Closed)
  {
    ChunksReadStops(chunks);
    var k := ChunksRead(chunks);
    assert chunks[..0] == [];
    if exists j :: 0 < j <= |chunks| && StatusMarkerSeen(Concat(chunks[..j])) {
      var j :| 0 < j <= |chunks| && StatusMarkerSeen(Concat(chunks[..j]));
      assert k == |chunks| ==> j <= k;
    }
  }

  /** A card that answers `6A 82` (no `0x90` before its last byte) on a port
      that then stays open: `sendCommand` waits forever. */
  lemma SilentCardHangs()
    ensures ReadOutcome([[0x6A, 0x82]], Silent) == Hangs
  {
    var chunks: seq<seq<byte>> := [[0x6A, 0x82]];
    assert chunks[..1] == chunks;
    assert Concat(chunks[..1]) == [0x6A, 0x82] by {
      assert chunks[..1][..0] == [];
    }
    assert ChunksRead(chunks) == 1;
  }

  /** The error a bounded read reports when the card does not answer in
      time. */
  const TimeoutMessage: string := "TimeoutError"

  /** The read the protocol calls for: the same exchange, bounded in time,
      so a silent port ends in a timeout error instead of a wait that never
      ends. */
  function TimedReadOutcome(chunks: seq<seq<byte>>, end: StreamEnd): Exchange<seq<byte>>
  {
    match ReadOutcome(chunks, end)
    case Hangs => Threw(TimeoutMessage)
    case other => other
  }

  /** A bounded read always settles, agrees with the unbounded one whenever
      that one settles, and reports the timeout for the silent card. */
  lemma SilentCardTimesOut(chunks: seq<seq<byte>>, end: StreamEnd)
    ensures !TimedReadOutcome(chunks, end).Hangs?
    ensures !ReadOutcome(chunks, end).Hangs? ==> TimedReadOutcome(chunks, end) == ReadOutcome(chunks, end)
    ensures TimedReadOutcome([[0x6A, 0x82]], Silent) == Threw(TimeoutMessage)
  {
    SilentCardHangs();
  }

  /** The six bytes every frame of `writeToCard` is, whatever its command. */
  const EmptyApduFrame: seq<byte> := [0xFF, 0xCA, 0x00, 0x00, 0x00, 0x35]

  /** `response[response.length - 2] === 0x90` on an answered exchange; a
      thrown error or a wait that never ends passes through. */
  function Verdict(e: Exchange<seq<byte>>): (v: Exchange<bool>)
    ensures v.Answered? <==> e.Answered?
    ensures v.Answered? ==> v.value == StatusMarkerSeen(e.value)
    ensures e.Threw? ==> v == Threw(e.message)
    ensures e.Hangs? ==> v.Hangs?
  {
    match e
    case Answered(response) => Answered(StatusMarkerSeen(response))
    case Threw(m) => Threw(m)
    case Hangs => Hangs
  }

  /** What `writeToCard` does on a connected reader: its result, the
      frames it puts on the wire and the chunks left unread. */
  datatype CardWrite = CardWrite(result: Exchange<bool>, frames: seq<seq<byte>>, rest: seq<seq<byte>>)

  /** `writeToCard` on a connected reader whose stream delivers `chunks`
      and then behaves as `end`, the two `write` calls ending as
      `authWrite` and `dataWrite`. The authentication exchange must settle
      before the write frame is sent, and its answer is otherwise ignored;
      the card's verdict is read from the write exchange alone. */
  function WriteOutcome(chunks: seq<seq<byte>>, end: StreamEnd, authWrite: Outcome, dataWrite: Outcome): (w: CardWrite)
    ensures |w.frames| <= 2 && forall i :: 0 <= i < |w.frames| ==> w.frames[i] == EmptyApduFrame
    ensures authWrite.Failed? ==> w == CardWrite(Threw(authWrite.message), [], chunks)
    ensures |w.frames| == 2 <==> authWrite.Done? && ReadOutcome(chunks, end).Answered? && dataWrite.Done?
    ensures w.result.Answered? <==> |w.frames| == 2 && ReadOutcome(chunks[ChunksRead(chunks)..], end).Answered?
    ensures w.result.Hangs? ==> end.Silent?
    ensures end.Closed? && authWrite.Done? && dataWrite.Done? ==> w.result.Answered?
  {
    if authWrite.Failed? then CardWrite(Threw(authWrite.message), [], chunks)
    else
      var auth := ReadOutcome(chunks, end);
      var rest := chunks[ChunksRead(chunks)..];
      if !auth.Answered? then CardWrite(Verdict(auth), [EmptyApduFrame], rest)
      else if dataWrite.Failed? then CardWrite(Threw(dataWrite.message), [EmptyApduFrame], rest)
      else
        var answer := ReadOutcome(rest, end);
        CardWrite(Verdict(answer), [EmptyApduFrame, EmptyApduFrame], rest[ChunksRead(rest)..])
  }

  /** The `NFCReader` singleton. Its `reader` field is never used by the
      source and is not modelled. */
  class NfcReader {
    /** The granted port, `null` until `requestPort` resolves. */
    var port: Option<nat>
    var isConnected: bool
    /** Every frame written to the port so far, in order. */
    var written: seq<seq<byte>>
    /** The chunks the port's readable stream still has to deliver. */
    var incoming: seq<seq<byte>>
    /** How the port's readable stream behaves once `incoming` is spent. */
    var streamEnd: StreamEnd

    constructor()
      ensures port == None && !isConnected && written == [] && incoming == [] && streamEnd == Closed
    {
      port := None;
      isConnected := false;
      written := [];
      incoming := [];
      streamEnd := Closed;
    }

    /** `connect()`: the port is recorded as soon as it is granted, the flag
        is set only once it has also opened. Every failure is reported with
        the same message, and a failed `open` leaves the flag as it was. */
    method Connect(grant: Option<SerialGrant>, open: Outcome) returns (r: Result<bool, string>)
      modifies this
      ensures r.Ok? <==> grant.Some? && open.Done?
      ensures r.Ok? ==> r.value
      ensures r.Err? ==> r.error == ConnectFailedMessage
      ensures grant.Some? ==>
        port == Some(grant.value.id) && incoming == grant.value.readable && streamEnd == grant.value.end
      ensures grant.None? ==> port == old(port) && incoming == old(incoming) && streamEnd == old(streamEnd)
      ensures isConnected == (old(isConnected) || r.Ok?)
      ensures written == old(written)
    {
      if grant.None? {
        return Err(ConnectFailedMessage);
      }
      port := Some(grant.value.id);
      incoming := grant.value.readable;
      streamEnd := grant.value.end;
      if open.Failed? {
        return Err(ConnectFailedMessage);
      }
      isConnected := true;
      return Ok(true);
    }

    /** `disconnect()`: closes the port only when one is held and connected;
        the flag is cleared once `close` resolves. Otherwise nothing
        happens, so a second call is a no-op. */
    method Disconnect(close: Outcome) returns (r: Outcome)
      modifies this
      ensures old(port).None? || !old(isConnected) ==> r == Done && isConnected == old(isConnected)
      ensures old(port).Some? && old(isConnected) ==> r == close && isConnected == close.Failed?
      ensures port == old(port) && written == old(written) && incoming == old(incoming)
      ensures streamEnd == old(streamEnd)
    {
      if port.Some? && isConnected {
        if close.Failed? {
          return close;
        }
        isConnected := false;
      }
      return Done;
    }

    /** `sendCommand(command)`: refuses before writing anything unless a port
        is held and connected; otherwise writes the frame (a rejected
        `write` is thrown on), then reads chunks and appends them to the
        response until the marker is seen or the stream says `done`. A
        stream error is thrown on; a port that stays silent before the
        marker leaves the call waiting for ever. */
    method SendCommand(command: seq<byte>, write: Outcome) returns (r: Exchange<seq<byte>>)
      modifies this
      ensures old(port).None? || !old(isConnected) ==>
        r == Threw(NotConnectedMessage) && written == old(written) && incoming == old(incoming)
      ensures old(port).Some? && old(isConnected) && write.Failed? ==>
        r == Threw(write.message) && written == old(written) && incoming == old(incoming)
      ensures old(port).Some? && old(isConnected) && write.Done? ==>
        r == ReadOutcome(old(incoming), streamEnd) &&
        incoming == old(incoming)[ChunksRead(old(incoming))..] &&
        written == old(written) + [command]
      ensures port == old(port) && isConnected == old(isConnected) && streamEnd == old(streamEnd)
    {
      if port.None? || !isConnected {
        return Threw(NotConnectedMessage);
      }
      if write.Failed? {
        return Threw(write.message);
      }
      written := written + [command];
      ghost var chunks := incoming;
      ghost var i := 0;
      var response := [];
      while true
        invariant 0 <= i <= |chunks| && incoming == chunks[i..]
        invariant response == Concat(chunks[..i])
        invariant ChunksReadFrom(chunks, i) == ChunksRead(chunks)
        invariant port == old(port) && isConnected == old(isConnected) && written == old(written) + [command]
        invariant streamEnd == old(streamEnd)
        decreases |incoming|
      {
        if incoming == [] {
          break;
        }
        var value := incoming[0];
        incoming := incoming[1..];
        ConcatSnoc(chunks, i);
        response := response + value;
        i := i + 1;
        if StatusMarkerSeen(response) {
          break;
        }
      }
      if !StatusMarkerSeen(response) {
        match streamEnd {
          case Broken(m) => return Threw(m);
          case Silent => return Hangs;
          case Closed =>
        }
      }
      return Answered(response);
    }

    /** The authentication frame `writeToCard` builds with
        `createAPDU([0x00, 0x82, 0x00, sector, 0x06, ...key])`, the key
        being `hexToByteArray('FFFFFFFFFFFF')`: the command goes unread, so
        the frame is the empty-payload one whatever the sector and key. */
    method AuthCommand(sector: int) returns (frame: seq<byte>)
      ensures frame == EmptyApduFrame
    {
      var key := HexToByteArray("FFFFFFFFFFFF");
      frame := CreateApdu([0x00, 0x82, 0x00, sector, 0x06] + key[..]);
      EmptyFrame([0x00, 0x82, 0x00, sector, 0x06] + key[..]);
    }

    /** The write frame `writeToCard` builds with
        `createAPDU([0x00, 0xD6, 0x00, block, data.length, ...data])`: the
        data never reaches the frame. */
    method WriteCommand(block: int, data: seq<byte>) returns (frame: seq<byte>)
      ensures frame == EmptyApduFrame
    {
      frame := CreateApdu([0x00, 0xD6, 0x00, block, |data|] + data);
      EmptyFrame([0x00, 0xD6, 0x00, block, |data|] + data);
    }

    /** `writeToCard(sector, block, data)`: sends an authentication frame,
        waits for its exchange and ignores its answer, sends a write frame
        and reports whether the second-to-last byte of the write response is
        `0x90`; an error from either exchange is thrown on. Both command
        arrays are passed as `createAPDU`'s unused first argument, so the
        two frames on the wire are the same six bytes whatever the sector,
        block and data. */
    method WriteToCard(sector: int, block: int, data: seq<byte>, authWrite: Outcome, dataWrite: Outcome)
      returns (r: Exchange<bool>)
      modifies this
      ensures old(port).None? || !old(isConnected) ==>
        r == Threw(NotConnectedMessage) && written == old(written) && incoming == old(incoming)
      ensures old(port).Some? && old(isConnected) ==>
        var w := WriteOutcome(old(incoming), streamEnd, authWrite, dataWrite);
        r == w.result && written == old(written) + w.frames && incoming == w.rest
      ensures port == old(port) && isConnected == old(isConnected) && streamEnd == old(streamEnd)
    {
      ghost var chunks, end := incoming, streamEnd;
      var authCmd := AuthCommand(sector);
      var auth := SendCommand(authCmd, authWrite);
      if !auth.Answered? {
        return Verdict(auth);
      }
      ghost var rest := incoming;
      assert rest == chunks[ChunksRead(chunks)..] && written == old(written) + [EmptyApduFrame];
      var writeCmd := WriteCommand(block, data);
      // The first exchange left the reader connected, so this one cannot be refused.
      var response := SendCommand(writeCmd, dataWrite);
      assert dataWrite.Done? ==> response == ReadOutcome(rest, end) && incoming == rest[ChunksRead(rest)..];
      return Verdict(response);
    }

    /** `hexToByteArray(hex)`: a `Uint8Array` of `⌊|hex|/2⌋` bytes filled two
        characters at a time. */
    method HexToByteArray(hex: string) returns (bytes: array<byte>)
      ensures fresh(bytes)
      ensures bytes[..] == HexToBytes(hex)
    {
      bytes := new byte[|hex| / 2];
      // `i` steps by two, so `i / 2` is the whole number `half`.
      var i, half := 0, 0;
      while i < |hex|
        invariant 0 <= i <= |hex| + 1 && i == 2 * half
        invariant forall k :: 0 <= k < half && k < bytes.Length ==> bytes[k] == HexToBytes(hex)[k]
      {
        // A lone last character is parsed too, but a store past the end
        // of a `Uint8Array` is dropped, so only whole pairs are stored.
        if half < bytes.Length {
          HexToBytesAt(hex, half);
          bytes[half] := ToUint8(ParseInt16(hex[i..i + 2]));
        }
        i, half := i + 2, half + 1;
      }
    }
  }

  /** `generateNFCId()` given the eight bytes `crypto.getRandomValues`
      fills in: `"NFC-"` and sixteen lower-case hexadecimal digits. */
  function GenerateNfcId(random: seq<byte>): (id: string)
    requires |random| == 8
    ensures |id| == 20 && id[..4] == "NFC-"
    ensures forall k :: 4 <= k < 20 ==> IsLowerHexDigit(id[k])
  {
    ByteArrayToHexLower(random);
    "NFC-" + ByteArrayToHex(random)
  }

  /** The sixteen digits decode back to the random bytes, so distinct random
      bytes give distinct identifiers. */
  lemma NfcIdDecodes(random: seq<byte>)
    requires |random| == 8
    ensures HexToBytes(GenerateNfcId(random)[4..]) == random
  {
    assert GenerateNfcId(random)[4..] == ByteArrayToHex(random);
    HexRoundTrip(random);
  }

  /** Distinct random bytes give distinct identifiers. */
  lemma NfcIdInjective(a: seq<byte>, b: seq<byte>)
    requires |a| == 8 && |b| == 8 && GenerateNfcId(a) == GenerateNfcId(b)
    ensures a == b
  {
    NfcIdDecodes(a);
    NfcIdDecodes(b);
  }
}
