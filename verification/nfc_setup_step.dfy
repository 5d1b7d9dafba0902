/** The card step, `src/components/employee/steps/NFCSetupStep.jsx`: it
    connects the card reader, writes a freshly generated identifier to a
    card, records the identifier for the employee and hands it to the
    wizard. The reader is the shared `NfcReader`; the serial port, the
    random bytes and the server's replies are inputs. */
module NfcEnrollment {
  import opened Wrappers
  import opened Bytes
  import opened Json
  import opened Http
  import opened Constants
  import opened Wizard
  import opened Hex
  import opened NfcService

  /** The step's `status`. */
  datatype NfcStatus = Initial | Connecting | Ready | Writing | Success | Error

  /** The button the step shows, and what it does. */
  datatype Action = ConnectAction | WriteAction | ContinueAction | RetryAction

  /** `statusConfig[status].action`: connecting and writing show none. */
  function ActionFor(s: NfcStatus): (a: Option<Action>)
    ensures a == Some(ContinueAction) <==> s == Success
    ensures a.None? <==> s == Connecting || s == Writing
    ensures s == Error ==> a == Some(RetryAction)
  {
    match s
    case Initial => Some(ConnectAction)
    case Connecting => None
    case Ready => Some(WriteAction)
    case Writing => None
    case Success => Some(ContinueAction)
    case Error => Some(RetryAction)
  }

  /** `new TextEncoder().encode(id)` for an ASCII identifier: one byte per
      character, its code. */
  function EncodeAscii(s: string): (bytes: seq<byte>)
    requires forall i :: 0 <= i < |s| ==> s[i] as int < 128
    ensures |bytes| == |s| && forall i :: 0 <= i < |s| ==> bytes[i] == s[i] as int
  {
    seq(|s|, i requires 0 <= i < |s| => s[i] as int)
  }

  /** A generated identifier is ASCII, so it can be encoded byte per
      character. */
  lemma NfcIdIsAscii(random: seq<byte>)
    requires |random| == 8
    ensures forall i :: 0 <= i < |GenerateNfcId(random)| ==> GenerateNfcId(random)[i] as int < 128
  {
    var id := GenerateNfcId(random);
    assert id[..4] == "NFC-";
    forall i | 0 <= i < |id|
      ensures id[i] as int < 128
    {
      if i < 4 {
        assert id[i] == "NFC-"[i];
      }
    }
  }

  /** `new TextEncoder().encode(newNfcId)`: the identifier's twenty ASCII
      codes. */
  function EncodeNfcId(random: seq<byte>): (bytes: seq<byte>)
    requires |random| == 8
    ensures |bytes| == 20
    ensures forall i :: 0 <= i < 20 ==> bytes[i] == GenerateNfcId(random)[i] as int
  {
    NfcIdIsAscii(random);
    EncodeAscii(GenerateNfcId(random))
  }

  /** The path the identifier is posted to: `UPDATE_NFC(data.employee.id)`,
      or the `TypeError` reading `id` from a missing or `null` employee
      throws. */
  function NfcUrl(data: Object): (r: Result<string, string>)
    ensures r.Ok? <==> "employee" in data && !data["employee"].JNull?
  {
    match NestedProperty(data, "employee", "id")
    case Err(e) => Err(e)
    case Ok(id) => Ok(ApiBaseUrl + UpdateNfcPath(JsString(id)))
  }

  /** The step's state. `reader` is the shared reader singleton. */
  class NfcSetupStep {
    var status: NfcStatus
    var error: string
    var nfcId: Option<string>
    var requests: seq<Request>
    var callbacks: seq<Callback>
    const reader: NfcReader

    constructor(reader: NfcReader)
      ensures this.reader == reader
      ensures status == Initial && error == "" && nfcId == None && requests == [] && callbacks == []
    {
      this.reader := reader;
      status := Initial;
      error := "";
      nfcId := None;
      requests := [];
      callbacks := [];
    }

    /** What `connectReader` leaves behind: ready once the reader is
        connected, or error with the reader's message; a granted port
        becomes the reader's, with its chunks and how its stream ends,
        while a refused grant leaves the reader's port as it was. Nothing
        is written, posted or handed to the wizard. */
    twostate predicate ConnectEffect(grant: Option<SerialGrant>, open: Outcome)
      reads this, reader
    {
      (grant.Some? && open.Done? ==> status == Ready && error == old(error)) &&
      (!(grant.Some? && open.Done?) ==> status == Error && error == ConnectFailedMessage) &&
      reader.isConnected == (old(reader.isConnected) || (grant.Some? && open.Done?)) &&
      (grant.Some? ==>
        reader.port == Some(grant.value.id) && reader.incoming == grant.value.readable &&
        reader.streamEnd == grant.value.end) &&
      (grant.None? ==>
        reader.port == old(reader.port) && reader.incoming == old(reader.incoming) &&
        reader.streamEnd == old(reader.streamEnd)) &&
      reader.written == old(reader.written) &&
      nfcId == old(nfcId) && requests == old(requests) && callbacks == old(callbacks)
    }

    /** `connectReader`: connecting, then as `ConnectEffect` says. */
    method ConnectReader(grant: Option<SerialGrant>, open: Outcome)
      modifies this, reader
      ensures ConnectEffect(grant, open)
    {
      status := Connecting;
      var r := reader.Connect(grant, open);
      if r.Err? {
        status := Error;
        error := r.error;
        return;
      }
      status := Ready;
    }

    /** What `handleWriteNFC` leaves behind, given how the card exchange
        and the post end: the identifier is always kept; without a
        connection the not-connected error; otherwise the frames
        `WriteOutcome` sends are written, an error from the exchange is
        shown, an exchange that never settles leaves the step writing, and
        an answered one posts the identifier and applies the reply. */
    twostate predicate WriteEffect(random: seq<byte>, authWrite: Outcome, dataWrite: Outcome, data: Object, reply: Reply)
      requires |random| == 8
      reads this, reader
    {
      (nfcId == Some(GenerateNfcId(random))) &&
      (old(reader.port).None? || !old(reader.isConnected) ==>
          status == Error && error == NotConnectedMessage &&
          reader.written == old(reader.written) && reader.incoming == old(reader.incoming) &&
          requests == old(requests) && callbacks == old(callbacks)) &&
      (old(reader.port).Some? && old(reader.isConnected) ==>
          var w := WriteOutcome(old(reader.incoming), reader.streamEnd, authWrite, dataWrite);
          reader.written == old(reader.written) + w.frames && reader.incoming == w.rest &&
          (w.result.Threw? ==>
            status == Error && error == w.result.message && requests == old(requests) && callbacks == old(callbacks)) &&
          (w.result.Hangs? ==>
            status == Writing && error == old(error) && requests == old(requests) && callbacks == old(callbacks)) &&
          (w.result.Answered? && NfcUrl(data).Err? ==>
            status == Error && error == NfcUrl(data).error &&
            requests == old(requests) && callbacks == old(callbacks)) &&
          (w.result.Answered? && NfcUrl(data).Ok? ==>
            requests == old(requests) + [Post(NfcUrl(data).value, JObj(map["nfc_id" := JStr(GenerateNfcId(random))]))]) &&
          (w.result.Answered? && NfcUrl(data).Ok? && reply.Rejected? ==>
            status == Error && error == reply.message && callbacks == old(callbacks)) &&
          (w.result.Answered? && NfcUrl(data).Ok? && reply.Resolved? ==>
            status == Success && error == old(error) &&
            callbacks == old(callbacks) + [OnUpdate(map["nfcId" := JStr(GenerateNfcId(random))])])) &&
      (reader.port == old(reader.port) && reader.isConnected == old(reader.isConnected)) &&
      (reader.streamEnd == old(reader.streamEnd))
    }

    /** `handleWriteNFC`: generates the identifier from eight random bytes
        and keeps it, writes its ASCII bytes to sector 5, block 20, posts it
        for the employee and hands it to the wizard. The reader's verdict on
        the write is ignored: only a thrown error stops the sequence, and
        then the status is error and the wizard hears nothing, but the
        identifier stays recorded. A card exchange that never settles
        leaves the step writing for ever. `authWrite` and `dataWrite` are
        how the port's two `write` calls end. */
    method HandleWriteNfc(random: seq<byte>, authWrite: Outcome, dataWrite: Outcome, data: Object, reply: Reply)
      requires |random| == 8
      modifies this, reader
      ensures WriteEffect(random, authWrite, dataWrite, data, reply)
    {
      status := Writing;
      var newNfcId := GenerateNfcId(random);
      nfcId := Some(newNfcId);
      var idBytes := EncodeNfcId(random);
      var written := reader.WriteToCard(5, 20, idBytes, authWrite, dataWrite);
      match written {
        case Threw(m) =>
          status := Error;
          error := m;
          return;
        case Hangs =>
          return;
        case Answered(_) =>
      }
      SaveNfcId(newNfcId, data, reply);
    }

    /** The rest of `handleWriteNFC` once the card exchange has settled:
        the identifier is posted to the employee's update path (reading
        `data.employee.id` may throw first), and the wizard hears of it
        once the server accepts it. */
    method SaveNfcId(id: string, data: Object, reply: Reply)
      modifies this
      ensures NfcUrl(data).Err? ==>
        status == Error && error == NfcUrl(data).error && requests == old(requests) && callbacks == old(callbacks)
      ensures NfcUrl(data).Ok? ==>
        requests == old(requests) + [Post(NfcUrl(data).value, JObj(map["nfc_id" := JStr(id)]))]
      ensures NfcUrl(data).Ok? && reply.Rejected? ==>
        status == Error && error == reply.message && callbacks == old(callbacks)
      ensures NfcUrl(data).Ok? && reply.Resolved? ==>
        status == Success && error == old(error) && callbacks == old(callbacks) + [OnUpdate(map["nfcId" := JStr(id)])]
      ensures nfcId == old(nfcId)
    {
      var url := NfcUrl(data);
      if url.Err? {
        status := Error;
        error := url.error;
        return;
      }
      requests := requests + [Post(url.value, JObj(map["nfc_id" := JStr(id)]))];
      if reply.Rejected? {
        status := Error;
        error := reply.message;
        return;
      }
      status := Success;
      callbacks := callbacks + [OnUpdate(map["nfcId" := JStr(id)])];
    }

    /** Pressing the button the current status shows: connecting and
        retrying both run `connectReader` and leave what `ConnectEffect`
        says, writing runs `handleWriteNFC` and leaves what `WriteEffect`
        says. Only the success status leaves the step, and only towards the
        face step; retrying after an error reconnects the reader rather
        than writing again. */
    method Press(grant: Option<SerialGrant>, open: Outcome, random: seq<byte>, authWrite: Outcome, dataWrite: Outcome,
                 data: Object, reply: Reply)
      requires |random| == 8
      modifies this, reader
      ensures ActionFor(old(status)).None? ==> status == old(status) && callbacks == old(callbacks) && requests == old(requests)
      ensures old(status) == Success ==> callbacks == old(callbacks) + [OnComplete(FaceSetup)] && status == Success
      ensures ActionFor(old(status)).None? || old(status) == Success ==>
        error == old(error) && nfcId == old(nfcId) && requests == old(requests) && unchanged(reader)
      ensures old(status) in {Initial, Error} ==> ConnectEffect(grant, open)
      ensures old(status) in {Initial, Error} ==> status in {Ready, Error} && callbacks == old(callbacks) && requests == old(requests)
      ensures old(status) == Ready ==> WriteEffect(random, authWrite, dataWrite, data, reply)
      ensures old(status) != Success ==>
        |old(callbacks)| <= |callbacks| && forall k :: |old(callbacks)| <= k < |callbacks| ==> !callbacks[k].OnComplete?
    {
      match ActionFor(status) {
        case None =>
        case Some(ConnectAction) =>
          ConnectReader(grant, open);
        case Some(RetryAction) =>
          ConnectReader(grant, open);
        case Some(WriteAction) =>
          HandleWriteNfc(random, authWrite, dataWrite, data, reply);
        case Some(ContinueAction) =>
          callbacks := callbacks + [OnComplete(FaceSetup)];
      }
    }
  }
}
