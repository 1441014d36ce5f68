/** The radio link to the ground station: outgoing messages travel as
    MAVLink v2 `POSTCARD_MESSAGE` frames with a fixed 255-byte payload and a
    wrapping 8-bit sequence number; incoming MAVLink messages are turned back
    into flight-computer messages.

    MAVLink framing and the UART are the radio device's; postcard decoding is
    a parameter of the manager (`decode`). */
module Communication {
  import opened Messages

  /** The size of a `POSTCARD_MESSAGE` payload. */
  const MAX_PAYLOAD := 255

  /** Who sends: system 1, component 1. */
  const SYSTEM_ID: u8 := 1
  const COMPONENT_ID: u8 := 1

  datatype MavHeader = MavHeader(systemId: u8, componentId: u8, sequence: u8)

  datatype MavMessage =
    | PostcardMessage(message: seq<u8>)
    | CommandMessage(command: seq<u8>)
    | Heartbeat
    | OtherMavMessage(id: nat)

  // ---------------------------------------------------------------------
  // Sequence numbers

  /** `wrapping_add(1)` on a `u8`. */
  function NextSequence(s: u8): (r: u8)
    ensures s < 255 ==> r == s + 1
    ensures s == 255 ==> r == 0
  {
    (s + 1) % 0x100
  }

  /** The sequence number after `n` frames. */
  function SequenceAfter(s: u8, n: nat): u8
  {
    if n == 0 then s else NextSequence(SequenceAfter(s, n - 1))
  }

  /** After `n` frames the sequence number has advanced by `n` modulo 256. */
  lemma {:induction false} SequenceAdvancesModulo256(s: u8, n: nat)
    ensures SequenceAfter(s, n) as int == (s as int + n) % 0x100
  {
    if n > 0 {
      SequenceAdvancesModulo256(s, n - 1);
      var m: int := s as int + n - 1;
      var before: int := SequenceAfter(s, n - 1) as int;
      assert SequenceAfter(s, n) as int == (before + 1) % 0x100;
      WrapStep(m);
      assert (before + 1) % 0x100 == (m + 1) % 0x100;
    } else {
      assert (s as int) % 0x100 == s as int;
    }
  }

  lemma WrapStep(x: nat)
    ensures (x % 0x100 + 1) % 0x100 == (x + 1) % 0x100
  {
  }

  /** Sequence numbers repeat exactly every 256 frames. */
  lemma SequenceRepeatsEvery256(s: u8, n: nat)
    ensures SequenceAfter(s, n + 0x100) == SequenceAfter(s, n)
    ensures 0 < n < 0x100 ==> SequenceAfter(s, n) != s
  {
    SequenceAdvancesModulo256(s, n);
    SequenceAdvancesModulo256(s, n + 0x100);
  }

  // ---------------------------------------------------------------------
  // The fixed-size payload

  /** The 255-byte payload carrying `p`: its first 255 bytes, zero-padded. */
  function FixedPayload(p: seq<u8>): (r: seq<u8>)
    ensures |r| == MAX_PAYLOAD
    ensures forall i :: 0 <= i < MAX_PAYLOAD ==> r[i] == if i < |p| then p[i] else 0
  {
    var n := if |p| < MAX_PAYLOAD then |p| else MAX_PAYLOAD;
    p[..n] + seq(MAX_PAYLOAD - n, _ => 0)
  }

  /** A payload that fits is the prefix of its frame payload; a longer one is
      cut to 255 bytes. */
  lemma FixedPayloadKeepsPrefix(p: seq<u8>)
    ensures |p| <= MAX_PAYLOAD ==> FixedPayload(p)[..|p|] == p
    ensures |p| >= MAX_PAYLOAD ==> FixedPayload(p) == p[..MAX_PAYLOAD]
  {
  }

  /** `fixed_payload[..len].copy_from_slice(&payload[..len])` on a zeroed
      255-byte array. */
  method CopyIntoFixedPayload(payload: seq<u8>) returns (fixed: seq<u8>)
    ensures fixed == FixedPayload(payload)
  {
    var buf := new u8[MAX_PAYLOAD](_ => 0);
    var len := if |payload| < MAX_PAYLOAD then |payload| else MAX_PAYLOAD;
    for i := 0 to len
      invariant forall j :: 0 <= j < i ==> buf[j] == payload[j]
      invariant forall j :: i <= j < MAX_PAYLOAD ==> buf[j] == 0
    {
      buf[i] := payload[i];
    }
    fixed := buf[..];
  }

  // ---------------------------------------------------------------------
  // Receiving

  /** What `receive_message` makes of the outcome of one MAVLink read: the
      postcard-decoded payload of a postcard or command message; an error
      for a failed read, a failed decode, a heartbeat or any other message. */
  function Receive(read: Result<MavMessage, HydraError>, decode: seq<u8> -> Option<Message>): (r: Result<Message, HydraError>)
    ensures read.Err? ==> r == Err(read.error)
    ensures r.Ok? <==>
      || (read.Ok? && read.value.PostcardMessage? && decode(read.value.message).Some?)
      || (read.Ok? && read.value.CommandMessage? && decode(read.value.command).Some?)
    ensures r.Ok? && read.value.PostcardMessage? ==> r.value == decode(read.value.message).value
    ensures r.Ok? && read.value.CommandMessage? ==> r.value == decode(read.value.command).value
    ensures r.Err? && read.Ok? ==> r.error in {DeserializeError, RadioReadError}
  {
    match read
    case Err(e) => Err(e)
    case Ok(PostcardMessage(bytes)) =>
      if decode(bytes).Some? then Ok(decode(bytes).value) else Err(DeserializeError)
    case Ok(CommandMessage(bytes)) =>
      if decode(bytes).Some? then Ok(decode(bytes).value) else Err(DeserializeError)
    case Ok(Heartbeat) => Err(RadioReadError)
    case Ok(OtherMavMessage(_)) => Err(RadioReadError)
  }

  /** Whatever a frame sent by this link carries comes back out of `Receive`
      as soon as the decoder accepts its padded payload. */
  lemma SentFrameReceived(payload: seq<u8>, decode: seq<u8> -> Option<Message>)
    requires decode(FixedPayload(payload)).Some?
    ensures Receive(Ok(PostcardMessage(FixedPayload(payload))), decode) == Ok(decode(FixedPayload(payload)).value)
  {
  }

  // ---------------------------------------------------------------------
  // The device and the manager

  /** The UART pair: `sent` holds the frames written successfully, `readLog`
      the outcome of every read. Both directions may fail. */
  class RadioDevice {
    var sent: seq<(MavHeader, MavMessage)>
    var readLog: seq<Result<MavMessage, HydraError>>

    method WriteVersionedMsg(header: MavHeader, message: MavMessage) returns (ok: bool)
      modifies this`sent
      ensures sent == old(sent) + (if ok then [(header, message)] else [])
    {
      ok := *;
      if ok {
        sent := sent + [(header, message)];
      }
    }

    method ReadVersionedMsg() returns (r: Result<MavMessage, HydraError>)
      modifies this`readLog
      ensures r.Err? ==> r.error == RadioReadError
      ensures readLog == old(readLog) + [r]
    {
      var ok: bool := *;
      if ok {
        var m: MavMessage := *;
        r := Ok(m);
      } else {
        r := Err(RadioReadError);
      }
      readLog := readLog + [r];
    }
  }

  class RadioManager {
    const radio: RadioDevice
    const decode: seq<u8> -> Option<Message>
    var mavSequence: u8

    constructor (radio: RadioDevice, decode: seq<u8> -> Option<Message>)
      ensures this.radio == radio && this.decode == decode && mavSequence == 0
    {
      this.radio, this.decode := radio, decode;
      mavSequence := 0;
    }

    method IncrementMavSequence() returns (s: u8)
      modifies this`mavSequence
      ensures mavSequence == NextSequence(old(mavSequence)) && s == mavSequence
    {
      mavSequence := NextSequence(mavSequence);
      s := mavSequence;
    }

    /** Sends `payload` as one `POSTCARD_MESSAGE`. The sequence number
        advances whether or not the write succeeds, and the frame carries the
        advanced number. */
    method SendMessage(payload: seq<u8>) returns (r: Result<(), HydraError>)
      modifies this`mavSequence, radio`sent
      ensures mavSequence == NextSequence(old(mavSequence))
      ensures r.Ok? ==> (radio.sent == old(radio.sent) +
        [(MavHeader(SYSTEM_ID, COMPONENT_ID, mavSequence), PostcardMessage(FixedPayload(payload)))])
      ensures r.Err? ==> r == Err(RadioWriteError) && radio.sent == old(radio.sent)
    {
      var sequence := IncrementMavSequence();
      var header := MavHeader(SYSTEM_ID, COMPONENT_ID, sequence);
      var fixed := CopyIntoFixedPayload(payload);
      var ok := radio.WriteVersionedMsg(header, PostcardMessage(fixed));
      r := if ok then Ok(()) else Err(RadioWriteError);
    }

    /** Reads one MAVLink message and decodes it; the sequence number is
        untouched. */
    method ReceiveMessage() returns (r: Result<Message, HydraError>)
      modifies radio`readLog
      ensures |radio.readLog| == |old(radio.readLog)| + 1 && radio.readLog[..|old(radio.readLog)|] == old(radio.readLog)
      ensures r == Receive(radio.readLog[|old(radio.readLog)|], decode)
    {
      var read := radio.ReadVersionedMsg();
      match read {
        case Err(e) =>
          r := Err(e);
        case Ok(PostcardMessage(bytes)) =>
          var m := decode(bytes);
          r := if m.Some? then Ok(m.value) else Err(DeserializeError);
        case Ok(CommandMessage(bytes)) =>
          var m := decode(bytes);
          r := if m.Some? then Ok(m.value) else Err(DeserializeError);
        case Ok(Heartbeat) =>
          r := Err(RadioReadError);
        case Ok(OtherMavMessage(_)) =>
          r := Err(RadioReadError);
      }
    }
  }

  /** The first frame a new manager sends carries sequence number 1. */
  method FirstFrameAfterNew(radio: RadioDevice, decode: seq<u8> -> Option<Message>, payload: seq<u8>)
    returns (manager: RadioManager, r: Result<(), HydraError>)
    modifies radio`sent
    ensures r.Ok? ==> (radio.sent == old(radio.sent) +
      [(MavHeader(SYSTEM_ID, COMPONENT_ID, 1), PostcardMessage(FixedPayload(payload)))])
  {
    manager := new RadioManager(radio, decode);
    r := manager.SendMessage(payload);
  }
}
