/** The CAN command link: outgoing messages are serialised into one FD frame
    of at most 64 bytes; incoming frames are drained from receive FIFO 0,
    decoded, and handed to the data manager as commands.

    Serialisation and deserialisation are postcard's; they are parameters of
    the manager here (`encode`, `decode`). */
module CanBus {
  import opened Messages
  import opened DataManagement

  /** The frame buffer, and so the largest payload. */
  const FRAME_BYTES := 64

  datatype FrameFormat = Standard | Fdcan

  datatype TxFrameHeader = TxFrameHeader(
    len: u8, id: nat, frameFormat: FrameFormat, bitRateSwitching: bool, marker: Option<nat>)

  datatype TxFrame = TxFrame(header: TxFrameHeader, payload: seq<u8>)

  /** The header `send_message` puts on a payload of `len` bytes. */
  function Header(len: nat, comId: nat): (h: TxFrameHeader)
    requires len <= FRAME_BYTES
    ensures h.len == len && h.id == comId
    ensures h.frameFormat == Fdcan && !h.bitRateSwitching && h.marker.None?
  {
    TxFrameHeader(len, comId, Fdcan, false, None)
  }

  /** What a 64-byte buffer holds after a frame is received into it: the
      frame's bytes, then whatever the buffer held beyond them. */
  function Overlay(buf: seq<u8>, frame: seq<u8>): (r: seq<u8>)
    requires |frame| <= |buf|
    ensures |r| == |buf|
    ensures r[..|frame|] == frame && r[|frame|..] == buf[|frame|..]
  {
    frame + buf[|frame|..]
  }

  /** A short frame received after a longer one does not clear the longer
      one's tail: the decoder sees those stale bytes after the new frame. */
  lemma StaleBytesShowThrough(buf: seq<u8>, long: seq<u8>, short: seq<u8>)
    requires |short| <= |long| <= |buf|
    ensures Overlay(Overlay(buf, long), short)[|short|..|long|] == long[|short|..]
  {
  }

  /** The messages drained from `frames`, in order, when each is received
      into the buffer left by the previous one (starting from `buf`) and the
      whole buffer is decoded; undecodable buffers are skipped. */
  function Drained(decode: seq<u8> -> Option<Message>, buf: seq<u8>, frames: seq<seq<u8>>): seq<Message>
    requires |buf| == FRAME_BYTES && forall f <- frames :: |f| <= FRAME_BYTES
    decreases |frames|
  {
    if frames == [] then []
    else
      var next := Overlay(buf, frames[0]);
      DecodedIn(decode, next) + Drained(decode, next, frames[1..])
  }

  function DecodedIn(decode: seq<u8> -> Option<Message>, buf: seq<u8>): seq<Message>
  {
    if decode(buf).Some? then [decode(buf).value] else []
  }

  /** Frames that do not decode contribute nothing; each that does
      contributes its message, so no more messages come out than frames go in. */
  lemma {:induction false} DrainedAtMostOnePerFrame(decode: seq<u8> -> Option<Message>, buf: seq<u8>, frames: seq<seq<u8>>)
    requires |buf| == FRAME_BYTES && forall f <- frames :: |f| <= FRAME_BYTES
    ensures |Drained(decode, buf, frames)| <= |frames|
    ensures (forall b :: decode(b).None?) ==> Drained(decode, buf, frames) == []
    ensures (forall b :: decode(b).Some?) ==> |Drained(decode, buf, frames)| == |frames|
    decreases |frames|
  {
    if frames != [] {
      DrainedAtMostOnePerFrame(decode, Overlay(buf, frames[0]), frames[1..]);
    }
  }

  /** Each frame decoded on its own, in order, skipping those that do not
      decode. */
  function DecodedEach(decode: seq<u8> -> Option<Message>, frames: seq<seq<u8>>): seq<Message>
  {
    if frames == [] then [] else DecodedIn(decode, frames[0]) + DecodedEach(decode, frames[1..])
  }

  /** When every frame fills the buffer, nothing of an earlier frame shows
      through: the drain is each frame's own decoding, in arrival order,
      whatever the buffer held before. */
  lemma {:induction false} FullFramesDecodeAlone(decode: seq<u8> -> Option<Message>, buf: seq<u8>, frames: seq<seq<u8>>)
    requires |buf| == FRAME_BYTES && forall f <- frames :: |f| == FRAME_BYTES
    ensures Drained(decode, buf, frames) == DecodedEach(decode, frames)
    decreases |frames|
  {
    if frames != [] {
      assert Overlay(buf, frames[0]) == frames[0];
      FullFramesDecodeAlone(decode, frames[0], frames[1..]);
    }
  }

  /** The messages still to come out of a drain: the current buffer's, when
      a frame was just received into it, then those of the frames queued. */
  function Pending(decode: seq<u8> -> Option<Message>, ok: bool, buf: seq<u8>, frames: seq<seq<u8>>): seq<Message>
    requires |buf| == FRAME_BYTES && forall f <- frames :: |f| <= FRAME_BYTES
  {
    (if ok then DecodedIn(decode, buf) else []) + Drained(decode, buf, frames)
  }

  lemma ConcatAssociates<T>(a: seq<T>, b: seq<T>, c: seq<T>)
    ensures a + (b + c) == (a + b) + c
  {
  }

  /** How many messages of a run ask for power-down. */
  function PowerDowns(ms: seq<Message>): nat
  {
    if ms == [] then 0
    else PowerDowns(ms[..|ms| - 1]) + (if RequestsPowerDown(ms[|ms| - 1].data) then 1 else 0)
  }

  /** Handling one more command: the rate and the power-down count move on
      by that command alone. */
  lemma HandledStep(rate: Option<RadioRate>, handled: seq<Message>, m: Message)
    ensures RateAfterAll(rate, handled + [m]) == RateAfter(RateAfterAll(rate, handled), m.data)
    ensures PowerDowns(handled + [m]) == PowerDowns(handled) + (if RequestsPowerDown(m.data) then 1 else 0)
  {
  }

  /** The FD-CAN controller: `transmit` may fail; FIFO 0 holds the frames
      received and not yet read. */
  class FdCan {
    var rxFifo0: seq<seq<u8>>
    var transmitted: seq<TxFrame>

    ghost predicate Valid()
      reads this
    {
      forall f <- rxFifo0 :: |f| <= FRAME_BYTES
    }

    method Transmit(header: TxFrameHeader, payload: seq<u8>) returns (ok: bool)
      modifies this`transmitted
      ensures transmitted == old(transmitted) + (if ok then [TxFrame(header, payload)] else [])
    {
      ok := *;
      if ok {
        transmitted := transmitted + [TxFrame(header, payload)];
      }
    }

    /** Copies the oldest frame of FIFO 0 into `buf`; fails when it is empty. */
    method Receive0(buf: array<u8>) returns (ok: bool)
      requires Valid() && buf.Length == FRAME_BYTES
      modifies this`rxFifo0, buf
      ensures Valid()
      ensures ok <==> old(rxFifo0) != []
      ensures ok ==> rxFifo0 == old(rxFifo0)[1..] && buf[..] == Overlay(old(buf[..]), old(rxFifo0)[0])
      ensures !ok ==> rxFifo0 == old(rxFifo0) && buf[..] == old(buf[..])
    {
      if rxFifo0 == [] {
        return false;
      }
      var frame := rxFifo0[0];
      forall i | 0 <= i < |frame| {
        buf[i] := frame[i];
      }
      rxFifo0 := rxFifo0[1..];
      ok := true;
    }
  }

  class CanManager {
    const can: FdCan
    const comId: nat
    const encode: Message -> seq<u8>
    const decode: seq<u8> -> Option<Message>

    constructor (can: FdCan, comId: nat, encode: Message -> seq<u8>, decode: seq<u8> -> Option<Message>)
      ensures this.can == can && this.comId == comId && this.encode == encode && this.decode == decode
    {
      this.can, this.comId, this.encode, this.decode := can, comId, encode, decode;
    }

    /** Sends `m` as one FD frame without bit-rate switching, its length the
        length of the encoding. An encoding over 64 bytes sends nothing. */
    method SendMessage(m: Message) returns (r: Result<(), HydraError>)
      modifies can`transmitted
      ensures |encode(m)| > FRAME_BYTES ==> r == Err(SerializeError) && can.transmitted == old(can.transmitted)
      ensures |encode(m)| <= FRAME_BYTES ==>
        && (r.Ok? ==> can.transmitted == old(can.transmitted) + [TxFrame(Header(|encode(m)|, comId), encode(m))])
        && (r.Err? ==> r == Err(CanTransmitError) && can.transmitted == old(can.transmitted))
    {
      var payload := encode(m);
      if |payload| > FRAME_BYTES {
        return Err(SerializeError);
      }
      var header := Header(|payload|, comId);
      var ok := can.Transmit(header, payload);
      r := if ok then Ok(()) else Err(CanTransmitError);
    }

    /** `receive0` into the drain buffer, with what remains to be drained
        before and after it. */
    method ReceiveNext(buf: array<u8>) returns (ok: bool)
      requires can.Valid() && buf.Length == FRAME_BYTES
      modifies can`rxFifo0, buf
      ensures can.Valid()
      ensures Drained(decode, old(buf[..]), old(can.rxFifo0)) == Pending(decode, ok, buf[..], can.rxFifo0)
      ensures ok <==> old(can.rxFifo0) != []
      ensures ok ==> |can.rxFifo0| == |old(can.rxFifo0)| - 1
      ensures !ok ==> can.rxFifo0 == []
    {
      ok := can.Receive0(buf);
    }

    /** Drains FIFO 0 into one reused 64-byte buffer, decoding the whole
        buffer after each frame and passing every decoded message to
        `handle_command`, in order. Never fails. */
    method ProcessData(dm: DataManager) returns (r: Result<(), HydraError>, ghost handled: seq<Message>, ghost powerDowns: nat)
      requires can.Valid()
      modifies can`rxFifo0, dm`loggingRate
      ensures r == Ok(()) && can.rxFifo0 == [] && can.Valid()
      ensures handled == Drained(decode, seq(FRAME_BYTES, _ => 0), old(can.rxFifo0))
      ensures dm.loggingRate == RateAfterAll(old(dm.loggingRate), handled)
      ensures powerDowns == PowerDowns(handled)
    {
      var buf := new u8[FRAME_BYTES](_ => 0);
      assert buf[..] == seq(FRAME_BYTES, _ => 0);
      ghost var total := Drained(decode, buf[..], can.rxFifo0);
      ghost var rate0 := dm.loggingRate;
      handled, powerDowns := [], 0;
      var ok := ReceiveNext(buf);
      while ok
        invariant can.Valid() && buf.Length == FRAME_BYTES
        invariant total == handled + Pending(decode, ok, buf[..], can.rxFifo0)
        invariant !ok ==> can.rxFifo0 == []
        invariant dm.loggingRate == RateAfterAll(rate0, handled)
        invariant powerDowns == PowerDowns(handled)
        decreases |can.rxFifo0| + (if ok then 1 else 0)
      {
        ghost var handled0, received := handled, buf[..];
        ghost var rest := Drained(decode, received, can.rxFifo0);
        assert total == handled0 + (DecodedIn(decode, received) + rest);
        var data := decode(buf[..]);
        if data.Some? {
          // `handle_command` always returns Ok, so its `?` never leaves the loop.
          var _, powerDown := dm.HandleCommand(data.value);
          HandledStep(rate0, handled, data.value);
          handled := handled + [data.value];
          if powerDown {
            powerDowns := powerDowns + 1;
          }
        }
        assert handled == handled0 + DecodedIn(decode, received);
        ConcatAssociates(handled0, DecodedIn(decode, received), rest);
        ok := ReceiveNext(buf);
        assert rest == Pending(decode, ok, buf[..], can.rxFifo0);
      }
      r := Ok(());
    }
  }
}
