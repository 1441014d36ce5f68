/** The glue between the inertial unit's C library (sbgECom) and the flight
    computer. UART bytes are queued in a bounded FIFO that the library drains
    through the read callback; the library hands decoded binary logs back
    through the log callback, which converts the six logs the flight computer
    uses and passes them on; writes, flushes and the clock are forwarded to
    callbacks installed at construction.

    The Rust code keeps this state in `static mut` globals; here it is the
    fields of one `Sbg` object. The C library itself (`sbgEComHandle`,
    `sbgEComCmdOutputSetConf`) is abstract. */
module SbgGlue {
  import opened Messages
  import opened DataConversion

  /** The size of a UART chunk handed to `read_data`. */
  const SBG_BUFFER_SIZE := 1024
  /** The capacity of the byte FIFO. */
  const DEQ_CAPACITY := 8192

  const BAUD_RATE: u32 := 115200
  const DELAY: u32 := 501

  /** The library's error codes, as far as this code tells them apart. */
  datatype ErrorCode = NoError | NullPointer | WriteError | OtherError(code: nat)

  datatype LogClass = LogEcom0 | OtherClass(code: nat)

  datatype LogId =
    | AirDataLog | EkfQuatLog | ImuDataLog | EkfNavLog | Gps1PosLog | Gps1VelLog
    | Gps1HdtLog | UtcTimeLog | OtherLog(code: nat)

  /** The log union as the library fills it: the same bytes read as each log
      type. Only the view the log id names is meaningful. */
  datatype BinaryLogData = BinaryLogData(
    airData: SbgLogAirData, ekfQuatData: SbgLogEkfQuatData, imuData: SbgLogImuData,
    ekfNavData: SbgLogEkfNavData, gpsPosData: SbgLogGpsPos, gpsVelData: SbgLogGpsVel)

  /** The output streams `setup` configures, in the order it configures them. */
  const CONFIGURED_LOGS: seq<LogId> :=
    [Gps1VelLog, Gps1PosLog, UtcTimeLog, AirDataLog, EkfQuatLog, EkfNavLog, ImuDataLog]

  // ---------------------------------------------------------------------
  // The byte FIFO

  /** The FIFO after `push_back` of each of `bytes` in turn: a byte that
      finds the FIFO full is dropped. */
  function Pushed(q: seq<u8>, bytes: seq<u8>): seq<u8>
  {
    if bytes == [] then q
    else
      var before := Pushed(q, bytes[..|bytes| - 1]);
      if |before| < DEQ_CAPACITY then before + [bytes[|bytes| - 1]] else before
  }

  function Min(a: nat, b: nat): nat
  {
    if a < b then a else b
  }

  /** Pushing keeps the queued bytes, appends the new ones in order, and
      drops exactly those that do not fit. */
  lemma {:induction false} PushedIsTruncatedAppend(q: seq<u8>, bytes: seq<u8>)
    requires |q| <= DEQ_CAPACITY
    ensures Pushed(q, bytes) == (q + bytes)[..Min(DEQ_CAPACITY, |q| + |bytes|)]
  {
    if bytes != [] {
      var init := bytes[..|bytes| - 1];
      PushedIsTruncatedAppend(q, init);
      assert q + bytes == (q + init) + [bytes[|bytes| - 1]];
    }
  }

  /** Whatever fits comes out again, in order, after what was queued. */
  lemma PushedFits(q: seq<u8>, bytes: seq<u8>)
    requires |q| + |bytes| <= DEQ_CAPACITY
    ensures Pushed(q, bytes) == q + bytes
  {
    PushedIsTruncatedAppend(q, bytes);
  }

  /** A full FIFO ignores every byte pushed into it. */
  lemma PushedFullIsUnchanged(q: seq<u8>, bytes: seq<u8>)
    requires |q| == DEQ_CAPACITY
    ensures Pushed(q, bytes) == q
  {
    PushedIsTruncatedAppend(q, bytes);
  }

  // ---------------------------------------------------------------------
  // Log dispatch

  /** The record the log callback hands on for a log, if any: only class
      `LOG_ECOM_0` and the six logs the flight computer uses. GPS heading,
      UTC time and unknown logs are ignored. */
  function Dispatch(dec: StatusDecoders, msgClass: LogClass, msg: LogId, data: BinaryLogData): (r: Option<SbgData>)
    ensures r.Some? <==>
      msgClass == LogEcom0 && msg in {AirDataLog, EkfQuatLog, ImuDataLog, EkfNavLog, Gps1PosLog, Gps1VelLog}
    ensures r.Some? ==> LogOf(r.value) == msg
  {
    if msgClass != LogEcom0 then None
    else
      match msg
      case AirDataLog => Some(AirData(FromAirData(dec, data.airData)))
      case EkfQuatLog => Some(EkfQuatData(FromEkfQuatData(dec, data.ekfQuatData)))
      case ImuDataLog => Some(ImuData(FromImuData(dec, data.imuData)))
      case EkfNavLog => Some(EkfNavData(FromEkfNavData(dec, data.ekfNavData)))
      case Gps1PosLog => Some(GpsPosData(FromGpsPos(dec, data.gpsPosData)))
      case Gps1VelLog => Some(GpsVelData(FromGpsVel(dec, data.gpsVelData)))
      case Gps1HdtLog => None
      case _ => None
  }

  /** A record the log callback can produce: the dispatch of some log. */
  ghost predicate Dispatchable(dec: StatusDecoders, d: SbgData)
  {
    exists msgClass, msg, data :: Dispatch(dec, msgClass, msg, data) == Some(d)
  }

  /** The log a record is converted from. */
  function LogOf(d: SbgData): LogId
  {
    match d
    case UtcTimeData(_) => UtcTimeLog
    case AirData(_) => AirDataLog
    case EkfQuatData(_) => EkfQuatLog
    case EkfNavData(_) => EkfNavLog
    case ImuData(_) => ImuDataLog
    case GpsVelData(_) => Gps1VelLog
    case GpsPosData(_) => Gps1PosLog
  }

  function TimeStampOf(d: SbgData): u32
  {
    match d
    case UtcTimeData(x) => x.timeStamp
    case AirData(x) => x.timeStamp
    case EkfQuatData(x) => x.timeStamp
    case EkfNavData(x) => x.timeStamp
    case ImuData(x) => x.timeStamp
    case GpsVelData(x) => x.timeStamp
    case GpsPosData(x) => x.timeStamp
  }

  /** The time stamp in the view a log id selects. */
  function LogTimeStamp(msg: LogId, data: BinaryLogData): u32
  {
    match msg
    case AirDataLog => data.airData.timeStamp
    case EkfQuatLog => data.ekfQuatData.timeStamp
    case ImuDataLog => data.imuData.timeStamp
    case EkfNavLog => data.ekfNavData.timeStamp
    case Gps1PosLog => data.gpsPosData.timeStamp
    case Gps1VelLog => data.gpsVelData.timeStamp
    case _ => 0
  }

  /** A dispatched record carries the time stamp of the log it came from,
      and two logs of different kinds never produce the same record. */
  lemma DispatchKeepsTimeStamp(dec: StatusDecoders, msgClass: LogClass, msg: LogId, data: BinaryLogData)
    ensures Dispatch(dec, msgClass, msg, data).Some? ==>
      TimeStampOf(Dispatch(dec, msgClass, msg, data).value) == LogTimeStamp(msg, data)
  {
  }

  lemma DispatchIsInjectiveInKind(dec: StatusDecoders, msg1: LogId, msg2: LogId, d1: BinaryLogData, d2: BinaryLogData)
    requires Dispatch(dec, LogEcom0, msg1, d1).Some? && Dispatch(dec, LogEcom0, msg2, d2).Some?
    requires Dispatch(dec, LogEcom0, msg1, d1) == Dispatch(dec, LogEcom0, msg2, d2)
    ensures msg1 == msg2
  {
    assert LogOf(Dispatch(dec, LogEcom0, msg1, d1).value) == msg1;
  }

  // ---------------------------------------------------------------------
  // Fixed answers

  /** The baud rate is fixed. */
  function GetSpeed(interface: SbgInterface?): (speed: u32)
    ensures speed == BAUD_RATE
  {
    BAUD_RATE
  }

  /** The expected transfer delay does not depend on the byte count. */
  function Delay(interface: SbgInterface?, numBytes: nat): (us: u32)
    ensures us == DELAY
  {
    DELAY
  }

  /** The library's interface handle; only its being null matters here. */
  class SbgInterface {
  }

  /** An out-parameter for a byte count. */
  class UsizeCell {
    var value: nat
  }

  /** The glue's state. `deq` is the byte FIFO; the `has…` flags say which
      callbacks are installed; `delivered`, `written`, `flushes` and
      `configured` record what was passed to the data, write and flush
      callbacks and to the library's output configuration call. */
  class Sbg {
    var deq: seq<u8>
    var bufIndex: nat
    var isInitialized: bool
    var hasDataCallback: bool
    var hasWriteCallback: bool
    var hasFlushCallback: bool
    var hasClock: bool
    var delivered: seq<SbgData>
    var written: seq<seq<u8>>
    var flushes: nat
    var configured: seq<(LogId, ErrorCode)>
    const decoders: StatusDecoders

    ghost predicate Valid()
      reads this
    {
      |deq| <= DEQ_CAPACITY
    }

    /** `SBG::new`: every callback installed, not yet initialised, nothing
        queued or recorded. */
    constructor (decoders: StatusDecoders)
      ensures Valid() && this.decoders == decoders
      ensures deq == [] && bufIndex == 0 && !isInitialized
      ensures hasDataCallback && hasWriteCallback && hasFlushCallback && hasClock
      ensures delivered == [] && written == [] && flushes == 0 && configured == []
    {
      this.decoders := decoders;
      deq, bufIndex, isInitialized := [], 0, false;
      hasDataCallback, hasWriteCallback, hasFlushCallback, hasClock := true, true, true, true;
      delivered, written, flushes, configured := [], [], 0, [];
    }

    /** Queues a UART chunk (bytes that do not fit are dropped), resets the
        buffer index and lets the library parse the queue. The library
        consumes some prefix of the queue: what remains is a suffix of the
        filled queue. */
    method ReadData(buffer: array<u8>) returns (ghost filled: seq<u8>)
      requires Valid() && buffer.Length == SBG_BUFFER_SIZE
      modifies this`deq, this`bufIndex, this`delivered
      ensures Valid()
      ensures filled == Pushed(old(deq), buffer[..])
      ensures |deq| <= |filled| && deq == filled[|filled| - |deq|..]
      ensures bufIndex == 0
      ensures |delivered| >= |old(delivered)| && delivered[..|old(delivered)|] == old(delivered)
      ensures |delivered| > |old(delivered)| ==> hasDataCallback
      ensures forall i :: |old(delivered)| <= i < |delivered| ==> Dispatchable(decoders, delivered[i])
    {
      for i := 0 to buffer.Length
        invariant deq == Pushed(old(deq), buffer[..i]) && Valid()
        invariant delivered == old(delivered)
      {
        assert buffer[..i + 1][..i] == buffer[..i];
        if |deq| < DEQ_CAPACITY {
          deq := deq + [buffer[i]];
        }
      }
      assert buffer[..buffer.Length] == buffer[..];
      filled := deq;
      bufIndex := 0;
      EComHandle();
    }

    /** `sbgEComHandle`, abstractly: the library reads some bytes from the
        front of the queue and hands any number of logs to the log callback,
        which records only what `Dispatch` makes of them, and only while it
        is installed. */
    method EComHandle()
      requires Valid()
      modifies this`deq, this`delivered
      ensures Valid()
      ensures |deq| <= |old(deq)| && deq == old(deq)[|old(deq)| - |deq|..]
      ensures |delivered| >= |old(delivered)| && delivered[..|old(delivered)|] == old(delivered)
      ensures |delivered| > |old(delivered)| ==> hasDataCallback
      ensures forall i :: |old(delivered)| <= i < |delivered| ==> Dispatchable(decoders, delivered[i])
    {
      var consumed: nat :| consumed <= |deq|;
      deq := deq[consumed..];
      var logs: seq<(LogClass, LogId, BinaryLogData)> := *;
      for k := 0 to |logs|
        invariant deq == old(deq)[consumed..]
        invariant |delivered| >= |old(delivered)| && delivered[..|old(delivered)|] == old(delivered)
        invariant |delivered| > |old(delivered)| ==> hasDataCallback
        invariant forall i :: |old(delivered)| <= i < |delivered| ==> Dispatchable(decoders, delivered[i])
      {
        var (msgClass, msg, data) := logs[k];
        ghost var before := delivered;
        var _ := ReceiveLogFunc(msgClass, msg, Some(data));
        if delivered != before {
          assert Dispatch(decoders, msgClass, msg, data) == Some(delivered[|before|]);
          assert Dispatchable(decoders, delivered[|before|]);
        }
        assert delivered[..|before|] == before;
      }
    }

    /** Sets up the seven output streams in order; only the last (IMU)
        call's outcome counts: it is returned, and marks the glue initialised
        when it succeeded. */
    method Setup() returns (r: ErrorCode)
      modifies this`configured, this`isInitialized
      ensures |configured| == |old(configured)| + |CONFIGURED_LOGS|
      ensures configured[..|old(configured)|] == old(configured)
      ensures forall i :: 0 <= i < |CONFIGURED_LOGS| ==> configured[|old(configured)| + i].0 == CONFIGURED_LOGS[i]
      ensures r == configured[|configured| - 1].1
      ensures isInitialized == (old(isInitialized) || r == NoError)
    {
      // Each earlier outcome is only logged as a warning.
      r := OutputSetConf(Gps1VelLog);
      r := OutputSetConf(Gps1PosLog);
      r := OutputSetConf(UtcTimeLog);
      r := OutputSetConf(AirDataLog);
      r := OutputSetConf(EkfQuatLog);
      r := OutputSetConf(EkfNavLog);
      r := OutputSetConf(ImuDataLog);
      if r == NoError {
        isInitialized := true;
      }
    }

    /** `sbgEComCmdOutputSetConf` on port A, class `LOG_ECOM_0`, every 40
        cycles: any outcome, recorded. */
    method OutputSetConf(log: LogId) returns (r: ErrorCode)
      modifies this`configured
      ensures configured == old(configured) + [(log, r)]
    {
      r := *;
      configured := configured + [(log, r)];
    }

    /** The library's read callback: pops up to `bytesToRead` bytes from the
        front of the queue into `buffer`, in order, and reports how many. */
    method ReadFunc(interface: SbgInterface?, buffer: array?<u8>, bytesRead: UsizeCell?, bytesToRead: nat)
      returns (r: ErrorCode)
      requires buffer != null ==> bytesToRead <= buffer.Length
      modifies this`deq, buffer, bytesRead
      ensures buffer == null || bytesRead == null ==>
        r == NullPointer && deq == old(deq) && (buffer != null ==> buffer[..] == old(buffer[..]))
        && (bytesRead != null ==> bytesRead.value == old(bytesRead.value))
      ensures buffer != null && bytesRead != null ==>
        var k := Min(bytesToRead, |old(deq)|);
        && r == NoError && bytesRead.value == k
        && buffer[..k] == old(deq)[..k] && buffer[k..] == old(buffer[..])[k..]
        && deq == old(deq)[k..]
    {
      if buffer == null {
        return NullPointer;
      }
      if bytesRead == null {
        return NullPointer;
      }
      var readBytes := 0;
      for i := 0 to bytesToRead
        invariant readBytes == i <= |old(deq)|
        invariant deq == old(deq)[i..]
        invariant buffer[..i] == old(deq)[..i] && buffer[i..] == old(buffer[..])[i..]
      {
        if deq == [] {
          break;
        }
        var front := deq[0];
        deq := deq[1..];
        readBytes := readBytes + 1;
        buffer[i] := front;
        assert buffer[..i + 1] == buffer[..i] + [front];
      }
      bytesRead.value := readBytes;
      r := NoError;
    }

    /** The library's write callback: an exact copy of the bytes goes to the
        serial write callback. A chunk longer than `SBG_BUFFER_SIZE` would
        not fit the copy's buffer. */
    method WriteFunc(interface: SbgInterface?, buffer: array?<u8>, bytesToWrite: nat) returns (r: ErrorCode)
      requires buffer != null ==> bytesToWrite <= buffer.Length
      requires bytesToWrite <= SBG_BUFFER_SIZE
      modifies this`written
      ensures interface == null || buffer == null ==> r == NullPointer && written == old(written)
      ensures interface != null && buffer != null && !hasWriteCallback ==> r == WriteError && written == old(written)
      ensures interface != null && buffer != null && hasWriteCallback ==>
        r == NoError && written == old(written) + [buffer[..bytesToWrite]]
    {
      if interface == null {
        return NullPointer;
      }
      if buffer == null {
        return NullPointer;
      }
      var copy := buffer[..bytesToWrite];
      if !hasWriteCallback {
        return WriteError;
      }
      written := written + [copy];
      r := NoError;
    }

    /** The library's log callback: a recognised log is converted and passed
        to the data callback. */
    method ReceiveLogFunc(msgClass: LogClass, msg: LogId, logData: Option<BinaryLogData>) returns (r: ErrorCode)
      modifies this`delivered
      ensures logData.None? ==> r == NullPointer && delivered == old(delivered)
      ensures logData.Some? ==> r == NoError
      ensures logData.Some? && hasDataCallback && Dispatch(decoders, msgClass, msg, logData.value).Some? ==>
        delivered == old(delivered) + [Dispatch(decoders, msgClass, msg, logData.value).value]
      ensures logData.Some? && (!hasDataCallback || Dispatch(decoders, msgClass, msg, logData.value).None?) ==>
        delivered == old(delivered)
    {
      if logData.None? {
        return NullPointer;
      }
      if hasDataCallback {
        var d := Dispatch(decoders, msgClass, msg, logData.value);
        if d.Some? {
          delivered := delivered + [d.value];
        }
      }
      r := NoError;
    }

    /** The library's flush callback. */
    method FlushFunc(interface: SbgInterface?, flags: u32) returns (r: ErrorCode)
      modifies this`flushes
      ensures interface == null ==> r == NullPointer && flushes == old(flushes)
      ensures interface != null && !hasFlushCallback ==> r == WriteError && flushes == old(flushes)
      ensures interface != null && hasFlushCallback ==> r == NoError && flushes == old(flushes) + 1
    {
      if interface == null {
        return NullPointer;
      }
      if !hasFlushCallback {
        return WriteError;
      }
      flushes := flushes + 1;
      r := NoError;
    }

    /** `sbgGetTime`: the clock callback's reading, or 0 without a clock. */
    method GetTime() returns (ms: u32)
      ensures !hasClock ==> ms == 0
    {
      if hasClock {
        ms := *;
      } else {
        ms := 0;
      }
    }
  }
}
