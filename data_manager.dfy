/** The flight computer's latest-value store. Each incoming message replaces
    the previous one of its kind in a slot; the logging task drains the
    sensor slots in one go; commands can change the radio logging rate or
    ask for the system to be powered down. */
module DataManagement {
  import opened Messages

  /** The slots `handle_data` can write, and `Nowhere` for a message it drops. */
  datatype Slot =
    | AirSlot | EkfNavSlot | EkfQuatSlot | ImuSlot | UtcTimeSlot | GpsVelSlot | GpsPosSlot
    | RecoverySensingSlot | StateSlot | Nowhere

  /** Where `handle_data` stores a payload. Both position sources share the
      GPS position slot; nothing is ever routed to the Madgwick or the
      `nav_pos_l1h` slot; a reset reason is dropped. */
  function Route(d: Data): (s: Slot)
    ensures s == GpsPosSlot <==> (d.Sbg? && d.sbg.GpsPosData?) || (d.Gps? && d.gps.NavPosLlh?)
    ensures s == StateSlot <==> d.CommonData? && d.common.StateData?
    ensures s == RecoverySensingSlot <==> d.Sensor? && d.sensor.RecoverySensing?
    ensures d.Sbg? && !d.sbg.GpsPosData? ==> s !in {GpsPosSlot, StateSlot, RecoverySensingSlot, Nowhere}
    ensures s == Nowhere <==> !(d.Sbg? || (d.Gps? && d.gps.NavPosLlh?) || (d.Sensor? && d.sensor.RecoverySensing?) || (d.CommonData? && d.common.StateData?))
  {
    match d
    case Sbg(UtcTimeData(_)) => UtcTimeSlot
    case Sbg(AirData(_)) => AirSlot
    case Sbg(EkfQuatData(_)) => EkfQuatSlot
    case Sbg(EkfNavData(_)) => EkfNavSlot
    case Sbg(ImuData(_)) => ImuSlot
    case Sbg(GpsVelData(_)) => GpsVelSlot
    case Sbg(GpsPosData(_)) => GpsPosSlot
    case Gps(NavPosLlh(_)) => GpsPosSlot
    case Sensor(RecoverySensing(_)) => RecoverySensingSlot
    case CommonData(StateData(_)) => StateSlot
    case _ => Nowhere
  }

  /** Different kinds of inertial-unit record never share a slot. */
  lemma SbgKindsDoNotCollide(a: SbgData, b: SbgData)
    requires Route(Sbg(a)) == Route(Sbg(b))
    ensures a.UtcTimeData? == b.UtcTimeData? && a.AirData? == b.AirData?
    ensures a.EkfQuatData? == b.EkfQuatData? && a.EkfNavData? == b.EkfNavData?
    ensures a.ImuData? == b.ImuData? && a.GpsVelData? == b.GpsVelData? && a.GpsPosData? == b.GpsPosData?
  {
  }

  /** The logging rate after a command: a rate change sets it, anything else
      leaves it. */
  function RateAfter(rate: Option<RadioRate>, d: Data): (r: Option<RadioRate>)
    ensures r != rate ==> d.CommonData? && d.common.CommandData? && d.common.command.RadioRateChange?
    ensures d.CommonData? && d.common.CommandData? && d.common.command.RadioRateChange? ==>
              r == Some(d.common.command.rate)
  {
    match d
    case CommonData(CommandData(RadioRateChange(newRate))) => Some(newRate)
    case _ => rate
  }

  /** Whether a command asks for the system to sleep. */
  predicate RequestsPowerDown(d: Data)
  {
    d.CommonData? && d.common.CommandData? && d.common.command.PowerDown?
  }

  /** The logging rate after a run of commands, applied in order. */
  function RateAfterAll(rate: Option<RadioRate>, ms: seq<Message>): Option<RadioRate>
  {
    if ms == [] then rate else RateAfter(RateAfterAll(rate, ms[..|ms| - 1]), ms[|ms| - 1].data)
  }

  predicate IsRateChange(m: Message)
  {
    m.data.CommonData? && m.data.common.CommandData? && m.data.common.command.RadioRateChange?
  }

  /** A run of commands without a rate change leaves the rate as it was. */
  lemma {:induction false} NoRateChangeKeepsRate(rate: Option<RadioRate>, ms: seq<Message>)
    requires forall i :: 0 <= i < |ms| ==> !IsRateChange(ms[i])
    ensures RateAfterAll(rate, ms) == rate
    decreases |ms|
  {
    if ms != [] {
      var init := ms[..|ms| - 1];
      assert forall i :: 0 <= i < |init| ==> init[i] == ms[i];
      NoRateChangeKeepsRate(rate, init);
      assert !IsRateChange(ms[|ms| - 1]);
    }
  }

  /** After a run of commands the rate is the one the last rate change
      (the one at `i`) asked for. */
  lemma {:induction false} LastRateChangeWins(rate: Option<RadioRate>, ms: seq<Message>, i: nat)
    requires i < |ms| && IsRateChange(ms[i])
    requires forall j :: i < j < |ms| ==> !IsRateChange(ms[j])
    ensures RateAfterAll(rate, ms) == Some(ms[i].data.common.command.rate)
    decreases |ms|
  {
    var init := ms[..|ms| - 1];
    if i < |ms| - 1 {
      assert forall j :: i <= j < |init| ==> init[j] == ms[j];
      LastRateChangeWins(rate, init, i);
      assert !IsRateChange(ms[|ms| - 1]);
    }
  }

  /** Ten empty sensor slots. */
  const NoSensors: seq<Option<Message>> := [None, None, None, None, None, None, None, None, None, None]

  class DataManager {
    var air: Option<Message>
    var ekfNav: Option<Message>
    var ekfQuat: Option<Message>
    var madgwickQuat: Option<Message>
    var imu: Option<Message>
    var utcTime: Option<Message>
    var gpsVel: Option<Message>
    var gpsPos: Option<Message>
    var recoverySensing: Option<Message>
    var navPosL1h: Option<Message>
    var state: Option<State>
    var resetReason: Option<ResetReason>
    var loggingRate: Option<RadioRate>

    /** The sensor slots in the order `take_sensors` hands them out. */
    function Sensors(): (s: seq<Option<Message>>)
      reads this
      ensures |s| == 10
    {
      [air, ekfNav, ekfQuat, madgwickQuat, imu, utcTime, gpsVel, gpsPos, navPosL1h, recoverySensing]
    }

    /** The slot a route names, read from this store. */
    function SlotValue(s: Slot): Option<Message>
      reads this
      requires s != StateSlot && s != Nowhere
    {
      match s
      case AirSlot => air
      case EkfNavSlot => ekfNav
      case EkfQuatSlot => ekfQuat
      case ImuSlot => imu
      case UtcTimeSlot => utcTime
      case GpsVelSlot => gpsVel
      case GpsPosSlot => gpsPos
      case RecoverySensingSlot => recoverySensing
    }

    /** Everything empty; the logging rate starts slow. */
    constructor ()
      ensures Sensors() == NoSensors
      ensures state == None && resetReason == None && loggingRate == Some(Slow)
    {
      air, ekfNav, ekfQuat, madgwickQuat, imu := None, None, None, None, None;
      utcTime, gpsVel, gpsPos, recoverySensing, navPosL1h := None, None, None, None, None;
      state, resetReason, loggingRate := None, None, Some(Slow);
    }

    /** The current logging rate; an unset rate becomes, and reads as, slow. */
    method GetLoggingRate() returns (rate: RadioRate)
      modifies this`loggingRate
      ensures loggingRate == Some(rate)
      ensures old(loggingRate).Some? ==> rate == old(loggingRate).value
      ensures old(loggingRate).None? ==> rate == Slow
    {
      if loggingRate.Some? {
        rate := loggingRate.value;
      } else {
        loggingRate := Some(Slow);
        rate := Slow;
      }
    }

    /** Hands out every sensor slot, in order, and leaves them all empty. */
    method TakeSensors() returns (taken: seq<Option<Message>>)
      modifies this`air, this`ekfNav, this`ekfQuat, this`madgwickQuat, this`imu
      modifies this`utcTime, this`gpsVel, this`gpsPos, this`navPosL1h, this`recoverySensing
      ensures taken == old(Sensors())
      ensures Sensors() == NoSensors
    {
      taken := [air, ekfNav, ekfQuat, madgwickQuat, imu, utcTime, gpsVel, gpsPos, navPosL1h, recoverySensing];
      air, ekfNav, ekfQuat, madgwickQuat, imu := None, None, None, None, None;
      utcTime, gpsVel, gpsPos, navPosL1h, recoverySensing := None, None, None, None, None;
    }

    method CloneStates() returns (states: seq<Option<State>>)
      ensures states == [state]
    {
      states := [state];
    }

    method CloneResetReason() returns (reason: Option<ResetReason>)
      ensures reason == resetReason
    {
      reason := resetReason;
    }

    method SetResetReason(reset: ResetReason)
      modifies this`resetReason
      ensures resetReason == Some(reset)
    {
      resetReason := Some(reset);
    }

    /** A rate change sets the logging rate; a power-down asks for the sleep
        task (`powerDown`); every other message is ignored. Never fails. */
    method HandleCommand(m: Message) returns (r: Result<(), HydraError>, powerDown: bool)
      modifies this`loggingRate
      ensures r == Ok(())
      ensures loggingRate == RateAfter(old(loggingRate), m.data)
      ensures powerDown <==> RequestsPowerDown(m.data)
    {
      powerDown := false;
      match m.data {
        case CommonData(CommandData(command)) =>
          match command {
            case PowerDown(_) =>
              powerDown := true;
            case RadioRateChange(rate) =>
              loggingRate := Some(rate);
            case OtherCommand(_) =>
          }
        case _ =>
      }
      r := Ok(());
    }

    /** Stores `m` in the slot its payload routes to (a state message stores
        its state), replacing what was there; every other slot keeps its
        value. */
    method HandleData(m: Message)
      modifies this`air, this`ekfNav, this`ekfQuat, this`imu, this`utcTime
      modifies this`gpsVel, this`gpsPos, this`recoverySensing, this`state
      ensures Route(m.data) !in {StateSlot, Nowhere} ==> SlotValue(Route(m.data)) == Some(m)
      ensures forall s: Slot :: s !in {StateSlot, Nowhere, Route(m.data)} ==> SlotValue(s) == old(SlotValue(s))
      ensures state == (if Route(m.data) == StateSlot then Some(m.data.common.state) else old(state))
      ensures madgwickQuat == old(madgwickQuat) && navPosL1h == old(navPosL1h)
    {
      match m.data {
        case Sbg(UtcTimeData(_)) => utcTime := Some(m);
        case Sbg(AirData(_)) => air := Some(m);
        case Sbg(EkfQuatData(_)) => ekfQuat := Some(m);
        case Sbg(EkfNavData(_)) => ekfNav := Some(m);
        case Sbg(ImuData(_)) => imu := Some(m);
        case Sbg(GpsVelData(_)) => gpsVel := Some(m);
        case Sbg(GpsPosData(_)) => gpsPos := Some(m);
        case Gps(NavPosLlh(_)) => gpsPos := Some(m);
        case Sensor(RecoverySensing(_)) => recoverySensing := Some(m);
        case CommonData(StateData(s)) => state := Some(s);
        case _ =>
      }
    }

    method StoreMadgwickResult(result: Message)
      modifies this`madgwickQuat
      ensures madgwickQuat == Some(result)
    {
      madgwickQuat := Some(result);
    }
  }

  /** Taking the sensors twice in a row: the second take finds nothing, and
      no message handed out is lost or duplicated by the first. */
  method TakeTwice(dm: DataManager) returns (first: seq<Option<Message>>, second: seq<Option<Message>>)
    modifies dm
    ensures first == old(dm.Sensors())
    ensures second == NoSensors
  {
    first := dm.TakeSensors();
    second := dm.TakeSensors();
  }
}
