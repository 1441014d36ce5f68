/** The message schema shared by the flight computer's components: optional
    values, fixed-width integers, the sensor records produced from the
    inertial unit's logs, and the timestamped, node-tagged envelope that every
    component passes around.

    Floating-point values are never computed on by the modelled code (they are
    only copied, gated or handed to the external orientation filter), so they
    are carried as their IEEE-754 bit patterns. */
module Messages {

  datatype Option<+T> = None | Some(value: T)

  datatype Result<+T, +E> = Ok(value: T) | Err(error: E)

  /** The failures the flight computer's own components report
      (`HydraError`), by kind. */
  datatype HydraError =
    | SerializeError    // postcard could not encode into the buffer
    | DeserializeError  // postcard could not decode the bytes
    | CanTransmitError  // the CAN controller refused a frame
    | RadioWriteError   // the MAVLink writer failed
    | RadioReadError    // the MAVLink reader failed, or read a message the link does not carry

  type u8 = x: int | 0 <= x < 0x100
  type u16 = x: int | 0 <= x < 0x1_0000
  type u32 = x: int | 0 <= x < 0x1_0000_0000

  /** An `f32` / `f64` by its bit pattern. */
  type F32 = bv32
  type F64 = bv64

  datatype V3<T> = V3(x: T, y: T, z: T)
  datatype Q4<T> = Q4(w: T, x: T, y: T, z: T)

  /** Payload content the modelled code never looks into. */
  datatype Blob = Blob(bytes: seq<u8>)

  // ---------------------------------------------------------------------
  // Status words of the inertial unit's logs. Each keeps the raw word it was
  // built from and the view the messages crate decodes from it (a flag set,
  // or a solution / UTC enumeration; `None` when the word does not decode).

  datatype AirFlag = PressureAbsValid | AltitudeValid | PressureDiffValid | AirspeedValid | TemperatureValid
  datatype AirStatus = AirStatus(raw: u16, flags: Option<set<AirFlag>>)

  datatype EkfFlag = AttitudeValid | HeadingValid | VelocityValid | PositionValid
  datatype EkfStatus = EkfStatus(raw: u32, flags: Option<set<EkfFlag>>)

  /** `EkfStatus::new(0)`: the all-clear word. Its decoded view is fixed
      here as the empty flag set (no bit set, so no flag and no unknown
      bit), rather than read from a decoder parameter. */
  const EkfStatusZero := EkfStatus(0, Some({}))

  datatype ImuFlag = AccelsInRange | GyrosInRange
  datatype ImuStatus = ImuStatus(raw: u16, flags: Option<set<ImuFlag>>)

  datatype SolutionStatus = SolComputed | OtherSolutionStatus(code: nat)
  datatype GpsPositionStatus = GpsPositionStatus(raw: u32, solution: Option<SolutionStatus>)
  datatype GpsVelStatus = GpsVelStatus(raw: u32, solution: Option<SolutionStatus>)

  datatype UtcStatus = UtcInvalid | NoLeapSec | UtcValid
  datatype UtcTimeStatus = UtcTimeStatus(raw: u16, utc: Option<UtcStatus>)

  // ---------------------------------------------------------------------
  // Sensor records. A field is `Some` only when the status says the value is
  // trustworthy; `time_stamp` and `status` are always present.

  datatype GpsPos = GpsPos(
    latitude: Option<F64>, longitude: Option<F64>, timeOfWeek: Option<u32>,
    undulation: Option<F32>, altitude: Option<F64>, timeStamp: u32,
    status: GpsPositionStatus, latitudeAccuracy: Option<F32>,
    longitudeAccuracy: Option<F32>, altitudeAccuracy: Option<F32>,
    numSvUsed: Option<u8>, baseStationId: Option<u16>, differentialAge: Option<u16>)

  datatype UtcTime = UtcTime(
    timeStamp: u32, status: UtcTimeStatus, year: Option<u16>, month: Option<u8>,
    day: Option<u8>, hour: Option<u8>, minute: Option<u8>, second: Option<u8>,
    nanoSecond: Option<u32>, gpsTimeOfWeek: Option<u32>)

  datatype Air = Air(
    timeStamp: u32, status: AirStatus, pressureAbs: Option<F32>, altitude: Option<F32>,
    pressureDiff: Option<F32>, trueAirspeed: Option<F32>, airTemperature: Option<F32>)

  datatype EkfQuat = EkfQuat(
    timeStamp: u32, quaternion: Option<Q4<F32>>, eulerStdDev: Option<V3<F32>>, status: EkfStatus)

  datatype EkfNav = EkfNav(
    status: EkfStatus, velocityStdDev: Option<V3<F32>>, positionStdDev: Option<V3<F32>>,
    timeStamp: u32, velocity: Option<V3<F32>>, position: Option<V3<F64>>, undulation: Option<F32>)

  datatype Imu = Imu(
    timeStamp: u32, status: ImuStatus, accelerometers: Option<V3<F32>>,
    gyroscopes: Option<V3<F32>>, temperature: Option<F32>,
    deltaVelocity: Option<V3<F32>>, deltaAngle: Option<V3<F32>>)

  datatype GpsVel = GpsVel(
    timeOfWeek: Option<u32>, timeStamp: u32, status: GpsVelStatus, velocity: Option<V3<F32>>,
    course: Option<F32>, courseAcc: Option<F32>, velocityAcc: Option<V3<F32>>)

  datatype SbgData =
    | UtcTimeData(utcTime: UtcTime)
    | AirData(air: Air)
    | EkfQuatData(ekfQuat: EkfQuat)
    | EkfNavData(ekfNav: EkfNav)
    | ImuData(imu: Imu)
    | GpsVelData(gpsVel: GpsVel)
    | GpsPosData(gpsPos: GpsPos)

  // ---------------------------------------------------------------------
  // The envelope.

  datatype RadioRate = Fast | Slow

  /** Vehicle state and board reset reason, by their codes. */
  datatype State = State(code: nat)
  datatype ResetReason = ResetReason(code: nat)

  type NodeId = nat
  type Timestamp = nat

  datatype Command =
    | PowerDown(node: NodeId)
    | RadioRateChange(rate: RadioRate)
    | OtherCommand(body: Blob)

  datatype Common =
    | StateData(state: State)
    | CommandData(command: Command)
    | OtherCommon(body: Blob)

  datatype GpsData = NavPosLlh(llh: Blob) | OtherGps(body: Blob)

  datatype SensorData =
    | RecoverySensing(body: Blob)
    | ResetReasonData(reason: ResetReason)
    | SbgSensor(sbg: SbgData)

  datatype Data =
    | Sbg(sbg: SbgData)
    | Gps(gps: GpsData)
    | Sensor(sensor: SensorData)
    | CommonData(common: Common)
    | OtherData(body: Blob)

  datatype Message = Message(timestamp: Timestamp, node: NodeId, data: Data)
}
