/** Conversion of the inertial unit's raw binary logs into the flight
    computer's sensor records. Every measured field is gated: it is present
    only when the log's status word says it is trustworthy, and then it is
    the raw value, unaltered. `time_stamp` and `status` are always copied.

    How a raw status word decodes into flags or a solution status belongs to
    the messages crate; it is a parameter here (`StatusDecoders`). */
module DataConversion {
  import opened Messages

  // ---------------------------------------------------------------------
  // The raw logs, as the C library fills them

  datatype SbgLogGpsPos = SbgLogGpsPos(
    timeStamp: u32, status: u32, timeOfWeek: u32, latitude: F64, longitude: F64,
    altitude: F64, undulation: F32, latitudeAccuracy: F32, longitudeAccuracy: F32,
    altitudeAccuracy: F32, numSvUsed: u8, baseStationId: u16, differentialAge: u16)

  datatype SbgLogUtcData = SbgLogUtcData(
    timeStamp: u32, status: u16, year: u16, month: u8, day: u8, hour: u8,
    minute: u8, second: u8, nanoSecond: u32, gpsTimeOfWeek: u32)

  datatype SbgLogAirData = SbgLogAirData(
    timeStamp: u32, status: u16, pressureAbs: F32, altitude: F32,
    pressureDiff: F32, trueAirspeed: F32, airTemperature: F32)

  datatype SbgLogEkfQuatData = SbgLogEkfQuatData(
    timeStamp: u32, quaternion: Q4<F32>, eulerStdDev: V3<F32>, status: u32)

  datatype SbgLogEkfNavData = SbgLogEkfNavData(
    timeStamp: u32, velocity: V3<F32>, velocityStdDev: V3<F32>, position: V3<F64>,
    undulation: F32, positionStdDev: V3<F32>, status: u32)

  datatype SbgLogImuData = SbgLogImuData(
    timeStamp: u32, status: u16, accelerometers: V3<F32>, gyroscopes: V3<F32>,
    temperature: F32, deltaVelocity: V3<F32>, deltaAngle: V3<F32>)

  datatype SbgLogGpsVel = SbgLogGpsVel(
    timeStamp: u32, status: u32, timeOfWeek: u32, velocity: V3<F32>,
    velocityAcc: V3<F32>, course: F32, courseAcc: F32)

  /** `AirStatus::new(raw).get_flags()` and its siblings. */
  datatype StatusDecoders = StatusDecoders(
    airFlags: u16 -> Option<set<AirFlag>>,
    ekfFlags: u32 -> Option<set<EkfFlag>>,
    imuFlags: u16 -> Option<set<ImuFlag>>,
    gpsPosSolution: u32 -> Option<SolutionStatus>,
    gpsVelSolution: u32 -> Option<SolutionStatus>,
    utcStatus: u16 -> Option<UtcStatus>)

  // ---------------------------------------------------------------------
  // Gating

  /** `field` holds exactly when `valid`, and then holds `value` itself. */
  ghost predicate GatedBy<T>(field: Option<T>, valid: bool, value: T)
  {
    (field.Some? <==> valid) && (field.Some? ==> field.value == value)
  }

  /** `bool::then_some`. */
  function ThenSome<T>(valid: bool, value: T): (r: Option<T>)
    ensures GatedBy(r, valid, value)
  {
    if valid then Some(value) else None
  }

  /** `check`: the value when the flags decoded and contain `test`; nothing
      when they hold other flags only or did not decode at all. */
  function Check<F(==), T>(flags: Option<set<F>>, test: F, value: T): (r: Option<T>)
    ensures GatedBy(r, flags.Some? && test in flags.value, value)
  {
    match flags
    case Some(x) => if test in x then Some(value) else None
    case None => None
  }

  /** Whether a flag set decoded and contains `test`. */
  predicate Has<F(==)>(flags: Option<set<F>>, test: F)
  {
    flags.Some? && test in flags.value
  }

  // ---------------------------------------------------------------------
  // The conversions

  /** A position fix: everything but the time stamp and status is gated by
      one test, the receiver reporting a computed solution. */
  function FromGpsPos(dec: StatusDecoders, v: SbgLogGpsPos): (r: GpsPos)
    ensures r.timeStamp == v.timeStamp && r.status == GpsPositionStatus(v.status, dec.gpsPosSolution(v.status))
    ensures var valid := dec.gpsPosSolution(v.status) == Some(SolComputed);
      && GatedBy(r.latitude, valid, v.latitude) && GatedBy(r.longitude, valid, v.longitude)
      && GatedBy(r.timeOfWeek, valid, v.timeOfWeek) && GatedBy(r.undulation, valid, v.undulation)
      && GatedBy(r.altitude, valid, v.altitude)
      && GatedBy(r.latitudeAccuracy, valid, v.latitudeAccuracy)
      && GatedBy(r.longitudeAccuracy, valid, v.longitudeAccuracy)
      && GatedBy(r.altitudeAccuracy, valid, v.altitudeAccuracy)
      && GatedBy(r.numSvUsed, valid, v.numSvUsed) && GatedBy(r.baseStationId, valid, v.baseStationId)
      && GatedBy(r.differentialAge, valid, v.differentialAge)
  {
    var status := GpsPositionStatus(v.status, dec.gpsPosSolution(v.status));
    var valid := status.solution == Some(SolComputed);
    GpsPos(
      ThenSome(valid, v.latitude), ThenSome(valid, v.longitude), ThenSome(valid, v.timeOfWeek),
      ThenSome(valid, v.undulation), ThenSome(valid, v.altitude), v.timeStamp, status,
      ThenSome(valid, v.latitudeAccuracy), ThenSome(valid, v.longitudeAccuracy),
      ThenSome(valid, v.altitudeAccuracy), ThenSome(valid, v.numSvUsed),
      ThenSome(valid, v.baseStationId), ThenSome(valid, v.differentialAge))
  }

  /** UTC time: the calendar fields are gated by one test, the clock being
      valid or valid without leap-second information. */
  function FromUtcData(dec: StatusDecoders, v: SbgLogUtcData): (r: UtcTime)
    ensures r.timeStamp == v.timeStamp && r.status == UtcTimeStatus(v.status, dec.utcStatus(v.status))
    ensures var valid := dec.utcStatus(v.status) in {Some(UtcValid), Some(NoLeapSec)};
      && GatedBy(r.year, valid, v.year) && GatedBy(r.month, valid, v.month)
      && GatedBy(r.day, valid, v.day) && GatedBy(r.hour, valid, v.hour)
      && GatedBy(r.minute, valid, v.minute) && GatedBy(r.second, valid, v.second)
      && GatedBy(r.nanoSecond, valid, v.nanoSecond) && GatedBy(r.gpsTimeOfWeek, valid, v.gpsTimeOfWeek)
  {
    var status := UtcTimeStatus(v.status, dec.utcStatus(v.status));
    var valid := match status.utc
      case Some(UtcValid) => true
      case Some(NoLeapSec) => true
      case _ => false;
    UtcTime(
      v.timeStamp, status, ThenSome(valid, v.year), ThenSome(valid, v.month),
      ThenSome(valid, v.day), ThenSome(valid, v.hour), ThenSome(valid, v.minute),
      ThenSome(valid, v.second), ThenSome(valid, v.nanoSecond), ThenSome(valid, v.gpsTimeOfWeek))
  }

  /** Air data: five measurements, each gated by its own flag. */
  function FromAirData(dec: StatusDecoders, v: SbgLogAirData): (r: Air)
    ensures r.timeStamp == v.timeStamp && r.status == AirStatus(v.status, dec.airFlags(v.status))
    ensures var flags := dec.airFlags(v.status);
      && GatedBy(r.pressureAbs, Has(flags, PressureAbsValid), v.pressureAbs)
      && GatedBy(r.altitude, Has(flags, AltitudeValid), v.altitude)
      && GatedBy(r.pressureDiff, Has(flags, PressureDiffValid), v.pressureDiff)
      && GatedBy(r.trueAirspeed, Has(flags, AirspeedValid), v.trueAirspeed)
      && GatedBy(r.airTemperature, Has(flags, TemperatureValid), v.airTemperature)
  {
    var status := AirStatus(v.status, dec.airFlags(v.status));
    var flags := status.flags;
    Air(
      v.timeStamp, status,
      Check(flags, PressureAbsValid, v.pressureAbs),
      Check(flags, AltitudeValid, v.altitude),
      Check(flags, PressureDiffValid, v.pressureDiff),
      Check(flags, AirspeedValid, v.trueAirspeed),
      Check(flags, TemperatureValid, v.airTemperature))
  }

  /** Orientation: the quaternion and its accuracy both depend on the
      heading being valid. */
  function FromEkfQuatData(dec: StatusDecoders, v: SbgLogEkfQuatData): (r: EkfQuat)
    ensures r.timeStamp == v.timeStamp && r.status == EkfStatus(v.status, dec.ekfFlags(v.status))
    ensures var flags := dec.ekfFlags(v.status);
      && GatedBy(r.quaternion, Has(flags, HeadingValid), v.quaternion)
      && GatedBy(r.eulerStdDev, Has(flags, HeadingValid), v.eulerStdDev)
  {
    var status := EkfStatus(v.status, dec.ekfFlags(v.status));
    EkfQuat(
      v.timeStamp,
      Check(status.flags, HeadingValid, v.quaternion),
      Check(status.flags, HeadingValid, v.eulerStdDev),
      status)
  }

  /** Navigation: velocity and its accuracy need a valid velocity, position
      and its accuracy a valid position, the undulation a valid attitude. */
  function FromEkfNavData(dec: StatusDecoders, v: SbgLogEkfNavData): (r: EkfNav)
    ensures r.timeStamp == v.timeStamp && r.status == EkfStatus(v.status, dec.ekfFlags(v.status))
    ensures var flags := dec.ekfFlags(v.status);
      && GatedBy(r.velocity, Has(flags, VelocityValid), v.velocity)
      && GatedBy(r.velocityStdDev, Has(flags, VelocityValid), v.velocityStdDev)
      && GatedBy(r.position, Has(flags, PositionValid), v.position)
      && GatedBy(r.positionStdDev, Has(flags, PositionValid), v.positionStdDev)
      && GatedBy(r.undulation, Has(flags, AttitudeValid), v.undulation)
  {
    var status := EkfStatus(v.status, dec.ekfFlags(v.status));
    var flags := status.flags;
    EkfNav(
      status,
      Check(flags, VelocityValid, v.velocityStdDev),
      Check(flags, PositionValid, v.positionStdDev),
      v.timeStamp,
      Check(flags, VelocityValid, v.velocity),
      Check(flags, PositionValid, v.position),
      Check(flags, AttitudeValid, v.undulation))
  }

  /** Inertial data: accelerations and velocity increments need the
      accelerometers in range, rates and angle increments the gyroscopes in
      range; the temperature has no flag and is always present. */
  function FromImuData(dec: StatusDecoders, v: SbgLogImuData): (r: Imu)
    ensures r.timeStamp == v.timeStamp && r.status == ImuStatus(v.status, dec.imuFlags(v.status))
    ensures r.temperature == Some(v.temperature)
    ensures var flags := dec.imuFlags(v.status);
      && GatedBy(r.accelerometers, Has(flags, AccelsInRange), v.accelerometers)
      && GatedBy(r.deltaVelocity, Has(flags, AccelsInRange), v.deltaVelocity)
      && GatedBy(r.gyroscopes, Has(flags, GyrosInRange), v.gyroscopes)
      && GatedBy(r.deltaAngle, Has(flags, GyrosInRange), v.deltaAngle)
  {
    var status := ImuStatus(v.status, dec.imuFlags(v.status));
    var flags := status.flags;
    Imu(
      v.timeStamp, status,
      Check(flags, AccelsInRange, v.accelerometers),
      Check(flags, GyrosInRange, v.gyroscopes),
      Some(v.temperature),
      Check(flags, AccelsInRange, v.deltaVelocity),
      Check(flags, GyrosInRange, v.deltaAngle))
  }

  /** A velocity fix: gated like the position fix. */
  function FromGpsVel(dec: StatusDecoders, v: SbgLogGpsVel): (r: GpsVel)
    ensures r.timeStamp == v.timeStamp && r.status == GpsVelStatus(v.status, dec.gpsVelSolution(v.status))
    ensures var valid := dec.gpsVelSolution(v.status) == Some(SolComputed);
      && GatedBy(r.timeOfWeek, valid, v.timeOfWeek) && GatedBy(r.velocity, valid, v.velocity)
      && GatedBy(r.course, valid, v.course) && GatedBy(r.courseAcc, valid, v.courseAcc)
      && GatedBy(r.velocityAcc, valid, v.velocityAcc)
  {
    var status := GpsVelStatus(v.status, dec.gpsVelSolution(v.status));
    var valid := status.solution == Some(SolComputed);
    GpsVel(
      ThenSome(valid, v.timeOfWeek), v.timeStamp, status, ThenSome(valid, v.velocity),
      ThenSome(valid, v.course), ThenSome(valid, v.courseAcc), ThenSome(valid, v.velocityAcc))
  }

  // ---------------------------------------------------------------------
  // Consequences

  /** A status word that does not decode makes every gated field of every
      flag-gated record absent; only what is never gated remains. */
  lemma UndecodableStatusHidesAll(dec: StatusDecoders, air: SbgLogAirData, nav: SbgLogEkfNavData,
                                  quat: SbgLogEkfQuatData, imu: SbgLogImuData)
    requires dec.airFlags(air.status).None? && dec.ekfFlags(nav.status).None?
    requires dec.ekfFlags(quat.status).None? && dec.imuFlags(imu.status).None?
    ensures FromAirData(dec, air) == Air(air.timeStamp, AirStatus(air.status, None), None, None, None, None, None)
    ensures FromEkfNavData(dec, nav) == EkfNav(EkfStatus(nav.status, None), None, None, nav.timeStamp, None, None, None)
    ensures FromEkfQuatData(dec, quat) == EkfQuat(quat.timeStamp, None, None, EkfStatus(quat.status, None))
    ensures FromImuData(dec, imu) == Imu(imu.timeStamp, ImuStatus(imu.status, None), None, None, Some(imu.temperature), None, None)
  {
  }

  /** Without a computed solution a position fix carries nothing but its
      time stamp and status. */
  lemma NoSolutionNoFix(dec: StatusDecoders, v: SbgLogGpsPos)
    requires dec.gpsPosSolution(v.status) != Some(SolComputed)
    ensures var r := FromGpsPos(dec, v);
      r == GpsPos(None, None, None, None, None, v.timeStamp, r.status, None, None, None, None, None, None)
  {
  }

  /** Converting keeps each gated value as it was: a record is determined by
      its time stamp, status and the raw values of its present fields. */
  lemma ImuConversionRecoversInputs(dec: StatusDecoders, v: SbgLogImuData)
    requires Has(dec.imuFlags(v.status), AccelsInRange) && Has(dec.imuFlags(v.status), GyrosInRange)
    ensures var r := FromImuData(dec, v);
      SbgLogImuData(r.timeStamp, r.status.raw, r.accelerometers.value, r.gyroscopes.value,
                    r.temperature.value, r.deltaVelocity.value, r.deltaAngle.value) == v
  {
  }
}
