/** The orientation service: a Madgwick MARG filter fed with the inertial
    unit's accelerometer and gyroscope readings. It is bootstrapped with five
    updates describing a board at rest, and turns each usable IMU message
    into an orientation message carrying the filter's latest quaternion.

    The filter's own state and arithmetic belong to the madgwick crate: the
    service is generic in the state type `S` and is given the crate's
    constructor (`marg`) and update step (`update`). */
module MadgwickService {
  import opened Messages
  import DataManagement

  /** `f32` constants by their bit patterns. */
  const ZERO: F32 := 0x0000_0000
  const ONE: F32 := 0x3F80_0000
  const BETA_DEFAULT: F32 := 0x3DCC_CCCD    // 0.1
  const SAMPLE_PERIOD: F32 := 0x3C23_D70A   // 0.01 s: 100 Hz

  const IDENTITY: Q4<F32> := Q4(ONE, ZERO, ZERO, ZERO)

  /** The bootstrap readings: magnetic field along x, no rotation, gravity
      along z. */
  const REST_MAG: V3<F32> := V3(ONE, ZERO, ZERO)
  const REST_GYRO: V3<F32> := V3(ZERO, ZERO, ZERO)
  const REST_ACCEL: V3<F32> := V3(ZERO, ZERO, ONE)

  /** Live updates carry no magnetometer reading. */
  const NO_MAG: V3<F32> := V3(ZERO, ZERO, ZERO)

  /** One filter step from (magnetometer, gyroscope, accelerometer): the new
      filter state and the quaternion it reports. */
  type Update<!S> = (S, V3<F32>, V3<F32>, V3<F32>) -> (S, Q4<F32>)

  /** Filter state and latest quaternion after `n` at-rest updates. */
  function AtRest<S>(update: Update<S>, s: S, q: Q4<F32>, n: nat): (S, Q4<F32>)
  {
    if n == 0 then (s, q)
    else update(AtRest(update, s, q, n - 1).0, REST_MAG, REST_GYRO, REST_ACCEL)
  }

  /** The filter state after at-rest updates never depends on the quaternion
      held before them, and after at least one update neither does the
      quaternion: the bootstrap forgets what was there. */
  lemma {:induction false} AtRestForgetsQuaternion<S>(update: Update<S>, s: S, q1: Q4<F32>, q2: Q4<F32>, n: nat)
    ensures AtRest(update, s, q1, n).0 == AtRest(update, s, q2, n).0
    ensures n > 0 ==> AtRest(update, s, q1, n) == AtRest(update, s, q2, n)
  {
    if n > 0 {
      AtRestForgetsQuaternion(update, s, q1, q2, n - 1);
    }
  }

  /** A usable IMU reading: both accelerometers and gyroscopes present. */
  datatype ImuReading = ImuReading(timeStamp: u32, accel: V3<F32>, gyro: V3<F32>)

  /** The reading `process_imu_data` feeds to the filter, if any: only an
      inertial-unit IMU record with both vectors present qualifies. */
  function ImuReadingOf(d: Data): (r: Option<ImuReading>)
    ensures r.Some? <==>
      && d.Sensor? && d.sensor.SbgSensor? && d.sensor.sbg.ImuData?
      && d.sensor.sbg.imu.accelerometers.Some? && d.sensor.sbg.imu.gyroscopes.Some?
    ensures r.Some? ==> var imu := d.sensor.sbg.imu;
      r.value == ImuReading(imu.timeStamp, imu.accelerometers.value, imu.gyroscopes.value)
  {
    match d
    case Sensor(SbgSensor(ImuData(imu))) =>
      if imu.accelerometers.Some? && imu.gyroscopes.Some? then
        Some(ImuReading(imu.timeStamp, imu.accelerometers.value, imu.gyroscopes.value))
      else None
    case _ => None
  }

  /** The orientation message answering `input`: its envelope's time and
      node, the IMU record's time stamp, the quaternion, no accuracy and an
      all-clear status. */
  function OrientationMessage(input: Message, timeStamp: u32, q: Q4<F32>): Message
  {
    Message(input.timestamp, input.node,
            Sensor(SbgSensor(EkfQuatData(EkfQuat(timeStamp, Some(q), None, EkfStatusZero)))))
  }

  /** An orientation message is not itself a usable IMU reading, and
      `handle_data` would drop it: it reaches the store only through
      `store_madgwick_result`. */
  lemma OrientationMessageIsTerminal(input: Message, timeStamp: u32, q: Q4<F32>)
    ensures ImuReadingOf(OrientationMessage(input, timeStamp, q).data).None?
    ensures DataManagement.Route(OrientationMessage(input, timeStamp, q).data) == DataManagement.Nowhere
  {
  }

  class MadgwickService<S> {
    var madgwick: S
    var latestQuat: Q4<F32>
    var beta: F32
    var samplePeriod: F32
    const marg: (F32, F32) -> S
    const update: Update<S>

    /** A filter with beta 0.1 at 100 Hz, bootstrapped from the identity. */
    constructor (marg: (F32, F32) -> S, update: Update<S>)
      ensures this.marg == marg && this.update == update
      ensures beta == BETA_DEFAULT && samplePeriod == SAMPLE_PERIOD
      ensures (madgwick, latestQuat) == AtRest(update, marg(BETA_DEFAULT, SAMPLE_PERIOD), IDENTITY, 5)
    {
      this.marg, this.update := marg, update;
      beta, samplePeriod := BETA_DEFAULT, SAMPLE_PERIOD;
      madgwick := marg(BETA_DEFAULT, SAMPLE_PERIOD);
      latestQuat := IDENTITY;
      new;
      Initialize();
    }

    /** Five at-rest updates; the latest quaternion is the last one's. */
    method Initialize()
      modifies this`madgwick, this`latestQuat
      ensures (madgwick, latestQuat) == AtRest(update, old(madgwick), old(latestQuat), 5)
    {
      for i := 0 to 5
        invariant (madgwick, latestQuat) == AtRest(update, old(madgwick), old(latestQuat), i)
      {
        var next := update(madgwick, REST_MAG, REST_GYRO, REST_ACCEL);
        madgwick, latestQuat := next.0, next.1;
      }
    }

    /** Feeds a usable IMU reading to the filter (with no magnetometer) and
        answers with the new orientation; anything else changes nothing and
        gets no answer. */
    method ProcessImuData(data: Message) returns (r: Option<Message>)
      modifies this`madgwick, this`latestQuat
      ensures r.Some? <==> ImuReadingOf(data.data).Some?
      ensures ImuReadingOf(data.data).None? ==> madgwick == old(madgwick) && latestQuat == old(latestQuat)
      ensures ImuReadingOf(data.data).Some? ==>
        var reading := ImuReadingOf(data.data).value;
        && (madgwick, latestQuat) == update(old(madgwick), NO_MAG, reading.gyro, reading.accel)
        && r == Some(OrientationMessage(data, reading.timeStamp, latestQuat))
    {
      match data.data {
        case Sensor(SbgSensor(ImuData(imu))) =>
          if imu.accelerometers.Some? && imu.gyroscopes.Some? {
            var next := update(madgwick, NO_MAG, imu.gyroscopes.value, imu.accelerometers.value);
            madgwick, latestQuat := next.0, next.1;
            return Some(OrientationMessage(data, imu.timeStamp, latestQuat));
          }
          return None;
        case _ =>
          return None;
      }
    }

    method GetQuaternion() returns (q: Q4<F32>)
      ensures q == latestQuat
    {
      q := latestQuat;
    }

    /** Rebuilds the filter with the new beta and the same sample period and
        bootstraps it again: the service ends up exactly as a new one built
        with that beta, whatever it held before. */
    method SetBeta(newBeta: F32)
      modifies this`beta, this`madgwick, this`latestQuat
      ensures beta == newBeta
      ensures (madgwick, latestQuat) == AtRest(update, marg(newBeta, samplePeriod), old(latestQuat), 5)
      ensures (madgwick, latestQuat) == AtRest(update, marg(newBeta, samplePeriod), IDENTITY, 5)
    {
      beta := newBeta;
      madgwick := marg(beta, samplePeriod);
      Initialize();
      AtRestForgetsQuaternion(update, marg(newBeta, samplePeriod), old(latestQuat), IDENTITY, 5);
    }
  }
}
