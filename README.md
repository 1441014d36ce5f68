# phoenix flight computer: a verified model of its core

This project models, in Dafny, the sequential core of the uorocketry
`phoenix` flight computer. It covers seven parts:

- **MS5611 barometer driver** (`Ms5611`, `Ms5611Driver`): the oversampling
  command and timing tables, and the big-endian assembly of PROM and ADC
  words. It also covers the chip-select-framed SPI exchanges of bring-up
  (raise CS, reset, read C1..C6) and of a measurement (D2, then D1), and the
  datasheet's first- and second-order integer compensation up to the
  hundredths the driver converts to `f32`.
- **Data manager** (`DataManagement`): the store of latest messages, one
  `Option` slot per kind. It covers the ten-slot drain, the logging rate and
  its default, and the routing of data and commands.
- **Inertial-unit log conversion** (`DataConversion`): every measured field
  of a converted record is present exactly when the log's status says it is
  valid, and is then the raw value.
- **Radio link** (`Communication`): the wrapping 8-bit MAVLink sequence
  number and the 255-byte zero-padded payload. It also covers the dispatch
  of received MAVLink messages.
- **CAN command link** (`CanBus`): one FD frame per message, and the drain
  of receive FIFO 0 into the data manager's command handler.
- **Orientation service** (`MadgwickService`): the five-step bootstrap, the
  handling of IMU readings and the rebuild on `set_beta`. The filter's own
  update is a parameter.
- **Inertial-unit glue** (`SbgGlue`): the bounded 8192-byte FIFO between
  the UART and the C library, and the library's callbacks (read, write,
  receive-log, flush, speed, delay, clock). It also covers the setup
  sequence.

`Messages` holds the message schema the modules share.

## How the model is built

Hardware, the C library and external codecs are outside the model.
- Each hardware call that may fail (SPI, CS, MAVLink read and write, FD-CAN
  transmit, the inertial unit's configuration call) is a method with a
  nondeterministic outcome. Its outcome is recorded in a field: `Hal.log`,
  `RadioDevice.sent`, `FdCan.transmitted`, `Sbg.configured`.
- Postcard encoding and decoding, the Madgwick update and the status-word
  decoders of the messages crate are function parameters.

The state follows the source's shape.
- Rust structs updated through `&mut self` are classes with those fields.
- The `static mut` globals of `sbg.rs` are the fields of one `Sbg` object.
- Pure code is functions: the conversions, the compensation, the radio
  dispatch and the OSR tables.

Floating-point values are carried as their bit patterns and never computed
on.

Some behaviours of the source show up in the model's lemmas:
- `read_prom_word` and `read_adc_raw` leave CS low when the SPI call fails,
  because the `?` inside `with_cs!` returns before CS is raised (lemmas
  `PromSpiFailureLeavesCsLow` and `AdcSpiFailureLeavesCsLow`). `reset` and
  `start_conversion` always raise it (`CommandReleasesCs`).
- The CAN drain reuses one 64-byte buffer without clearing it. A short
  frame is therefore decoded with the tail of an earlier, longer frame
  behind it (`StaleBytesShowThrough`).
- `handle_data` stores a GPS `NavPosLlh` payload in `gps_pos`. The
  `nav_pos_l1h` slot is drained by `take_sensors` but never written.
- The second-order compensation's low-temperature tier starts strictly
  below −15.00 °C, because the code tests `temp < -1500`
  (`TierBoundaries`).

## Model

| member | source | states |
|---|---|---|
| Ms5611.PressureCommand | crates/common-arm/src/drivers/ms5611.rs:55-63 | the D1 command is 0x40 + 2·k for the k-th ratio, Osr256 to Osr4096 |
| Ms5611.TemperatureCommand | crates/common-arm/src/drivers/ms5611.rs:66-74 | each D2 command is its ratio's D1 command + 0x10 |
| Ms5611.ConversionTimeUs | crates/common-arm/src/drivers/ms5611.rs:77-85 | every conversion time lies between 600 and 9040 µs |
| Ms5611.ConversionTimeIncreases | crates/common-arm/src/drivers/ms5611.rs:77-85 | a higher oversampling ratio waits strictly longer |
| Ms5611.CommandsDistinct | crates/common-arm/src/drivers/ms5611.rs:15-25 | the command bytes identify the ratio, and no D1 command equals any D2 command |
| Ms5611.PromWord | crates/common-arm/src/drivers/ms5611.rs:197-201 | the word's high byte is the first byte received and its low byte the second |
| Ms5611.PromWordRoundTrip | crates/common-arm/src/drivers/ms5611.rs:201 | splitting a 16-bit word into bytes and assembling them gives the word back |
| Ms5611.AdcWord | crates/common-arm/src/drivers/ms5611.rs:227-229 | the ADC value is below 2^24 and its three bytes are the last three received, most significant first |
| Ms5611.ToI32 | crates/common-arm/src/drivers/ms5611.rs:292 | `as i32` lands in the i32 range and is the identity on values already in it |
| Ms5611.SecondOrder | crates/common-arm/src/drivers/ms5611.rs:300-324 | T2, OFF2 and SENS2 are never negative; all zero at TEMP ≥ 2000; OFF2 and SENS2 positive below 2000 |
| Ms5611.TierBoundaries | crates/common-arm/src/drivers/ms5611.rs:306-323 | no correction at exactly 2000; only the first tier at exactly −1500; the extra 7·d² and 11·d²/2 terms at −1501 |
| Ms5611.ColderCorrectsMore | crates/common-arm/src/drivers/ms5611.rs:306-324 | below 2000, a colder TEMP never gets a smaller OFF2 or SENS2 |
| Ms5611.Compensate | crates/common-arm/src/drivers/ms5611.rs:270-333 | the compensated temperature never exceeds the first-order TEMP |
| Ms5611.NoOverflow | crates/common-arm/src/drivers/ms5611.rs:277-333 | for 24-bit D1 and D2 and any u16 coefficients, every intermediate value fits in i64, the i32 cast of TEMP is lossless, and the temperature stays within [−2^18, 0x21000] |
| Ms5611.FirstOrderBounds | crates/common-arm/src/drivers/ms5611.rs:288-298 | dT, TEMP, OFF, SENS and their products fit in i64 for a 24-bit D2, with TEMP within 2^17 of 2000 |
| Ms5611.SecondOrderBounds | crates/common-arm/src/drivers/ms5611.rs:300-324 | every value of the second-order step fits in i64 when TEMP is within 2^17 of 2000 |
| Ms5611.CorrectionBounds | crates/common-arm/src/drivers/ms5611.rs:306-324 | under the same bounds, T2 ≤ 2^17, OFF2 ≤ 2^38 and SENS2 ≤ 2^37 |
| Ms5611.PressureBounds | crates/common-arm/src/drivers/ms5611.rs:326-333 | the pressure step's products, shifts and differences fit in i64 |
| Ms5611Driver.Device.New | crates/common-arm/src/drivers/ms5611.rs:150-179 | the log is CS high, 100 µs, reset exchange, 3000 µs, the PROM reads; the first failure ends construction with its error; on success the driver holds the coefficients read |
| Ms5611Driver.Device.Reset | crates/common-arm/src/drivers/ms5611.rs:182-186 | the reset command 0x1E is sent inside one `with_cs!` exchange |
| Ms5611Driver.Device.Command | crates/common-arm/src/drivers/ms5611.rs:129-140 | CS low, write, CS high; CS is raised even after a failed write; a CS error wins over the write's error |
| Ms5611Driver.Device.StartConversion | crates/common-arm/src/drivers/ms5611.rs:219-221 | a conversion command is framed exactly like reset |
| Ms5611Driver.Device.ReadPromWord | crates/common-arm/src/drivers/ms5611.rs:189-203 | the address is written, then two bytes are clocked out; a SPI failure returns before CS is raised; the result is the big-endian word |
| Ms5611Driver.Device.ReadCoefficients | crates/common-arm/src/drivers/ms5611.rs:206-216 | reads 0xA2..0xAC in order and stops at the first failure, whose error it returns; on success C1..C6 are the words read |
| Ms5611Driver.Device.ReadNextWord | crates/common-arm/src/drivers/ms5611.rs:209-214 | one `?`-guarded PROM read extends the reads so far, or ends them with its error |
| Ms5611Driver.Device.ReadAdcRaw | crates/common-arm/src/drivers/ms5611.rs:224-231 | one 4-byte transfer starting with 0x00; the result is the last three bytes; a SPI failure leaves CS low |
| Ms5611Driver.Device.ReadRaw | crates/common-arm/src/drivers/ms5611.rs:235-250 | start conversion, wait, ADC read; a failed start skips the rest |
| Ms5611Driver.Device.ReadRawTemperature | crates/common-arm/src/drivers/ms5611.rs:235-242 | uses the D2 command and the ratio's conversion time |
| Ms5611Driver.Device.ReadRawPressure | crates/common-arm/src/drivers/ms5611.rs:246-250 | uses the D1 command and the ratio's conversion time |
| Ms5611Driver.Device.ReadPressureTemperature | crates/common-arm/src/drivers/ms5611.rs:256-264 | D2 is read before D1; either failure is returned; on success the reading is the compensation of the two counts, with no i64 overflow |
| Ms5611Driver.CommandReleasesCs | crates/common-arm/src/drivers/ms5611.rs:129-140 | a command exchange that pulled CS low always ends by raising it |
| Ms5611Driver.PromSpiFailureLeavesCsLow | crates/common-arm/src/drivers/ms5611.rs:189-203 | a PROM read failing on SPI pulled CS low and never raised it |
| Ms5611Driver.AdcSpiFailureLeavesCsLow | crates/common-arm/src/drivers/ms5611.rs:224-231 | the same for an ADC read |
| Ms5611Driver.AdcBelow24Bits | crates/common-arm/src/drivers/ms5611.rs:227-229 | every successful ADC read is below 2^24 |
| DataManagement.Route | phoenix/src/data_manager.rs:98-136 | both position sources go to the GPS position slot; state and recovery sensing have their own slots; each inertial-unit kind has a slot of its own; a payload goes nowhere exactly when it is none of these (reset reasons, commands, other GPS, sensor and common payloads) |
| DataManagement.SbgKindsDoNotCollide | phoenix/src/data_manager.rs:100-122 | two inertial-unit records share a slot only if they are of the same kind |
| DataManagement.RateAfter | phoenix/src/data_manager.rs:88-90 | the rate changes only on a rate-change command, and then becomes the commanded rate |
| DataManagement.NoRateChangeKeepsRate | phoenix/src/data_manager.rs:82-96 | a run of commands without a rate change leaves the rate as it was |
| DataManagement.LastRateChangeWins | phoenix/src/data_manager.rs:82-96 | after a run of commands the rate is the one the last rate change asked for |
| DataManagement.DataManager.constructor | phoenix/src/data_manager.rs:26-42 | every slot is empty except the logging rate, which is slow |
| DataManagement.DataManager.GetLoggingRate | phoenix/src/data_manager.rs:44-52 | returns the stored rate, or slow when there is none; the slot is then always set to the rate returned |
| DataManagement.DataManager.TakeSensors | phoenix/src/data_manager.rs:55-68 | returns the ten sensor slots in order and leaves them all empty; state, reset reason and rate are untouched |
| DataManagement.TakeTwice | phoenix/src/data_manager.rs:55-68 | a second drain right after the first returns ten empty slots |
| DataManagement.DataManager.CloneStates | phoenix/src/data_manager.rs:70-72 | returns the state, changing nothing |
| DataManagement.DataManager.CloneResetReason | phoenix/src/data_manager.rs:74-76 | returns the reset reason, changing nothing |
| DataManagement.DataManager.SetResetReason | phoenix/src/data_manager.rs:78-80 | sets only the reset reason |
| DataManagement.DataManager.HandleCommand | phoenix/src/data_manager.rs:82-96 | always Ok; a rate change sets the rate; a power-down requests sleep; nothing else changes |
| DataManagement.DataManager.HandleData | phoenix/src/data_manager.rs:98-137 | the routed slot gets the message (a state message sets the state); every other slot, and the Madgwick and `nav_pos_l1h` slots, keep their values |
| DataManagement.DataManager.StoreMadgwickResult | phoenix/src/data_manager.rs:139-141 | sets only the Madgwick slot |
| DataConversion.Check | crates/sbg-rs/src/data_conversion.rs:14-22 | Some(value), unaltered, exactly when the flags decoded and contain the test flag |
| DataConversion.FromGpsPos | crates/sbg-rs/src/data_conversion.rs:24-45 | every position, accuracy, satellite, base-station and age field is present exactly for a computed solution, holding the raw value; time stamp and status are copied |
| DataConversion.FromUtcData | crates/sbg-rs/src/data_conversion.rs:47-65 | date, time and GPS time of week are present exactly when the clock status is Valid or NoLeapSec |
| DataConversion.FromAirData | crates/sbg-rs/src/data_conversion.rs:67-82 | each air field is gated by its own flag |
| DataConversion.FromEkfQuatData | crates/sbg-rs/src/data_conversion.rs:84-96 | quaternion and Euler deviation are both gated by the heading-valid flag |
| DataConversion.FromEkfNavData | crates/sbg-rs/src/data_conversion.rs:98-113 | velocity fields by velocity-valid, position fields by position-valid, undulation by attitude-valid |
| DataConversion.FromImuData | crates/sbg-rs/src/data_conversion.rs:115-130 | accelerometer fields by accels-in-range, gyroscope fields by gyros-in-range; temperature is always present |
| DataConversion.FromGpsVel | crates/sbg-rs/src/data_conversion.rs:132-147 | time of week, velocity, course and accuracies are present exactly for a computed solution |
| DataConversion.UndecodableStatusHidesAll | crates/sbg-rs/src/data_conversion.rs:67-130 | a status that does not decode leaves only the never-gated fields |
| DataConversion.NoSolutionNoFix | crates/sbg-rs/src/data_conversion.rs:24-45 | without a computed solution a position record holds only its time stamp and status |
| DataConversion.ImuConversionRecoversInputs | crates/sbg-rs/src/data_conversion.rs:115-130 | with both range flags set, the raw log can be rebuilt from the record |
| Communication.NextSequence | phoenix/src/communication.rs:69-72 | adds one, and 255 wraps to 0 |
| Communication.SequenceAdvancesModulo256 | phoenix/src/communication.rs:69-72 | after n frames the sequence number has advanced by n modulo 256 |
| Communication.SequenceRepeatsEvery256 | phoenix/src/communication.rs:69-72 | sequence numbers repeat after exactly 256 frames and not sooner |
| Communication.FixedPayload | phoenix/src/communication.rs:52-54 | 255 bytes: the payload's first min(len, 255) bytes, then zeros |
| Communication.FixedPayloadKeepsPrefix | phoenix/src/communication.rs:52-54 | a payload that fits is a prefix of its frame; a longer one is cut to 255 bytes |
| Communication.CopyIntoFixedPayload | phoenix/src/communication.rs:52-54 | the copy into a zeroed 255-byte array yields exactly the fixed payload |
| Communication.Receive | phoenix/src/communication.rs:73-101 | postcard and command messages yield their decoded bytes; read errors propagate; decode failures, heartbeats and other kinds are errors |
| Communication.SentFrameReceived | phoenix/src/communication.rs:79-87 | a frame this link sends is received back as its decoded payload |
| Communication.RadioManager.constructor | phoenix/src/communication.rs:39-44 | the sequence number starts at 0 |
| Communication.RadioManager.IncrementMavSequence | phoenix/src/communication.rs:69-72 | stores and returns the wrapped successor |
| Communication.RadioManager.SendMessage | phoenix/src/communication.rs:45-68 | the sequence advances whether or not the write succeeds; the frame has system and component 1, the new sequence number and the fixed payload |
| Communication.RadioManager.ReceiveMessage | phoenix/src/communication.rs:73-101 | the result is the dispatch of exactly one read; the sequence number is untouched |
| Communication.FirstFrameAfterNew | phoenix/src/communication.rs:39-50 | the first frame a new manager sends carries sequence number 1 |
| CanBus.Header | phoenix/src/can_manager.rs:80-86 | header length is the encoded length, the id is the link's, the format is FD, and bit-rate switching is off |
| CanBus.Overlay | phoenix/src/can_manager.rs:91-93 | receiving a frame overwrites only the buffer's first len bytes |
| CanBus.StaleBytesShowThrough | phoenix/src/can_manager.rs:91-93 | after a long frame, a shorter one leaves the long frame's tail in the buffer the decoder sees |
| CanBus.DrainedAtMostOnePerFrame | phoenix/src/can_manager.rs:92-98 | at most one command per frame; none when nothing decodes, exactly one per frame when everything does |
| CanBus.FullFramesDecodeAlone | phoenix/src/can_manager.rs:91-98 | when every frame is 64 bytes, the commands handled are each frame's own decoding in arrival order, independent of the earlier buffer contents |
| CanBus.CanManager.constructor | phoenix/src/can_manager.rs:72-75 | the manager holds its controller, id and codecs |
| CanBus.CanManager.SendMessage | phoenix/src/can_manager.rs:77-89 | an encoding over 64 bytes sends nothing and is an error; otherwise exactly one frame with that header and payload, or a transmit error and nothing sent |
| CanBus.CanManager.ReceiveNext | phoenix/src/can_manager.rs:92 | one `receive0`: fails exactly on an empty FIFO, and the messages still to drain are preserved |
| CanBus.CanManager.ProcessData | phoenix/src/can_manager.rs:90-101 | always Ok; empties FIFO 0; the commands handled are the decodable buffers, in arrival order; the rate and the power-down requests are those of that run |
| MadgwickService.AtRestForgetsQuaternion | phoenix/src/madgwick_service.rs:102-108 | after the bootstrap, filter and quaternion do not depend on the quaternion held before |
| MadgwickService.ImuReadingOf | phoenix/src/madgwick_service.rs:45-50 | a reading exists exactly for an IMU record with both accelerometers and gyroscopes |
| MadgwickService.OrientationMessageIsTerminal | phoenix/src/madgwick_service.rs:70-85 | the orientation message is neither an IMU reading nor routed by `handle_data` |
| MadgwickService.MadgwickService.constructor | phoenix/src/madgwick_service.rs:16-31 | beta 0.1, period 0.01, then five at-rest updates from the identity |
| MadgwickService.MadgwickService.Initialize | phoenix/src/madgwick_service.rs:34-43 | five updates with mag (1,0,0), gyro 0 and accel (0,0,1); the latest quaternion is the last update's |
| MadgwickService.MadgwickService.ProcessImuData | phoenix/src/madgwick_service.rs:45-96 | answers exactly for usable IMU readings; then one update with zero magnetometer, and the answer carries the envelope, the IMU time stamp and the new quaternion; otherwise nothing changes |
| MadgwickService.MadgwickService.GetQuaternion | phoenix/src/madgwick_service.rs:98-100 | returns the latest quaternion |
| MadgwickService.MadgwickService.SetBeta | phoenix/src/madgwick_service.rs:102-108 | the service ends up exactly as a new one built with that beta and the same period |
| SbgGlue.PushedIsTruncatedAppend | crates/sbg-rs/src/sbg.rs:144-151 | pushing bytes appends them in order and drops exactly those beyond 8192 |
| SbgGlue.PushedFits | crates/sbg-rs/src/sbg.rs:144-151 | bytes that fit are all queued |
| SbgGlue.PushedFullIsUnchanged | crates/sbg-rs/src/sbg.rs:144-151 | a full FIFO ignores every byte pushed |
| SbgGlue.Dispatch | crates/sbg-rs/src/sbg.rs:356-385 | a record comes out exactly for class LOG_ECOM_0 and the six logs used, and it is converted from the log its id names |
| SbgGlue.DispatchKeepsTimeStamp | crates/sbg-rs/src/sbg.rs:359-378 | a dispatched record carries its log's time stamp |
| SbgGlue.DispatchIsInjectiveInKind | crates/sbg-rs/src/sbg.rs:359-378 | two logs of different ids never produce the same record |
| SbgGlue.GetSpeed | crates/sbg-rs/src/sbg.rs:423-425 | the speed is always 115200 |
| SbgGlue.Delay | crates/sbg-rs/src/sbg.rs:430-432 | the delay is always 501 whatever the byte count |
| SbgGlue.Sbg.constructor | crates/sbg-rs/src/sbg.rs:70-128 | all callbacks installed, FIFO empty, not initialised |
| SbgGlue.Sbg.ReadData | crates/sbg-rs/src/sbg.rs:140-162 | the chunk is pushed with overflow dropped; the buffer index is reset; the library then consumes a prefix of the queue; every record delivered is the dispatch of some log, and only while the data callback is installed |
| SbgGlue.Sbg.EComHandle | crates/sbg-rs/src/sbg.rs:159-161 | the library keeps a suffix of the queue and passes logs to the log callback; every record delivered is the dispatch of some log, and only while the data callback is installed |
| SbgGlue.Sbg.Setup | crates/sbg-rs/src/sbg.rs:172-277 | the seven logs are configured in order; the last outcome is returned and marks the glue initialised when it succeeds |
| SbgGlue.Sbg.ReadFunc | crates/sbg-rs/src/sbg.rs:282-310 | a null pointer changes nothing; otherwise min(n, queued) bytes move from the front of the queue to the buffer in order, and the count is reported |
| SbgGlue.Sbg.WriteFunc | crates/sbg-rs/src/sbg.rs:315-338 | null pointers and a missing callback are errors that write nothing; otherwise the callback gets an exact copy |
| SbgGlue.Sbg.ReceiveLogFunc | crates/sbg-rs/src/sbg.rs:343-387 | null data is an error; otherwise Ok, and exactly the dispatched record, if any, reaches the data callback |
| SbgGlue.Sbg.FlushFunc | crates/sbg-rs/src/sbg.rs:399-411 | null interface and a missing callback are errors; otherwise one flush |
| SbgGlue.Sbg.GetTime | crates/sbg-rs/src/sbg.rs:481-490 | 0 when no clock is installed |

## Left out

- Floating point: the `f32` conversion and `is_finite` check of the barometer (so `CalculationFault` is never produced), and the Madgwick filter's arithmetic, which is a parameter `update`.
- The PROM CRC check: the source does not implement it, so `CrcError` is never produced.
- postcard encoding and decoding, MAVLink v2 framing and CRC, and the fdcan peripheral: these are parameters or abstract methods that may fail. The FD-CAN filter and clock configuration in `CanManager::new` and the UART set-up of `RadioDevice::new` are not modelled.
- `COM_ID`: the CAN link's identifier is a constructor parameter; phoenix/src/types.rs is not part of this model.
- `sbgEComHandle` and `sbgEComCmdOutputSetConf`: the C library is abstract. `sbgEComHandle` consumes a prefix of the queue and hands any logs to the log callback; the configuration call may return any code.
- `sbg_destroy_func`, `sbg_set_speed_func`, `sbgPlatformDebugLogMsg`, `sbgSleep` and the interface and protocol structs `SBG::new` builds: these are C glue with no state of this model.
- SbgGlue.Sbg.WriteFunc: requires at most 1024 bytes, where the source would panic collecting a longer chunk into its 1024-byte vector.
- SbgGlue.Sbg.ReceiveLogFunc: passes on the records of `DataConversion` rather than the tuple types of `CallbackData`, whose conversions are not part of this model.
- SbgGlue.Sbg.GetTime: says nothing about the value the clock callback returns, which comes from hardware.
- The sleep task `handle_command` spawns on a power-down is not modelled. `HandleCommand` returns a `powerDown` flag instead.
- Logging (`info!`, `warn!`, `error!`) has no effect on the modelled state and is left out.
- phoenix/src/main.rs is not part of this model: RTIC tasks, priorities, locks, delays, LEDs and the buzzer.
- The two message-crate versions the source uses (`RadioData::Sbg` in the data manager, `SensorData::SbgData` with `Imu1` in the orientation service) are one schema here. A sensor message carries either an inertial-unit record or a recovery-sensing or reset-reason value.
- The messages crate's status decoders are parameters (`StatusDecoders`), except in the orientation message, where `EkfStatus::new(0)` is `Messages.EkfStatusZero` with its view fixed as the empty flag set.
- Error payloads: `Ms5611Driver.Error` drops the HAL's SPI and CS error values and keeps only their kind.
