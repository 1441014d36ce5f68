/** The MS5611 driver's bus protocol: how it frames each exchange with the
    sensor between chip-select edges, in what order it talks to the sensor,
    and which error each failure turns into.

    The SPI bus, the chip-select pin and the delay provider are the HAL's;
    each call may fail, and `Hal.log` records every call together with its
    outcome. A driver operation is specified by the events it appends to that
    log and the result it returns. */
module Ms5611Driver {
  import opened Messages
  import opened Ms5611

  /** The driver's error, without the HAL's payloads. `CrcError` is never
      produced; `CalculationFault` only by the floating-point step, which is
      not modelled. */
  datatype Error = Spi | Cs | CrcError | CalculationFault

  /** One HAL call and its outcome. */
  datatype Event =
    | CsLow(ok: bool)
    | CsHigh(ok: bool)
    | SpiWrite(bytes: seq<u8>, ok: bool)
    | SpiTransfer(sent: seq<u8>, reply: Option<seq<u8>>)
    | DelayUs(us: nat)

  /** The SPI bus, the chip-select pin and the delay provider. Their outcomes
      are not in the driver's hands: every call may succeed or fail. */
  class Hal {
    var log: seq<Event>

    constructor ()
      ensures log == []
    {
      log := [];
    }

    method SetLow() returns (ok: bool)
      modifies this
      ensures log == old(log) + [CsLow(ok)]
    {
      ok := *;
      log := log + [CsLow(ok)];
    }

    method SetHigh() returns (ok: bool)
      modifies this
      ensures log == old(log) + [CsHigh(ok)]
    {
      ok := *;
      log := log + [CsHigh(ok)];
    }

    method Write(bytes: seq<u8>) returns (ok: bool)
      modifies this
      ensures log == old(log) + [SpiWrite(bytes, ok)]
    {
      ok := *;
      log := log + [SpiWrite(bytes, ok)];
    }

    /** Full-duplex transfer: on success, as many bytes come back as were sent. */
    method Transfer(sent: seq<u8>) returns (reply: Option<seq<u8>>)
      modifies this
      ensures reply.Some? ==> |reply.value| == |sent|
      ensures log == old(log) + [SpiTransfer(sent, reply)]
    {
      var ok: bool := *;
      if ok {
        var rx: seq<u8> :| |rx| == |sent|;
        reply := Some(rx);
      } else {
        reply := None;
      }
      log := log + [SpiTransfer(sent, reply)];
    }

    method Delay(us: nat)
      modifies this
      ensures log == old(log) + [DelayUs(us)]
    {
      log := log + [DelayUs(us)];
    }
  }

  // ---------------------------------------------------------------------
  // The exchanges, as the events they produce and the result they return

  /** `with_cs!` around one command byte whose write error is mapped but not
      returned early (`reset`, `start_conversion`): CS is raised even after a
      failed write, and a failure to raise it wins over the write's error. */
  ghost predicate CommandTx(cmd: u8, t: seq<Event>, r: Result<(), Error>)
  {
    || (t == [CsLow(false)] && r == Err(Cs))
    || (&& |t| == 3 && t[0] == CsLow(true)
        && t[1].SpiWrite? && t[1].bytes == [cmd] && t[2].CsHigh?
        && r == (if !t[2].ok then Err(Cs) else if !t[1].ok then Err(Spi) else Ok(())))
  }

  /** `read_prom_word`: the address byte, then two dummy bytes clock the word
      out. A SPI error returns from inside `with_cs!`, so CS is not raised. */
  ghost predicate PromWordTx(addr: u8, t: seq<Event>, r: Result<u16, Error>)
  {
    || (t == [CsLow(false)] && r == Err(Cs))
    || (t == [CsLow(true), SpiWrite([addr], false)] && r == Err(Spi))
    || (t == [CsLow(true), SpiWrite([addr], true), SpiTransfer([0, 0], None)] && r == Err(Spi))
    || (&& |t| == 4 && t[0] == CsLow(true) && t[1] == SpiWrite([addr], true)
        && t[2].SpiTransfer? && t[2].sent == [0, 0]
        && t[2].reply.Some? && |t[2].reply.value| == 2 && t[3].CsHigh?
        && r == (if t[3].ok then Ok(PromWord(t[2].reply.value[0], t[2].reply.value[1])) else Err(Cs)))
  }

  /** `read_adc_raw`: the read command and three dummy bytes in one transfer;
      the result is the last three bytes received, big-endian. */
  ghost predicate AdcTx(t: seq<Event>, r: Result<u32, Error>)
  {
    || (t == [CsLow(false)] && r == Err(Cs))
    || (t == [CsLow(true), SpiTransfer([ADC_READ, 0, 0, 0], None)] && r == Err(Spi))
    || (&& |t| == 3 && t[0] == CsLow(true)
        && t[1].SpiTransfer? && t[1].sent == [ADC_READ, 0, 0, 0]
        && t[1].reply.Some? && |t[1].reply.value| == 4 && t[2].CsHigh?
        && r == (if t[2].ok
                 then Ok(AdcWord(t[1].reply.value[1], t[1].reply.value[2], t[1].reply.value[3]))
                 else Err(Cs)))
  }

  /** `read_raw_temperature` / `read_raw_pressure`: start the conversion, wait
      for it, read the ADC; a failed start skips the rest. */
  ghost predicate RawRead(cmd: u8, us: nat, t: seq<Event>, r: Result<u32, Error>)
  {
    || (r.Err? && CommandTx(cmd, t, Err(r.error)))
    || (&& |t| >= 4 && CommandTx(cmd, t[..3], Ok(()))
        && t[3] == DelayUs(us) && AdcTx(t[4..], r))
  }

  /** `read_coefficients`: the words at `PROM_READ_ADDRS` in order, stopping
      at the first failure, whose error is the result. */
  ghost predicate CoefficientReads(ts: seq<seq<Event>>, words: seq<Result<u16, Error>>, r: Result<Coefficients, Error>)
  {
    && 1 <= |ts| == |words| <= 6
    && (forall i :: 0 <= i < |ts| ==> PromWordTx(PROM_READ_ADDRS[i], ts[i], words[i]))
    && (forall i :: 0 <= i < |words| - 1 ==> words[i].Ok?)
    && if r.Ok? then
         && |words| == 6 && words[5].Ok?
         && r.value == Coefficients(words[0].value, words[1].value, words[2].value,
                                    words[3].value, words[4].value, words[5].value)
       else
         words[|words| - 1].Err? && r.error == words[|words| - 1].error
  }

  /** The first |ts| PROM reads of `read_coefficients`, all successful:
      the reads before the last, then the last. */
  ghost predicate ReadsSoFar(ts: seq<seq<Event>>, words: seq<Result<u16, Error>>)
    decreases |ts|
  {
    && |ts| == |words| <= 6
    && (ts != [] ==>
          && ReadsSoFar(ts[..|ts| - 1], words[..|words| - 1])
          && PromWordTx(PROM_READ_ADDRS[|ts| - 1], ts[|ts| - 1], words[|ts| - 1])
          && words[|ts| - 1].Ok?)
  }

  /** Every read so far went to its address and succeeded. */
  lemma {:induction false} ReadsSoFarEach(ts: seq<seq<Event>>, words: seq<Result<u16, Error>>)
    requires ReadsSoFar(ts, words)
    ensures forall i :: 0 <= i < |ts| ==> PromWordTx(PROM_READ_ADDRS[i], ts[i], words[i]) && words[i].Ok?
    decreases |ts|
  {
    if ts != [] {
      var n := |ts| - 1;
      ReadsSoFarEach(ts[..n], words[..n]);
      forall i | 0 <= i < |ts|
        ensures PromWordTx(PROM_READ_ADDRS[i], ts[i], words[i]) && words[i].Ok?
      {
        if i < n {
          assert ts[..n][i] == ts[i] && words[..n][i] == words[i];
        }
      }
    }
  }

  lemma KeepReading(ts: seq<seq<Event>>, words: seq<Result<u16, Error>>, t: seq<Event>, w: Result<u16, Error>)
    requires ReadsSoFar(ts, words) && |ts| < 6
    requires PromWordTx(PROM_READ_ADDRS[|ts|], t, w) && w.Ok?
    ensures ReadsSoFar(ts + [t], words + [w])
  {
    assert (ts + [t])[..|ts|] == ts && (words + [w])[..|words|] == words;
  }

  lemma StopReading(ts: seq<seq<Event>>, words: seq<Result<u16, Error>>, t: seq<Event>, w: Result<u16, Error>)
    requires ReadsSoFar(ts, words) && |ts| < 6
    requires PromWordTx(PROM_READ_ADDRS[|ts|], t, w) && w.Err?
    ensures CoefficientReads(ts + [t], words + [w], Err(w.error))
  {
    ReadsSoFarEach(ts, words);
  }

  lemma AllRead(ts: seq<seq<Event>>, words: seq<Result<u16, Error>>)
    requires ReadsSoFar(ts, words) && |ts| == 6
    ensures forall i :: 0 <= i < |words| ==> words[i].Ok?
    ensures CoefficientReads(ts, words, Ok(Coefficients(words[0].value, words[1].value, words[2].value,
                                                        words[3].value, words[4].value, words[5].value)))
  {
    ReadsSoFarEach(ts, words);
  }

  ghost function Flatten(ts: seq<seq<Event>>): seq<Event>
  {
    if ts == [] then [] else Flatten(ts[..|ts| - 1]) + ts[|ts| - 1]
  }

  lemma FlattenSnoc(ts: seq<seq<Event>>, t: seq<Event>)
    ensures Flatten(ts + [t]) == Flatten(ts) + t
  {
    assert (ts + [t])[..|ts|] == ts;
  }

  /** A command exchange whose CS was pulled low always ends by raising it. */
  lemma CommandReleasesCs(cmd: u8, t: seq<Event>, r: Result<(), Error>)
    requires CommandTx(cmd, t, r) && t[0] == CsLow(true)
    ensures t[|t| - 1].CsHigh?
  {
  }

  /** A PROM read that fails on the bus leaves CS pulled low: the exchange
      pulled it low and never asked to raise it. */
  lemma PromSpiFailureLeavesCsLow(addr: u8, t: seq<Event>, r: Result<u16, Error>)
    requires PromWordTx(addr, t, r) && r == Err(Spi)
    ensures CsLow(true) in t && forall e <- t :: !e.CsHigh?
  {
  }

  /** The same holds for an ADC read. */
  lemma AdcSpiFailureLeavesCsLow(t: seq<Event>, r: Result<u32, Error>)
    requires AdcTx(t, r) && r == Err(Spi)
    ensures CsLow(true) in t && forall e <- t :: !e.CsHigh?
  {
  }

  // ---------------------------------------------------------------------
  // The driver

  class Device {
    const hal: Hal
    var coefficients: Coefficients

    /** The instance `new` builds before it has read the PROM. */
    constructor WithPlaceholder(hal: Hal)
      ensures this.hal == hal && coefficients == Coefficients(0, 0, 0, 0, 0, 0)
    {
      this.hal := hal;
      coefficients := Coefficients(0, 0, 0, 0, 0, 0);
    }

    /** `Ms5611::new`: raise CS, wait 100 µs, reset, wait 3000 µs, read C1..C6.
        Any failure is returned at once and no driver is built. */
    static method New(hal: Hal)
      returns (r: Result<Device, Error>,
               ghost tReset: seq<Event>, ghost rReset: Result<(), Error>,
               ghost ts: seq<seq<Event>>, ghost words: seq<Result<u16, Error>>,
               ghost rc: Result<Coefficients, Error>)
      modifies hal
      ensures |hal.log| > |old(hal.log)| && hal.log[|old(hal.log)|].CsHigh?
      ensures !hal.log[|old(hal.log)|].ok ==> hal.log == old(hal.log) + [CsHigh(false)] && r == Err(Cs)
      ensures hal.log[|old(hal.log)|].ok ==>
        && CommandTx(RESET, tReset, rReset)
        && (rReset.Err? ==>
              hal.log == old(hal.log) + [CsHigh(true), DelayUs(100)] + tReset && r == Err(rReset.error))
        && (rReset.Ok? ==>
              && CoefficientReads(ts, words, rc)
              && hal.log == old(hal.log) + [CsHigh(true), DelayUs(100)] + tReset + [DelayUs(3000)] + Flatten(ts)
              && (r.Ok? <==> rc.Ok?)
              && (rc.Err? ==> r == Err(rc.error)))
      ensures r.Ok? ==> fresh(r.value) && r.value.hal == hal && r.value.coefficients == rc.value
    {
      tReset, rReset, ts, words, rc := [], Ok(()), [], [], Err(Cs);
      var ok := hal.SetHigh();
      if !ok {
        r := Err(Cs);
        return;
      }
      hal.Delay(100);
      var sensor := new Device.WithPlaceholder(hal);
      var reset;
      reset, tReset := sensor.Reset();
      rReset := reset;
      if reset.Err? {
        r := Err(reset.error);
        return;
      }
      hal.Delay(3000);
      var coefficients;
      coefficients, ts, words := sensor.ReadCoefficients();
      rc := coefficients;
      if coefficients.Err? {
        r := Err(coefficients.error);
        return;
      }
      sensor.coefficients := coefficients.value;
      r := Ok(sensor);
    }

    method Reset() returns (r: Result<(), Error>, ghost t: seq<Event>)
      modifies hal
      ensures hal.log == old(hal.log) + t && CommandTx(RESET, t, r)
    {
      r, t := Command(RESET);
    }

    method StartConversion(cmd: u8) returns (r: Result<(), Error>, ghost t: seq<Event>)
      modifies hal
      ensures hal.log == old(hal.log) + t && CommandTx(cmd, t, r)
    {
      r, t := Command(cmd);
    }

    /** The `with_cs!` exchange shared by `reset` and `start_conversion`. */
    method Command(cmd: u8) returns (r: Result<(), Error>, ghost t: seq<Event>)
      modifies hal
      ensures hal.log == old(hal.log) + t && CommandTx(cmd, t, r)
    {
      var low := hal.SetLow();
      if !low {
        r, t := Err(Cs), [CsLow(false)];
        return;
      }
      var wrote := hal.Write([cmd]);
      var result: Result<(), Error> := if wrote then Ok(()) else Err(Spi);
      var high := hal.SetHigh();
      t := [CsLow(true), SpiWrite([cmd], wrote), CsHigh(high)];
      r := if high then result else Err(Cs);
    }

    method ReadPromWord(addr: u8) returns (r: Result<u16, Error>, ghost t: seq<Event>)
      modifies hal
      ensures hal.log == old(hal.log) + t && PromWordTx(addr, t, r)
    {
      var low := hal.SetLow();
      if !low {
        r, t := Err(Cs), [CsLow(false)];
        return;
      }
      var wrote := hal.Write([addr]);
      if !wrote {
        r, t := Err(Spi), [CsLow(true), SpiWrite([addr], false)];
        return;
      }
      var reply := hal.Transfer([0, 0]);
      if reply.None? {
        r, t := Err(Spi), [CsLow(true), SpiWrite([addr], true), SpiTransfer([0, 0], None)];
        return;
      }
      var word := PromWord(reply.value[0], reply.value[1]);
      var high := hal.SetHigh();
      t := [CsLow(true), SpiWrite([addr], true), SpiTransfer([0, 0], reply), CsHigh(high)];
      r := if high then Ok(word) else Err(Cs);
    }

    method ReadCoefficients()
      returns (r: Result<Coefficients, Error>, ghost ts: seq<seq<Event>>, ghost words: seq<Result<u16, Error>>)
      modifies hal
      ensures hal.log == old(hal.log) + Flatten(ts) && CoefficientReads(ts, words, r)
    {
      ghost var start := hal.log;
      ts, words := [], [];
      var c1;
      c1, ts, words := ReadNextWord(PROM_READ_ADDRS[0], start, ts, words);
      if c1.Err? {
        r := Err(c1.error);
        return;
      }
      var c2;
      c2, ts, words := ReadNextWord(PROM_READ_ADDRS[1], start, ts, words);
      if c2.Err? {
        r := Err(c2.error);
        return;
      }
      var c3;
      c3, ts, words := ReadNextWord(PROM_READ_ADDRS[2], start, ts, words);
      if c3.Err? {
        r := Err(c3.error);
        return;
      }
      var c4;
      c4, ts, words := ReadNextWord(PROM_READ_ADDRS[3], start, ts, words);
      if c4.Err? {
        r := Err(c4.error);
        return;
      }
      var c5;
      c5, ts, words := ReadNextWord(PROM_READ_ADDRS[4], start, ts, words);
      if c5.Err? {
        r := Err(c5.error);
        return;
      }
      var c6;
      c6, ts, words := ReadNextWord(PROM_READ_ADDRS[5], start, ts, words);
      if c6.Err? {
        r := Err(c6.error);
        return;
      }
      AllRead(ts, words);
      r := Ok(Coefficients(c1.value, c2.value, c3.value, c4.value, c5.value, c6.value));
    }

    /** The next PROM read of `read_coefficients`, at the address after the
        `|ts|` already read; `start` is the log before the first of them. */
    method ReadNextWord(addr: u8, ghost start: seq<Event>, ghost ts: seq<seq<Event>>, ghost words: seq<Result<u16, Error>>)
      returns (w: Result<u16, Error>, ghost ts': seq<seq<Event>>, ghost words': seq<Result<u16, Error>>)
      requires ReadsSoFar(ts, words) && |ts| < 6 && addr == PROM_READ_ADDRS[|ts|]
      requires hal.log == start + Flatten(ts)
      modifies hal
      ensures hal.log == start + Flatten(ts')
      ensures |ts'| == |words'| == |ts| + 1 && words'[|ts|] == w
      ensures words'[..|ts|] == words
      ensures w.Ok? ==> ReadsSoFar(ts', words')
      ensures w.Err? ==> CoefficientReads(ts', words', Err(w.error))
    {
      ghost var t;
      w, t := ReadPromWord(addr);
      if w.Ok? {
        KeepReading(ts, words, t, w);
      } else {
        StopReading(ts, words, t, w);
      }
      FlattenSnoc(ts, t);
      ts', words' := ts + [t], words + [w];
    }

    method ReadAdcRaw() returns (r: Result<u32, Error>, ghost t: seq<Event>)
      modifies hal
      ensures hal.log == old(hal.log) + t && AdcTx(t, r)
    {
      var low := hal.SetLow();
      if !low {
        r, t := Err(Cs), [CsLow(false)];
        return;
      }
      var reply := hal.Transfer([ADC_READ, 0, 0, 0]);
      if reply.None? {
        r, t := Err(Spi), [CsLow(true), SpiTransfer([ADC_READ, 0, 0, 0], None)];
        return;
      }
      var raw := AdcWord(reply.value[1], reply.value[2], reply.value[3]);
      var high := hal.SetHigh();
      t := [CsLow(true), SpiTransfer([ADC_READ, 0, 0, 0], reply), CsHigh(high)];
      r := if high then Ok(raw) else Err(Cs);
    }

    /** Start a conversion with `cmd`, wait `us`, read the ADC. */
    method ReadRaw(cmd: u8, us: u32) returns (r: Result<u32, Error>, ghost t: seq<Event>)
      modifies hal
      ensures hal.log == old(hal.log) + t && RawRead(cmd, us, t, r)
    {
      ghost var ts;
      var started;
      started, ts := StartConversion(cmd);
      if started.Err? {
        r, t := Err(started.error), ts;
        return;
      }
      hal.Delay(us);
      ghost var ta;
      r, ta := ReadAdcRaw();
      t := ts + [DelayUs(us)] + ta;
      assert t[..3] == ts && t[4..] == ta;
    }

    method ReadRawTemperature(osr: OversamplingRatio) returns (r: Result<u32, Error>, ghost t: seq<Event>)
      modifies hal
      ensures hal.log == old(hal.log) + t
      ensures RawRead(TemperatureCommand(osr), ConversionTimeUs(osr), t, r)
    {
      r, t := ReadRaw(TemperatureCommand(osr), ConversionTimeUs(osr));
    }

    method ReadRawPressure(osr: OversamplingRatio) returns (r: Result<u32, Error>, ghost t: seq<Event>)
      modifies hal
      ensures hal.log == old(hal.log) + t
      ensures RawRead(PressureCommand(osr), ConversionTimeUs(osr), t, r)
    {
      r, t := ReadRaw(PressureCommand(osr), ConversionTimeUs(osr));
    }

    /** `read_pressure_temperature`: D2 first, then D1, then the compensation
        with this driver's coefficients. Both counts come from the 24-bit ADC,
        so the compensation is computed without overflow. */
    method ReadPressureTemperature(osr: OversamplingRatio)
      returns (r: Result<Reading, Error>,
               ghost tT: seq<Event>, ghost d2: Result<u32, Error>,
               ghost tP: seq<Event>, ghost d1: Result<u32, Error>)
      modifies hal
      ensures hal.log == old(hal.log) + tT + tP
      ensures RawRead(TemperatureCommand(osr), ConversionTimeUs(osr), tT, d2)
      ensures d2.Err? ==> tP == [] && r == Err(d2.error)
      ensures d2.Ok? ==>
        && RawRead(PressureCommand(osr), ConversionTimeUs(osr), tP, d1)
        && r == (if d1.Ok? then Ok(Compensate(coefficients, d1.value, d2.value)) else Err(d1.error))
      ensures r.Ok? ==> forall x <- Intermediates(coefficients, d1.value, d2.value) :: InI64(x)
    {
      d1 := Err(Cs);
      var temp;
      temp, tT := ReadRawTemperature(osr);
      d2 := temp;
      if temp.Err? {
        r, tP := Err(temp.error), [];
        return;
      }
      var pressure;
      pressure, tP := ReadRawPressure(osr);
      d1 := pressure;
      if pressure.Err? {
        r := Err(pressure.error);
        return;
      }
      AdcBelow24Bits(tT[4..], temp);
      AdcBelow24Bits(tP[4..], pressure);
      NoOverflow(coefficients, pressure.value, temp.value);
      r := Ok(Compensate(coefficients, pressure.value, temp.value));
    }
  }

  /** An ADC count is at most 24 bits wide. */
  lemma AdcBelow24Bits(t: seq<Event>, r: Result<u32, Error>)
    requires AdcTx(t, r) && r.Ok?
    ensures r.value < 0x100_0000
  {
  }
}
