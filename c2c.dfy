/*
 * The chip-to-chip (C2C) unit of gpu/c2c.py: its link count, its instances
 * from the device-info table, and the firmware status the VBIOS leaves in
 * scratch register 38.
 */
module C2C {
  import opened Bits
  import opened Text
  import opened GpuErrors
  import opened Devices
  import opened DeviceInfo

  /** `num_links`: 14 on Blackwell, 10 before. */
  function NumLinks(blackwell: bool): nat
  {
    if blackwell then 14 else 10
  }

  /** The device-info type of a C2C instance. */
  const C2CType: nat := 0x19

  /** `vbios_scratch_register(index)`: the bank moved on Turing. */
  function ScratchRegister(turingPlus: bool, index: nat): nat
  {
    (if turingPlus then 0x1400 else 0x1580) + index * 4
  }

  /** Each bank holds one word-aligned register per index, and the two
      banks' first 96 registers do not overlap. */
  lemma ScratchRegisterMeans(turingPlus: bool, i: nat, j: nat)
    ensures ScratchRegister(turingPlus, i) % 4 == 0
    ensures ScratchRegister(turingPlus, i) == ScratchRegister(turingPlus, j) <==> i == j
    ensures i < 96 && j < 96 ==> ScratchRegister(true, i) != ScratchRegister(false, j)
  {
  }

  /** `firmware_status()` of a status word. */
  function StatusText(status: u32): string
  {
    if status == 0 then "not started"
    else if status == 0xff then "up"
    else "fail " + Hex(status)
  }

  /** Reading a status text back: the inverse of `StatusText`. */
  function ParseStatus(s: string): Option<nat>
  {
    if s == "not started" then Some(0)
    else if s == "up" then Some(0xff)
    else if |s| >= 5 && s[..5] == "fail " then ParseHex(s[5..])
    else None
  }

  /** The status text determines the status word, and the firmware is up
      exactly at 0xff. */
  lemma StatusTextRoundTrip(status: u32)
    ensures ParseStatus(StatusText(status)) == Some(status as nat)
    ensures StatusText(status) == "up" <==> status == 0xff
  {
    if status != 0 && status != 0xff {
      var s := StatusText(status);
      assert s[..5] == "fail ";
      assert s[5..] == Hex(status);
      ParseHexOfHex(status as nat);
      assert s != "not started" by { assert s[0] != "not started"[0]; }
      assert s != "up" by { assert s[0] != "up"[0]; }
    }
  }

  /** The scratch register read that `firmware_status` makes. */
  function StatusRegister(turingPlus: bool): nat
  {
    ScratchRegister(turingPlus, 38)
  }

  /** A C2C unit of one GPU. */
  class C2CUnit {
    const dev: Device
    const turingPlus: bool
    const numLinks: nat
    /** `instances`: the C2C instances listed in the device-info table. */
    const instances: seq<nat>

    constructor(dev: Device, turingPlus: bool, blackwell: bool, table: map<nat, seq<nat>>)
      ensures this.dev == dev && this.turingPlus == turingPlus
      ensures numLinks == NumLinks(blackwell)
      ensures instances == Lookup(table, C2CType)
    {
      this.dev := dev;
      this.turingPlus := turingPlus;
      numLinks := NumLinks(blackwell);
      instances := Lookup(table, C2CType);
    }

    /** `firmware_status()`: a read that raises on a bad value, then its text. */
    method FirmwareStatus() returns (r: Result<string>)
      modifies dev
      ensures var v := old(dev.Next(StatusRegister(turingPlus)));
        && dev.log == old(dev.log) + [Rd(StatusRegister(turingPlus), v)]
        && (r.Ok? <==> CheckedRead(StatusRegister(turingPlus), v).Ok?)
        && (r.Ok? ==> ParseStatus(r.value) == Some(v as nat) && r.value == StatusText(v))
        && (r.Err? ==> r.error == CheckedRead(StatusRegister(turingPlus), v).error)
    {
      var v := dev.Read(StatusRegister(turingPlus));
      if v.Err? {
        return Err(v.error);
      }
      StatusTextRoundTrip(v.value);
      r := Ok(StatusText(v.value));
    }
  }

  /** `GpuC2C(gpu)`: a unit whose instances come from the (cached)
      device-info table; a table read that raises creates no unit. */
  method NewC2CUnit(table: InfoTable, turingPlus: bool, blackwell: bool) returns (r: Result<C2CUnit>)
    modifies table, table.dev
    ensures r.Ok? ==>
      && fresh(r.value) && r.value.dev == table.dev && r.value.turingPlus == turingPlus
      && r.value.numLinks == NumLinks(blackwell)
      && table.cached.Some? && r.value.instances == Lookup(table.cached.value, C2CType)
    ensures r.Err? ==> table.cached == old(table.cached)
  {
    var m := table.DeviceInfoInstances();
    if m.Err? {
      return Err(m.error);
    }
    var u := new C2CUnit(table.dev, turingPlus, blackwell, m.value);
    r := Ok(u);
  }
}
