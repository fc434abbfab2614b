/**
 * The GPU's device-info table: `device_info_instances` in
 * nvidia_gpu_tools.py.
 *
 * The table is the register array NV_PTOP_DEVICE_INFO2 (353 rows of 32
 * bits, four bytes apart from 0x22800).  The NUM_ROWS field of
 * NV_PTOP_DEVICE_INFO_CFG (0x224fc, bits 31:20) says how many rows to
 * read.  A device is a run of rows joined by the ROW_CHAIN bit (bit 31);
 * a zero row outside a chain is no device.  The first row of a device
 * holds its type (bits 30:24) and its instance (bits 23:16), and the
 * result maps each type to its instances, in table order.
 */
module DeviceInfo {
  import opened Bits
  import opened Text
  import opened GpuErrors
  import opened Devices
  import Regs

  const InfoCfg: nat := 0x224fc
  const InfoRows: nat := 0x22800
  const InfoRowCount: nat := 353

  /** NV_PTOP_DEVICE_INFO_CFG_NUM_ROWS */
  function NumRows(cfg: nat): nat
  {
    Field(cfg, 20, 12)
  }

  /** `data.ROW_CHAIN == 1` */
  predicate Chained(row: nat)
  {
    Field(row, 31, 1) == 1
  }

  /** `(d[0] >> 24) & 0x7f` */
  function TypeOf(row: nat): nat
  {
    Field(row, 24, 7)
  }

  /** `(d[0] >> 16) & 0xff` */
  function InstanceOf(row: nat): nat
  {
    Field(row, 16, 8)
  }

  lemma {:induction false} ShrOfZero(n: nat)
    ensures Shr(0, n) == 0
  {
    if n > 0 {
      ShrOfZero(n - 1);
    }
  }

  /** A chained row is never the zero row. */
  lemma ZeroNotChained()
    ensures !Chained(0)
  {
    ShrOfZero(31);
  }

  // ---------------------------------------------------------------------
  // Grouping rows into devices

  /** The loop's variables: `in_chain`, the `device` being collected and
      the finished `devices`. */
  datatype Scan = Scan(inChain: bool, device: seq<u32>, devices: seq<seq<u32>>)

  /** One pass of the loop over the rows. */
  function Step(s: Scan, data: u32): Scan
  {
    var device := if s.inChain || data != 0 then s.device + [data] else s.device;
    var inChain := Chained(data);
    if !inChain && |device| != 0 then Scan(inChain, [], s.devices + [device])
    else Scan(inChain, device, s.devices)
  }

  /** The loop's variables after all of `rows`. */
  function ScanRows(rows: seq<u32>): Scan
  {
    if rows == [] then Scan(false, [], [])
    else Step(ScanRows(rows[..|rows| - 1]), rows[|rows| - 1])
  }

  /** A device: one or more rows, every one chained to the next except the last. */
  predicate IsDevice(d: seq<u32>)
  {
    |d| > 0 && !Chained(d[|d| - 1]) && forall i :: 0 <= i < |d| - 1 ==> Chained(d[i])
  }

  /** The rows a device collects: a row is kept when it is non-zero or
      the row before it chains on to it. */
  function Kept(rows: seq<u32>): seq<u32>
  {
    if rows == [] then []
    else
      var n := |rows|;
      Kept(rows[..n - 1]) + (if rows[n - 1] != 0 || (n >= 2 && Chained(rows[n - 2])) then [rows[n - 1]] else [])
  }

  function Flatten(ds: seq<seq<u32>>): seq<u32>
  {
    if ds == [] then [] else Flatten(ds[..|ds| - 1]) + ds[|ds| - 1]
  }

  /** The scan emits only whole devices.  The rows it keeps are exactly
      the finished devices followed by the open chain, and a chain still
      open after the last row (its last row chained on) is dropped. */
  lemma {:induction false} ScanShape(rows: seq<u32>)
    ensures var s := ScanRows(rows);
      && ScanOk(s)
      && (s.inChain <==> |rows| > 0 && Chained(rows[|rows| - 1]))
      && Flatten(s.devices) + s.device == Kept(rows)
  {
    if rows != [] {
      var n := |rows|;
      var init := rows[..n - 1];
      var data := rows[n - 1];
      ScanShape(init);
      var p := ScanRows(init);
      assert init == [] || init[|init| - 1] == rows[n - 2];
      StepShape(p, data);
      assert Kept(rows) == Kept(init) + (if data != 0 || (n >= 2 && Chained(rows[n - 2])) then [data] else []);
    }
  }

  /** The loop's variables between rows: finished devices are whole, and
      the open chain is non-empty exactly while `in_chain`. */
  predicate ScanOk(s: Scan)
  {
    && (forall k :: 0 <= k < |s.devices| ==> IsDevice(s.devices[k]))
    && (s.inChain <==> |s.device| > 0)
    && (forall i :: 0 <= i < |s.device| ==> Chained(s.device[i]))
  }

  lemma StepShape(p: Scan, data: u32)
    requires ScanOk(p)
    ensures var s := Step(p, data);
      && ScanOk(s)
      && s.inChain == Chained(data)
      && Flatten(s.devices) + s.device == Flatten(p.devices) + p.device + (if p.inChain || data != 0 then [data] else [])
  {
    var device := if p.inChain || data != 0 then p.device + [data] else p.device;
    if Chained(data) {
      ZeroNotChained();
    }
    if !Chained(data) && |device| != 0 {
      assert device[|device| - 1] == data;
      assert IsDevice(device);
      assert (p.devices + [device])[..|p.devices|] == p.devices;
      assert Flatten(p.devices + [device]) == Flatten(p.devices) + device;
    }
  }

  // ---------------------------------------------------------------------
  // Instances by type

  predicate AllDevices(ds: seq<seq<u32>>)
  {
    forall k :: 0 <= k < |ds| ==> |ds[k]| > 0
  }

  /** The instances of the devices of type `t`, in table order. */
  function Instances(ds: seq<seq<u32>>, t: nat): (r: seq<nat>)
    requires AllDevices(ds)
    ensures |r| <= |ds|
  {
    if ds == [] then []
    else
      var d := ds[|ds| - 1];
      Instances(ds[..|ds| - 1], t) + (if TypeOf(d[0]) == t then [InstanceOf(d[0])] else [])
  }

  lemma InstancesStep(ds: seq<seq<u32>>, i: nat, t: nat)
    requires AllDevices(ds) && i < |ds|
    ensures AllDevices(ds[..i]) && AllDevices(ds[..i + 1])
    ensures Instances(ds[..i + 1], t) ==
      Instances(ds[..i], t) + (if TypeOf(ds[i][0]) == t then [InstanceOf(ds[i][0])] else [])
  {
    assert ds[..i + 1][..i] == ds[..i];
  }

  /** A `defaultdict(list)`: a missing type has no instances. */
  function Lookup(m: map<nat, seq<nat>>, t: nat): seq<nat>
  {
    if t in m then m[t] else []
  }

  /** Appending the next device's instance under its type files one more device. */
  lemma FileNext(ds: seq<seq<u32>>, i: nat, m: map<nat, seq<nat>>, m1: map<nat, seq<nat>>)
    requires AllDevices(ds) && i < |ds|
    requires forall t :: Lookup(m, t) == Instances(ds[..i], t)
    requires m1 == m[TypeOf(ds[i][0]) := Lookup(m, TypeOf(ds[i][0])) + [InstanceOf(ds[i][0])]]
    ensures forall u :: Lookup(m1, u) == Instances(ds[..i + 1], u)
  {
    forall u
      ensures Lookup(m1, u) == Instances(ds[..i + 1], u)
    {
      InstancesStep(ds, i, u);
    }
  }

  /** Each instance listed for `t` is that of a device of type `t`, and
      each device of type `t` has its instance listed, at its own rank. */
  lemma {:induction false} InstancesMeans(ds: seq<seq<u32>>, t: nat, x: nat)
    requires AllDevices(ds)
    ensures x in Instances(ds, t) <==> exists k :: 0 <= k < |ds| && TypeOf(ds[k][0]) == t && InstanceOf(ds[k][0]) == x
  {
    if ds != [] {
      var init := ds[..|ds| - 1];
      InstancesMeans(init, t, x);
      if x in Instances(init, t) {
        var k :| 0 <= k < |init| && TypeOf(init[k][0]) == t && InstanceOf(init[k][0]) == x;
        assert ds[k] == init[k];
      }
      if exists k :: 0 <= k < |ds| && TypeOf(ds[k][0]) == t && InstanceOf(ds[k][0]) == x {
        var k :| 0 <= k < |ds| && TypeOf(ds[k][0]) == t && InstanceOf(ds[k][0]) == x;
        if k < |init| {
          assert init[k] == ds[k];
        }
      }
    }
  }

  /** The loop that files each device's instance under its type. */
  method TableOf(ds: seq<seq<u32>>) returns (m: map<nat, seq<nat>>)
    requires AllDevices(ds)
    ensures forall t :: Lookup(m, t) == Instances(ds, t)
  {
    m := map[];
    var i := 0;
    while i < |ds|
      invariant 0 <= i <= |ds|
      invariant forall t :: Lookup(m, t) == Instances(ds[..i], t)
    {
      var t := TypeOf(ds[i][0]);
      var x := InstanceOf(ds[i][0]);
      ghost var m0 := m;
      m := m[t := Lookup(m, t) + [x]];
      FileNext(ds, i, m0, m);
      i := i + 1;
    }
    assert ds[..i] == ds;
  }

  // ---------------------------------------------------------------------
  // Reading the table

  /** The first `n` rows, read one after the other with `read_bad_ok`. */
  function ReadRows(bar0: (seq<Access>, nat) -> u32, log: seq<Access>, n: nat): (r: (seq<u32>, seq<Access>))
    ensures |r.0| == n
  {
    if n == 0 then ([], log)
    else
      var (rows, log1) := ReadRows(bar0, log, n - 1);
      var offset := InfoRows + 4 * (n - 1);
      var v := bar0(log1, offset);
      (rows + [v], log1 + [Rd(offset, v)])
  }

  lemma RowsNext(bar0: (seq<Access>, nat) -> u32, log: seq<Access>, i: nat, rows: seq<u32>, data: u32)
    requires |rows| == i
    ensures ReadRows(bar0, log, i + 1) ==
      var (rs, log1) := ReadRows(bar0, log, i);
      var v := bar0(log1, InfoRows + 4 * i);
      (rs + [v], log1 + [Rd(InfoRows + 4 * i, v)])
    ensures ScanRows(rows + [data]) == Step(ScanRows(rows), data)
  {
    assert (rows + [data])[..|rows|] == rows;
  }

  /** What reading the table yields: the devices, or the `IndexError` of
      row 353 when NUM_ROWS asks for more rows than the array has; and
      the accesses made. */
  function ReadDevices(bar0: (seq<Access>, nat) -> u32, log: seq<Access>): (Result<seq<seq<u32>>>, seq<Access>)
  {
    var cfg := bar0(log, InfoCfg);
    var n := NumRows(cfg);
    var (rows, log1) := ReadRows(bar0, log + [Rd(InfoCfg, cfg)], if n <= InfoRowCount then n else InfoRowCount);
    if n > InfoRowCount then (Err(Regs.ArrayAddress(InfoRows, 4, InfoRowCount, InfoRowCount).error), log1)
    else (Ok(ScanRows(rows).devices), log1)
  }

  /** Reading the table yields only whole devices, or an `IndexError`. */
  lemma ReadDevicesShape(bar0: (seq<Access>, nat) -> u32, log: seq<Access>)
    ensures var r := ReadDevices(bar0, log).0;
      && (r.Err? ==> r.error.IndexError?)
      && (r.Ok? ==> forall k :: 0 <= k < |r.value| ==> IsDevice(r.value[k]))
  {
    var cfg := bar0(log, InfoCfg);
    var n := NumRows(cfg);
    var m := if n <= InfoRowCount then n else InfoRowCount;
    ScanShape(ReadRows(bar0, log + [Rd(InfoCfg, cfg)], m).0);
  }

  /** Reading the table only reads: the configuration register and then
      each row, one read per row. */
  lemma ReadDevicesOnlyReads(bar0: (seq<Access>, nat) -> u32, log: seq<Access>)
    ensures var out := ReadDevices(bar0, log).1;
      && log < out && Writes(out[|log|..]) == []
      && |out| == |log| + 1 + (if NumRows(bar0(log, InfoCfg)) <= InfoRowCount then NumRows(bar0(log, InfoCfg)) else InfoRowCount)
  {
    var cfg := bar0(log, InfoCfg);
    var n := NumRows(cfg);
    var m := if n <= InfoRowCount then n else InfoRowCount;
    var out := ReadRows(bar0, log + [Rd(InfoCfg, cfg)], m).1;
    RowsOnlyRead(bar0, log + [Rd(InfoCfg, cfg)], m);
    assert out[|log|..] == [Rd(InfoCfg, cfg)] + out[|log| + 1..];
    WritesAppend([Rd(InfoCfg, cfg)], out[|log| + 1..]);
  }

  lemma {:induction false} RowsOnlyRead(bar0: (seq<Access>, nat) -> u32, log: seq<Access>, n: nat)
    ensures var out := ReadRows(bar0, log, n).1;
      log <= out && |out| == |log| + n && Writes(out[|log|..]) == []
  {
    if n > 0 {
      RowsOnlyRead(bar0, log, n - 1);
      var (rows, log1) := ReadRows(bar0, log, n - 1);
      var offset := InfoRows + 4 * (n - 1);
      var v := bar0(log1, offset);
      assert (log1 + [Rd(offset, v)])[|log|..] == log1[|log|..] + [Rd(offset, v)];
      WritesAppend(log1[|log|..], [Rd(offset, v)]);
    }
  }

  /** The cached table of one device. */
  class InfoTable {
    const dev: Device
    /** `is_hopper_plus`: only those chips have the table. */
    const hopperPlus: bool
    /** `_device_info_instances` */
    var cached: Option<map<nat, seq<nat>>>

    constructor(dev: Device, hopperPlus: bool)
      ensures this.dev == dev && this.hopperPlus == hopperPlus && cached == None
    {
      this.dev := dev;
      this.hopperPlus := hopperPlus;
      cached := None;
    }

    /** `device_info_instances`: the cached table, or the table read from
        the device and then cached.  A read that raises caches nothing. */
    method DeviceInfoInstances() returns (r: Result<map<nat, seq<nat>>>)
      modifies this, dev
      ensures !hopperPlus ==> r == Err(AssertionError("")) && dev.log == old(dev.log) && cached == old(cached)
      ensures hopperPlus && old(cached).Some? ==>
        r == Ok(old(cached).value) && dev.log == old(dev.log) && cached == old(cached)
      ensures hopperPlus && old(cached).None? ==>
        var (t, out) := ReadDevices(dev.bar0, old(dev.log));
        && dev.log == out
        && (r.Err? <==> t.Err?)
        && (r.Err? ==> r.error == t.error && cached == None)
        && (r.Ok? ==> cached == Some(r.value) && AllDevices(t.value)
                      && forall k :: Lookup(r.value, k) == Instances(t.value, k))
    {
      if !hopperPlus {
        return Err(AssertionError(""));
      }
      if cached.Some? {
        return Ok(cached.value);
      }
      var devices := ReadDevicesFrom();
      if devices.Err? {
        return Err(devices.error);
      }
      var m := TableOf(devices.value);
      cached := Some(m);
      r := Ok(m);
    }

    /** `regs.read(NV_PTOP_DEVICE_INFO2(i))`: row `i`, or the `IndexError`
        of an index past the array. */
    method ReadRow(i: nat) returns (r: Result<u32>)
      modifies dev
      ensures i < InfoRowCount ==>
        r == Ok(old(dev.Next(InfoRows + 4 * i))) && dev.log == old(dev.log) + [Rd(InfoRows + 4 * i, r.value)]
      ensures i >= InfoRowCount ==>
        r == Err(Regs.ArrayAddress(InfoRows, 4, InfoRowCount, i).error) && dev.log == old(dev.log)
    {
      var a := Regs.ArrayAddress(InfoRows, 4, InfoRowCount, i);
      Regs.ArrayAddressOk(InfoRows, 4, InfoRowCount, i);
      if a.Err? {
        return Err(a.error);
      }
      var v := dev.ReadBadOk(a.value);
      r := Ok(v);
    }

    /** The loop over the rows. */
    method ReadDevicesFrom() returns (r: Result<seq<seq<u32>>>)
      modifies dev
      ensures (r, dev.log) == ReadDevices(dev.bar0, old(dev.log))
      ensures r.Ok? ==> AllDevices(r.value)
    {
      var cfg := dev.ReadBadOk(InfoCfg);
      var n := NumRows(cfg);
      ghost var log0 := dev.log;
      ghost var rows: seq<u32> := [];
      var inChain := false;
      var device: seq<u32> := [];
      var devices: seq<seq<u32>> := [];
      var i := 0;
      while i < n
        invariant 0 <= i <= InfoRowCount && i <= n
        invariant (rows, dev.log) == ReadRows(dev.bar0, log0, i)
        invariant Scan(inChain, device, devices) == ScanRows(rows)
      {
        var row := ReadRow(i);
        if row.Err? {
          return Err(row.error);
        }
        var data := row.value;
        if inChain || data != 0 {
          device := device + [data];
        }
        inChain := Chained(data);
        if !inChain && |device| != 0 {
          devices := devices + [device];
          device := [];
        }
        RowsNext(dev.bar0, log0, i, rows, data);
        rows := rows + [data];
        i := i + 1;
      }
      ScanShape(rows);
      r := Ok(devices);
    }
  }
}
