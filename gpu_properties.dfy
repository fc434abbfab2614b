/*
 * GPU identification of gpu/properties.py: the chip family a PCI device id
 * falls in, and the marketing name and property flags looked up by device
 * id (and subsystem id) in dictionaries written as literals.
 */
module GpuProperties {
  import opened Text

  /** A dictionary literal, as its entries in the order written.  Python
      keeps one entry per key: a key written again replaces the value. */
  type DictLiteral<K, V> = seq<(K, V)>

  /** `d.get(k)` of a dictionary literal: the value of the LAST entry with
      that key. */
  function Get<K(==), V>(d: DictLiteral<K, V>, k: K): Option<V>
  {
    if |d| == 0 then None
    else if d[|d| - 1].0 == k then Some(d[|d| - 1].1)
    else Get(d[..|d| - 1], k)
  }

  /** The dictionary a literal builds: each entry inserted in turn. */
  function DictOf<K(==), V>(d: DictLiteral<K, V>): map<K, V>
  {
    if |d| == 0 then map[] else DictOf(d[..|d| - 1])[d[|d| - 1].0 := d[|d| - 1].1]
  }

  /** `get` on the literal agrees with indexing the dictionary it builds. */
  lemma {:induction false} GetMeans<K, V>(d: DictLiteral<K, V>, k: K)
    ensures Get(d, k).Some? <==> k in DictOf(d)
    ensures Get(d, k).Some? ==> Get(d, k).value == DictOf(d)[k]
  {
    if |d| > 0 {
      GetMeans(d[..|d| - 1], k);
    }
  }

  /** `get` finds the key exactly when some entry has it, and then returns
      the value of an entry with that key after which none has it. */
  lemma {:induction false} GetLast<K, V>(d: DictLiteral<K, V>, k: K)
    ensures Get(d, k).Some? <==> exists i :: 0 <= i < |d| && d[i].0 == k
    ensures Get(d, k).Some? ==>
      exists i :: 0 <= i < |d| && d[i].0 == k && d[i].1 == Get(d, k).value
        && forall j :: i < j < |d| ==> d[j].0 != k
  {
    if |d| > 0 {
      var p := d[..|d| - 1];
      GetLast(p, k);
      if d[|d| - 1].0 == k {
        assert d[|d| - 1].0 == k;
      } else {
        if Get(d, k).Some? {
          var i :| 0 <= i < |p| && p[i].0 == k && p[i].1 == Get(p, k).value
            && forall j :: i < j < |p| ==> p[j].0 != k;
          assert d[i] == p[i];
          assert forall j :: i < j < |d| ==> d[j].0 != k by {
            forall j | i < j < |d|
              ensures d[j].0 != k
            {
              if j < |p| {
                assert d[j] == p[j];
              }
            }
          }
        } else {
          forall i | 0 <= i < |d|
            ensures d[i].0 != k
          {
            if i < |p| {
              assert d[i] == p[i];
            }
          }
        }
      }
    }
  }

  /** Conversely, an entry that no later entry overrides is what `get` returns. */
  lemma {:induction false} GetAt<K, V>(d: DictLiteral<K, V>, i: nat)
    requires i < |d|
    requires forall j :: i < j < |d| ==> d[j].0 != d[i].0
    ensures Get(d, d[i].0) == Some(d[i].1)
  {
    if i < |d| - 1 {
      var p := d[..|d| - 1];
      assert p[i] == d[i];
      forall j | i < j < |p|
        ensures p[j].0 != p[i].0
      {
        assert p[j] == d[j];
      }
      GetAt(p, i);
    }
  }

  /** `GPU_NAME_BY_DEVID` (gpu/devid_names.py), entries in the order written. */
  const NameByDevid: DictLiteral<nat, string> := [
    (0x27B6, "L2"), (0x27B8, "L4"), (0x26B7, "L20"), (0x26BA, "L20"),
    (0x26B5, "L40"), (0x26B9, "L40S"), (0x26B8, "L40G"), (0x2313, "H100"),
    (0x2321, "H100"), (0x2330, "H100"), (0x2331, "H100"), (0x2336, "H100"),
    (0x2337, "H100"), (0x2338, "H100"), (0x2339, "H100"), (0x233D, "H100"),
    (0x2342, "H100"), (0x2313, "H100"), (0x2321, "H100"), (0x2330, "H100"),
    (0x2331, "H100"), (0x2336, "H100"), (0x2337, "H100"), (0x2338, "H100"),
    (0x2339, "H100"), (0x233D, "H100"), (0x2342, "H100"), (0x2335, "H200"),
    (0x233B, "H200"), (0x2342, "GH200"), (0x2343, "GH200"), (0x2345, "GH200"),
    (0x2348, "GH200"), (0x2322, "H800"), (0x2324, "H800"), (0x233A, "H800"),
    (0x2328, "H20"), (0x2329, "H20"), (0x2309, "H20"), (0x230C, "H20"),
    (0x230E, "H20"), (0x232C, "H20")
  ]

  /** `GPU_    ((0x2321, 0x1839), ["is_pcie"]),
    ((0x2322, 0x17A4), ["is_pcie"]),
    ((0x2331, 0x1626), ["is_pcie"]),
    ((0x233A, 0x183A), ["is_pcie"]),
    ((0x233B, 0x1996), ["is_pcie"]),
    ((0x233D, 0x1626), ["is_pcie"]),
    ((0x2324, 0x17A6), ["is_sxm", "has_module_id_bit_flip"]),
    ((0x2324, 0x17A8), ["is_sxm", "has_module_id_bit_flip"]),
    ((0x2328, 0x1905), ["is_sxm", "has_module_id_bit_flip"]),
    ((0x2328, 0x1906), ["is_sxm", "has_module_id_bit_flip"]),
    ((0x2329, 0x198B), ["is_sxm", "has_module_id_bit_flip"]),
    ((0x2329, 0x198C), ["is_sxm", "has_module_id_bit_flip"]),
    ((0x232C, 0x2063), ["is_sxm", "has_module_id_bit_flip"]),
    ((0x232C, 0x2064), ["is_sxm", "has_module_id_bit_flip"]),
    ((0x2330, 0x16C0), ["is_sxm", "has_module_id_bit_flip"]),
    ((0x2330, 0x16C1), ["is_sxm", "has_module_id_bit_flip"]),
    ((0x2330, 0x2044), ["is_sxm", "has_module_id_bit_flip"]),
    ((0x2330, 0x20C1), ["is_sxm", "has_module_id_bit_flip"]),
    ((0x2335, 0x18BE), ["is_sxm", "has_module_id_bit_flip"]),
    ((0x2335, 0x18BF), ["is_sxm", "has_module_id_bit_flip"]),
    ((0x2336, 0x16C2), ["is_sxm", "has_module_id_bit_flip"]),
    ((0x2336, 0x16C7), ["is_sxm", "has_module_id_bit_flip"]),
    ((0x2337, 0x16E5), ["is_sxm", "has_module_id_bit_flip"]),
    ((0x2337, 0x16EF), ["is_sxm", "has_module_id_bit_flip"]),
    ((0x2338, 0x16F6), ["is_sxm", "has_module_id_bit_flip"]),
    ((0x2338, 0x16F7), ["is_sxm", "has_module_id_bit_flip"]),
    ((0x2339, 0x17D9), ["is_sxm", "has_module_id_bit_flip"]),
    ((0x2339, 0x17FC), ["is_sxm", "has_module_id_bit_flip"]),
    ((0x2342, 0x16EB), ["has_c2c", "is_sxm"]),
    ((0x2342, 0x16EC), ["has_c2c", "is_sxm"]),
    ((0x2342, 0x16ED), ["has_c2c", "is_sxm"]),
    ((0x2342, 0x1805), ["has_c2c", "is_sxm"]),
    ((0x2342, 0x1809), ["has_c2c", "is_sxm"]),
    ((0x2342, 0x1935), ["has_c2c", "is_sxm"]),
    ((0x2342, 0x1937), ["has_c2c", "is_sxm"]),
    ((0x2343, 0x16EC), ["has_c2c", "is_sxm"]),
    ((0x2345, 0x16ED), ["has_c2c", "is_sxm"]),
    ((0x2348, 0x18D2), ["has_c2c", "is_sxm"])_BY_DEVID` (gpu/devid_properties.py), keyed by (device id, subsystem id). */
  const PropsByDevid: DictLiteral<(nat, nat), seq<string>> := [
    ((0x2321, 0x1839), ["is_pcie"]),
    ((0x2322, 0x17A4), ["is_pcie"]),
    ((0x2331, 0x1626), ["is_pcie"]),
    ((0x233A, 0x183A), ["is_pcie"]),
    ((0x233B, 0x1996), ["is_pcie"]),
    ((0x233D, 0x1626), ["is_pcie"]),
    ((0x2324, 0x17A6), ["is_sxm", "has_module_id_bit_flip"]),
    ((0x2324, 0x17A8), ["is_sxm", "has_module_id_bit_flip"]),
    ((0x2328, 0x1905), ["is_sxm", "has_module_id_bit_flip"]),
    ((0x2328, 0x1906), ["is_sxm", "has_module_id_bit_flip"]),
    ((0x2329, 0x198B), ["is_sxm", "has_module_id_bit_flip"]),
    ((0x2329, 0x198C), ["is_sxm", "has_module_id_bit_flip"]),
    ((0x232C, 0x2063), ["is_sxm", "has_module_id_bit_flip"]),
    ((0x232C, 0x2064), ["is_sxm", "has_module_id_bit_flip"]),
    ((0x2330, 0x16C0), ["is_sxm", "has_module_id_bit_flip"]),
    ((0x2330, 0x16C1), ["is_sxm", "has_module_id_bit_flip"]),
    ((0x2330, 0x2044), ["is_sxm", "has_module_id_bit_flip"]),
    ((0x2330, 0x20C1), ["is_sxm", "has_module_id_bit_flip"]),
    ((0x2335, 0x18BE), ["is_sxm", "has_module_id_bit_flip"]),
    ((0x2335, 0x18BF), ["is_sxm", "has_module_id_bit_flip"]),
    ((0x2336, 0x16C2), ["is_sxm", "has_module_id_bit_flip"]),
    ((0x2336, 0x16C7), ["is_sxm", "has_module_id_bit_flip"]),
    ((0x2337, 0x16E5), ["is_sxm", "has_module_id_bit_flip"]),
    ((0x2337, 0x16EF), ["is_sxm", "has_module_id_bit_flip"]),
    ((0x2338, 0x16F6), ["is_sxm", "has_module_id_bit_flip"]),
    ((0x2338, 0x16F7), ["is_sxm", "has_module_id_bit_flip"]),
    ((0x2339, 0x17D9), ["is_sxm", "has_module_id_bit_flip"]),
    ((0x2339, 0x17FC), ["is_sxm", "has_module_id_bit_flip"]),
    ((0x2342, 0x16EB), ["has_c2c", "is_sxm"]),
    ((0x2342, 0x16EC), ["has_c2c", "is_sxm"]),
    ((0x2342, 0x16ED), ["has_c2c", "is_sxm"]),
    ((0x2342, 0x1805), ["has_c2c", "is_sxm"]),
    ((0x2342, 0x1809), ["has_c2c", "is_sxm"]),
    ((0x2342, 0x1935), ["has_c2c", "is_sxm"]),
    ((0x2342, 0x1937), ["has_c2c", "is_sxm"]),
    ((0x2343, 0x16EC), ["has_c2c", "is_sxm"]),
    ((0x2345, 0x16ED), ["has_c2c", "is_sxm"]),
    ((0x2348, 0x18D2), ["has_c2c", "is_sxm"])
  ]

  /** One row of `GPU_DEVID_CHIPS`: an inclusive device-id range. */
  datatype ChipRange = ChipRange(low: nat, high: nat, arch: string, chip: string)

  /** `GPU_DEVID_CHIPS` (gpu/devid_chips.py) */
  const DevidChips: seq<ChipRange> := [
    ChipRange(0x2900, 0x297F, "blackwell", "gb100"),
    ChipRange(0x2980, 0x29FF, "blackwell", "gb102"),
    ChipRange(0x2B80, 0x2BFF, "blackwell", "gb202"),
    ChipRange(0x2C00, 0x2C7F, "blackwell", "gb203"),
    ChipRange(0x2F00, 0x2F7F, "blackwell", "gb205"),
    ChipRange(0x2D00, 0x2D7F, "blackwell", "gb206"),
    ChipRange(0x2D80, 0x2DFF, "blackwell", "gb207")
  ]

  predicate InRange(c: ChipRange, devid: nat)
  {
    c.low <= devid <= c.high
  }

  /** The (arch, chip) of the first row whose range holds `devid`; `None`
      stands for the `(None, None)` of no match. */
  function ChipFamily(rows: seq<ChipRange>, devid: nat): Option<(string, string)>
  {
    if |rows| == 0 then None
    else if InRange(rows[0], devid) then Some((rows[0].arch, rows[0].chip))
    else ChipFamily(rows[1..], devid)
  }

  /** A family is found exactly when some row holds the id, and it is that
      of the first such row. */
  lemma {:induction false} ChipFamilyMeans(rows: seq<ChipRange>, devid: nat)
    ensures ChipFamily(rows, devid).Some? <==> exists i :: 0 <= i < |rows| && InRange(rows[i], devid)
    ensures ChipFamily(rows, devid).Some? ==>
      exists i :: 0 <= i < |rows| && InRange(rows[i], devid)
        && ChipFamily(rows, devid).value == (rows[i].arch, rows[i].chip)
        && forall j :: 0 <= j < i ==> !InRange(rows[j], devid)
  {
    if |rows| > 0 {
      ChipFamilyMeans(rows[1..], devid);
      if InRange(rows[0], devid) {
        assert InRange(rows[0], devid);
      } else if ChipFamily(rows, devid).Some? {
        var t := rows[1..];
        var i :| 0 <= i < |t| && InRange(t[i], devid)
          && ChipFamily(t, devid).value == (t[i].arch, t[i].chip)
          && forall j :: 0 <= j < i ==> !InRange(t[j], devid);
        assert rows[i + 1] == t[i];
        forall j | 0 <= j < i + 1
          ensures !InRange(rows[j], devid)
        {
          if j > 0 {
            assert rows[j] == t[j - 1];
          }
        }
      } else {
        forall i | 0 <= i < |rows|
          ensures !InRange(rows[i], devid)
        {
          if i > 0 {
            assert rows[i] == rows[1..][i - 1];
          }
        }
      }
    }
  }

  /** No two ranges share an id and each range is non-empty. */
  predicate Disjoint(rows: seq<ChipRange>)
  {
    && (forall i :: 0 <= i < |rows| ==> rows[i].low <= rows[i].high)
    && (forall i, j :: 0 <= i < j < |rows| ==> rows[i].high < rows[j].low || rows[j].high < rows[i].low)
  }

  lemma DevidChipsDisjoint(rows: seq<ChipRange>)
    requires rows == DevidChips
    ensures Disjoint(rows)
  {
  }

  /** In a table of disjoint ranges the order of the rows does not matter:
      any row holding the id gives the family. */
  lemma ChipFamilyOfDisjoint(rows: seq<ChipRange>, devid: nat, i: nat)
    requires Disjoint(rows) && i < |rows| && InRange(rows[i], devid)
    ensures ChipFamily(rows, devid) == Some((rows[i].arch, rows[i].chip))
  {
    ChipFamilyMeans(rows, devid);
  }

  /** `get_chip_family(devid)`: the scan of `GPU_DEVID_CHIPS`. */
  method GetChipFamily(devid: nat) returns (r: Option<(string, string)>)
    ensures r == ChipFamily(DevidChips, devid)
  {
    var rows := DevidChips;
    var i := 0;
    while i < |rows|
      invariant 0 <= i <= |rows|
      invariant ChipFamily(rows, devid) == ChipFamily(rows[i..], devid)
    {
      if rows[i].low <= devid && devid <= rows[i].high {
        return Some((rows[i].arch, rows[i].chip));
      }
      assert rows[i..][1..] == rows[i + 1..];
      i := i + 1;
    }
    return None;
  }

  /** Device id 0x2342 is written three times in `GPU_NAME_BY_DEVID`, twice
      as "H100" and last as "GH200": the lookup gives "GH200". */
  lemma RepeatedNameKey(d: DictLiteral<nat, string>)
    requires d == NameByDevid
    ensures d[16] == (0x2342, "H100") && d[26] == (0x2342, "H100")
    ensures Get(d, 0x2342) == Some("GH200")
  {
    assert d[29] == (0x2342, "GH200");
    GetAt(d, 29);
  }

  /** No row of `GPU_DEVID_CHIPS` covers a Hopper id such as 0x2342, and
      0x2901 is a GB100. */
  lemma ChipFamilyExamples(rows: seq<ChipRange>)
    requires rows == DevidChips
    ensures ChipFamily(rows, 0x2342) == None
    ensures ChipFamily(rows, 0x2901) == Some(("blackwell", "gb100"))
  {
    ChipFamilyMeans(rows, 0x2342);
  }

  /** The identity of a GPU: its `PMC_BOOT_0`, device id and subsystem id. */
  datatype GpuIdentity = GpuIdentity(boot0: nat, devid: nat, ssid: nat)

  /** What `get_properties` returns. */
  datatype Properties = Properties(name: Option<string>, flags: seq<string>)

  function GetProperties(g: GpuIdentity): (p: Properties)
  {
    Properties(Get(NameByDevid, g.devid),
               match Get(PropsByDevid, (g.devid, g.ssid)) case Some(f) => f case None => [])
  }

  /** The name and flags are those of the dictionaries the literals build;
      a missing name is `None` and missing flags are empty. */
  lemma GetPropertiesMeans(g: GpuIdentity)
    ensures GetProperties(g).name.Some? <==> g.devid in DictOf(NameByDevid)
    ensures GetProperties(g).name.Some? ==> GetProperties(g).name.value == DictOf(NameByDevid)[g.devid]
    ensures (g.devid, g.ssid) in DictOf(PropsByDevid) ==>
      GetProperties(g).flags == DictOf(PropsByDevid)[(g.devid, g.ssid)]
    ensures (g.devid, g.ssid) !in DictOf(PropsByDevid) ==> GetProperties(g).flags == []
  {
    GetMeans(NameByDevid, g.devid);
    GetMeans(PropsByDevid, (g.devid, g.ssid));
  }
}
