# gpu-admin-tools core, modelled in Dafny

A model of the core of NVIDIA's gpu-admin-tools (`nvidia_gpu_tools.py` and
its `gpu/`, `pci/` and `utils/` packages): the host-side Python that talks to
a GPU or NVSwitch through its PCI configuration space and BAR0 registers to
query and change Confidential Computing (CC), protected-PCIe (PPCIe) and
BAR0-firewall modes, to exchange messages with the FSP (the GPU's security
processor) and the MSE, and to reset and block links.

The model keeps the program's own structure, one module per source file:

- **Registers and devices** (`device.dfy`, `config_space.dfy`,
  `device_field.dfy`, `raw_bitfield.dfy`, `regs_core.dfy`, `bitfield.dfy`,
  `device_info.dfy`): a device is a class whose hardware is an oracle — a
  read returns a function of every access made before it — and whose
  accesses are logged, so every method is proved against the exact trace of
  reads and writes the Python makes.  `poll_register` is a loop whose
  timeout counts passes.
- **Byte and struct layouts** (`ints_to_bytes.dfy`, `nice_struct.dfy`,
  `nice_struct_array.dfy`, `word_runs.dfy`, `fsp_mctp.dfy`): packing and
  unpacking with round trips in both directions.
- **Transports and RPC** (`falcon.dfy`, `emem_rpc.dfy`, `mnoc.dfy`,
  `fsp_rpc.dfy`, `fsp_init.dfy`, `mse.dfy`): the EMEM queues and the MNOC
  mailboxes as loops over the device, the FSP RPC packetisation and reply
  checks, the PRC knob commands, and the MSE client.
- **Mode operations** (`knob_modes.dfy`, `knob_settings.dfy`,
  `cc_modes.dfy`, `prc.dfy`): `set_cc_mode`, `set_ppcie_mode`,
  `set_bar0_firewall_mode`, `query_prc_knobs`, `knobs_set` and the mode
  queries, proved safe against any firmware answer (CC-devtools is never
  enabled without CC).
- **PCI** (`pci_caps.dfy`, `pci_bars.dfy`, `pci_device.dfy`,
  `pci_devices.dfy`, `pci_bridge.dfy`, `cx7.dfy`, `py_slice.dfy`):
  capability walks, BAR probing, saving and restoring config registers, the
  device-specifier language, secondary bus resets and the ConnectX-7 lookup.
- **GPU units** (`gpu_properties.dfy`, `c2c.dfy`, `nvlink.dfy`): chip family
  and name lookup, the C2C firmware status, and NVLink state, blocking and
  the blocking self-test.
- **Support** (`bits.dfy`, `text.dfy`, `gpu_error.dfy`): Python's integer
  bit operations, `str`/`hex`/`int` and string splitting, and the exception
  hierarchy as values (a raised exception is an `Err` result).

Integers are unbounded; 32-bit register values are the subset type `u32`,
and every place where the Python masks or checks a width is written out.

## Model

| member | source | states |
|---|---|---|
| GpuErrors.FspRpcErrorShowsData | gpu/error.py:33-38 | an `FspRpcError` keeps its code, its RPC and its data words unchanged, and its message shows the code and every data word in hex |
| GpuErrors.InvalidKnobExactly | gpu/error.py:40-42 | `is_invalid_knob_error` holds for code 0x1e3 and for no other code, and every `FspRpcError` is a `GpuError` |
| Bitfields.IntAndNot | utils/bitfield.py:78 | `raw & ~mask` on Python's unbounded integers is negative exactly when `raw` is |
| Bitfields.IntOr | utils/bitfield.py:78 | `x \| val` with `val >= 0` is negative exactly when `x` is |
| Bitfields.LookupFinds | utils/bitfield.py:49 | the `fields` dict lookup finds a name exactly when the table has an entry of that name, and returns the first such entry |
| Bitfields.LowestSetBit | utils/bitfield.py:32-64 | `ffs(mask) - 1` is the index of a set bit of the mask with no set bit below it |
| Bitfields.RangeMask | utils/bitfield.py:48-64 | a `(high, low)` range has the mask of the `high - low + 1` bits from `low`, and its shift is `low` |
| Bitfields.GetRange | utils/bitfield.py:66-69 | reading a range field of a non-negative `raw` gives the bits `low ..= high` of `raw` |
| Bitfields.SetRange | utils/bitfield.py:71-78 | writing a range field succeeds exactly when the value fits in the field's width, and then replaces those bits |
| Bitfields.FitsMask | utils/bitfield.py:75-76 | the assertion `(val << shift) & ~mask == 0` passes exactly when `val` fits in the field's width |
| Bitfields.SetThenGet | utils/bitfield.py:66-78 | reading a field right after a successful write returns the value written, for any mask, including masks with gaps |
| Bitfields.GetItemIs | utils/bitfield.py:66-69 | `self[field]` is `(raw & mask) >> shift` once the mask and the shift are known |
| Bitfields.SetItemIs | utils/bitfield.py:71-78 | a successful write stores `(raw & ~mask) \| (val << shift)` with a non-negative `val` that lies inside the mask |
| Bitfields.ReplaceMasked | utils/bitfield.py:78 | masking the written raw with the field's mask gives back exactly the shifted value |
| Bitfields.SetKeepsOtherBits | utils/bitfield.py:78 | a write leaves every bit outside the mask as it was |
| Bitfields.SetFailures | utils/bitfield.py:49-76 | an unknown name raises `KeyError`, a zero mask fails `assert mask != 0`, and a negative or over-wide value fails the value assertion |
| Bitfields.ValuesOf | utils/bitfield.py:89-94 | `values()` lists one entry per field when no read fails |
| Bitfields.ValuesAt | utils/bitfield.py:89-94 | entry `i` of `values()` pairs field `i`'s name with what `self[name]` reads |
| Bitfields.ValuesFail | utils/bitfield.py:89-94 | `values()` raises exactly when some field of the table cannot be read |
| Bitfields.NonZeroExact | utils/bitfield.py:96-101 | `non_zero()` keeps exactly the entries whose value is not zero |
| Bitfields.NonZeroFieldsAreNames | utils/bitfield.py:103-108 | `non_zero_fields()` names the entries `non_zero()` keeps, in the same order |
| Bitfields.NonZeroFieldsOfTable | utils/bitfield.py:96-108 | a field is named by `non_zero_fields()` exactly when it reads non-zero |
| Bitfields.Bitfield.constructor | utils/bitfield.py:42-46 | the name defaults to the class's name when none is given |
| Bitfields.Bitfield.Set | utils/bitfield.py:71-78 | `self[field] = val` stores the new raw on success, and leaves `raw` unchanged when it raises |
| Bitfields.EqualReadsAlike | utils/bitfield.py:83-87 | two bitfields of one class that compare equal read the same value from every field |
| Bits.FieldOfSetField | utils/bitfield.py:66-78 | reading back a field just written gives the value cut to the field's width |
| Bits.FieldOfSetOtherField | utils/bitfield.py:66-78 | writing a field leaves every field that does not overlap it unchanged |
| Bits.SetFieldBelow | utils/bitfield.py:78 | writing a field inside a 32-bit register keeps the value below `2**32` |
| RawBitfields.SliceMask | nvidia_gpu_tools.py:920-931 | a step-one slice whose `indices(32)` are `lo <= hi` gets the mask of the `hi - lo` bits from `lo`, within 32 bits, and the shift `lo` |
| RawBitfields.PlainSlice | nvidia_gpu_tools.py:924 | `reg[lo:hi]` with `0 <= lo <= hi <= 32` has exactly the indices `(lo, hi, 1)` |
| RawBitfields.GetIsField | nvidia_gpu_tools.py:933-935 | reading a slice of a non-negative value gives that bit field |
| RawBitfields.SetIsSetField | nvidia_gpu_tools.py:937-941 | a slice can be written exactly with the values that fit its width, and the new value is the old one with that field replaced |
| RawBitfields.SetThenGetBits | nvidia_gpu_tools.py:933-941 | reading back the slice just written gives the bits written |
| RawBitfields.SetKeepsOtherBits | nvidia_gpu_tools.py:941 | a slice write leaves every bit outside the slice as it was |
| RawBitfields.SetBitsBelow | nvidia_gpu_tools.py:941 | a slice write keeps a 32-bit value within 32 bits |
| RawBitfields.KeyMaskFailures | nvidia_gpu_tools.py:921-926 | a key that is not a slice raises `TypeError`, a zero step raises `ValueError`, and any step other than 1 raises `IndexError` with the stride in the message |
| RawBitfields.TooManyBits | nvidia_gpu_tools.py:939-940 | a value with bits outside the slice's width raises `ValueError` showing the mask and the bits, and the value is kept |
| RawBitfields.RawBitfield.Set | nvidia_gpu_tools.py:937-941 | `self[key] = bits` stores the new value on success and changes nothing when it raises |
| RawBitfields.GpuBitfield.Get | nvidia_gpu_tools.py:954-956 | `self[key]` re-reads the register first (a bad read raises and keeps `value`), then takes the slice of what it read |
| RawBitfields.GpuBitfield.Set | nvidia_gpu_tools.py:958-961 | a successful slice write is written to the register unless deferred; a refused one changes nothing and writes nothing |
| RawBitfields.GpuBitfield.Commit | nvidia_gpu_tools.py:963-964 | `commit()` writes the value held to the register |
| RawBitfields.OpenGpuBitfield | nvidia_gpu_tools.py:944-952 | the register is read once unless an initial value is given, and a bad read raises |
| DeviceFields.DeviceField.constructor | utils/device_field.py:27-35 | the field reads the register once at its offset and width, and the name defaults to the bitfield class's name |
| DeviceFields.DeviceField.ReadValue | utils/device_field.py:37-40 | `_read()` makes a fresh bitfield named after the field, holding the word just read |
| DeviceFields.DeviceField.Get | utils/device_field.py:45-47 | `self[field]` re-reads the register, then reads the field from that word |
| DeviceFields.DeviceField.Set | utils/device_field.py:49-52 | `self[field] = val` re-reads, replaces only the field's bits and writes the word back; a refused value writes nothing |
| DeviceFields.DeviceField.WriteOnlyAsWritten | utils/device_field.py:54-60 | as written, `write_only` never reaches the device: `Bitfield(-1)` makes a negative raw, which the write refuses with `OverflowError` |
| DeviceFields.DeviceField.WriteOnly | utils/device_field.py:54-60 | with the other bits set within the access width, `write_only` writes one word and re-reads the register |
| DeviceFields.DeviceField.WriteRaw | utils/device_field.py:62-65 | `write_raw(x)` stores `x`, writes it and re-reads the register; when the write raises, `value.raw` keeps `x` and nothing is written |
| DeviceFields.WriteOnlyAsWrittenRaises | utils/device_field.py:57-59 | setting a field of `Bitfield(-1)` gives a negative raw, and encoding it raises `OverflowError` |
| DeviceFields.WriteOnlyWord | utils/device_field.py:57-59 | the word `write_only` writes holds `val` in the field and every other bit of the access width set |
| DeviceFields.WithinWidth | utils/device_field.py:57-59 | that word fits the access width, so encoding it succeeds |
| PySlices.Indices | pci/devices.py:54 | `slice.indices(len)` gives a non-zero step and, for a positive step, bounds within `0 ..= len`; for a negative step, bounds within `-1 .. len` |
| PySlices.CountBound | pci/devices.py:54 | the `k`-th index of the slice's range lies between its start and its stop |
| PySlices.SliceElements | pci/devices.py:54 | element `k` of `array[start:stop:step]` is the element of `array` at `start + k*step` of the clamped indices |
| PySlices.SliceContiguous | pci/devices.py:54 | a step-one slice with bounds inside the list is the contiguous sub-list |
| PySlices.SliceAll | pci/devices.py:54 | `array[::]` copies the whole list |
| PySlices.SliceReversed | pci/devices.py:54 | `array[::-1]` is the list reversed |
| PySlices.SliceFails | pci/devices.py:54 | slicing raises only for a zero step, with `ValueError("slice step cannot be zero")` |
| Text.DigitsValue | gpu/error.py:38 | `hex(n)` and `str(n)` write only digits of their base, and reading them back gives `n` |
| Text.ParseIntDec | pci/devices.py:51-56 | `int(str(n))` is `n`, for negative `n` too |
| Text.ParseHexOfHex | pci/devices.py:111-112 | `int(hex(n), 16)` is `n` |
| Text.LeadingDigit | gpu/error.py:38 | the digit string of `n` has no leading zero unless it is `"0"` |
| Text.SplitJoin | pci/devices.py:50 | no part of `s.split(sep)` holds the separator, and joining the parts with it gives back `s` |
| Text.SplitNoSep | pci/devices.py:50 | a string without the separator splits into itself alone |
| Text.SplitAt | pci/devices.py:50 | `(a + sep + b).split(sep)` is `a` followed by the parts of `b` when `a` has no separator |
| Text.LStripShape | pci/devices.py:88 | `s.lstrip()` is a suffix of `s` that does not start with a blank, and everything before it is blank |
| Text.RStripShape | pci/devices.py:88 | `s.rstrip()` is a prefix of `s` that does not end with a blank, and everything after it is blank |
| Text.StripEnds | pci/devices.py:88 | `s.strip()` neither starts nor ends with a blank |
| Text.StripSlice | pci/devices.py:88 | `s.strip()` is the slice of `s` between its leading and its trailing blanks |
| IntsToBytes.LeRoundTrip | utils/ints_to_bytes.py:94-96 | reading back the little-endian encoding of `x` gives `x` |
| IntsToBytes.LeBytesOfValue | utils/ints_to_bytes.py:73-91 | encoding the value of a byte string gives the byte string back |
| IntsToBytes.LeByteAt | utils/ints_to_bytes.py:94-96 | byte `j` of the encoding is `(x >> 8j) & 0xff` |
| IntsToBytes.DecodeAllLength | utils/ints_to_bytes.py:64-70 | a byte string of whole pieces decodes to `len / size` ints |
| IntsToBytes.UnknownSizesRejected | utils/ints_to_bytes.py:34-36 | every helper raises `AssertionError` for a size other than 1, 2, 4 and 8 |
| IntsToBytes.IntsFromDataShape | utils/ints_to_bytes.py:60-70 | `ints_from_data` raises `struct.error` exactly when the length is not a multiple of `size`, and otherwise gives `len / size` ints, each below `2**(8 size)` |
| IntsToBytes.DataFromIntRoundTrip | utils/ints_to_bytes.py:73-96 | `data_from_int` gives exactly `size` bytes, and `int_from_data` reads them back |
| IntsToBytes.DecodeEncodeAll | utils/ints_to_bytes.py:60-70 | decoding the concatenated encodings of a list gives the list |
| IntsToBytes.IntsFromDataRoundTrip | utils/ints_to_bytes.py:60-96 | `ints_from_data` of the concatenated `data_from_int` encodings gives back the ints |
| IntsToBytes.BytesRoundTrip | utils/ints_to_bytes.py:67-68 | with size 1 the bytes come back as they are |
| IntsToBytes.EncodeAllPiece | utils/ints_to_bytes.py:94-96 | the `i`-th piece of the concatenation is `data_from_int(ints[i], size)` |
| IntsToBytes.IntsFromDataBytes | utils/ints_to_bytes.py:67-68 | with size 1 `ints_from_data` lists the raw byte values |
| IntsToBytes.BytearrayViewLayout | utils/ints_to_bytes.py:99-101 | `bytearray_view_from_ints` lays out 4 bytes per int, least significant byte first |
| IntsToBytes.ArrayViewRoundTrip | utils/ints_to_bytes.py:99-107 | `array_view_from_bytearray` reads back the ints `bytearray_view_from_ints` laid out |
| IntsToBytes.WorkedExamples | utils/ints_to_bytes.py:73-101 | `int_from_data(b"\x01\x02\x03\x04", 4)` is `0x04030201`, short buffers raise, and `(0x01020304, 0x05060708)` lays out as bytes 4, 3, 2, 1, 8, 7, 6, 5 |
| NiceStructs.ConstructFormatString | utils/nice_struct.py:44-74 | the format loop returns the format items `Format` defines, or the ValueError for too many bits, a plain field inside an unfinished run, or an unfinished run at the end |
| NiceStructs.PadTo | utils/nice_struct.py:191 | a `"<n>s"` item packs its bytes cut or zero-padded to exactly `n` bytes |
| NiceStructs.PackUnpack | utils/nice_struct.py:95 | `struct.unpack_from` reads back exactly the items `struct.pack` wrote, and the packing is `calcsize` bytes long |
| NiceStructs.UnpackFits | utils/nice_struct.py:95 | every item `unpack_from` returns fits its format, and packing them gives back the first `calcsize` bytes |
| NiceStructs.RoundTrip | utils/nice_struct.py:94-191 | `from_bytes(to_bytes())` never raises, the packed data is `size` bytes, and every field reads back its value cut to its width |
| NiceStructs.DecodeThenEncode | utils/nice_struct.py:94-191 | for distinct field names, `to_bytes()` after `from_bytes(data)` gives back the first `size` bytes of `data` |
| NiceStructs.DecodeEncode | utils/nice_struct.py:103-145 | the decoding loop over the items the encoding loop produced sets every field to its masked value |
| NiceStructs.EncodeDecode | utils/nice_struct.py:154-189 | the encoding loop over attributes the decoding loop produced gives back the decoded items, and decoding does not raise |
| NiceStructs.DefaultIsZero | utils/nice_struct.py:39-42 | `NiceStruct()` decodes `size` zero bytes: every integer field is 0, every bytes field all zero bytes |
| NiceStructs.EncodeAsWritten | utils/nice_struct.py:183-189 | the `to_bytes` loop as written agrees with the intended one on every layout without a `"<n>s"` field |
| NiceStructs.DecodeKeeps | utils/nice_struct.py:103-145 | an attribute that no remaining field names keeps its value through `from_bytes` |
| NiceStructs.AssignAt | utils/nice_struct.py:119-144 | after the `setattr` sequence, a field no later field renames holds its own value |
| NiceStructs.AssignOther | utils/nice_struct.py:119-144 | the `setattr` sequence leaves every other attribute as it was |
| NiceStructs.IntsRoundTrip | utils/nice_struct.py:193-197 | `to_int_list()` after `from_ints(ints)` gives back `ints` on a layout of exactly `len(ints)` 32-bit words without a `"<n>s"` field |
| NiceStructs.SingleInt | utils/nice_struct.py:199-203 | `to_int` succeeds exactly when the struct packs to one int and returns that int; otherwise the message's `self.name` raises AttributeError on a class without `name` |
| NiceStructs.RunFormat | utils/nice_struct.py:50-65 | a run of bitfields that fills its container exactly formats as that one container |
| NiceStructs.RunEncode | utils/nice_struct.py:154-176 | such a run packs into the single word `RunValue`, below `2**(8*size)` |
| NiceStructs.WordEncodes | utils/nice_struct.py:147-191 | a one-word layout packs, as written or as intended, to the four little-endian bytes of its `RunValue` |
| NiceStructs.WordToInt | utils/nice_struct.py:199-203 | on a one-word layout `to_int(4)` is `RunValue`, which is below 2**32 |
| NiceStructs.WordFromInt | utils/nice_struct.py:205-206 | `from_int` of that word sets every field to its value cut to its width |
| NiceStructs.WordFieldsRestored | utils/nice_struct.py:199-206 | `from_int(to_int())` on a one-word layout with distinct names restores every field cut to its width |
| NiceStructs.NiceStruct.constructor | utils/nice_struct.py:39-42 | a new struct has every field at its zero value |
| NiceStructs.NiceStruct.FromBytes | utils/nice_struct.py:94-145 | the loop leaves exactly the attributes and exception `DecodeBytes` defines, keeping the fields set before a raise |
| NiceStructs.NiceStruct.ToBytes | utils/nice_struct.py:147-191 | the loop returns what `EncodeBytes` defines, including its errors |
| NiceStructs.NiceStruct.SetAttr | utils/nice_struct.py:119 | sets one attribute and nothing else |
| NiceStructs.NiceStruct.FromInts | utils/nice_struct.py:193-194 | an int that does not fit raises before any attribute changes; otherwise the struct decodes the ints' native 32-bit bytes |
| NiceStructs.NiceStruct.FromInt | utils/nice_struct.py:205-206 | a value of 2**32 or more raises with the attributes untouched; a smaller one is decoded from its four little-endian bytes |
| NiceStructs.NiceStruct.ToIntList | utils/nice_struct.py:196-197 | the packed bytes split into `int_size` ints |
| NiceStructs.NiceStruct.ToInt | utils/nice_struct.py:199-203 | the single int of `to_int_list`, or the error `SingleInt` states |
| NiceStructArrays.ListIndex | utils/nice_struct.py:214-220 | Python list indexing accepts exactly `-n <= i < n`, negative indices counting from the end |
| NiceStructArrays.GetItemMeans | utils/nice_struct.py:214-215 | `array[i]` returns the item stored at that index, and fails exactly outside the list |
| NiceStructArrays.SetThenGet | utils/nice_struct.py:217-220 | a non-instance is refused first; an accepted store is read back at its index and every other item stays |
| NiceStructArrays.ItemRoundTrip | utils/nice_struct.py:239-240 | one item packs to `size` bytes that decode back into it, bitfields cut to their widths |
| NiceStructArrays.PackUnpackItems | utils/nice_struct.py:232-240 | the joined items decode back item by item from their `size`-byte slices |
| NiceStructArrays.ArrayRoundTrip | utils/nice_struct.py:228-240 | `from_bytes(to_bytes())`, with `self` supplied, restores every item |
| NiceStructArrays.FromBytesSize | utils/nice_struct.py:229-230 | data of the wrong size is refused before any item changes, and data of the right size always decodes |
| NiceStructArrays.NewArrayIsZero | utils/nice_struct.py:209-212 | a fresh array packs to `size` zero bytes |
| NiceStructArrays.FromBytesAsWrittenRefuses | utils/nice_struct.py:228 | the method as declared raises TypeError on every call, even on data its body would decode |
| WordRuns.WordRunsFormat | utils/nice_struct.py:44-74 | a layout of `n` runs of bitfields that each fill one 32-bit word formats as `"<" + "I" * n`, `4n` bytes |
| WordRuns.WordRunsEncode | utils/nice_struct.py:154-176 | the `to_bytes` loop emits one item per run, that run's word, each below 2**32 |
| WordRuns.PackWords | utils/nice_struct.py:191 | packing `n` words with `"<" + "I" * n` gives their little-endian bytes |
| WordRuns.UnpackWords | utils/nice_struct.py:95 | unpacking those bytes gives the words back |
| WordRuns.WordRunsDecode | utils/nice_struct.py:103-130 | the `from_bytes` loop reads run `i` from item `i` |
| WordRuns.WordRunsIntList | utils/nice_struct.py:196-197 | `to_int_list(4)` of a word-run layout is the list of its runs' words |
| WordRuns.WordRunsFromInts | utils/nice_struct.py:193-194 | `from_ints(ws)` with one word per run reads run `i` from `ws[i]`; fewer words are too few bytes for `unpack_from` |
| WordRuns.RunsAssignAt | utils/nice_struct.py:117-119 | after `from_ints`, field `k` of run `i` holds its bits of word `i` when no later field repeats its name |
| WordRuns.RunsAssignOther | utils/nice_struct.py:117-119 | `from_ints` leaves every name no run uses as it was |
| FspMctp.MctpHeaderIsWord | gpu/fsp_mctp.py:36-47 | the transport header's fields fill one 32-bit word, with distinct names |
| FspMctp.MctpMessageHeaderIsWord | gpu/fsp_mctp.py:55-61 | the message header's fields fill one 32-bit word, with distinct names |
| FspMctp.MctpHeaderToInt | gpu/fsp_mctp.py:36-47 | `MctpHeader.to_int()` is the header word: version in bits 3:0, destination in 15:8, source in 23:16, tag, tag owner and sequence above, end of message in bit 30 and start of message in bit 31 |
| FspMctp.MctpMessageHeaderToInt | gpu/fsp_mctp.py:55-61 | `MctpMessageHeader.to_int()` is type in bits 6:0, integrity check in 7, vendor id in 23:8 and NVDM type in 31:24 |
| FspMctp.NewMctpHeader | gpu/fsp_mctp.py:49-53 | a new transport header is zero except start and end of message |
| FspMctp.NewMctpMessageHeader | gpu/fsp_mctp.py:63-67 | a new message header has type 0x7E, vendor 0x10DE and the rest zero |
| FspMctp.DefaultMctpHeaderWord | gpu/fsp_mctp.py:49-53 | the default transport header packs to 0xC0000000 |
| FspMctp.DefaultMessageHeaderWord | gpu/fsp_mctp.py:63-67 | the default message header with NVDM type `t` packs to `0x0010de7e | t << 24` |
| FspMctp.MctpHeaderRoundTrip | gpu/fsp_mctp.py:36-47 | `from_int(to_int())` on a transport header restores every field cut to its width |
| FspMctp.MctpMessageHeaderRoundTrip | gpu/fsp_mctp.py:55-61 | the same round trip on a message header |
| FspMctp.NewVdmIanaReqHeader | gpu/fsp_mctp.py:83-96 | a new request header has message type 0x7F, the NVIDIA IANA number 0x1647, `rq` 1, vendor message type 1 and every other field 0, in 9 bytes |
| FspMctp.SetReqDefaults | gpu/fsp_mctp.py:87-96 | the constructor's assignments, in order |
| FspMctp.SetCommandCode | gpu/fsp_mctp.py:98-99 | only the low 8 bits of the command code are stored |
| FspMctp.SetMessageVersion | gpu/fsp_mctp.py:101-102 | only the low 8 bits of the message version are stored |
| FspMctp.ReqHdrLayout | gpu/fsp_mctp.py:69-81 | the request header packs as `<BIBBBB`: the two bitfield bytes frame the 32-bit IANA number, 9 bytes in all |
| FspMctp.RspHdrLayout | gpu/fsp_mctp.py:104-117 | the response header is the request header plus a completion-code byte, 10 bytes |
| FspMctp.DownloadLogLayout | gpu/fsp_mctp.py:131-134 | the download-log request is one byte |
| FspMctp.NewDownloadLog | gpu/fsp_mctp.py:136-138 | a new download-log request has session id 0xFF |
| FspMctp.SetSessionId | gpu/fsp_mctp.py:140-141 | only the low 8 bits of the session id are stored |
| FspMctp.DownloadLogResponseLayout | gpu/fsp_mctp.py:143-148 | the download-log response packs as `<BB52s`, 54 bytes |
| FspMctp.NewDownloadLogResponse | gpu/fsp_mctp.py:150-154 | a new response has zero session id and length and 52 zero bytes |
| FspMctp.DownloadLogResponseItemsAsWritten | utils/nice_struct.py:185-187 | as written, `to_bytes` spreads the 52 data bytes as 52 int items |
| FspMctp.DownloadLogResponseToBytesFails | gpu/fsp_mctp.py:147 | so `to_bytes()` of any download-log response raises `struct.error` |
| FspMctp.DownloadLogResponseItemsIntended | utils/nice_struct.py:185-189 | with the data kept as one bytes item, the loop collects three items |
| FspMctp.DownloadLogResponseToBytesIntended | gpu/fsp_mctp.py:143-148 | the intended packing is session id, length and the data cut or zero-padded to 52 bytes |
| FspMctp.DefaultDownloadLogResponseBytes | gpu/fsp_mctp.py:150-154 | the default response cannot be packed as written; the intended packing is 54 zero bytes |
| FspRpcs.HeaderWordFields | nvidia_gpu_tools.py:2728-2737 | the transport header word stays below 2**32 and keeps start of message, end of message and sequence apart, each readable from its own bits |
| FspRpcs.SplitPackets | nvidia_gpu_tools.py:2735-2756 | the packing loop hands the transport exactly the packets `Packets` defines |
| FspRpcs.PacketsShape | nvidia_gpu_tools.py:2735-2756 | the first packet starts with both headers and has start of message set; every packet holds at most `max` words and all but the last exactly `max`; stripping the headers gives back the payload |
| FspRpcs.PacketsPayload | nvidia_gpu_tools.py:2739-2753 | the words a receiver reassembles from the packets are exactly the command's data |
| FspRpcs.PacketsHeaders | nvidia_gpu_tools.py:2736-2750 | end of message is set on the last packet and on no other, and the sequence counter of packet `i` is `i mod 4` |
| FspRpcs.ContinuationsHeaders | nvidia_gpu_tools.py:2746-2751 | each continuation packet has start of message clear, its sequence counting up modulo 4, and end of message exactly on the last |
| FspRpcs.ContinuationsSizes | nvidia_gpu_tools.py:2749-2753 | every continuation has a header and at least one word, at most `max` words, and all but the last are full |
| FspRpcs.CheckResponseMeans | nvidia_gpu_tools.py:2761-2775 | a reply is accepted exactly when it has at least five words, NVDM type 0x15 in its message header, the command's type in word 3 and status 0 in word 4; the result is the words after the fifth; a non-zero status raises `FspRpcError`, every other failure a plain `GpuError` |
| FspRpcs.PrcWordValue | nvidia_gpu_tools.py:2780-2846 | a PRC word `sub | flags << 8 | arg << 16` keeps its three parts apart |
| FspRpcs.PrcWordConstants | nvidia_gpu_tools.py:2780-2840 | the ECC word is 0x1 plus flags 0x300 or 0x100 plus 0x10000 to enable; the couple-reset word is 0x10104 |
| FspRpcs.KnobWordsArePrcWords | nvidia_gpu_tools.py:2842-2875 | a knob read sends sub-message 0xC with flags 2 and the knob id; a knob write sends sub-message 0xD with the same flags and id, then the value |
| FspRpcs.LinkMaskBits | nvidia_gpu_tools.py:2806-2808 | bit `i` of the link mask is set exactly for the links in the list |
| FspRpcs.ComputeLinkMask | nvidia_gpu_tools.py:2806-2808 | the mask loop computes `LinkMask` |
| FspRpcs.BlockNvlinksMeans | nvidia_gpu_tools.py:2797-2826 | blocking fails before sending exactly on a device without 64-link support given a link of 48 or above; otherwise the words carry the flags and a link is in the list exactly when its bit is set in them |
| FspRpcs.MaskPieces | nvidia_gpu_tools.py:2810-2817 | the three pieces of the mask put back together give the mask |
| FspRpcs.HighLinks | nvidia_gpu_tools.py:2817-2825 | the mask's bits from 48 up are non-zero exactly when some link is 48 or above |
| FspRpcs.InforomHeaderLength | nvidia_gpu_tools.py:2900-2908 | the packed inforom header is 9 bytes |
| FspRpcs.InforomReadIsChunked | nvidia_gpu_tools.py:2897-2914 | an inforom read succeeds in packing exactly when size and offset are below 2**16, and sends the header cut into 4-byte little-endian words |
| FspRpcs.InforomWriteIsChunked | nvidia_gpu_tools.py:2916-2946 | the write's hand-made word split equals cutting header and data as one little-endian byte stream |
| FspRpcs.KnobReadMeans | nvidia_gpu_tools.py:2842-2861 | a knob read sends one command and succeeds exactly on a one-word reply, returning the low 16 bits |
| FspRpcs.CheckAndWriteMeans | nvidia_gpu_tools.py:2881-2884 | check-and-write always reads first and sends the write exactly when the read succeeded with a different value |
| FspRpcs.FspRpc.constructor | nvidia_gpu_tools.py:2710-2721 | a new channel has packets of `max_packet_size_bytes // 4` words and has sent nothing |
| FspRpcs.FspRpc.SendCmd | nvidia_gpu_tools.py:2727-2775 | the packets sent are `Packets`, and the result is the checked reply, or nothing without `sync` |
| FspRpcs.FspRpc.PrcCmdNoData | nvidia_gpu_tools.py:2777-2778 | a PRC command goes out as NVDM type 0x13, and any non-empty reply raises |
| FspRpcs.FspRpc.PrcEcc | nvidia_gpu_tools.py:2780-2795 | sends the ECC word, and any reply data raises |
| FspRpcs.FspRpc.PrcCoupleReset | nvidia_gpu_tools.py:2831-2840 | sends the couple-reset word, and any reply data raises |
| FspRpcs.FspRpc.PrcBlockNvlinks | nvidia_gpu_tools.py:2797-2829 | a mask that does not fit raises with nothing sent; otherwise the block words are sent and any reply data raises |
| FspRpcs.FspRpc.PrcKnobRead | nvidia_gpu_tools.py:2842-2861 | the knob read as `KnobRead` defines it |
| FspRpcs.FspRpc.PrcKnobWrite | nvidia_gpu_tools.py:2863-2879 | the knob write as `KnobWrite` defines it |
| FspRpcs.FspRpc.PrcKnobCheckAndWrite | nvidia_gpu_tools.py:2881-2884 | the read-then-conditional-write as `CheckAndWrite` defines it |
| FspRpcs.FspRpc.Fbdma | nvidia_gpu_tools.py:2886-2895 | NVDM type 0x22 with 1 to enable or 0 to disable; its errors propagate and the reply words are dropped |
| FspRpcs.FspRpc.InforomRead | nvidia_gpu_tools.py:2897-2914 | a size or offset of 2**16 or more raises with nothing sent; otherwise NVDM type 0x17 with the header words |
| FspRpcs.FspRpc.InforomWrite | nvidia_gpu_tools.py:2916-2946 | the same packing check, then NVDM type 0x17 with header and data words |
| FspRpcs.FspRpc.RecreateInforomFs | nvidia_gpu_tools.py:2948-2949 | NVDM type 0x17 with the single word 5 |
| FspInit.ChannelsMeans | nvidia_gpu_tools.py:1191-1197 | only a Blackwell-or-later GPU uses MNOC; the MODS channel opens on Hopper GPUs alone and is an EMEM channel other than the main one |
| FspInit.SilentBootWaitMeans | nvidia_gpu_tools.py:3815-3839 | the silent boot wait succeeds exactly when the loud one does, does the same reads then, and on failure makes no reads the loud one does not |
| FspInit.Tolerate | nvidia_gpu_tools.py:1182-1187 | the boot wait's poll timeout is tolerated; any other error propagates unchanged |
| FspInit.FspHost.SilentWaitForBoot | nvidia_gpu_tools.py:3815-3839 | the register reads and result are those of `SilentBootWait` |
| FspInit.FspHost.InitFspRpc | nvidia_gpu_tools.py:1178-1197 | an open channel is left alone with no access; otherwise the silent boot wait runs, a non-timeout error leaves no channel, and success opens the main channel (and the MODS channel on Hopper) with nothing sent |
| FspInit.FspHost.BlockNvlinks | gpu/units/nvlink.py:72-74 | opens the channel, then sends a non-persistent block whose result and commands are those of `FspBlock` |
| EmemRpc.ChannelWindowsDisjoint | gpu/fsp_emem_rpc.py:39-40 | the 1024-byte windows of distinct channels do not overlap, and each holds a maximum-size packet |
| EmemRpc.PublishedSizeRoundTrip | gpu/fsp_emem_rpc.py:123-133 | a message published as `send_data` publishes an `n`-word packet is read back by `receive_data` as exactly `n` words |
| EmemRpc.PairReadMeans | gpu/fsp_emem_rpc.py:61-75 | reading a queue's head then tail appends one or two reads and no write, and on success returns the two values read |
| EmemRpc.VerboseWrites | nvidia_gpu_tools.py:1084-1088 | a verbose write writes at most its one value, and exactly it when it succeeds |
| EmemRpc.TimeoutsDistinct | gpu/fsp_emem_rpc.py:93-114 | the message-queue timeout and the command-queue timeout are distinct errors |
| EmemRpc.MsgPollOnlyReads | gpu/fsp_emem_rpc.py:84-97 | polling the message queue only reads |
| EmemRpc.MsgPollFatalOk | gpu/fsp_emem_rpc.py:88-90 | a fatal poll that returns saw a non-empty message queue on its last pass |
| EmemRpc.MsgPollErrors | gpu/fsp_emem_rpc.py:84-97 | the poll fails only with a bad read's `GpuError` or with its own timeout |
| EmemRpc.MsgPollNonFatal | gpu/fsp_emem_rpc.py:91-95 | without `timeout_fatal` the poll never raises its timeout |
| EmemRpc.MsgPollTimeout | gpu/fsp_emem_rpc.py:86-93 | the timeout is raised only after every pass up to the first one past the timeout saw the queue empty, two reads per pass |
| EmemRpc.EmemChannel.constructor | gpu/fsp_emem_rpc.py:34-40 | a channel uses EMEM port `n` and its control register, with the maximum EMEM size |
| EmemRpc.EmemChannel.ReadState | gpu/fsp_emem_rpc.py:61-75 | the head and tail reads as `PairRead` defines them |
| EmemRpc.EmemChannel.PollForMsgQueue | gpu/fsp_emem_rpc.py:84-97 | the accesses and result are those of the trace function `MsgPoll` |
| EmemRpc.EmemChannel.ReceiveData | gpu/fsp_emem_rpc.py:125-140 | after the wait, reads head and tail, reads `tail - head + 4` bytes as words from the window, then writes the head into the message tail; errors are a bad read or the message timeout |
| EmemRpc.EmemChannel.DrainEarlyMessage | gpu/fsp_emem_rpc.py:106-110 | reads the message queue first, and receives and drops a message exactly when it was not empty |
| EmemRpc.EmemChannel.PollForQueueEmpty | gpu/fsp_emem_rpc.py:99-116 | returns exactly when a pass saw the command queue empty, as its last access; every earlier pass saw it busy and drained an early message; its own timeout only after `timeout + 2` busy passes and one more queue read |
| EmemRpc.EmemChannel.WriteQueueHeadTail | gpu/fsp_emem_rpc.py:69-71 | the tail is written before the head |
| EmemRpc.EmemChannel.SendData | gpu/fsp_emem_rpc.py:118-123 | on success the command queue was seen empty, then the packet's words were written to the window, then tail at the last word and head at the base were published, in that order |
| EmemRpc.EmemChannel.ResetRpcState | gpu/fsp_emem_rpc.py:47-59 | when both queues read empty nothing is written; otherwise both queues end up set to the channel base, command tail and head first, then message tail and head |
| EmemRpc.EmemChannel.ForceEmpty | gpu/fsp_emem_rpc.py:53-59 | the non-fatal wait, then the four writes that set both queues to the base |
| Mnocs.MailboxRegistersDistinct | gpu/mnoc.py:38-56 | the five mailbox registers of a port are distinct, and distinct from those of every other port below 11 |
| Mnocs.EleventhPortOverlaps | gpu/mnoc.py:43-56 | port 11's send info register is port 0's receive data register, so the layout holds for ports 0 to 10 only |
| Mnocs.ErrorBitCheckMeans | gpu/mnoc.py:89-97 | an error check passes exactly on a good read with bit 25 clear |
| Mnocs.MetadataRoundTrip | gpu/mnoc.py:76-110 | the metadata word is the size with bit 20 set, and the receiver's `& 0xfffff` gives the size back |
| Mnocs.SendWordsAreChunks | gpu/mnoc.py:80-85 | the data loop awaits a credit before words 0, 16, 32, … and before no other word |
| Mnocs.CreditWaitReadOnly | gpu/mnoc.py:67-68 | waiting for credits only reads |
| Mnocs.SendChunksWrites | gpu/mnoc.py:80-85 | the chunked loop writes exactly the data words, in order |
| Mnocs.SendWrites | gpu/mnoc.py:70-87 | `send_data` writes nothing but the metadata word followed by the data words, in order |
| Mnocs.SendGrows | gpu/mnoc.py:70-87 | `send_data` always accesses the mailbox |
| Mnocs.SendChecks | gpu/mnoc.py:70-87 | a successful send checked the error bit before and after and saw the receive ready bit before writing |
| Mnocs.SendRefusesErrorBit | gpu/mnoc.py:73-92 | an error bit seen by the first check raises `GpuError` after that one read, before anything is written |
| Mnocs.ReadDataWords | gpu/mnoc.py:112-116 | the data loop reads `n` more words from the send data register, in order |
| Mnocs.ReceiveOnlyReads | gpu/mnoc.py:99-120 | `receive_data` only reads |
| Mnocs.ReceiveWords | gpu/mnoc.py:110-120 | a successful receive returns `ceil(size / 4)` words read after the size, where the size is the info register's low 20 bits, and a final read found the send mailbox clean |
| Mnocs.ReceiveWaitEnd | gpu/mnoc.py:101 | a successful receive ended its wait on a read showing the ready bit |
| Mnocs.ReceiveTimeout | gpu/mnoc.py:100-108 | a wait that times out checks the send mailbox once, and raises its error if bit 25 is set, else `GpuRpcTimeout` |
| Mnocs.NotReadyGoesOn | gpu/mnoc.py:61-62 | the wait for a message goes on exactly on a good value without the ready bit |
| Mnocs.GpuMnoc.constructor | gpu/mnoc.py:29-33 | a mailbox at `base` and `port` |
| Mnocs.GpuMnoc.IsMessageReady | gpu/mnoc.py:58-59 | one checked read of the send info register, true exactly when bit 24 is set |
| Mnocs.GpuMnoc.PollForMessageReady | gpu/mnoc.py:61-62 | the register poll with value and mask `1 << 24` on the send info register |
| Mnocs.GpuMnoc.PollForReceiveReady | gpu/mnoc.py:64-65 | the register poll with value and mask `1 << 24` on the receive info register, timeout 5 |
| Mnocs.GpuMnoc.PollForReceiveCredits | gpu/mnoc.py:67-68 | the register poll with value and mask `1 << 26` on the receive info register |
| Mnocs.GpuMnoc.CheckReceiveMboxErrors | gpu/mnoc.py:89-92 | one read of the receive info register, raising on bit 25 |
| Mnocs.GpuMnoc.CheckSendMboxErrors | gpu/mnoc.py:94-97 | one read of the send info register, raising on bit 25 |
| Mnocs.GpuMnoc.SendData | gpu/mnoc.py:70-87 | the accesses and result of `Send` |
| Mnocs.GpuMnoc.SendLoop | gpu/mnoc.py:80-85 | the loop's accesses and result are those of `SendWords` |
| Mnocs.GpuMnoc.ReceiveData | gpu/mnoc.py:99-120 | the accesses and result of `Receive` |
| Mnocs.GpuMnoc.ReadLoop | gpu/mnoc.py:112-116 | reads 4 bytes at a time until `size` bytes, as `ReadData` defines |
| Mse.MseHeaderLayout | gpu/mse.py:30-56 | `MseHeader` is four runs of bitfields that each fill one 32-bit word, with distinct names: `"<IIII"`, 16 bytes |
| Mse.CmdHeaderIntList | gpu/mse.py:99-108 | the header `send_cmd` builds packs to four words: ssid 9 and dsid 4 in word 0; ctxid, opcode and class in word 1; credit 8 and `flags_reset` in word 2; word 3 zero |
| Mse.CmdWordsFields | gpu/mse.py:99-108 | each field of the command words reads back from its bits: ssid 9, dsid 4, ctxid, opcode and class cut to their widths, credit 8, `flags_type` 0, `flags_reset` 1 exactly on reset |
| Mse.CmdHeaderRoundTrip | gpu/mse.py:61-108 | decoding a command header gives back its fields, with `flags_type` 0, so a command is never taken for a response |
| Mse.MseHeaderFromInts | gpu/mse.py:121 | decoding four words sets every header field to its bits of its word; fewer words raise and the header keeps its values |
| Mse.MseMailbox | gpu/mse.py:83 | the MSE mailbox is port 1 at 0x2c01e00 |
| Mse.Outcome | gpu/mse.py:120-123 | at a response, the words after the first four; a message of fewer than four words raises; a receive error propagates |
| Mse.IncomingNoneIffNoStop | gpu/mse.py:119-125 | `process_incoming` goes on exactly when none of the messages so far was a response or an error |
| Mse.IncomingIsFirstStop | gpu/mse.py:119-125 | its result is the outcome of the first message that is a response or an error, every earlier one being a dropped request |
| Mse.DroppedIsRequest | gpu/mse.py:122-125 | a dropped message is a well-formed header with `flags_type` 0 |
| Mse.IncomingOnlyReads | gpu/mse.py:116-125 | `process_incoming` only reads the mailbox |
| Mse.SendCmdWrites | gpu/mse.py:110-112 | a command goes out as the header words followed by the data, in one message of `16 + 4 * len(data)` bytes |
| Mse.SendCmdAsWrittenNeverSends | gpu/mse.py:110 | as written `send_cmd` raises AttributeError before anything reaches the mailbox; with `to_int_list` the command is sent |
| Mse.LinkStatesAt | gpu/mse.py:135 | reply word `i` carries states `2i` (low half) and `2i + 1` (high half), both 16 bits, which put back together give the word |
| Mse.StateNameDisabled | gpu/mse.py:151-154 | a state is "disabled" exactly when its status byte is 1 |
| Mse.StateNameActive | gpu/mse.py:155-159 | with status 2 the name is the state's entry in the table, and a missing entry is "unknown" with the state in hex |
| Mse.PortlistResult | gpu/mse.py:130-135 | the first reply word is the link count; an empty reply raises IndexError; a failed command propagates |
| Mse.MseRpc.constructor | gpu/mse.py:78-83 | context id 1 and the MSE mailbox |
| Mse.MseRpc.SendCmd | gpu/mse.py:98-114 | the header carries the current context id, which grows by one whatever the outcome; the accesses and result are those of `SendCmdSpec` |
| Mse.MseRpc.SendCmdAsWritten | gpu/mse.py:98-110 | as written, the context id grows and the call raises AttributeError |
| Mse.MseRpc.ProcessIncoming | gpu/mse.py:116-125 | the accesses and result of `Incoming` |
| Mse.MseRpc.NextMessage | gpu/mse.py:120-125 | one receive, and a stop exactly at a response or an error |
| Mse.MseRpc.Negotiate | gpu/mse.py:127-128 | class 1, opcode 0, data `[0, 0]` and reset set |
| Mse.MseRpc.Goodbye | gpu/mse.py:163-164 | class 2, opcode 11, no data |
| Mse.MseRpc.PortlistStatus | gpu/mse.py:130-161 | class 2, opcode 2, data `[2**18 - 1]`, and the names of the reply's link states |
| Mse.DecodeHeader | gpu/mse.py:61-121 | fewer than four words raise; four words set the header's fields, and `is_response` holds exactly when `flags_type` is 1 |
| Mse.NiceLinkStates | gpu/mse.py:149-161 | the loop names every state by `StateName`, in order |
| Falcons.ControlValueLayout | nvidia_gpu_tools.py:1976-1982 | the control value is a 32-bit word from which the offset and the read-increment, write-increment and secure flags read back |
| Falcons.FspBasePageOfCpuctl | nvidia_gpu_tools.py:2687-2692 | the FSP base page is its cpuctl register with the low 12 bits cleared |
| Falcons.QueueOffsetsDistinct | nvidia_gpu_tools.py:2695-2705 | the four queue registers of a channel differ from each other and from every other channel's, and none is an EMEM port register |
| Falcons.SeventeenthChannelOverlaps | nvidia_gpu_tools.py:2695-2702 | channel 16's command head is channel 0's message head: the layout has room for sixteen channels |
| Falcons.WordCountIsCeiling | nvidia_gpu_tools.py:1993-1995 | `read(size)` reads `ceil(size / 4)` words |
| Falcons.MemPort.constructor | nvidia_gpu_tools.py:1936-1946 | a new port is at offset 0 with every flag clear and a write pending |
| Falcons.MemPort.Configure | nvidia_gpu_tools.py:1954-1985 | the new settings are kept, and the control register is written exactly when a setting changed or a write was pending |
| Falcons.MemPort.HandleOffsetWraparound | nvidia_gpu_tools.py:1987-1989 | the offset goes back to 0 exactly when it has reached the memory size, writing the control register then |
| Falcons.MemPort.ReadWords | nvidia_gpu_tools.py:1993-1995 | `ceil(size / 4)` reads of the data register, bad values included |
| Falcons.MemPort.Read | nvidia_gpu_tools.py:1991-2002 | the words read, then the offset moved by `size` when reads auto-increment, then the wrap |
| Falcons.MemPort.Write | nvidia_gpu_tools.py:2004-2013 | the data words written in order, the offset moved by 4 per word when writes auto-increment, then one wrap at the end |
| Falcons.ReadPort | nvidia_gpu_tools.py:2346-2367 | after at most one control write, the port reads its words at `phys_base` with both increments on |
| Falcons.WritePort | nvidia_gpu_tools.py:2350-2364 | after at most one control write, the port writes exactly the data words in order |
| CcModes.CcModeValues | nvidia_gpu_tools.py:3685-3697 | "on", "devtools" and "off" are the only modes accepted, anything else is `ValueError("Invalid mode …")`; CCD is never above CCM |
| CcModes.PpcieModeValues | nvidia_gpu_tools.py:1829-1839 | "on" and "off" are the only modes accepted; PPCIe is 1 exactly for "on", and the decoupler is 2 exactly for "on" on a GPU, 0 otherwise |
| CcModes.Bar0FirewallValue | nvidia_gpu_tools.py:3747-3750 | the decoupler value is 2 exactly for "on", 0 otherwise |
| CcModes.BootFailed | nvidia_gpu_tools.py:3122-3128 | a failed boot poll always raises (also nvidia_gpu_tools.py:3828-3837) |
| CcModes.BootWaitOnlyReads | nvidia_gpu_tools.py:3118-3128 | `wait_for_boot` only reads, and everything it raises is a `GpuError` (also nvidia_gpu_tools.py:3815-3839) |
| CcModes.BootWaitOk | nvidia_gpu_tools.py:3815-3839 | a device with nothing to poll returns at once; otherwise a successful wait made exactly the poll's reads |
| CcModes.BootDoneValue | nvidia_gpu_tools.py:3121 | the boot poll is satisfied exactly by its done value, the mask keeping all 32 bits (also nvidia_gpu_tools.py:3827,3839) |
| CcModes.BadOkReadsAre | nvidia_gpu_tools.py:3160-3171 | the NVSwitch register dump reads each offset once, in order |
| CcModes.CheckedReadsOnlyRead | nvidia_gpu_tools.py:3832-3835 | the debug reads only read, and stop at the first bad value |
| CcModes.PrcKnobsSends | nvidia_gpu_tools.py:1806-1824 | whatever the firmware answers, `query_prc_knobs` only reads knobs: every knob once in enum order on success, each entry named by `str_from_knob_id`, and an error other than invalid-knob ends the reads |
| CcModes.PrcKnobsOnTable | nvidia_gpu_tools.py:1806-1824 | against the knob-table firmware it reports each knob's value, or "invalid" where the firmware lacks it, and changes no knob |
| CcModes.OrderedPlanSafe | nvidia_gpu_tools.py:3724-3732 | a plan that touches CCM and CCD only in a safe order never reaches CCD-without-CCM at any prefix |
| CcModes.CcPlanShape | nvidia_gpu_tools.py:3714-3732 | `set_cc_mode`'s plan is in that safe order and writes only 16-bit values |
| CcModes.PpciePlanShape | nvidia_gpu_tools.py:1847-1855 | `set_ppcie_mode`'s plan is in that safe order and writes only 16-bit values |
| CcModes.CcPlanOrder | nvidia_gpu_tools.py:3714-3732 | knobs 2, 4 and 34 first when enabling, the decoupler just before the CC knobs on Hopper, then CCM before CCD when enabling and CCD before CCM when disabling |
| CcModes.CcPlanKnobs | nvidia_gpu_tools.py:3714-3732 | the knobs written are exactly CCM and CCD, knobs 2, 4, 34 (and PPCIe where present) when enabling, and the decoupler on Hopper |
| CcModes.CcModeSends | nvidia_gpu_tools.py:3682-3732 | an invalid mode or an unsupported device raises with nothing sent; a successful call ran every check-and-write of its plan |
| CcModes.CcModeNeverCcdWithoutCcm | nvidia_gpu_tools.py:3724-3732 | against the knob-table firmware, no command `set_cc_mode` sends leaves CCD on with CCM off |
| CcModes.CcModeSafeOn | nvidia_gpu_tools.py:3724-3732 | the same for any firmware that behaves like a knob table |
| CcModes.CcModeOnTable | nvidia_gpu_tools.py:3682-3732 | for a valid mode it succeeds exactly when the knobs it needs exist, otherwise raises the invalid-knob error, and on success the knobs hold the mode's values with PPCIe zeroed where present |
| CcModes.PpcieProbeOnTable | nvidia_gpu_tools.py:3701-3712 | the PPCIe probe reads the knob and reports whether the firmware has it |
| CcModes.PpcieModeNeverCcdWithoutCcm | nvidia_gpu_tools.py:1847-1855 | no command `set_ppcie_mode` sends leaves CCD on with CCM off |
| CcModes.PpcieModeSafeOn | nvidia_gpu_tools.py:1847-1855 | the same for any firmware that behaves like a knob table |
| CcModes.PpcieModeOnTable | nvidia_gpu_tools.py:1826-1855 | for a valid mode it succeeds exactly when the knobs it needs exist, otherwise raises the invalid-knob error, and on success the knobs hold what `PpcieKnobsSet` says |
| CcModes.Bar0FirewallModeOnTable | nvidia_gpu_tools.py:3743-3752 | it succeeds exactly when the decoupler knob exists, which then holds 2 for "on" and 0 otherwise, and the CC knobs are untouched |
| CcModes.CcQueryMeans | nvidia_gpu_tools.py:3643-3680 | a CC query only reads; a mode it reports decodes its last read, a good read of the mode register made after a completed boot wait; it raises only `GpuError`s and its assertion |
| CcModes.PpcieQueryMeans | nvidia_gpu_tools.py:3177-3186 | the same for the PPCIe query, register 0x28c50 bit 0 on a switch and 0x1182cc bit 5 on a GPU (also nvidia_gpu_tools.py:3778-3787) |
| CcModes.ModesTrustedMeans | nvidia_gpu_tools.py:1687-1699 | the checks only read, trust the knob states only when the caller knows of no pending settings, and raise only `GpuError`s |
| CcModes.ModesDistrustedOn | nvidia_gpu_tools.py:1687-1693 | when they distrust the states although the caller knew of no pending settings, one of their reads decoded to "on" |
| CcModes.CcModeRoundTrip | nvidia_gpu_tools.py:3647-3656 | a register whose bit 0 holds a valid mode's CCM value and bit 1 its CCD value decodes to that mode |
| CcModes.CcModeOfRegValid | nvidia_gpu_tools.py:3647-3656 | every register decodes to a mode `set_cc_mode` accepts, except bits 0b10, which decode to the invalid state |
| CcModes.InvalidDecodeIsCcdWithoutCcm | nvidia_gpu_tools.py:3655-3656 | the invalid decode is exactly CCD on with CCM off |
| CcModes.Bar0FirewallModeOfReg | nvidia_gpu_tools.py:3734-3741 | the firewall mode is "on" or "off" |
| CcModes.Bar0FirewallModeBit | nvidia_gpu_tools.py:3737-3741 | it is "on" exactly when bit 2 is set |
| CcModes.PpcieModeBit | nvidia_gpu_tools.py:3181-3186 | PPCIe is "on" exactly when bit 5 (GPU) or bit 0 (switch) is set (also nvidia_gpu_tools.py:3782-3787) |
| CcModes.Gpu.constructor | nvidia_gpu_tools.py:3189-3190 | a device with its capabilities, registers and RPC channel |
| CcModes.Gpu.WaitForBoot | nvidia_gpu_tools.py:3118-3128 | the reads and result of `BootWait` (also nvidia_gpu_tools.py:3815-3839) |
| CcModes.Gpu.FailBoot | nvidia_gpu_tools.py:3122-3128 | the reads and result of `BootFailed` (also nvidia_gpu_tools.py:3828-3837) |
| CcModes.Gpu.DumpRegisters | nvidia_gpu_tools.py:3160-3171 | one `read_bad_ok` per register, in order |
| CcModes.Gpu.QueryCcMode | nvidia_gpu_tools.py:3643-3680 | the boot wait, then the mode register read and decoded, as `CcQuery` defines |
| CcModes.Gpu.QueryBar0FirewallMode | nvidia_gpu_tools.py:3734-3741 | raises the assertion with no access on an unsupported device, otherwise reads 0x590 once and decodes it |
| CcModes.Gpu.QueryPpcieMode | nvidia_gpu_tools.py:3177-3186 | the boot wait, then the PPCIe register read and decoded, as `PpcieQuery` defines (also nvidia_gpu_tools.py:3778-3787) |
| CcModes.Gpu.ProbePpcie | nvidia_gpu_tools.py:3701-3712 | reads the PPCIe knob where PPCIe can be queried; an invalid-knob answer means no PPCIe, other errors propagate |
| CcModes.Gpu.ZeroKnobs | nvidia_gpu_tools.py:3714-3719 | knobs 2, 4 and 34 are zeroed before CC or PPCIe is enabled, and for CC also PPCIe where present (also nvidia_gpu_tools.py:1847-1850) |
| CcModes.Gpu.SetCcMode | nvidia_gpu_tools.py:3682-3732 | the commands and result of `CcModeCalls` |
| CcModes.Gpu.SetPpcieMode | nvidia_gpu_tools.py:1826-1855 | the commands and result of `PpcieModeCalls` |
| CcModes.Gpu.SetBar0FirewallMode | nvidia_gpu_tools.py:3743-3752 | the commands and result of `Bar0FirewallModeCalls` |
| CcModes.Gpu.QueryPrcKnobs | nvidia_gpu_tools.py:1806-1824 | the commands and result of `PrcKnobsCalls` |
| CcModes.Gpu.KnobStatesTrusted | nvidia_gpu_tools.py:1687-1693 | the reads and verdict of `ModesTrusted` |
| CcModes.Gpu.SetKnobsLoop | nvidia_gpu_tools.py:1701-1729 | the commands and result of `SetKnobs` |
| CcModes.Gpu.KnobsSet | nvidia_gpu_tools.py:1683-1729 | the mode checks' reads, then, when the states are trusted, the knob query's reads; an error of either is raised with nothing sent, so an unhandled knob among trusted states raises before any knob is set; otherwise the settings loop runs from the queried states when trusted and from "unknown" for every knob when not |
| CcModes.Gpu.QueryKnobStates | nvidia_gpu_tools.py:1667-1681 | the accesses and result of `KnobsQuery`: each knob queried in order, the first exception ends the query |
| CcModes.KnobsQueryMeans | nvidia_gpu_tools.py:1667-1681 | the query only extends the accesses; on success every knob is cc, ppcie, ecc or mig and the report holds exactly the knobs asked for; the first unhandled knob raises `ValueError("Unhandled …")` with the accesses of the knobs before it |
| CcModes.KnobsQueryStops | nvidia_gpu_tools.py:1670-1679 | once a prefix of the knobs raises, the whole query raises the same exception with the same accesses |
| CcModes.KnobQueryExtends | nvidia_gpu_tools.py:1670-1679 | one knob's query only extends the accesses, and it reports a state only for cc, ppcie, ecc and mig |
| KnobModes.CheckAndWriteShape | nvidia_gpu_tools.py:2881-2884 | `prc_knob_check_and_write` reads the knob, and writes the value only when the read succeeded and differed |
| KnobModes.RunPlanAppend | nvidia_gpu_tools.py:3714-3732 | a sequence of check-and-write calls runs its first part, then its second only if the first succeeded |
| KnobModes.RunPlanShape | nvidia_gpu_tools.py:3714-3732 | a run sends the calls' reads and writes in plan order, and runs every call when it succeeds (also nvidia_gpu_tools.py:1847-1855) |
| KnobModes.RunPlanExtends | nvidia_gpu_tools.py:3714-3732 | a run only appends to the commands sent before it |
| KnobModes.DecodeKnobCmds | nvidia_gpu_tools.py:2842-2879 | the knob-read word (sub-message 0xc) and the knob-write words (0xd, then the value) are told apart and their knob id and value recovered |
| KnobModes.ResponseChecks | nvidia_gpu_tools.py:2761-2775 | the table firmware's replies pass `send_cmd`'s checks: code 0 gives the data, any other code raises `FspRpcError` |
| KnobModes.SendToTable | nvidia_gpu_tools.py:2727-2775 | a synchronous command sent to the table firmware is answered from the table the earlier commands left, and only writes change it |
| KnobModes.KnobReadOnTable | nvidia_gpu_tools.py:2842-2861 | `prc_knob_read` returns the knob's 16-bit value, or the invalid-knob error for a knob the firmware lacks, and changes nothing |
| KnobModes.KnobWriteOnTable | nvidia_gpu_tools.py:2863-2879 | `prc_knob_write` stores the value's low 16 bits in an existing knob; a missing knob raises the invalid-knob error and nothing changes |
| KnobModes.CheckAndWriteOnTable | nvidia_gpu_tools.py:2881-2884 | check-and-write leaves the knob holding the value, failing exactly when the knob is not in the table |
| KnobModes.TablesAlongCall | nvidia_gpu_tools.py:2881-2884 | the tables during one call are the table before it until its last command, after which the knob holds the value |
| KnobModes.TableAfterRead | nvidia_gpu_tools.py:2842-2861 | a knob read leaves the table alone |
| KnobModes.TableAfterWrite | nvidia_gpu_tools.py:2863-2879 | a knob write stores the value's low 16 bits when the knob exists |
| KnobModes.UpdateOther | nvidia_gpu_tools.py:3714-3732 | knobs the plan does not name keep their values |
| KnobModes.RunPlanOnTable | nvidia_gpu_tools.py:3714-3732 | on a knob-table firmware a plan succeeds exactly when every knob it names exists, leaving each holding its last value; otherwise it fails with the invalid-knob error (also nvidia_gpu_tools.py:1847-1855) |
| KnobModes.RunPlanKeeps | nvidia_gpu_tools.py:3724-3732 | whatever holds of the table after every reachable prefix of the plan holds of every table along the run |
| KnobModes.KnobIds | nvidia_gpu_tools.py:1813 | `query_prc_knobs` walks the 46 `PrcKnob` values, 1 to 46 in order |
| KnobModes.Reads | nvidia_gpu_tools.py:1813-1816 | one knob read per id, in order |
| KnobModes.KnobReadShape | nvidia_gpu_tools.py:2842-2861 | a knob read sends exactly its read command |
| KnobModes.QueryKnobsSends | nvidia_gpu_tools.py:1806-1824 | a knob query sends only reads, one per knob tried; an error that ends it is the one a read raised and is never the invalid-knob error |
| KnobModes.QueryKnobsNext | nvidia_gpu_tools.py:1813-1822 | the query of the first `i + 1` knobs is that of the first `i`, then knob `i` |
| KnobModes.QueryKnobsStops | nvidia_gpu_tools.py:1817-1822 | an error ends the query: no later knob is read |
| KnobModes.QueryKnobsNames | nvidia_gpu_tools.py:1811-1824 | a successful query has one entry per knob, in order, named by `str_from_knob_id` |
| KnobModes.QueryKnobsOnTable | nvidia_gpu_tools.py:1806-1824 | on the table firmware the reads never fail: each knob reports its value, or "invalid" when the firmware lacks it |
| KnobSettings.SetKnobsNext | nvidia_gpu_tools.py:1701-1727 | the settings loop over `i + 1` knobs is the loop over `i`, then knob `i` |
| KnobSettings.SetKnobsStops | nvidia_gpu_tools.py:1701-1727 | an error ends the loop: no later knob is looked at |
| KnobSettings.Names | nvidia_gpu_tools.py:1701 | the knob names of a request, in order |
| KnobSettings.SetKnobsModified | nvidia_gpu_tools.py:1701-1729 | the knobs reported modified are in request order, each at most once, and each has a setter and was not already in its state |
| KnobSettings.SetKnobsSkipsSettled | nvidia_gpu_tools.py:1702-1704 | a knob already in the requested state is never set; when all are, nothing is sent and nothing is reported |
| KnobSettings.SetKnobsTriedAll | nvidia_gpu_tools.py:1701-1729 | a successful loop reports every knob that was not settled, except a PPCIe knob the firmware lacks |
| KnobSettings.AllUnknownSetsAll | nvidia_gpu_tools.py:1698-1729 | when the states are not trusted, a successful loop reports every requested knob except a missing PPCIe knob, unless a requested value is itself "unknown" |
| Prc.MembersFrom | gpu/prc.py:26-112 | the enum members from a value on, with their names and values 47 - id of them |
| Prc.NameIn | gpu/prc.py:115-117 | a lookup by value finds a name exactly when some member has that value, and the name is that member's |
| Prc.KnobIdsAreOneTo46 | gpu/prc.py:26-112 | the enum values are exactly 1..46, in order, each defined once |
| Prc.KnobNameOfMember | gpu/prc.py:115-117 | looking a value up finds the member declared with it |
| Prc.NamedKnobIds | gpu/prc.py:35-38 | the CC knobs carry values 5-8 as the CC and PPCIe code expects |
| Prc.StrOfDefinedKnob | gpu/prc.py:113-122 | a defined id prints as its name, its decimal and its hex value |
| Prc.StrOfUndefinedKnob | gpu/prc.py:118-122 | an id outside the enum prints as its decimal and hex value, without failing |
| Regs.MaskBits | gpu/regs/core.py:58 | a field's mask has exactly the bits `lsb ..= msb` set |
| Regs.FieldOfIsField | gpu/regs/core.py:193-195 | `get_field` reads the bits `lsb ..= msb` of the register value |
| Regs.GetAfterSet | gpu/regs/core.py:186-195 | reading back a field just set to a non-negative value gives that value truncated to the field's width |
| Regs.SetKeepsOtherBits | gpu/regs/core.py:189 | setting a field, with any value, leaves every bit outside it unchanged |
| Regs.WithFieldBelow | gpu/regs/core.py:412 | replacing a field within the low 32 bits of a 32-bit word gives a 32-bit word |
| Regs.RegisterMeta.constructor | gpu/regs/core.py:39-43 | a register with its name, address and privilege-level mask and no fields |
| Regs.FieldMeta.constructor | gpu/regs/core.py:53-63 | a field with its bounds and mask, registered in its register's fields under its name |
| Regs.ValueMeta.constructor | gpu/regs/core.py:74-81 | a named value, registered in its field's values under its name |
| Regs.ArrayAddressOk | gpu/regs/core.py:111-115 | an index is valid exactly when it is non-negative and below a non-zero size, and is then at `index * stride` from the base |
| Regs.ArrayAddressOrdered | gpu/regs/core.py:111-115 | with a non-zero stride, elements lie at increasing addresses |
| Regs.ArrayElement | gpu/regs/core.py:117-129 | `array(index)` raises the bounds error, or gives a new register `NAME(index)` at the element's address sharing the array's fields and mask |
| Regs.RegisterValue.constructor | gpu/regs/core.py:137-142 | a value with its register's metadata |
| Regs.RegisterValue.SetField | gpu/regs/core.py:171-191 | a named value of another field raises `ValueError` and changes nothing; otherwise the field's bits, and only those, take the value's |
| Regs.RegisterInterface.constructor | gpu/regs/core.py:338-340 | an interface over one GPU |
| Regs.RegisterInterface.ReadRegister | gpu/regs/core.py:389-393 | one `read_bad_ok` of the register, whose value, bad or not, is returned with the metadata |
| Regs.RegisterInterface.ReadField | gpu/regs/core.py:389-398 | one read of the field's register and the field extracted; a field without a register raises `TypeError` with no access |
| Regs.RegisterInterface.Write | gpu/regs/core.py:400-405 | one write of the value to the register's address |
| Regs.RegisterInterface.WriteField | gpu/regs/core.py:407-415 | a checked read, then the word with only the field replaced is written; a bad read raises before any write, and a field without a register raises with no access |
| Regs.RegisterInterface.IsSet | gpu/regs/core.py:417-421 | one read of the field, true exactly when it holds the named value |
| Regs.ChipAliasStable | gpu/regs/core.py:344-351 | the chip alias is idempotent and changes only `gb2*`, gb110 and gb112 |
| ConfigSpaces.EncodeIntOk | utils/file_raw.py:39-41 | a config write converts its value exactly when it is non-negative and fits the access width, a negative value raising `OverflowError` |
| ConfigSpaces.ConfigSpace.constructor | pci/device.py:97-99 | the config file of a device, with no access made yet |
| ConfigSpaces.ConfigSpace.Read | utils/file_raw.py:52-56 | one access of `n` bytes, whose little-endian value is below `2**(8 n)` |
| ConfigSpaces.ConfigSpace.Read32 | utils/file_raw.py:64-65 | one 4-byte access giving a 32-bit value |
| ConfigSpaces.ConfigSpace.Write | utils/file_raw.py:39-41 | the access is made exactly when the value converts; a value that does not raises with nothing written |
| ConfigSpaces.ConfigSpace.Write32 | utils/file_raw.py:49-50 | a 32-bit value is always written, as one 4-byte access |
| Devices.BadfRange | nvidia_gpu_tools.py:3020-3021 | the bad values are exactly the 64K values 0xbadf0000 ..= 0xbadfffff |
| Devices.CheckedReadMeans | nvidia_gpu_tools.py:3031-3035 | `read` passes every value through except the bad ones, which raise `GpuError` |
| Devices.Device.constructor | nvidia_gpu_tools.py:3023-3024 | a device over its BAR0, with no access made yet |
| Devices.Device.ReadBadOk | nvidia_gpu_tools.py:3023-3025 | one read, whose raw value is returned whatever it is |
| Devices.Device.Read | nvidia_gpu_tools.py:3031-3035 | one read, whose value is returned unless bad, when `GpuError` is raised |
| Devices.Device.CheckRead | nvidia_gpu_tools.py:3027-3029 | one read, reported good exactly when its value is not bad |
| Devices.Device.Write | nvidia_gpu_tools.py:1081-1082 | one write of the value |
| Devices.Device.WriteVerbose | nvidia_gpu_tools.py:1084-1088 | the accesses and result of `VerboseWrite` |
| Devices.VerboseWriteMeans | nvidia_gpu_tools.py:1084-1088 | `write_verbose` writes the value exactly when the read before it is good, writes nothing else, and succeeds exactly when both reads are good |
| Devices.WritesAppend | nvidia_gpu_tools.py:1209-1234 | the writes of two logs joined are the writes of each, in order |
| Devices.ReadsHaveNoWrites | nvidia_gpu_tools.py:1209-1234 | a log that only reads holds no writes |
| Devices.PollStep | nvidia_gpu_tools.py:1220-1232 | a pass goes round again only while the timeout has not passed |
| Devices.PollRegister | nvidia_gpu_tools.py:1199-1253 | the reads and outcome of `Poll`, the loop of `poll_register` and `poll_register_any_bit` |
| Devices.PollTrace | nvidia_gpu_tools.py:1209-1234 | a poll makes one read per pass, every pass but the last going on, and the last pass's outcome is the poll's |
| Devices.PollEnds | nvidia_gpu_tools.py:1209-1234 | the passes from `k` to the last: one read each, all but the last going on |
| Devices.PollReads | nvidia_gpu_tools.py:1212 | every access of the loop reads the polled register |
| Devices.PollStepOutcome | nvidia_gpu_tools.py:1212-1232 | a pass succeeds exactly on a value that satisfies the test and, unless read with `read_bad_ok`, is good; a bad value raises the read's error; it times out exactly when it would go on at the last tick |
| Devices.PollOnlyReads | nvidia_gpu_tools.py:1209-1234 | a polling loop appends reads and nothing else |
| Devices.PollEndsOn | nvidia_gpu_tools.py:1209-1234 | a poll ends on a read of the polled register, and succeeds only on a good value that satisfies the test |
| Devices.PollTimesOut | nvidia_gpu_tools.py:1231-1232 | `poll_register` raises `GpuPollTimeout` exactly when it made `timeout + 2` reads and went on after every one |
| Devices.PollRaisesGpuError | nvidia_gpu_tools.py:1216-1232 | the corrected loop raises only `GpuError`s: the bad-read error or its timeout |
| Devices.PollOnSatisfied | nvidia_gpu_tools.py:1220-1229 | a poll whose register already holds a good satisfying value returns after one read |
| Devices.AnyBitSatisfied | nvidia_gpu_tools.py:1236-1251 | `poll_register_any_bit` stops exactly on a value sharing a bit with the mask, reads with `read`, and times out with `GpuError` |
| Devices.ReadFunctionChoice | nvidia_gpu_tools.py:1200-1204 | expecting a bad value, or passing `badf_ok`, reads with `read_bad_ok`; otherwise `read`, an expected value of 0 counting as none |
| Devices.PollTimeoutIsGpuError | nvidia_gpu_tools.py:1232-1251 | the corrected timeouts are `GpuPollTimeout` and `GpuError`, both caught by `except GpuError` |
| Devices.PollTimeoutAsWrittenIsTypeError | nvidia_gpu_tools.py:1232 | as written, a not-equal-mode poll that times out raises `TypeError` formatting `None` with `#x` |
| Devices.PollAsWrittenDiffers | nvidia_gpu_tools.py:1209-1234 | the loop as written ends where the corrected loop ends, with the same accesses and only the timeout exception replaced |
| Devices.StepAsWritten | nvidia_gpu_tools.py:1220-1232 | one pass as written goes on exactly when the corrected pass does, and otherwise ends with the as-written exception |
| Devices.PollTypeErrorIff | nvidia_gpu_tools.py:1226-1232 | the loop as written raises `TypeError` exactly when the corrected loop raises `GpuPollTimeout` in not-equal mode |
| Devices.StuckNotValuePoll | nvidia_gpu_tools.py:1226-1232 | a register stuck at `not_value` makes the poll as written raise `TypeError` where the corrected poll raises `GpuPollTimeout` |
| DeviceInfo.ZeroNotChained | nvidia_gpu_tools.py:1312-1314 | a chained row is never the zero row |
| DeviceInfo.ScanShape | nvidia_gpu_tools.py:1307-1317 | the scan finishes only whole devices; the rows it keeps (non-zero, or chained on to) are the finished devices followed by the open chain, which is open exactly when the last row chains on, and is dropped |
| DeviceInfo.StepShape | nvidia_gpu_tools.py:1311-1317 | one pass keeps the finished devices whole and the open chain open exactly while `in_chain` |
| DeviceInfo.Instances | nvidia_gpu_tools.py:1321-1324 | no more instances than devices |
| DeviceInfo.InstancesMeans | nvidia_gpu_tools.py:1321-1324 | each instance listed under a type is that of a device of that type, and each such device has its instance listed, at its own rank |
| DeviceInfo.TableOf | nvidia_gpu_tools.py:1319-1324 | the loop files under each type exactly `Instances` of that type |
| DeviceInfo.ReadRows | nvidia_gpu_tools.py:1310-1311 | `num_rows` rows read one after the other |
| DeviceInfo.ReadDevicesShape | nvidia_gpu_tools.py:1305-1317 | reading the table yields only whole devices, or an `IndexError` |
| DeviceInfo.ReadDevicesOnlyReads | nvidia_gpu_tools.py:1305-1317 | reading the table only reads: the row count, then each row once |
| DeviceInfo.InfoTable.constructor | nvidia_gpu_tools.py:1302 | a device with no cached table |
| DeviceInfo.InfoTable.DeviceInfoInstances | nvidia_gpu_tools.py:1299-1326 | before Hopper the assertion with no access; a cached table with no access; otherwise the table read, cached and returned, a read that raises caching nothing |
| DeviceInfo.InfoTable.ReadRow | nvidia_gpu_tools.py:1311 | row `i` read with `read_bad_ok`, or the `IndexError` of an index past the array |
| DeviceInfo.InfoTable.ReadDevicesFrom | nvidia_gpu_tools.py:1305-1317 | the reads and result of `ReadDevices`, whose devices are all whole |
| PciCaps.MatchingExact | pci/device.py:358 | an offset is listed for a capability exactly when some step of the walk paired them |
| PciCaps.AllByIs | pci/device.py:356-358 | `ext_caps_all` holds, for each capability seen, every offset recorded for it, in walk order |
| PciCaps.LastByIs | pci/device.py:338-357 | `caps` and `ext_caps` hold, for each id seen, the last offset recorded for it |
| PciCaps.LastOfAll | pci/device.py:356-358 | `ext_caps` and `ext_caps_all` agree: the first holds the last offset of the second's non-empty list |
| PciCaps.LaterWins | pci/device.py:338-357 | a later entry with the same id replaces an earlier one |
| PciCaps.CapEntries | pci/device.py:335-339 | one `(cap_id, offset)` entry per capability visited |
| PciCaps.CapChainStep | pci/device.py:335-339 | one more capability extends the chain to the pointer in bits 15:8 of its dword and records its id, the low byte |
| PciCaps.CapsOfWalk | pci/device.py:335-339 | after the walk, `caps` maps an id to the offset of the last capability visited with that id |
| PciCaps.CapsHasId | pci/device.py:335-339 | an id is in `caps` exactly when some capability visited has it |
| PciCaps.ExtWalkIs | pci/device.py:348-361 | the extended walk starts at 256, follows bits 31:20 of each header, and processes distinct non-zero offsets |
| PciCaps.ExtWalkStep | pci/device.py:351-361 | processing a fresh non-zero offset and reading the header it points to continues the walk |
| PciCaps.ExtRevisit | pci/device.py:352-354 | a walk that meets an offset it processed before has ended |
| PciCaps.ExtEntries | pci/device.py:356-358 | one `(cap, offset)` entry per processed offset |
| PciCaps.NextExtCapBound | pci/device.py:360 | every extended offset after the first is a multiple of four below 4096 |
| PciCaps.DvsecEntries | pci/device.py:363-368 | one `((vendor, dvsec id), offset)` entry per DVSEC capability |
| PciBars.Size32Is | pci/device.py:271-272 | a 32-bit BAR size is `2**32` minus the probed mask, so between 1 and `2**32` |
| PciBars.Size64Is | pci/device.py:274-276 | the 64-bit mask is the low mask plus the high one times `2**32`, and the size `2**64` minus it |
| PciBars.ProbedSize32 | pci/device.py:261-272 | a BAR that decodes `2**k` bytes (`k >= 4`) reads back all ones above bit `k`, and the probe then gives exactly `2**k` |
| PciBars.SlotIo | pci/device.py:287-291 | an I/O slot is read once, adds no BAR and moves on by one |
| PciBars.Slot64 | pci/device.py:292-302 | a 64-bit memory slot reads its two dwords and probes both, its BAR joins the two halves, it moves on by two, and it is listed exactly when its address is non-zero |
| PciBars.Slot32 | pci/device.py:292-302 | a 32-bit memory slot reads its dword and probes it, its BAR has the flags cleared, it moves on by one, and it is listed exactly when its address is non-zero |
| PciBars.SlotChainIs | pci/device.py:285-300 | the scan starts at slot 0, reads each slot the previous one moves on to, and stays below `max_bars` |
| PciBars.SlotsAdvance | pci/device.py:285-300 | the `k`-th slot read is at least slot `k` |
| PciBars.BarsAtMost | pci/device.py:280-302 | a scan of `max_bars` slots reads at most that many and finds at most as many BARs |
| PciBars.SlotBarShape | pci/device.py:292-302 | a listed BAR has a non-zero 16-byte-aligned address, is 64-bit as its register says, and a 32-bit one lies below 4 GiB with the probed size |
| PciBars.BarsFromSlots | pci/device.py:301-302 | every BAR the scan reports is the BAR of one memory slot at a non-zero address |
| PciBars.ResourceBar | pci/device.py:247-259 | a resource line adds no BAR or one at a non-zero address |
| PciBars.ResourceFields | pci/device.py:248-259 | a line with three hex fields adds nothing for an I/O region or address 0, else the BAR `(start, end - start + 1, bits 2:1 of flags == 2)` |
| PciBars.ResourceRoundTrip | pci/device.py:247-259 | reading back a line written for a region gives its BAR |
| PciBars.BadStartFails | pci/device.py:248 | a line whose start field is not hex fails the parse with `int()`'s `ValueError` |
| PciBars.SysfsBarsErrSticks | pci/device.py:246-259 | the first line that fails decides the error of the whole parse |
| PciBars.SysfsBarsFromLines | pci/device.py:246-259 | every BAR read from sysfs is a memory region at a non-zero address, added by one line of the file |
| PciBars.SysfsResourceStep | pci/device.py:233-239 | the next BAR's resource number is one past this one's, two past after a 64-bit BAR |
| PciBars.SysfsResourceBounds | pci/device.py:233-239 | a resource number lies between the BAR number and twice it, and distinct BARs get distinct numbers |
| PciDevice.AmongIs | pci/device.py:180 | keeping some elements of an increasing sequence keeps them increasing, and keeps exactly the elements chosen |
| PciDevice.SaveRestoreOrder | pci/device.py:43 | the saved offsets are those of `GPU_CFG_SPACE_OFFSETS` below the config size, in increasing order, and restoring in that list's order is restoring in sorted order (also pci/device.py:170-184) |
| PciDevice.PciDevice.constructor | pci/device.py:104-118 | a device with its identifiers and empty capability tables, no BARs and nothing saved |
| PciDevice.PciDevice.InitCaps | pci/device.py:320-341 | a pointer of 0xff marks the space broken with nothing recorded; otherwise `caps` is the last-wins table of the walk, and a walk that ends at 0 goes on to the extended list; the reads are exactly the walks' |
| PciDevice.PciDevice.WalkCaps | pci/device.py:335-339 | the walk follows the chain from the pointer, fills `caps` with the last offset per id, and reads one dword per capability |
| PciDevice.PciDevice.InitExtCaps | pci/device.py:344-368 | the extended walk and the DVSEC map, nothing else changed |
| PciDevice.PciDevice.ScanExtCaps | pci/device.py:344-368 | nothing in a 256-byte space; otherwise the three tables are the folds of the walk's reads and the DVSEC reads |
| PciDevice.PciDevice.WalkExtCaps | pci/device.py:348-361 | the walk from 256 stops at 0 or a revisited offset; `ext_caps` and `ext_caps_all` are the last-wins and list tables of the offsets processed |
| PciDevice.PciDevice.ExtStep | pci/device.py:352-361 | one turn records the capability at the offset and reads the header of the next |
| PciDevice.PciDevice.ReadDvsecTable | pci/device.py:363-368 | one DVSEC entry per offset of `ext_caps_all[0x23]`, in order, the map being their last-wins table |
| PciDevice.PciDevice.ReadDvsecHeader | pci/device.py:364-367 | the key of a DVSEC capability is the low halves of its second and third dwords |
| PciDevice.PciDevice.ConfigReadDvsecCap | pci/device.py:370-375 | None with no access for an absent capability, else one read at that offset into it |
| PciDevice.PciDevice.BarRegMask | pci/device.py:261-269 | the BAR is read, written all ones, read back and restored; the value has the flags cleared unless `high` |
| PciDevice.PciDevice.InitBarsConfigSpace | pci/device.py:278-302 | the slots read form a scan of 6 slots (2 for a bridge), `bars` is the scan's BARs, and the reads and probes are exactly the scan's |
| PciDevice.PciDevice.ScanBars | pci/device.py:285-302 | the loop over the first `max` slots, as `BarsOf` and `SlotsLog` define |
| PciDevice.PciDevice.ScanSlot | pci/device.py:287-300 | one turn at slot `num`: the accesses `AfterSlot` defines |
| PciDevice.PciDevice.InitBarsSysfs | pci/device.py:241-259 | the BARs of the first six resource lines, or the error of the first malformed line; nothing else changes |
| PciDevice.PciDevice.BarNumToSysfsResource | pci/device.py:233-239 | the BAR number plus the 64-bit BARs before it, or `IndexError` past the list |
| PciDevice.PciDevice.SaveCfgSpace | pci/device.py:170-175 | the dwords at the offsets of `GPU_CFG_SPACE_OFFSETS` below the config size, read in order and saved |
| PciDevice.PciDevice.ReadSaved | pci/device.py:172-175 | the loop of the save and the table it fills |
| PciDevice.PciDevice.RestoreCfgSpace | pci/device.py:178-184 | `AttributeError` before any save, `AssertionError` after a save that kept nothing, otherwise each saved offset in increasing order read and then written back with its saved value |
| PciDevice.PciDevice.RestoreSaved | pci/device.py:180-184 | the loop of the restore over the saved offsets, in order |
| PciDevice.PciDevice.RestoreOne | pci/device.py:181-184 | one read of the register, then the saved value written |
| PciDevice.ReadIds | pci/device.py:113-117 | the vendor, device, subsystem ids and header type, read in that order |
| PciDevice.OpenPciDevice | pci/device.py:104-120 | the identification reads come first; without sysfs opening always succeeds, and with it exactly when the resource lines parse |
| PciDevices.ParseArrayIndexFromArray | pci/devices.py:36-61 | whatever `parse_array_index` selects comes from the list |
| PciDevices.ParseArrayIndexOne | pci/devices.py:55-61 | "n" selects element n, or nothing once n is past the end |
| PciDevices.ParseArrayIndexFromEnd | pci/devices.py:55-58 | "-n" counts from the end, as Python indexing does |
| PciDevices.ParseArrayIndexRange | pci/devices.py:48-54 | "a:b" selects the elements from a up to b |
| PciDevices.ParseArrayIndexAll | pci/devices.py:48-54 | ":" selects everything |
| PciDevices.FirstIndex | pci/devices.py:94 | `s.index(c)` is the position of the first `c` |
| PciDevices.ClassifyMeans | pci/devices.py:97-128 | "gpus" and "nvswitches" come first, then two four-digit hex numbers as vendor:device, then any other base with a colon as a BDF address; a base with no colon that is not a keyword raises `ValueError` |
| PciDevices.ClassifyVendorDevice | pci/devices.py:110-112 | two four-digit hex numbers name a vendor and a device, read in base 16 |
| PciDevices.InsertSorted | pci/devices.py:131 | inserting into a sorted list keeps it sorted |
| PciDevices.SortByMeans | pci/devices.py:131 | sorting orders the paths by their numeric BDF and keeps each as often as it came |
| PciDevices.PiecePathsMeans | pci/devices.py:87-134 | without an index a specifier gives its matches in BDF order, and with one a selection from them; either way only matching paths |
| PciDevices.SpecifiedPathsErrStays | pci/devices.py:87-139 | a specifier that raises ends the whole string with an error |
| PciDevices.FindClassMeans | pci/devices.py:151-195 | each class, stated by the facts that select it: NVIDIA vendor with a display or 3D class is a GPU, class 0x068000 an NVSwitch, an Intel root port, a PLX or ConnectX-7 switch port, a bridge by port type or header type, else a plain device |
| PciDevices.InitDispatchMeans | pci/devices.py:198-218 | only an exception outside the GPU errors escapes; an unknown GPU becomes an `NvidiaDevice` and a broken one a `BrokenGpu` keeping what it knows, each of that path |
| PciDevices.Registry.constructor | pci/devices.py:141-142 | an empty registry |
| PciDevices.Registry.FindOrInit | pci/devices.py:221-231 | the registered device with nothing changed, or a new one that is then registered; a creation that raises registers nothing; registered devices stay |
| PciDevices.Registry.InitAll | pci/devices.py:137 | one registered device per path, in order |
| PciDevices.Registry.FindDevicesFromString | pci/devices.py:63-139 | a specifier that raises makes the call raise; otherwise one device per specified path, in order, each the registered device of that path |
| PciBridges.GetSet | pci/bridge.py:46-50 | writing a field changes that field only |
| PciBridges.ToggleLinkMeans | pci/bridge.py:54-58 | the link ends enabled, the only writes are link disable set and then cleared, with a 100 ms sleep after each, and no other field changes |
| PciBridges.WaitFromMeans | pci/bridge.py:60-82 | the wait succeeds exactly when some pass, within the timeout, reads a status with training done and the data link active |
| PciBridges.WaitFromTime | pci/bridge.py:64-82 | on failure the time reported is the timeout; on success it is positive |
| PciBridges.WaitKeeps | pci/bridge.py:60-82 | the wait changes no field and writes nothing |
| PciBridges.AttemptsNone | pci/bridge.py:104 | with no tries the loop does nothing and reports failure with no training time |
| PciBridges.AttemptsStep | pci/bridge.py:104-115 | a try that trains ends the loop; a failed one runs the callback and then the rest of the loop |
| PciBridges.AttemptsTries | pci/bridge.py:104-115 | the loop succeeds on the first try that trains; a loop that fails made every try, each reporting the timeout as its time |
| PciBridges.AttemptsFields | pci/bridge.py:104-107 | the loop writes no field but the bus reset, and leaves it cleared after any try |
| PciBridges.AttemptsLog | pci/bridge.py:104-115 | the loop only appends: one reset pulse per try, and the callback after each failed try when there is one |
| PciBridges.PrepareMeans | pci/bridge.py:87-102 | switching off writes zeros, so during every pulse the slot notifications and ACS source validation (where modified) are off; nothing else changes |
| PciBridges.FinishMeans | pci/bridge.py:117-136 | the finishing writes leave the saved slot control and ACS value back, the pending slot events cleared, and the bus reset and link disable untouched |
| PciBridges.ToggleSbrMeans | pci/bridge.py:84-138 | the intended `toggle_sbr` never raises and returns the loop's result; slot control and ACS source validation end as they began, the slot events are cleared where there is a slot, the bus reset ends cleared after any try |
| PciBridges.NoTriesAsWritten | pci/bridge.py:104-118 | as written, a bridge with a slot and no tries raises `UnboundLocalError` for `time_to_train`; as intended it reports failure |
| PciBridges.Cx7WithoutAcsAsWritten | pci/bridge.py:97-100 | as written, a ConnectX-7 port without ACS raises `AttributeError` before any reset; as intended it resets without touching ACS |
| PciBridges.AsWrittenAgrees | pci/bridge.py:84-138 | away from those two inputs the code as written does what was intended |
| PciBridges.PciBridge.constructor | pci/bridge.py:33-37 | a bridge with its capabilities and register state |
| PciBridges.PciBridge.SetField | pci/bridge.py:45-52 | one field write, logged |
| PciBridges.PciBridge.SleepFor | pci/bridge.py:56 | one sleep, logged |
| PciBridges.PciBridge.ReadClock | pci/bridge.py:61-64 | `perf_counter()`: the next clock reading |
| PciBridges.PciBridge.ReadLinkStatus | pci/bridge.py:68 | the next link status reading |
| PciBridges.PciBridge.ToggleLink | pci/bridge.py:54-58 | the state `ToggleLinkSpec` gives |
| PciBridges.PciBridge.WaitForLink | pci/bridge.py:60-82 | the result, time and state `Wait` gives |
| PciBridges.PciBridge.Try | pci/bridge.py:105-109 | one reset pulse, then the wait |
| PciBridges.PciBridge.RetryLoop | pci/bridge.py:104-115 | the result and state `Attempts` gives |
| PciBridges.PciBridge.Pass | pci/bridge.py:105-115 | pass `i`: a try, then the callback when it failed, agreeing with the loop from its start |
| PciBridges.PciBridge.ToggleSbr | pci/bridge.py:84-138 | the result and state of the intended `ToggleSbrSpec` |
| PciBridges.PciBridge.FinishSbr | pci/bridge.py:117-136 | the state `Finish` gives |
| Cx7Nics.StoreMeans | pci/cx7.py:70 | a dict store reads back, leaves other keys alone, keeps keys distinct and adds a key only when it is new |
| Cx7Nics.LookupNone | pci/cx7.py:102 | a lookup fails exactly when the key is absent |
| Cx7Nics.NicTableMeans | pci/cx7.py:65-71 | the table's keys are distinct NIC BDFs; a NIC maps to the topology above it, which does not contain the NIC itself |
| Cx7Nics.NicCache.constructor | pci/cx7.py:31 | no table cached yet |
| Cx7Nics.NicCache.FindCx7Nics | pci/cx7.py:34-73 | the cached table, or a new one that is kept |
| Cx7Nics.IndexOf | pci/cx7.py:105 | `index` finds the first occurrence, and fails exactly when the element is absent |
| Cx7Nics.ScanNicMeans | pci/cx7.py:103-111 | the inner loop keeps the best unless it finds a closer BDF; what it picks is one of the NIC's BDFs, no farther than the NIC's first hit |
| Cx7Nics.ScanAllMeans | pci/cx7.py:102-111 | the outer loop finds a NIC exactly when it finds a distance, no NIC's first hit being closer |
| Cx7Nics.SelectNicMeans | pci/cx7.py:99-116 | no NIC is picked exactly when no NIC shares the port's topology; otherwise the one picked shares it at the distance found, every NIC before it in the table being strictly farther |
| Cx7Nics.SelectNicNearest | pci/cx7.py:99-116 | in a tree-shaped topology the NIC picked is the nearest of all |
| Cx7Nics.McraCommandMeans | pci/cx7.py:132-135 | the `mcra` command reads back as the tool, the NIC and a window of `last - first + 4` bytes from `first`, ending with the word at `last` |
| Cx7Nics.McraLineRoundTrip | pci/cx7.py:140-143 | a printed dump line reads back as its offset and value |
| Cx7Nics.McraRoundTrip | pci/cx7.py:139-145 | parsing a dump gives back the registers it lists |
| Cx7Nics.ParseMcraErr | pci/cx7.py:139-143 | the parse fails exactly when some line is bad, with the first bad line's error |
| Cx7Nics.ParseMcraKeys | pci/cx7.py:139-145 | a parse that succeeds adds exactly the lines' offsets as keys |
| Cx7Nics.ParseMcraLast | pci/cx7.py:143 | a line's offset holds the value of the last line naming it |
| Cx7Nics.StoredStays | pci/cx7.py:139-145 | a key no line names keeps its value |
| Cx7Nics.Cx7.constructor | pci/cx7.py:79-85 | a port with no NIC found yet |
| Cx7Nics.Cx7.NearestNic | pci/cx7.py:99-111 | the loop's best NIC and distance are those of `SelectNic` |
| Cx7Nics.Cx7.Cx7NicBdf | pci/cx7.py:90-116 | the cached answer with nothing changed, or the nearest NIC from the cached table, then cached, `None` included |
| Cx7Nics.Cx7.RunMcraQuery | pci/cx7.py:130-145 | the command `McraCommand` builds for the NIC, and the registers its output lines parse to |
| GpuProperties.GetMeans | gpu/properties.py:35-36 | `get` on a dict literal agrees with indexing the dict it builds |
| GpuProperties.GetLast | gpu/properties.py:35-36 | `get` finds a key exactly when some entry of the literal has it, and returns the value of its last entry |
| GpuProperties.GetAt | gpu/properties.py:35-36 | an entry no later entry overrides is what `get` returns |
| GpuProperties.ChipFamilyMeans | gpu/properties.py:43-47 | a family is found exactly when some row's inclusive range holds the id, and it is that of the first such row |
| GpuProperties.DevidChipsDisjoint | gpu/devid_chips.py:24-39 | the ranges of `GPU_DEVID_CHIPS` do not overlap |
| GpuProperties.ChipFamilyOfDisjoint | gpu/properties.py:43-47 | in a table of disjoint ranges any row holding the id gives the family |
| GpuProperties.GetChipFamily | gpu/properties.py:43-47 | the scan of `GPU_DEVID_CHIPS` returns `ChipFamily` |
| GpuProperties.RepeatedNameKey | gpu/devid_names.py:41-54 | device id 0x2342 appears three times, twice as "H100" and last as "GH200", so its name is "GH200" |
| GpuProperties.ChipFamilyExamples | gpu/properties.py:43-47 | no row covers Hopper's 0x2342, and 0x2901 is a Blackwell GB100 |
| GpuProperties.GetPropertiesMeans | gpu/properties.py:34-40 | the name and flags are those of the two dicts; a missing name is `None` and missing flags are empty |
| C2C.ScratchRegisterMeans | nvidia_gpu_tools.py:3543-3547 | each bank holds one word-aligned register per index, and the two banks' first 96 registers do not overlap |
| C2C.StatusTextRoundTrip | gpu/c2c.py:36-43 | the status text determines the status word, and the firmware is "up" exactly at 0xff |
| C2C.C2CUnit.constructor | gpu/c2c.py:28-49 | 14 links on Blackwell, 10 before, and the instances listed under type 0x19 |
| C2C.C2CUnit.FirmwareStatus | gpu/c2c.py:36-43 | one checked read of scratch register 38: a bad value raises, otherwise its text, from which the word reads back |
| C2C.NewC2CUnit | gpu/c2c.py:31-34 | a unit whose instances come from the cached device-info table; a table read that raises creates no unit |
| Nvlink.StateNameRoundTrip | nvidia_gpu_tools.py:1514-1528 | a state's name gives the state back, and is never "badf" |
| Nvlink.LinkStateMeans | nvidia_gpu_tools.py:1507-1528 | "badf" is exactly a failed read and "disable" exactly state 0xf; two good reads name the same state exactly when their low nibbles agree |
| Nvlink.GetLinkState | nvidia_gpu_tools.py:1507-1528 | one `read_bad_ok` of the link's state register, named by `LinkStateName` |
| Nvlink.SelectUnitMeans | gpu/units/nvlink_auto.py:29-49 | switches get Laguna or nothing, and among GPUs Blackwell wins over Hopper, which wins over A100/A30 |
| Nvlink.IndicesWhereMeans | gpu/units/nvlink_hopper.py:37-50 | the link filters list exactly the indices whose state passes, each once, ascending |
| Nvlink.AmpereOffsetsDistinct | gpu/units/nvlink_ampere.py:36-43 | the block and lock registers of the twelve links are 24 distinct registers |
| Nvlink.BlockLinksErrStays | gpu/units/nvlink_ampere.py:60-63 | once `block_nvlinks` has raised, the later links change nothing |
| Nvlink.BlockedLinksErrStays | gpu/units/nvlink_ampere.py:65-70 | once `get_blocked_nvlinks` has raised, the later links change nothing |
| Nvlink.VerboseWriteOnMemory | gpu/units/nvlink_ampere.py:45-47 | on a register file with nothing bad written, `write_verbose(o, 1)` succeeds and leaves `o` holding 1 |
| Nvlink.BlockLinkOnMemory | gpu/units/nvlink_ampere.py:49-57 | on such a register file `block_nvlink` succeeds, leaving the block register (and the lock register with `lock`) reading 1 and every other register as it was |
| Nvlink.BlockLinksOnMemory | gpu/units/nvlink_ampere.py:60-63 | on such a register file `block_nvlinks` succeeds and every link it names has both registers reading 1 |
| Nvlink.ReadBlockedOnMemory | gpu/units/nvlink_ampere.py:72-73 | on such a register file `is_nvlink_blocked` only reads and reports exactly whether both registers were last written with 1 |
| Nvlink.BlockedBelowMeans | gpu/units/nvlink_ampere.py:65-70 | the blocked list holds, ascending, exactly the blocked links below `n` |
| Nvlink.BlockThenQuery | gpu/units/nvlink_ampere.py:60-73 | on such a register file `get_blocked_nvlinks()` after `block_nvlinks(links)` succeeds and names every link blocked |
| Nvlink.BlockedLinksOnMemory | gpu/units/nvlink_ampere.py:65-73 | on such a register file `get_blocked_nvlinks` only reads and lists exactly the blocked links, in order |
| Nvlink.AmpereUnit.constructor | gpu/units/nvlink_ampere.py:26-34 | an Ampere unit on its device |
| Nvlink.AmpereUnit.BlockNvlink | gpu/units/nvlink_ampere.py:49-57 | a link outside 0..11 fails the assertion with no access; otherwise the accesses and result of `BlockLink` |
| Nvlink.AmpereUnit.BlockNvlinks | gpu/units/nvlink_ampere.py:60-63 | the accesses and result of `BlockLinks` |
| Nvlink.AmpereUnit.IsNvlinkBlocked | gpu/units/nvlink_ampere.py:72-73 | the accesses and result of `ReadBlocked`: the lock register is read only when the block register reads 1 |
| Nvlink.AmpereUnit.GetBlockedNvlinks | gpu/units/nvlink_ampere.py:65-70 | the accesses and result of `BlockedLinks` over the twelve links |
| Nvlink.AmpereUnit.EnabledNvlinks | gpu/units/nvlink_ampere.py:75-76 | every link, 0 to 11 |
| Nvlink.LagunaUnit.constructor | gpu/units/nvlink_hopper.py:28-65 | a Laguna or Hopper unit with its layout and link count |
| Nvlink.LagunaUnit.GetEnabledNvlinks | gpu/units/nvlink_hopper.py:37-43 | two state reads per link, the second deciding, and exactly the links neither "badf" nor "disable" |
| Nvlink.LagunaUnit.GetBlockedNvlinks | gpu/units/nvlink_hopper.py:45-50 | one state read per link, and exactly the links in state "disable" |
| Nvlink.LagunaUnit.IsNvlinkBlocked | gpu/units/nvlink_hopper.py:52-54 | one state read, blocked exactly when "disable" |
| Nvlink.BlackwellBlocked | gpu/units/nvlink_blackwell.py:40-47 | a port list shorter than `num_nvlinks` raises `IndexError`; otherwise the links below `num_nvlinks` whose port is "disabled" |
| Nvlink.BlackwellBlockedMeans | gpu/units/nvlink_blackwell.py:44-47 | Blackwell's blocked list names, ascending, exactly the links below `num_nvlinks` whose port is "disabled" |
| Nvlink.TestBlockingMeans | gpu/units/nvlink.py:37-69 | the self-test passes exactly when the unit has no links, or blocking left every enabled link blocked and the unblocking reset left none of them blocked; it always blocks first and ends on a query, and never uses a bus reset on a unit whose links an FLR re-enables |
| Nvlink.BlockingTest.constructor | gpu/units/nvlink.py:32-35 | a self-test with no action taken |
| Nvlink.BlockingTest.Do | gpu/units/nvlink.py:44-61 | one action recorded |
| Nvlink.BlockingTest.GetBlocked | gpu/units/nvlink.py:49-63 | the blocked links after the actions so far, recorded as a query |
| Nvlink.BlockingTest.TestNvlinkBlocking | gpu/units/nvlink.py:37-69 | the result and actions of `TestBlocking` |

## Left out

- Time: sleeps and timeouts count loop passes or abstract ticks rather than seconds; `time.time()` and `time.perf_counter()` are not read, and a sleep does not advance the clock the timeouts compare against.
- Logging: `info`/`debug`/`warning`/`error` output, `debug_dump` of a GPU, C2C `debug_print` and `traceback.print_tb` produce no effect in the model; the reads they make are kept where the source makes them.
- Error messages are abbreviated: the exception class is kept, but the `{self}` device prefix and some interpolated values are dropped (the size in "Unhandled size" and in the `unpack` buffer-size message, the bit counts, field, struct name and int size of the NiceStruct messages), and a bare `assert` is given a short description as its AssertionError text where the Python one is empty.
- IntsToBytes: the host is taken to be little-endian, for `sys.byteorder` and the native `"="` struct formats (utils/ints_to_bytes.py:31,96).
- Falcons.MemPort.Configure: requires the memory offset to be below 0x100_0000, so that it stays under the control word's auto-increment and secure bits and the word fits in 32 bits; the Python does not check the offset and ORs any value in.
- FspRpcs: reply words are unbounded naturals, so the OverflowError that `from_int(mdata[1])` raises for a header word of 2**32 or more (nvidia_gpu_tools.py:2767) is not modelled.
- FspRpcs.FspRpc.SendCmd: with `sync=False` the send returns `Ok([])`; a failure of the transport's `send_data` is not modelled, with or without `sync`.
- CcModes.StateQuery: `query_final_ecc_state` and `query_mig_mode` are a parameter of the knob query, giving the state each reports or the exception it raises and the accesses it makes; their own reads (the boot wait, `clear_memory`, the VBIOS scratch register) are not modelled here.
- Python's `repr` escaping inside error messages is not modelled; `int()` accepts only plain digits (no sign, whitespace or underscores inside a hex specifier).
- Floating point, threads, signals and `atexit` are not modelled.
- Mse.MseRpc.constructor: the `_negotiate` handshake with the MSE and its `atexit` goodbye hook are not modelled; the client starts with context id 1 and its MNOC port, having sent nothing.
- Mse: `get_platform_info` (gpu/mse.py:166-170) and the `from_int_array` call of `process_incoming` (gpu/mse.py:121) are not modelled beyond the AttributeError that already stops `send_cmd`.
- Mse.MseRpc.ProcessIncoming: the `while True` loop gives up after `fuel` messages; a sender that never stops is not modelled.
- NiceStructs: array field formats such as `"4I"` and `"Nc"`, signed formats, a bare `"s"`, and the pretty printing of a struct are not modelled; no layout of the modelled core uses them.
- FspRpcs.FspRpc: the reply is a parameter (a function of the commands sent); no lemma connects it to what `EmemChannel` or `GpuMnoc` receive, so the RPC layer is proved for any transport answer.
- PciDevice.PciDevice.InitCaps: the standard capability walk gives up after `fuel` capabilities; on a cyclic list the Python loops forever.
- PciDevice.OpenPciDevice: the `DeviceField` attributes set up after the capabilities (pci/device.py:121-160) and the parent bridge lookup are not modelled; a device is opened from its config space and sysfs `resource` lines, passed as parameters.
- PciDevices.FindDevicesFromString: the objects returned are values standing for the devices, so which Python object is returned twice (object identity) is not modelled.
- PciDevices: sysfs directory listings, file contents and a constructor that raises are parameters.
- PciBridges.PciBridge.WaitForLink: the `perf_counter` readings used for the training time are modelled as ticks.
- Cx7Nics: `run_mlxlink`, `devpath_to_id` and the timing of the `mcra` subprocess are not modelled; the dump text is a parameter.
- Regs: `__str__`, `_setup_field_properties`, `__setattr__`, field lookup by reflection and the lazily imported register modules are not modelled.
- Regs.RegisterMeta: an array element gets a copy of the array's fields; in the Python they share one dict, so a field added to the array later would show in its elements.
- Regs.RegisterInterface.WriteField: requires `msb < 32`, since every register is 32 bits wide.
- RawBitfields.GpuBitfield.constructor: the initial value is a 32-bit word.
- CcModes.Gpu.WaitForBoot: on Blackwell and later, the `wait_for_bar_firewall` step (nvidia_gpu_tools.py:3800-3813: a config-space poll of the DVSEC, or a BAR0 probe and 3 s sleep) is not part of the boot wait.
- Nvlink: `reset_with_os`, `reset_with_sbr` and `wait_for_boot` of the NVLink self-test are abstract actions recorded in order; what the blocked links are after any sequence of actions is a parameter (`blocked`).
- Device objects are values inside the model, not Python objects with identity; a device's sysfs paths are parameters.

## Findings

| source | as written | input that shows it | evidently intended | confidence | as-written member | corrected member |
|---|---|---|---|---|---|---|
| utils/nice_struct.py:185 | `to_bytes` extends the packed values with the bytes of an `"<n>s"` field, one item per byte, so `struct.pack` gets too many items | `FspDownloadLogResponse` with any data: 52 int items where the format expects one bytes item | append the bytes object as one item | high, not executed | FspMctp.DownloadLogResponseToBytesFails | FspMctp.DownloadLogResponseToBytesIntended |
| gpu/mse.py:110 | `send_cmd` calls `to_int_array`, which `NiceStruct` does not define, so every command raises AttributeError | any `send_cmd` call | `to_int_list` | high, not executed | Mse.MseRpc.SendCmdAsWritten | Mse.MseRpc.SendCmd |
| utils/device_field.py:57-59 | `write_only` builds its bitfield from `-1`, so the raw value is negative and the write raises `OverflowError` | any `write_only` call | start from all ones within the access width (`LowMask(8 * size)`), so only the named field differs | medium, not executed | DeviceFields.DeviceField.WriteOnlyAsWritten | DeviceFields.DeviceField.WriteOnly |
| nvidia_gpu_tools.py:1232 | the timeout message formats `value` with `#x`; in not-equal mode `value` is None, so a timeout raises `TypeError` | a register stuck at `not_value` | raise `GpuPollTimeout` | high, not executed | Devices.PollTypeErrorIff | Devices.PollRegister |
| utils/nice_struct.py:228 | `NiceStructArray.from_bytes` is declared without `self`, so calling it on an instance raises TypeError | any `from_bytes(data)` call | `def from_bytes(self, data)` | high, not executed | NiceStructArrays.FromBytesAsWrittenRefuses | NiceStructArrays.ArrayRoundTrip |
| pci/bridge.py:97-100 | `toggle_sbr` tests `self.has_acs`, the method itself and so always true, instead of calling it; on a ConnectX-7 port without ACS the `acs_ctl` access then raises AttributeError | a ConnectX-7 bridge without the ACS capability | `self.has_acs()`: skip ACS when absent | medium, not executed | PciBridges.Cx7WithoutAcsAsWritten | PciBridges.PciBridge.ToggleSbr |
| pci/bridge.py:104-118 | `time_to_train` is assigned only inside the retry loop, so zero tries raise UnboundLocalError | a bridge with a slot and `retry_count` 0 | report that the link did not train | medium, not executed | PciBridges.NoTriesAsWritten | PciBridges.ToggleSbrMeans |
