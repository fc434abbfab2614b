/*
 * Opening the FSP RPC channel (`_init_fsp_rpc` in nvidia_gpu_tools.py) and
 * blocking NVLinks through it (`NvlinkFspInterface.block_nvlinks` in
 * gpu/units/nvlink.py).  The device opens its channel once, after a boot
 * wait whose poll timeout it tolerates; Blackwell-and-later GPUs talk over
 * MNOC channel 0, everything else over EMEM channel 2, and a Hopper GPU also
 * opens EMEM channel 1 for MODS.
 */
module FspInit {
  import opened Bits
  import opened Text
  import opened GpuErrors
  import opened Devices
  import opened FspRpcs
  import opened CcModes

  datatype Transport = Mnoc | Emem

  /** A transport and its channel number. */
  datatype Channel = Channel(transport: Transport, num: nat)

  /** The channel of `fsp_rpc`. */
  function MainChannel(caps: Caps): Channel
  {
    if caps.isGpu && caps.blackwellPlus then Channel(Mnoc, 0) else Channel(Emem, 2)
  }

  /** The channel of `fsp_rpc_mods`, which only a Hopper GPU opens. */
  function ModsChannel(caps: Caps): Option<Channel>
  {
    if caps.isGpu && caps.hopper then Some(Channel(Emem, 1)) else None
  }

  /** Only a Blackwell-or-later GPU uses MNOC; the MODS channel, where there
      is one, is an EMEM channel other than the main one. */
  lemma ChannelsMeans(caps: Caps)
    ensures MainChannel(caps).transport == Mnoc <==> caps.isGpu && caps.blackwellPlus
    ensures ModsChannel(caps).Some? <==> caps.isGpu && caps.hopper
    ensures ModsChannel(caps).Some? ==>
      ModsChannel(caps).value.transport == Emem && ModsChannel(caps).value != MainChannel(caps)
  {
  }

  /** `wait_for_boot(silent_on_failure=True)`: the boot poll alone; a failed
      poll is raised again without the debug reads. */
  function SilentBootWait(caps: Caps, bar0: (seq<Access>, nat) -> u32, log: seq<Access>): (Result<()>, seq<Access>)
  {
    match BootPoll(caps)
    case None => (Ok(()), log)
    case Some(p) => Poll(p, bar0, log, 0)
  }

  /** The silent wait succeeds exactly when the loud one does, and then does
      the same; on failure the loud one also raises, after the same reads and
      possibly more. */
  lemma SilentBootWaitMeans(caps: Caps, bar0: (seq<Access>, nat) -> u32, log: seq<Access>)
    ensures SilentBootWait(caps, bar0, log).0.Ok? <==> BootWait(caps, bar0, log).0.Ok?
    ensures SilentBootWait(caps, bar0, log).0.Ok? ==> SilentBootWait(caps, bar0, log) == BootWait(caps, bar0, log)
    ensures SilentBootWait(caps, bar0, log).1 <= BootWait(caps, bar0, log).1
  {
    match BootPoll(caps)
    case None =>
    case Some(p) =>
      var (r, log1) := Poll(p, bar0, log, 0);
      if r.Err? {
        BootFailedOnlyReads(caps, p.offset, bar0, log1, r.error);
      }
  }

  /** What `_init_fsp_rpc` raises after the boot wait returned `w`: a poll
      timeout is only warned about; any other error propagates. */
  function Tolerate(w: Result<()>): (r: Result<()>)
    ensures r.Ok? <==> w.Ok? || w.error.GpuPollTimeout?
    ensures r.Err? ==> r == w
  {
    if w.Err? && w.error.GpuPollTimeout? then Ok(()) else w
  }

  /** Whether `prc_block_nvlinks` sends the third word: an NVSwitch or a Hopper GPU. */
  predicate Wide(caps: Caps)
  {
    !caps.isGpu || caps.hopper
  }

  /** `fsp_rpc.prc_block_nvlinks(links, persistent=False)` on a channel
      whose FSP answers `reply` and that has carried `sent`. */
  function FspBlock(reply: Reply, sent: seq<Cmd>, links: seq<nat>, wide: bool): (Result<()>, seq<Cmd>)
  {
    match BlockNvlinksWords(links, false, wide)
    case Err(e) => (Err(e), sent)
    case Ok(words) => PrcNoData(reply, sent, words)
  }

  /** A device that opens its FSP RPC channel on first use. */
  class FspHost {
    const caps: Caps
    const dev: Device
    /** `max_packet_size_bytes` of each channel's transport. */
    const packetBytes: Channel -> nat
    /** What the FSP answers on each channel, given the commands sent. */
    const replies: Channel -> Reply
    /** `fsp_rpc`, null until opened. */
    var rpc: FspRpc?
    /** The channel `rpc` was opened on. */
    var rpcChannel: Option<Channel>
    /** The channel of `fsp_rpc_mods`, which nothing here uses further. */
    var modsChannel: Option<Channel>

    constructor(caps: Caps, dev: Device, packetBytes: Channel -> nat, replies: Channel -> Reply)
      ensures this.caps == caps && this.dev == dev
      ensures this.packetBytes == packetBytes && this.replies == replies
      ensures rpc == null && rpcChannel == None && modsChannel == None
    {
      this.caps := caps;
      this.dev := dev;
      this.packetBytes := packetBytes;
      this.replies := replies;
      rpc := null;
      rpcChannel := None;
      modsChannel := None;
    }

    /** `wait_for_boot(silent_on_failure=True)` */
    method SilentWaitForBoot() returns (r: Result<()>)
      modifies dev
      ensures (r, dev.log) == SilentBootWait(caps, dev.bar0, old(dev.log))
    {
      match BootPoll(caps) {
        case None =>
          r := Ok(());
        case Some(p) =>
          r := PollRegister(dev, p);
      }
    }

    /** `_init_fsp_rpc()`: nothing once the channel is open; otherwise the
        silent boot wait, whose timeout is tolerated, then the channels. */
    method InitFspRpc() returns (r: Result<()>)
      modifies this, dev
      ensures old(rpc) != null ==>
        && r == Ok(()) && rpc == old(rpc) && dev.log == old(dev.log)
        && rpcChannel == old(rpcChannel) && modsChannel == old(modsChannel)
      ensures old(rpc) == null ==>
        var (w, log) := SilentBootWait(caps, dev.bar0, old(dev.log));
        && dev.log == log && r == Tolerate(w)
        && (r.Err? ==> rpc == null && rpcChannel == old(rpcChannel) && modsChannel == old(modsChannel))
        && (r.Ok? ==>
          && rpc != null && fresh(rpc) && rpc.sent == [] && rpc.packets == []
          && rpc.maxWords == packetBytes(MainChannel(caps)) / 4 && rpc.reply == replies(MainChannel(caps))
          && rpcChannel == Some(MainChannel(caps))
          && modsChannel == if ModsChannel(caps).Some? then ModsChannel(caps) else old(modsChannel))
    {
      if rpc != null {
        return Ok(());
      }
      var w := SilentWaitForBoot();
      r := Tolerate(w);
      if r.Err? {
        return;
      }
      var main := MainChannel(caps);
      rpc := new FspRpc(packetBytes(main), replies(main));
      rpcChannel := Some(main);
      if ModsChannel(caps).Some? {
        modsChannel := ModsChannel(caps);
      }
    }

    /** `NvlinkFspInterface.block_nvlinks(links)`: open the channel, then
        block the links for this boot only.  Once the channel is open, the
        result and the commands it carries are those of `FspBlock`. */
    method BlockNvlinks(links: seq<nat>) returns (r: Result<()>)
      requires packetBytes(MainChannel(caps)) >= 8
      requires rpc != null ==> rpc.maxWords >= 2
      modifies this, dev, rpc
      ensures rpc == null ==>
        old(rpc) == null && r.Err? && r == Tolerate(SilentBootWait(caps, dev.bar0, old(dev.log)).0)
      ensures rpc != null ==>
        (r, rpc.sent) == FspBlock(rpc.reply, if old(rpc) != null then old(rpc.sent) else [], links, Wide(caps))
      ensures old(rpc) != null ==> rpc == old(rpc)
    {
      var init := InitFspRpc();
      if init.Err? {
        return init;
      }
      r := rpc.PrcBlockNvlinks(links, false, Wide(caps));
    }
  }
}
