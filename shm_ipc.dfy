/**
 * The shared-memory region helper of the modem interface driver.
 *
 * The driver knows one physically contiguous area shared with the CP
 * (modem) processor: a boot part of `ipc_off` bytes followed by the IPC
 * part, a VSS (voice) part at offset `cp_size`, and a separate ACPM area.
 * Each part is mapped into kernel virtual memory on first use, page by page,
 * and the mapping is cached.
 *
 * `vmap` is an opaque allocator: the address it returns (0 when it fails, as
 * when the page-array allocation fails) is a parameter of the operations
 * that map. Page frames are modelled as page frame numbers.
 */
module ShmIpc {
  import opened CInt

  const PAGE_SHIFT: nat := 12
  const PAGE_SIZE: nat := 4096

  /** Boot modes understood by the secure-boot parameter getters. */
  const CP_BOOT_MODE_NORMAL: nat := 0
  const CP_BOOT_MODE_DUMP: nat := 1
  const CP_BOOT_RE_INIT: nat := 2

  /**
   * The page count of a request: `size >> PAGE_SHIFT`, plus one when a
   * partial page remains. It is the size rounded up to whole pages.
   */
  function NumPages(size: nat): (n: nat)
    ensures n * PAGE_SIZE >= size
    ensures n * PAGE_SIZE < size + PAGE_SIZE
  {
    var whole := size / PAGE_SIZE;
    if size > whole * PAGE_SIZE then whole + 1 else whole
  }

  /** The page frame holding a physical address (`phys_to_page`). */
  function FrameOf(addr: nat): nat
  {
    addr / PAGE_SIZE
  }

  /** What a region request hands to `vmap`, if anything. */
  datatype Request = NoMapping | MapFrames(frames: seq<nat>)

  /**
   * The request `shm_request_region(sh_addr, size)` makes: nothing for a
   * null address, else one frame per page, page i at `sh_addr + i*PAGE_SIZE`.
   */
  function RegionRequest(shAddr: nat, size: nat): Request
  {
    if shAddr == 0 then NoMapping
    else MapFrames(seq(NumPages(size), i requires 0 <= i => FrameOf(shAddr + i * PAGE_SIZE)))
  }

  /** The address a request yields once `vmap` answered `vmapResult`. */
  function Mapped(req: Request, vmapResult: nat): nat
  {
    if req.NoMapping? then 0 else vmapResult
  }

  /**
   * shm_request_region: the page list is filled in a loop that advances the
   * physical address one page at a time, then handed to `vmap`.
   */
  method RequestRegion(shAddr: nat, size: nat, vmapResult: nat) returns (v: nat, req: Request)
    ensures req == RegionRequest(shAddr, size)
    ensures shAddr == 0 ==> v == 0
    ensures shAddr != 0 ==> v == vmapResult
  {
    if shAddr == 0 {
      return 0, NoMapping;
    }
    var numPages := size / PAGE_SIZE;
    if size > numPages * PAGE_SIZE {
      numPages := numPages + 1;
    }
    var pages := new nat[numPages];
    var addr := shAddr;
    var i := 0;
    while i < numPages
      invariant 0 <= i <= numPages
      invariant addr == shAddr + i * PAGE_SIZE
      invariant forall j :: 0 <= j < i ==> pages[j] == FrameOf(shAddr + j * PAGE_SIZE)
    {
      pages[i] := FrameOf(addr);
      addr := addr + PAGE_SIZE;
      i := i + 1;
    }
    req := MapFrames(pages[..]);
    v := vmapResult;
  }

  /** The frames of a request are consecutive, starting at the frame of its base. */
  lemma ConsecutiveFrames(shAddr: nat, size: nat, i: nat)
    requires shAddr != 0 && i < NumPages(size)
    ensures RegionRequest(shAddr, size).MapFrames?
    ensures RegionRequest(shAddr, size).frames[i] == FrameOf(shAddr) + i
  {
    var q := shAddr / PAGE_SIZE;
    var r := shAddr % PAGE_SIZE;
    assert shAddr + i * PAGE_SIZE == (q + i) * PAGE_SIZE + r;
  }

  /**
   * A request for a page-aligned base maps exactly the pages spanning
   * `[sh_addr, sh_addr + size)`: the first frame holds the base and the last
   * one holds the last byte.
   */
  lemma AlignedRequestCovers(shAddr: nat, size: nat)
    requires shAddr != 0 && shAddr % PAGE_SIZE == 0 && size > 0
    ensures var r := RegionRequest(shAddr, size);
      r.MapFrames? && |r.frames| > 0 &&
      r.frames[0] * PAGE_SIZE == shAddr &&
      r.frames[|r.frames| - 1] * PAGE_SIZE <= shAddr + size - 1 < (r.frames[|r.frames| - 1] + 1) * PAGE_SIZE
  {
    var n := NumPages(size);
    ConsecutiveFrames(shAddr, size, 0);
    ConsecutiveFrames(shAddr, size, n - 1);
  }

  /**
   * The driver's platform data (`pdata`). The layout fields are set once
   * from the reserved-memory node; the four virtual addresses are caches
   * that stay 0 (NULL) until their region is first requested.
   */
  class ShmPlatData {
    const pAddr: nat
    const pAcpmAddr: Uint32
    const tSize: Uint32
    const cpSize: Uint32
    const vssSize: Uint32
    const acpmSize: Uint32
    const ipcOff: Uint32
    const ipcSize: Uint32
    const pSysramAddr: nat
    const tSysramSize: Uint32
    var vBoot: nat
    var vIpc: nat
    var vVss: nat
    var vAcpm: nat

    constructor (pAddr: nat, pAcpmAddr: Uint32, tSize: Uint32, cpSize: Uint32, vssSize: Uint32, acpmSize: Uint32,
                 ipcOff: Uint32, ipcSize: Uint32, pSysramAddr: nat, tSysramSize: Uint32)
      ensures this.pAddr == pAddr && this.pAcpmAddr == pAcpmAddr && this.tSize == tSize
      ensures this.cpSize == cpSize && this.vssSize == vssSize && this.acpmSize == acpmSize
      ensures this.ipcOff == ipcOff && this.ipcSize == ipcSize
      ensures this.pSysramAddr == pSysramAddr && this.tSysramSize == tSysramSize
      ensures vBoot == 0 && vIpc == 0 && vVss == 0 && vAcpm == 0
    {
      this.pAddr, this.pAcpmAddr, this.tSize := pAddr, pAcpmAddr, tSize;
      this.cpSize, this.vssSize, this.acpmSize := cpSize, vssSize, acpmSize;
      this.ipcOff, this.ipcSize := ipcOff, ipcSize;
      this.pSysramAddr, this.tSysramSize := pSysramAddr, tSysramSize;
      vBoot, vIpc, vVss, vAcpm := 0, 0, 0, 0;
    }

    function PhysBase(): nat { pAddr }
    function PhysSize(): nat { tSize }
    function SysramBase(): nat { pSysramAddr }
    function SysramSize(): nat { tSysramSize }
    function BootSize(): nat { ipcOff }
    function IpcRgnOffset(): nat { ipcOff }
    function IpcRgnSize(): nat { ipcSize }
    function VssSize(): nat { vssSize }
    function AcpmSize(): nat { acpmSize }
    function CpSize(): nat { cpSize }

    /** Physical base of the IPC part; `p_addr + ipc_off` does not wrap (64-bit). */
    function IpcBase(): nat { pAddr + ipcOff }

    /** Length of the IPC part: `t_size - ipc_off` in 32-bit unsigned arithmetic. */
    function IpcLength(): nat { U32(tSize - ipcOff) }

    /** The boot part ends where the IPC part begins, and both lengths add up to the whole area. */
    lemma BootThenIpc()
      requires ipcOff <= tSize
      ensures BootSize() == IpcRgnOffset()
      ensures PhysBase() + BootSize() == IpcBase()
      ensures BootSize() + IpcLength() == PhysSize()
    {
    }

    /**
     * With a page-aligned base and a page-aligned IPC offset, the frames
     * mapped for the boot part followed by those mapped for the IPC part are
     * exactly the frames of the whole shared area.
     */
    lemma BootAndIpcTileArea()
      requires pAddr != 0 && pAddr % PAGE_SIZE == 0 && ipcOff % PAGE_SIZE == 0 && ipcOff <= tSize
      ensures RegionRequest(PhysBase(), BootSize()).frames + RegionRequest(IpcBase(), IpcLength()).frames
              == RegionRequest(PhysBase(), PhysSize()).frames
    {
      var boot := RegionRequest(pAddr, ipcOff).frames;
      var ipc := RegionRequest(pAddr + ipcOff, tSize - ipcOff).frames;
      var all := RegionRequest(pAddr, tSize).frames;
      var nb := ipcOff / PAGE_SIZE;
      assert |boot| == nb;
      assert |ipc| == NumPages(tSize - ipcOff);
      assert |all| == nb + |ipc|;
      forall i | 0 <= i < |all|
        ensures (boot + ipc)[i] == all[i]
      {
        ConsecutiveFrames(pAddr, tSize, i);
        if i < nb {
          ConsecutiveFrames(pAddr, ipcOff, i);
        } else {
          ConsecutiveFrames(pAddr + ipcOff, tSize - ipcOff, i - nb);
          assert FrameOf(pAddr + ipcOff) == FrameOf(pAddr) + nb;
        }
      }
    }

    /**
     * shm_get_security_param3: the value handed to the secure world for a
     * CP boot. A dump boot passes the area base in a non-secure build and
     * the IPC base otherwise; normal boot passes the main image size;
     * re-init and unknown modes pass 0.
     */
    function SecurityParam3(mode: nat, mainSize: nat, nonSecureBoot: bool): (r: nat)
      ensures mode == CP_BOOT_MODE_NORMAL ==> r == mainSize
      ensures mode == CP_BOOT_MODE_DUMP && nonSecureBoot ==> r == PhysBase()
      ensures mode == CP_BOOT_MODE_DUMP && !nonSecureBoot ==> r == IpcBase()
      ensures mode != CP_BOOT_MODE_NORMAL && mode != CP_BOOT_MODE_DUMP ==> r == 0
    {
      match mode
      case 0 => mainSize
      case 1 => if nonSecureBoot then pAddr else pAddr + ipcOff
      case 2 => 0
      case _ => 0
    }

    /** shm_get_security_param2: the boot-loader size for normal and dump boots, else 0. */
    function SecurityParam2(mode: nat, blSize: nat): (r: nat)
      ensures (mode == CP_BOOT_MODE_NORMAL || mode == CP_BOOT_MODE_DUMP) ==> r == blSize
      ensures mode != CP_BOOT_MODE_NORMAL && mode != CP_BOOT_MODE_DUMP ==> r == 0
    {
      match mode
      case 0 => blSize
      case 1 => blSize
      case 2 => 0
      case _ => 0
    }

    /** The boot part: `ipc_off` bytes at the area base. */
    method GetBootRegion(vmapResult: nat) returns (v: nat)
      modifies this`vBoot
      ensures old(vBoot) != 0 ==> v == old(vBoot)
      ensures old(vBoot) == 0 ==> v == Mapped(RegionRequest(PhysBase(), BootSize()), vmapResult)
      ensures vBoot == v
    {
      if vBoot == 0 {
        var m, _ := RequestRegion(pAddr, ipcOff, vmapResult);
        vBoot := m;
      }
      v := vBoot;
    }

    /** The IPC part: from `p_addr + ipc_off` to the end of the area. */
    method GetIpcRegion(vmapResult: nat) returns (v: nat)
      modifies this`vIpc
      ensures old(vIpc) != 0 ==> v == old(vIpc)
      ensures old(vIpc) == 0 ==> v == Mapped(RegionRequest(IpcBase(), IpcLength()), vmapResult)
      ensures vIpc == v
    {
      if vIpc == 0 {
        var m, _ := RequestRegion(pAddr + ipcOff, U32(tSize - ipcOff), vmapResult);
        vIpc := m;
      }
      v := vIpc;
    }

    /** The VSS part: `vss_size` bytes at offset `cp_size`. */
    method GetVssRegion(vmapResult: nat) returns (v: nat)
      modifies this`vVss
      ensures old(vVss) != 0 ==> v == old(vVss)
      ensures old(vVss) == 0 ==> v == Mapped(RegionRequest(PhysBase() + CpSize(), VssSize()), vmapResult)
      ensures vVss == v
    {
      if vVss == 0 {
        var m, _ := RequestRegion(pAddr + cpSize, vssSize, vmapResult);
        vVss := m;
      }
      v := vVss;
    }

    /** The ACPM area, which has its own physical base. */
    method GetAcpmRegion(vmapResult: nat) returns (v: nat)
      modifies this`vAcpm
      ensures old(vAcpm) != 0 ==> v == old(vAcpm)
      ensures old(vAcpm) == 0 ==> v == Mapped(RegionRequest(pAcpmAddr, AcpmSize()), vmapResult)
      ensures vAcpm == v
    {
      if vAcpm == 0 {
        var m, _ := RequestRegion(pAcpmAddr, acpmSize, vmapResult);
        vAcpm := m;
      }
      v := vAcpm;
    }

    /**
     * shm_release_regions: every non-null cached mapping is unmapped, in the
     * order boot, IPC, VSS, ACPM. The caches are not cleared, so a later
     * getter returns the stale address without mapping again.
     */
    method ReleaseRegions() returns (unmapped: seq<nat>)
      ensures forall a :: a in unmapped ==> a != 0
      ensures vBoot != 0 ==> vBoot in unmapped
      ensures vIpc != 0 ==> vIpc in unmapped
      ensures vVss != 0 ==> vVss in unmapped
      ensures vAcpm != 0 ==> vAcpm in unmapped
      ensures forall a :: a in unmapped ==> a in {vBoot, vIpc, vVss, vAcpm}
    {
      unmapped := [];
      if vBoot != 0 { unmapped := unmapped + [vBoot]; }
      if vIpc != 0 { unmapped := unmapped + [vIpc]; }
      if vVss != 0 { unmapped := unmapped + [vVss]; }
      if vAcpm != 0 { unmapped := unmapped + [vAcpm]; }
    }
  }
}
