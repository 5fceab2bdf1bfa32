/**
 * The region file as the engine sees it through the Anvil codec: a 32×32
 * grid of chunk slots, plus what opening it, removing a slot from it and
 * releasing it can fail with. The on-disk container layout and NBT decoding
 * stay inside the codec; a slot records only what reading and decoding it
 * yields.
 */
module Storage {
  import opened Wrappers

  const GRID_WIDTH: nat := 32
  const SLOT_COUNT: nat := GRID_WIDTH * GRID_WIDTH

  /** The decoded payload of a populated slot: its `InhabitedTime` in ticks, or an NBT decode failure. */
  datatype Payload = Decodes(inhabitedTime: nat) | Malformed

  /**
   * One chunk slot, as `read_chunk` reports it: the read failed, the slot is
   * empty, or it holds a payload.
   */
  datatype Slot = Unreadable | Vacant | Stored(payload: Payload)

  /** The slot of chunk (x, y) in scan order: `x` is the outer, `y` the inner loop. */
  function SlotIndex(x: nat, y: nat): (i: nat)
    requires x < GRID_WIDTH && y < GRID_WIDTH
    ensures i < SLOT_COUNT
    ensures i / GRID_WIDTH == x && i % GRID_WIDTH == y
  {
    x * GRID_WIDTH + y
  }

  type Grid = s: seq<Slot> | |s| == SLOT_COUNT witness seq(1024, _ => Vacant)

  /** The per-file error kinds of the region processor. */
  datatype RegionError = IoError | AnvilError | NbtError

  /**
   * The errors releasing the codec and truncating the file can raise: an
   * I/O error or a container error, never a decoding error.
   */
  type ReleaseError = e: RegionError | !e.NbtError? witness IoError

  /**
   * An opened region: its slots, the slots whose removal the codec fails
   * to write, and the error (if any) raised while releasing the codec and
   * truncating the file.
   */
  datatype Region = Region(slots: Grid, removeFaults: set<nat>, releaseFault: Option<ReleaseError>)

  /**
   * What opening a region file yields: the file cannot be opened for
   * reading and writing, the container header is malformed, or a region.
   */
  datatype Access = Unopenable | BadHeader | Opened(region: Region)

  /** A directory entry: a file name and what opening the file yields. */
  datatype Entry = Entry(name: string, access: Access)

  /** A region file reference: the world-relative subfolder and the entry in it. */
  datatype RegionPath = RegionPath(folder: string, entry: Entry)
}
