/** Sizes of memtable nodes in the arena:
    [kind 1 + pad 3][keyLen 4][valLen 4][ptrLen 4][height 4][next 4 * height][key][value][pointer]. */
module NodeLayout {
  import opened Bytes
  import opened Records

  const MAX_HEIGHT: nat := 12
  const HEADER_SIZE: nat := 20
  const ALIGN_BYTES: nat := 4

  function AlignUp(size: nat): (r: nat)
    ensures size <= r < size + ALIGN_BYTES && r % ALIGN_BYTES == 0
  {
    (size + (ALIGN_BYTES - 1)) / ALIGN_BYTES * ALIGN_BYTES
  }

  function NodeSize(record: LogRecord, height: nat): nat
  {
    HEADER_SIZE + 4 * height + |record.key| + |record.value| + |PointerBytes(record)|
  }
}
