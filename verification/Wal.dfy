/** The write-ahead log as a file of the store's directory. */
module Wal {
  import opened Bytes
  import opened Names
  import opened Storage
  import opened WalFormat

  /** The log's bytes; a missing file reads as an empty one once `open` has created it. */
  function LogOf(dir: Directory): Bytes {
    if WAL_NAME in dir then dir[WAL_NAME] else []
  }

  class Wal {
    const disk: Disk

    /** `open`: creates the file if it is missing and never shortens it. */
    constructor (disk: Disk)
      modifies disk
      ensures this.disk == disk
      ensures disk.files == old(disk.files)[WAL_NAME := LogOf(old(disk.files))]
      ensures disk.files[WAL_NAME] == if WAL_NAME in old(disk.files) then old(disk.files)[WAL_NAME] else []
    {
      this.disk := disk;
      new;
      disk.files := disk.files[WAL_NAME := LogOf(disk.files)];
    }

    method Append(entry: WalEntry)
      modifies disk
      ensures disk.files == old(disk.files)[WAL_NAME := LogOf(old(disk.files)) + Encoding(entry)]
    {
      var bytes := Encode(entry);
      disk.files := disk.files[WAL_NAME := LogOf(disk.files) + bytes];
    }

    method Truncate()
      modifies disk
      ensures disk.files == old(disk.files)[WAL_NAME := []]
    {
      disk.files := disk.files[WAL_NAME := []];
    }
  }
}
