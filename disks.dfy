/// The cache folder: a map from file name to the token stream stored in it.
module Disks {

  import opened BitStores

  /** The cache file of a table. */
  function CacheFileName(tableName: string): string
  {
    tableName + "_cache.bin"
  }

  /** The manifest listing the tables of a cache snapshot. */
  const ManifestName := "tables_cache.bin"

  class Disk {
    var files: map<string, seq<Token>>

    constructor (files: map<string, seq<Token>>)
      ensures this.files == files
    {
      this.files := files;
    }
  }
}
