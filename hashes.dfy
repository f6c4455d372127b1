/** The stock-file hash table: which canonical resource paths the unmodified
    game ships, and whether a given copy of one of them has been changed. */
module Hashes {
  import opened Options

  type byte = bv8
  type Bytes = seq<byte>

  /** Canonical resource path to every 64-bit hash an unmodified copy of the
      file may have (the original and variants written by common tools). */
  type HashTable = map<string, seq<bv64>>

  /** The copy of the game a table describes. */
  datatype Platform = WiiU | Switch

  /** The two tables shipped with the library: Wii U 1.5.0 and Switch 1.6.0. */
  datatype HashData = HashData(wiiU: HashTable, switch: HashTable)

  /** The external code a modification check calls: xxHash64 with seed 0, and
      Yaz0 decompression, which either yields the decompressed bytes or fails. */
  datatype Codec = Codec(hash: Bytes -> bv64, decompress: Bytes -> Option<Bytes>)

  /** The four bytes `Yaz0` that open Yaz0-compressed data. */
  const Yaz0Magic: Bytes := [0x59, 0x61, 0x7A, 0x30]

  /** The stock table for a platform. */
  function GetHashTable(data: HashData, platform: Platform): HashTable {
    match platform
    case WiiU => data.wiiU
    case Switch => data.switch
  }

  /** `s` lists no element twice. */
  predicate Distinct(s: seq<string>) {
    forall i, j :: 0 <= i < j < |s| ==> s[i] != s[j]
  }

  /** The elements of `s`, each once, in an order the model does not fix. */
  ghost function InSomeOrder(s: set<string>): (r: seq<string>)
    ensures |r| == |s|
    ensures forall k :: k in r <==> k in s
    ensures Distinct(r)
    decreases |s|
  {
    if s == {} then []
    else
      var k :| k in s;
      [k] + InSomeOrder(s - {k})
  }

  /** The data whose hash is looked up: Yaz0 data decompressed (`None` when
      decompression fails), other data as it is. */
  function Content(codec: Codec, data: Bytes): (r: Option<Bytes>)
    requires |data| >= 4
  {
    if data[..4] == Yaz0Magic then codec.decompress(data) else Some(data)
  }

  /** `content` is what `data` holds once unpacked: the decompressed bytes of
      Yaz0 data, or the data itself when it does not begin with `Yaz0`. */
  predicate Unpacks(codec: Codec, data: Bytes, content: Bytes) {
    if |data| >= 4 && data[..4] == Yaz0Magic then codec.decompress(data) == Some(content)
    else content == data
  }

  /** A table of the stock files, fixed when it is built. */
  datatype StockHashTable = StockHashTable(table: HashTable) {

    /** The stock table for `platform`. */
    static function New(data: HashData, platform: Platform): StockHashTable {
      StockHashTable(GetHashTable(data, platform))
    }

    /** The canonical paths of the stock files. */
    function GetStockFiles(): (r: set<string>)
      ensures forall k :: k in r <==> k in table
    {
      table.Keys
    }

    /** The canonical paths of the stock files as a list. */
    ghost function ListStockFiles(): (r: seq<string>)
      ensures |r| == |table|
      ensures forall k :: k in r <==> k in GetStockFiles()
      ensures Distinct(r)
    {
      InSomeOrder(table.Keys)
    }

    /** Whether `fileName` is absent from the unmodified game. */
    function IsFileNew(fileName: string): (r: bool)
      ensures r <==> fileName !in GetStockFiles()
    {
      fileName !in table
    }

    /** Whether a copy of a file differs from every stock copy. A file the
        stock game lacks counts as modified exactly when `flagNew` is set; stock
        files must come with at least four bytes of data. */
    function IsFileModded(codec: Codec, fileName: string, data: Bytes, flagNew: bool): (r: bool)
      requires fileName in table ==> |data| >= 4
      ensures IsFileNew(fileName) ==> r == flagNew
      ensures !IsFileNew(fileName) ==> (r <==> !IsStockCopy(codec, fileName, data))
    {
      if fileName in table then
        match Content(codec, data)
        case None => true
        case Some(content) => codec.hash(content) !in table[fileName]
      else
        flagNew
    }

    /** `data` is an unmodified copy of the stock file `fileName`: unpacked,
        its hash is one of those listed for the file. */
    ghost predicate IsStockCopy(codec: Codec, fileName: string, data: Bytes) {
      fileName in table
      && exists content :: Unpacks(codec, data, content) && codec.hash(content) in table[fileName]
    }
  }

  // ---------------------------------------------------------------------------
  // Properties
  // ---------------------------------------------------------------------------

  /** A table built for a platform knows exactly that platform's stock files
      and their hashes. */
  lemma NewListsPlatformFiles(data: HashData, platform: Platform, fileName: string)
    ensures var stock := if platform == WiiU then data.wiiU else data.switch;
      && (StockHashTable.New(data, platform).IsFileNew(fileName) <==> fileName !in stock)
      && (fileName in stock ==> StockHashTable.New(data, platform).table[fileName] == stock[fileName])
  {
  }

  /** The stock files are exactly the files that are not new. */
  lemma StockFilesAreNotNew(t: StockHashTable, fileName: string)
    ensures fileName in t.GetStockFiles() <==> !t.IsFileNew(fileName)
    ensures fileName in t.ListStockFiles() <==> !t.IsFileNew(fileName)
  {
  }

  /** For a new file the answer is `flagNew`, whatever the data. */
  lemma NewFileModdedIsFlag(t: StockHashTable, codec: Codec, fileName: string, data: Bytes, flagNew: bool)
    requires t.IsFileNew(fileName)
    ensures t.IsFileModded(codec, fileName, data, flagNew) == flagNew
  {
  }

  /** For a stock file `flagNew` plays no part. */
  lemma StockFileIgnoresFlag(t: StockHashTable, codec: Codec, fileName: string, data: Bytes)
    requires !t.IsFileNew(fileName) && |data| >= 4
    ensures t.IsFileModded(codec, fileName, data, true) == t.IsFileModded(codec, fileName, data, false)
  {
  }

  /** Yaz0 data that cannot be decompressed counts as modified. */
  lemma BrokenYaz0IsModded(t: StockHashTable, codec: Codec, fileName: string, data: Bytes, flagNew: bool)
    requires fileName in t.table && |data| >= 4 && data[..4] == Yaz0Magic
    requires codec.decompress(data) == None
    ensures t.IsFileModded(codec, fileName, data, flagNew)
  {
  }

  /** A copy whose hash is listed for the file is not modified. */
  lemma ListedHashIsStock(t: StockHashTable, codec: Codec, fileName: string, data: Bytes, flagNew: bool)
    requires fileName in t.table && |data| >= 4 && data[..4] != Yaz0Magic
    requires codec.hash(data) in t.table[fileName]
    ensures !t.IsFileModded(codec, fileName, data, flagNew)
  {
    assert Unpacks(codec, data, data);
  }

  /** Compression does not matter: a Yaz0 file and the plain data it
      decompresses to get the same answer. */
  lemma CompressionIsTransparent(t: StockHashTable, codec: Codec, fileName: string, packed: Bytes, plain: Bytes, flagNew: bool)
    requires |packed| >= 4 && packed[..4] == Yaz0Magic && codec.decompress(packed) == Some(plain)
    requires fileName in t.table ==> |plain| >= 4 && plain[..4] != Yaz0Magic
    ensures t.IsFileModded(codec, fileName, packed, flagNew) == t.IsFileModded(codec, fileName, plain, flagNew)
  {
    if fileName in t.table {
      assert Unpacks(codec, packed, plain);
      assert Unpacks(codec, plain, plain);
    }
  }
}
