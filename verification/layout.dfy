/**
 * The layout part of save_files: one image per ROM, made of its streams'
 * bytes, and the 31-byte table of contents that tells the player, for each
 * stream index, the bank and address the stream was put at.
 */
module Layout {
  import opened Wrappers
  import opened VgcTypes

  /** Where a stream ended up: the ROM bank number and its address in the bank. */
  datatype Location = Location(bank: BankId, addr: nat)

  /** The contents of one ROM, with the bank it is to be loaded into. */
  datatype BankImage = BankImage(bank: BankId, data: seq<Byte>)

  /** "VGC", 0x20, then three zero bytes. */
  const TocHeader: seq<Byte> := [0x56, 0x47, 0x43, 0x20, 0, 0, 0]

  /** Header plus three bytes per stream. */
  const TocSize: nat := 31

  /** The address of stream j of a ROM: the ROM base plus the streams before it. */
  function Address(rom: seq<Stream>, j: nat): nat
    requires j <= |rom|
  {
    RomBase + Total(rom[..j])
  }

  /** The first stream of a ROM starts at 0x8000, and each next one right after the one before. */
  lemma AddressStep(rom: seq<Stream>, j: nat)
    requires j < |rom|
    ensures Address(rom, 0) == RomBase
    ensures Address(rom, j + 1) == Address(rom, j) + Size(rom[j])
  {
    assert rom[..j + 1][..j] == rom[..j];
  }

  /** Every stream index names one of the eight slots of the location table. */
  predicate IndicesInRange(roms: seq<seq<Stream>>)
  {
    forall i :: 0 <= i < |roms| ==> RomIndicesInRange(roms[i])
  }

  predicate RomIndicesInRange(rom: seq<Stream>)
  {
    forall j :: 0 <= j < |rom| ==> rom[j].index < StreamCount
  }

  /** Every stream index 0..7 occurs somewhere in the ROMs. */
  ghost predicate Covers(roms: seq<seq<Stream>>)
  {
    forall k :: 0 <= k < StreamCount ==> Holds(roms, k)
  }

  /** Some stream of the ROMs has index k. */
  ghost predicate Holds(roms: seq<seq<Stream>>, k: nat)
  {
    exists i, j :: 0 <= i < |roms| && 0 <= j < |roms[i]| && roms[i][j].index == k
  }

  /** No two streams in the ROMs share an index. */
  ghost predicate DistinctIndices(roms: seq<seq<Stream>>)
  {
    forall i1, j1, i2, j2 ::
      (0 <= i1 < |roms| && 0 <= j1 < |roms[i1]| && 0 <= i2 < |roms| && 0 <= j2 < |roms[i2]| &&
       (i1 != i2 || j1 != j2)) ==> roms[i1][j1].index != roms[i2][j2].index
  }

  /** The location table with nothing recorded yet (8*[None]). */
  function NoLocations(): seq<Option<Location>>
  {
    seq(StreamCount, _ => None)
  }

  /**
   * The location table after recording the first n streams of a ROM loaded
   * into `bank`; a later record for the same index overwrites an earlier one.
   */
  function PlaceRom(slots: seq<Option<Location>>, rom: seq<Stream>, bank: BankId, n: nat): (r: seq<Option<Location>>)
    requires |slots| == StreamCount && n <= |rom| && RomIndicesInRange(rom)
    ensures |r| == StreamCount
  {
    if n == 0 then slots
    else PlaceRom(slots, rom, bank, n - 1)[rom[n - 1].index := Some(Location(bank, Address(rom, n - 1)))]
  }

  /** The location table after recording every stream of the first n ROMs, ROM i in banks[i]. */
  function Locate(roms: seq<seq<Stream>>, banks: seq<BankId>, n: nat): (r: seq<Option<Location>>)
    requires n <= |roms| <= |banks| && IndicesInRange(roms)
    ensures |r| == StreamCount
  {
    if n == 0 then NoLocations()
    else PlaceRom(Locate(roms, banks, n - 1), roms[n - 1], banks[n - 1], |roms[n - 1]|)
  }

  /** One TOC record: the bank, then the address low byte and high byte. */
  function TocRecord(loc: Location): (r: seq<Byte>)
    ensures |r| == 3 && r[0] == loc.bank
    ensures loc.addr < 0x10000 ==> (r[1] as int) + 256 * (r[2] as int) == loc.addr
  {
    [loc.bank, loc.addr % 256, loc.addr / 256 % 256]
  }

  /** The records for a list of locations, in order. */
  function TocRecords(locs: seq<Location>): (r: seq<Byte>)
    ensures |r| == 3 * |locs|
  {
    if locs == [] then [] else TocRecords(locs[..|locs| - 1]) + TocRecord(locs[|locs| - 1])
  }

  /** The whole table of contents for the eight locations. */
  function Toc(locs: seq<Location>): (toc: seq<Byte>)
    ensures |toc| == |TocHeader| + 3 * |locs|
  {
    TocHeader + TocRecords(locs)
  }

  /** Record k of the TOC is the record for location k. */
  lemma {:induction false} TocRecordsAt(locs: seq<Location>, k: nat)
    requires k < |locs|
    ensures TocRecords(locs)[3 * k..3 * k + 3] == TocRecord(locs[k])
    decreases |locs|
  {
    var init := locs[..|locs| - 1];
    if k < |locs| - 1 {
      TocRecordsAt(init, k);
      assert init[k] == locs[k];
      assert TocRecords(locs)[..3 * |init|] == TocRecords(init);
      assert TocRecords(locs)[3 * k..3 * k + 3] == TocRecords(locs)[..3 * |init|][3 * k..3 * k + 3];
    }
  }

  /**
   * The TOC is 31 bytes: the fixed header, then for each stream index k the
   * bank number and the address as a little-endian 16-bit value, which reads
   * back as the address whenever it fits in 16 bits.
   */
  lemma TocLayout(locs: seq<Location>, k: nat)
    requires |locs| == StreamCount && k < StreamCount
    ensures |Toc(locs)| == TocSize
    ensures Toc(locs)[..7] == TocHeader
    ensures Toc(locs)[7 + 3 * k] == locs[k].bank
    ensures locs[k].addr < 0x10000 ==> (Toc(locs)[8 + 3 * k] as int) + 256 * (Toc(locs)[9 + 3 * k] as int) == locs[k].addr
  {
    TocRecordsAt(locs, k);
    var t := Toc(locs);
    assert t[7 + 3 * k..10 + 3 * k] == TocRecords(locs)[3 * k..3 * k + 3];
  }

  /** A recorded slot stays recorded. */
  lemma {:induction false} PlaceRomKeeps(slots: seq<Option<Location>>, rom: seq<Stream>, bank: BankId, n: nat, k: nat)
    requires |slots| == StreamCount && n <= |rom| && RomIndicesInRange(rom) && k < StreamCount
    requires slots[k].Some?
    ensures PlaceRom(slots, rom, bank, n)[k].Some?
    decreases n
  {
    if n > 0 {
      PlaceRomKeeps(slots, rom, bank, n - 1, k);
    }
  }

  /** Every stream placed records its index. */
  lemma {:induction false} PlaceRomRecords(slots: seq<Option<Location>>, rom: seq<Stream>, bank: BankId, n: nat, j: nat)
    requires |slots| == StreamCount && j < n <= |rom| && RomIndicesInRange(rom)
    ensures PlaceRom(slots, rom, bank, n)[rom[j].index].Some?
    decreases n
  {
    if j < n - 1 {
      PlaceRomRecords(slots, rom, bank, n - 1, j);
    }
  }

  /** A slot no placed stream names is left as it was. */
  lemma {:induction false} PlaceRomOther(slots: seq<Option<Location>>, rom: seq<Stream>, bank: BankId, n: nat, k: nat)
    requires |slots| == StreamCount && n <= |rom| && RomIndicesInRange(rom) && k < StreamCount
    requires forall m :: 0 <= m < n ==> rom[m].index != k
    ensures PlaceRom(slots, rom, bank, n)[k] == slots[k]
    decreases n
  {
    if n > 0 {
      PlaceRomOther(slots, rom, bank, n - 1, k);
    }
  }

  /** Stream j's slot holds its own bank and address when no later stream of the ROM shares its index. */
  lemma {:induction false} PlaceRomAt(slots: seq<Option<Location>>, rom: seq<Stream>, bank: BankId, n: nat, j: nat)
    requires |slots| == StreamCount && j < n <= |rom| && RomIndicesInRange(rom)
    requires forall m :: j < m < n ==> rom[m].index != rom[j].index
    ensures PlaceRom(slots, rom, bank, n)[rom[j].index] == Some(Location(bank, Address(rom, j)))
    decreases n
  {
    if j < n - 1 {
      PlaceRomAt(slots, rom, bank, n - 1, j);
    }
  }

  /** Once the first n ROMs are recorded, every index they hold has a location. */
  lemma {:induction false} LocateRecords(roms: seq<seq<Stream>>, banks: seq<BankId>, n: nat, i: nat, j: nat)
    requires n <= |roms| <= |banks| && IndicesInRange(roms)
    requires i < n && j < |roms[i]|
    ensures Locate(roms, banks, n)[roms[i][j].index].Some?
    decreases n
  {
    assert RomIndicesInRange(roms[n - 1]) && RomIndicesInRange(roms[i]);
    if i == n - 1 {
      PlaceRomRecords(Locate(roms, banks, n - 1), roms[i], banks[i], |roms[i]|, j);
    } else {
      LocateRecords(roms, banks, n - 1, i, j);
      PlaceRomKeeps(Locate(roms, banks, n - 1), roms[n - 1], banks[n - 1], |roms[n - 1]|, roms[i][j].index);
    }
  }

  /** When the ROMs hold every index 0..7, every slot of the table is filled. */
  lemma LocateFilled(roms: seq<seq<Stream>>, banks: seq<BankId>)
    requires |roms| <= |banks| && IndicesInRange(roms) && Covers(roms)
    ensures forall k :: 0 <= k < StreamCount ==> Locate(roms, banks, |roms|)[k].Some?
  {
    forall k | 0 <= k < StreamCount
      ensures Locate(roms, banks, |roms|)[k].Some?
    {
      assert Holds(roms, k);
      var i, j :| 0 <= i < |roms| && 0 <= j < |roms[i]| && roms[i][j].index == k;
      LocateRecords(roms, banks, |roms|, i, j);
    }
  }

  /**
   * When no two streams share an index, stream j of ROM i is recorded at bank
   * banks[i] and at the ROM base plus the sizes of the streams before it.
   */
  lemma {:induction false} LocateAt(roms: seq<seq<Stream>>, banks: seq<BankId>, n: nat, i: nat, j: nat)
    requires n <= |roms| <= |banks| && IndicesInRange(roms) && DistinctIndices(roms)
    requires i < n && j < |roms[i]|
    ensures Locate(roms, banks, n)[roms[i][j].index] == Some(Location(banks[i], Address(roms[i], j)))
    decreases n
  {
    assert RomIndicesInRange(roms[n - 1]) && RomIndicesInRange(roms[i]);
    var before := Locate(roms, banks, n - 1);
    assert Locate(roms, banks, n) == PlaceRom(before, roms[n - 1], banks[n - 1], |roms[n - 1]|);
    var k := roms[i][j].index;
    if i == n - 1 {
      forall m | j < m < |roms[i]| ensures roms[i][m].index != k {
        assert m != j;
      }
      PlaceRomAt(before, roms[i], banks[i], |roms[i]|, j);
    } else {
      LocateAt(roms, banks, n - 1, i, j);
      var last := roms[n - 1];
      forall m | 0 <= m < |last| ensures last[m].index != k {
        assert n - 1 != i;
      }
      PlaceRomOther(before, last, banks[n - 1], |last|, k);
    }
  }

  /** The eight locations, once every slot is filled. */
  function Locations(roms: seq<seq<Stream>>, banks: seq<BankId>): (locs: seq<Location>)
    requires |roms| <= |banks| && IndicesInRange(roms) && Covers(roms)
    ensures |locs| == StreamCount
    ensures forall k :: 0 <= k < StreamCount ==> Some(locs[k]) == Locate(roms, banks, |roms|)[k]
  {
    LocateFilled(roms, banks);
    var slots := Locate(roms, banks, |roms|);
    seq(StreamCount, k requires 0 <= k < StreamCount => slots[k].value)
  }

  /**
   * save_files without the file writes: builds each ROM's image while
   * recording each stream's bank and address in an 8-slot table, then
   * serialises the table as the TOC.
   */
  method SaveFiles(roms: seq<seq<Stream>>, banks: seq<BankId>) returns (images: seq<BankImage>, toc: seq<Byte>)
    requires |roms| <= |banks| && IndicesInRange(roms) && Covers(roms)
    ensures |images| == |roms|
    ensures forall i :: 0 <= i < |roms| ==> images[i] == BankImage(banks[i], Payload(roms[i]))
    ensures toc == Toc(Locations(roms, banks))
    ensures |toc| == TocSize && toc[..7] == TocHeader
  {
    var slots := new Option<Location>[StreamCount](_ => None);
    assert slots[..] == NoLocations();
    images := [];
    for i := 0 to |roms|
      invariant |images| == i
      invariant forall m :: 0 <= m < i ==> images[m] == BankImage(banks[m], Payload(roms[m]))
      invariant slots[..] == Locate(roms, banks, i)
    {
      assert RomIndicesInRange(roms[i]);
      var rom := WriteRom(slots, roms[i], banks[i]);
      images := images + [BankImage(banks[i], rom)];
    }
    var locs := Locations(roms, banks);
    toc := WriteToc(slots, locs);
  }

  /**
   * The inner loop of save_files: concatenates the streams of one ROM and
   * records where each of them starts in the bank.
   */
  method WriteRom(slots: array<Option<Location>>, streams: seq<Stream>, bank: BankId) returns (rom: seq<Byte>)
    requires slots.Length == StreamCount && RomIndicesInRange(streams)
    modifies slots
    ensures rom == Payload(streams)
    ensures slots[..] == PlaceRom(old(slots[..]), streams, bank, |streams|)
  {
    ghost var before := slots[..];
    rom := [];
    var addr: nat := RomBase;
    for j := 0 to |streams|
      invariant slots[..] == PlaceRom(before, streams, bank, j)
      invariant addr == Address(streams, j)
      invariant rom == Payload(streams[..j])
    {
      var stream := streams[j];
      slots[stream.index] := Some(Location(bank, addr));
      rom := rom + stream.data;
      addr := addr + |stream.data|;
      assert streams[..j + 1][..j] == streams[..j];
    }
    assert streams[..|streams|] == streams;
  }

  /** The last part of save_files: the header, then bank and address of each stream in index order. */
  method WriteToc(slots: array<Option<Location>>, ghost locs: seq<Location>) returns (toc: seq<Byte>)
    requires slots.Length == StreamCount && |locs| == StreamCount
    requires forall k :: 0 <= k < StreamCount ==> slots[k] == Some(locs[k])
    ensures toc == Toc(locs)
  {
    toc := TocHeader;
    for k := 0 to StreamCount
      invariant toc == TocHeader + TocRecords(locs[..k])
    {
      var location := slots[k].value;
      toc := toc + [location.bank, location.addr % 256, location.addr / 256 % 256];
      assert locs[..k + 1][..k] == locs[..k];
    }
    assert locs[..StreamCount] == locs;
  }
}
