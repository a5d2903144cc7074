/**
 * main: read the bank list, check the container, split it into streams,
 * refuse a stream larger than a bank, find the packing, refuse a packing that
 * needs more ROMs than there are banks, and lay out the bank images and the
 * table of contents.
 */
module VgcFit {
  import opened Wrappers
  import opened VgcTypes
  import opened Container
  import opened BankOptions
  import opened Orderings
  import opened Packer
  import opened Layout

  /** The oversize check of main: the first stream, in order, larger than a bank. */
  function SizeCheck(streams: seq<Stream>): (r: Outcome<Error>)
    ensures r.Fail? ==> r.error.StreamTooLarge? && r.error.size > Capacity
  {
    if streams == [] then Pass
    else if Size(streams[0]) > Capacity then Fail(StreamTooLarge(streams[0].index, Size(streams[0])))
    else SizeCheck(streams[1..])
  }

  /**
   * The check passes exactly when every stream fits in a bank; otherwise it
   * reports the first stream that does not, with its index and size.
   */
  lemma {:induction false} SizeCheckCharacterization(streams: seq<Stream>)
    ensures SizeCheck(streams) == Pass <==> AllFit(streams)
    ensures SizeCheck(streams).Fail? ==>
      exists k :: 0 <= k < |streams| && Size(streams[k]) > Capacity &&
        SizeCheck(streams).error == StreamTooLarge(streams[k].index, Size(streams[k])) &&
        forall m :: 0 <= m < k ==> Size(streams[m]) <= Capacity
    decreases |streams|
  {
    if streams != [] && Size(streams[0]) <= Capacity {
      var rest := streams[1..];
      SizeCheckCharacterization(rest);
      if SizeCheck(rest) == Pass {
        forall k | 0 <= k < |streams| ensures Size(streams[k]) <= Capacity {
          if k > 0 { assert streams[k] == rest[k - 1]; }
        }
      } else {
        var k :| 0 <= k < |rest| && Size(rest[k]) > Capacity &&
          SizeCheck(rest).error == StreamTooLarge(rest[k].index, Size(rest[k])) &&
          forall m :: 0 <= m < k ==> Size(rest[m]) <= Capacity;
        assert streams[k + 1] == rest[k];
        forall m | 0 <= m < k + 1 ensures Size(streams[m]) <= Capacity {
          if m > 0 { assert streams[m] == rest[m - 1]; }
        }
        assert !AllFit(streams);
      }
    }
  }

  /** The loop of main that stops at the first stream larger than a bank. */
  method CheckSizes(streams: seq<Stream>) returns (r: Outcome<Error>)
    ensures r == SizeCheck(streams)
    ensures r == Pass <==> AllFit(streams)
  {
    for i := 0 to |streams|
      invariant SizeCheck(streams[i..]) == SizeCheck(streams)
    {
      assert streams[i..][1..] == streams[i + 1..];
      if Size(streams[i]) > Capacity {
        r := Fail(StreamTooLarge(streams[i].index, Size(streams[i])));
        SizeCheckCharacterization(streams);
        return;
      }
    }
    assert streams[|streams|..] == [];
    r := Pass;
    SizeCheckCharacterization(streams);
  }

  /** A stream list numbered 0..n-1 holds each stream at most once. */
  lemma {:induction false} IndexedOnce(streams: seq<Stream>, x: Stream)
    requires Indexed(streams)
    ensures multiset(streams)[x] <= 1
    decreases |streams|
  {
    if streams != [] {
      var init := streams[..|streams| - 1];
      var last := streams[|streams| - 1];
      assert streams == init + [last];
      IndexedOnce(init, x);
      forall m | 0 <= m < |init| ensures init[m] != last {
        assert init[m].index == m;
      }
      assert last !in init;
    }
  }

  /** A value found at two positions occurs at least twice. */
  lemma RepeatedTwice(s: seq<Stream>, p1: nat, p2: nat)
    requires p1 < p2 < |s| && s[p1] == s[p2]
    ensures multiset(s)[s[p1]] >= 2
  {
    var x := s[p1];
    assert s == s[..p1] + [x] + s[p1 + 1..p2] + [x] + s[p2 + 1..];
  }

  /** Each stream the ROMs hold is the stream of its index. */
  lemma PartitionMembers(roms: seq<seq<Stream>>, streams: seq<Stream>)
    requires Indexed(streams)
    requires multiset(Flatten(roms)) == multiset(streams)
    ensures forall i, j :: 0 <= i < |roms| && 0 <= j < |roms[i]| ==>
      roms[i][j].index < |streams| && streams[roms[i][j].index] == roms[i][j]
  {
    forall i, j | 0 <= i < |roms| && 0 <= j < |roms[i]|
      ensures roms[i][j].index < |streams| && streams[roms[i][j].index] == roms[i][j]
    {
      FlattenAt(roms, i, j);
      assert roms[i][j] in multiset(Flatten(roms));
      var m :| 0 <= m < |streams| && streams[m] == roms[i][j];
    }
  }

  /** Every stream index is held by some ROM. */
  lemma PartitionCovers(roms: seq<seq<Stream>>, streams: seq<Stream>)
    requires |streams| == StreamCount && Indexed(streams)
    requires multiset(Flatten(roms)) == multiset(streams)
    ensures Covers(roms)
  {
    var flat := Flatten(roms);
    forall k | 0 <= k < StreamCount ensures Holds(roms, k) {
      assert streams[k] in multiset(flat);
      var p :| 0 <= p < |flat| && flat[p] == streams[k];
      var i, j := FlattenPosition(roms, p);
      assert roms[i][j].index == k;
    }
  }

  /** Two places in the ROMs never hold streams of the same index. */
  lemma PartitionDistinct(roms: seq<seq<Stream>>, streams: seq<Stream>)
    requires Indexed(streams)
    requires multiset(Flatten(roms)) == multiset(streams)
    ensures DistinctIndices(roms)
  {
    PartitionMembers(roms, streams);
    forall i1, j1, i2, j2 |
      0 <= i1 < |roms| && 0 <= j1 < |roms[i1]| && 0 <= i2 < |roms| && 0 <= j2 < |roms[i2]| &&
      (i1 != i2 || j1 != j2)
      ensures roms[i1][j1].index != roms[i2][j2].index
    {
      if roms[i1][j1].index == roms[i2][j2].index {
        SamePlace(roms, streams, i1, j1, i2, j2);
      }
    }
  }

  /** Two places holding streams of the same index are the same place. */
  lemma SamePlace(roms: seq<seq<Stream>>, streams: seq<Stream>, i1: nat, j1: nat, i2: nat, j2: nat)
    requires Indexed(streams)
    requires multiset(Flatten(roms)) == multiset(streams)
    requires i1 < |roms| && j1 < |roms[i1]| && i2 < |roms| && j2 < |roms[i2]|
    requires roms[i1][j1] == roms[i2][j2]
    ensures i1 == i2 && j1 == j2
  {
    FlattenAt(roms, i1, j1);
    FlattenAt(roms, i2, j2);
    var p1 := |Flatten(roms[..i1])| + j1;
    var p2 := |Flatten(roms[..i2])| + j2;
    if i1 < i2 {
      FlattenOffsetsIncrease(roms, i1, i2);
    } else if i2 < i1 {
      FlattenOffsetsIncrease(roms, i2, i1);
    }
    if p1 != p2 {
      NoRepeat(Flatten(roms), streams, p1, p2);
    }
  }

  /** A rearrangement of numbered streams holds no stream at two positions. */
  lemma NoRepeat(flat: seq<Stream>, streams: seq<Stream>, p1: nat, p2: nat)
    requires Indexed(streams) && multiset(flat) == multiset(streams)
    requires p1 < |flat| && p2 < |flat| && p1 != p2
    ensures flat[p1] != flat[p2]
  {
    if flat[p1] == flat[p2] {
      IndexedOnce(streams, flat[p1]);
      if p1 < p2 {
        RepeatedTwice(flat, p1, p2);
      } else {
        RepeatedTwice(flat, p2, p1);
      }
    }
  }

  /**
   * ROMs that hold a rearrangement of the eight numbered streams hold each
   * index 0..7 exactly once, and each stream they hold is the stream of that
   * index.
   */
  lemma PartitionLayout(roms: seq<seq<Stream>>, streams: seq<Stream>)
    requires |streams| == StreamCount && Indexed(streams)
    requires multiset(Flatten(roms)) == multiset(streams)
    ensures IndicesInRange(roms) && Covers(roms) && DistinctIndices(roms)
    ensures forall i, j :: 0 <= i < |roms| && 0 <= j < |roms[i]| ==>
      roms[i][j].index < StreamCount && streams[roms[i][j].index] == roms[i][j]
  {
    PartitionMembers(roms, streams);
    PartitionCovers(roms, streams);
    PartitionDistinct(roms, streams);
  }

  /** The ROMs main lays out: the winning order packed first-fit. */
  function Packed(streams: seq<Stream>): seq<seq<Stream>>
    requires |streams| == StreamCount
  {
    Materialize(Winner(streams)).roms
  }

  /** The packed ROMs hold the eight streams, each once, none left out. */
  lemma PackedLayout(streams: seq<Stream>)
    requires |streams| == StreamCount && Indexed(streams)
    ensures multiset(Flatten(Packed(streams))) == multiset(streams)
    ensures IndicesInRange(Packed(streams)) && Covers(Packed(streams)) && DistinctIndices(Packed(streams))
    ensures forall i, j :: 0 <= i < |Packed(streams)| && 0 <= j < |Packed(streams)[i]| ==>
      Packed(streams)[i][j].index < StreamCount && streams[Packed(streams)[i][j].index] == Packed(streams)[i][j]
  {
    MaterializePartition(Winner(streams));
    PermutationsCharacterization(streams, Winner(streams));
    PartitionLayout(Packed(streams), streams);
  }

  /** What save_files writes: one image per ROM, and the table of contents. */
  datatype Output = Output(images: seq<BankImage>, toc: seq<Byte>)

  /** The image of ROM i goes to the i-th bank given. */
  function Images(roms: seq<seq<Stream>>, banks: seq<BankId>): seq<BankImage>
    requires |roms| <= |banks|
  {
    seq(|roms|, i requires 0 <= i < |roms| => BankImage(banks[i], Payload(roms[i])))
  }

  /** main, from the --banks text and the input file's bytes to its outputs or its fatal error. */
  function Fit(text: string, data: seq<Byte>): (r: Result<Output, Error>)
    ensures r.Success? ==> ParseBanks(text).Success? && CheckHeader(data) == Pass && SplitStreams(data).Success?
  {
    match ParseBanks(text)
    case Failure(e) => Failure(e)
    case Success(banks) =>
      match CheckHeader(data)
      case Fail(e) => Failure(e)
      case Pass =>
        match SplitStreams(data)
        case Failure(e) => Failure(e)
        case Success(streams) => FitStreams(banks, streams)
  }

  /** main once the streams are split out: the size check, the packing and the layout. */
  function FitStreams(banks: seq<BankId>, streams: seq<Stream>): (r: Result<Output, Error>)
    requires |streams| == StreamCount && Indexed(streams)
    ensures r.Failure? ==> r.error.StreamTooLarge? || r.error.InsufficientBanks?
  {
    match SizeCheck(streams)
    case Fail(e) => Failure(e)
    case Pass =>
      var roms := Packed(streams);
      if |roms| > |banks| then Failure(InsufficientBanks(|roms|, |banks|))
      else
        PackedLayout(streams);
        Success(Output(Images(roms, banks), Toc(Locations(roms, banks))))
  }

  /** main as a sequence of steps, each stopping at its fatal error. */
  method Run(text: string, data: seq<Byte>) returns (r: Result<Output, Error>)
    ensures r == Fit(text, data)
  {
    var banks := HandleOptions(text);
    if banks.Failure? {
      return Failure(banks.error);
    }
    var header := CheckHeader(data);
    if header.Fail? {
      return Failure(header.error);
    }
    var streams := FindStreams(data);
    if streams.Failure? {
      return Failure(streams.error);
    }
    r := RunStreams(banks.value, streams.value);
  }

  /** The steps of main after find_vgc_streams. */
  method RunStreams(banks: seq<BankId>, streams: seq<Stream>) returns (r: Result<Output, Error>)
    requires |streams| == StreamCount && Indexed(streams)
    ensures r == FitStreams(banks, streams)
  {
    var sizes := CheckSizes(streams);
    if sizes.Fail? {
      return Failure(sizes.error);
    }
    var roms := FindOrder(streams);
    if |roms| > |banks| {
      return Failure(InsufficientBanks(|roms|, |banks|));
    }
    assert roms == Packed(streams);
    assert IndicesInRange(roms) && Covers(roms) by {
      PackedLayout(streams);
    }
    var images, toc := SaveFiles(roms, banks);
    assert images == Images(roms, banks);
    r := Success(Output(images, toc));
  }

  /** What a successful run is made of: every step passed, and the output is laid out from the packed ROMs. */
  lemma FitSteps(text: string, data: seq<Byte>)
    requires Fit(text, data).Success?
    ensures ParseBanks(text).Success? && CheckHeader(data) == Pass && SplitStreams(data).Success?
    ensures AllFit(SplitStreams(data).value)
    ensures var banks := ParseBanks(text).value;
      var roms := Packed(SplitStreams(data).value);
      && |roms| <= |banks|
      && IndicesInRange(roms) && Covers(roms)
      && WithinCapacity(roms)
      && Fit(text, data).value == Output(Images(roms, banks), Toc(Locations(roms, banks)))
  {
    var streams := SplitStreams(data).value;
    SizeCheckCharacterization(streams);
    PackedLayout(streams);
    PackedCapacity(streams);
  }

  /** When no stream is larger than a bank, no packed ROM is either. */
  lemma PackedCapacity(streams: seq<Stream>)
    requires |streams| == StreamCount && AllFit(streams)
    ensures WithinCapacity(Packed(streams))
    ensures 1 <= |Packed(streams)| == FirstFitCount(Winner(streams))
    ensures forall p :: multiset(p) == multiset(streams) ==> |Packed(streams)| <= FirstFitCount(p)
  {
    PermutationsCharacterization(streams, Winner(streams));
    AllFitReordered(Winner(streams), streams);
    MaterializeCapacity(Winner(streams));
    MaterializeMatchesSimulation(Winner(streams));
    forall p | multiset(p) == multiset(streams) ensures |Packed(streams)| <= FirstFitCount(p) {
      WinnerIsMinimal(streams, p);
    }
  }

  /**
   * A successful run writes a 31-byte table that starts with the VGC header,
   * one image for each ROM and at most one per bank given, each image going
   * to the bank in the same position and no longer than a bank; no
   * rearrangement of the streams packs into fewer ROMs.
   */
  lemma FitOutput(text: string, data: seq<Byte>)
    requires Fit(text, data).Success?
    ensures var out := Fit(text, data).value;
      && |out.toc| == TocSize && out.toc[..7] == TocHeader
      && 1 <= |out.images| <= |ParseBanks(text).value|
      && (forall i :: 0 <= i < |out.images| ==>
            out.images[i].bank == ParseBanks(text).value[i] && |out.images[i].data| <= Capacity)
      && forall p :: multiset(p) == multiset(SplitStreams(data).value) ==> |out.images| <= FirstFitCount(p)
  {
    FitSteps(text, data);
    var banks := ParseBanks(text).value;
    var streams := SplitStreams(data).value;
    var roms := Packed(streams);
    PackedCapacity(streams);
    TocLayout(Locations(roms, banks), 0);
  }

  /**
   * The table record k names the bank and the address given in location k;
   * when that is the address of stream j of a ROM no larger than a bank, the
   * stream's bytes lie at that address in the ROM's image.
   */
  lemma RecordNamesPlace(locs: seq<Location>, k: nat, bank: BankId, rom: seq<Stream>, j: nat) returns (addr: nat)
    requires |locs| == StreamCount && k < StreamCount
    requires j < |rom| && Total(rom) <= Capacity
    requires locs[k] == Location(bank, Address(rom, j))
    ensures var toc := Toc(locs);
      && toc[7 + 3 * k] == bank
      && addr == (toc[8 + 3 * k] as int) + 256 * (toc[9 + 3 * k] as int)
      && RomBase <= addr && addr + Size(rom[j]) <= RomBase + |Payload(rom)| <= RomBase + Capacity
      && Payload(rom)[addr - RomBase..addr - RomBase + Size(rom[j])] == rom[j].data
  {
    addr := Address(rom, j);
    StreamInPayload(rom, j);
    TocLayout(locs, k);
  }

  /**
   * Once the streams are split out and laid out successfully, stream k sits
   * in the image of the bank its table record names, at the address its
   * record gives, inside the bank's 0x8000..0xC000 window.
   */
  lemma PlacesStream(banks: seq<BankId>, streams: seq<Stream>, k: nat) returns (i: nat, addr: nat)
    requires |streams| == StreamCount && Indexed(streams)
    requires FitStreams(banks, streams).Success? && k < StreamCount
    ensures var out := FitStreams(banks, streams).value;
      && i < |out.images| && out.images[i].bank == out.toc[7 + 3 * k]
      && addr == (out.toc[8 + 3 * k] as int) + 256 * (out.toc[9 + 3 * k] as int)
      && RomBase <= addr && addr + Size(streams[k]) <= RomBase + |out.images[i].data| <= RomBase + Capacity
      && out.images[i].data[addr - RomBase..addr - RomBase + Size(streams[k])] == streams[k].data
  {
    var roms := Packed(streams);
    assert AllFit(streams) && |roms| <= |banks| by {
      SizeCheckCharacterization(streams);
    }
    var j;
    i, j := HolderOf(streams, k);
    assert WithinCapacity(roms) by {
      PackedCapacity(streams);
    }
    addr := LaidOut(roms, banks, i, j);
    assert FitStreams(banks, streams).value == Output(Images(roms, banks), Toc(Locations(roms, banks)));
  }

  /**
   * Stream j of ROM i ends up in the image of bank banks[i], at the address
   * its table record gives.
   */
  lemma LaidOut(roms: seq<seq<Stream>>, banks: seq<BankId>, i: nat, j: nat) returns (addr: nat)
    requires |roms| <= |banks| && IndicesInRange(roms) && Covers(roms) && DistinctIndices(roms)
    requires WithinCapacity(roms)
    requires i < |roms| && j < |roms[i]|
    ensures var out := Output(Images(roms, banks), Toc(Locations(roms, banks)));
      var k := roms[i][j].index;
      && k < StreamCount && i < |out.images| && out.images[i].bank == out.toc[7 + 3 * k]
      && addr == (out.toc[8 + 3 * k] as int) + 256 * (out.toc[9 + 3 * k] as int)
      && RomBase <= addr && addr + Size(roms[i][j]) <= RomBase + |out.images[i].data| <= RomBase + Capacity
      && out.images[i].data[addr - RomBase..addr - RomBase + Size(roms[i][j])] == roms[i][j].data
  {
    LocateAt(roms, banks, |roms|, i, j);
    assert Total(roms[i]) <= Capacity;
    addr := RecordNamesPlace(Locations(roms, banks), roms[i][j].index, banks[i], roms[i], j);
    assert Images(roms, banks)[i] == BankImage(banks[i], Payload(roms[i]));
  }

  /** The place in the packed ROMs where stream k ends up. */
  lemma HolderOf(streams: seq<Stream>, k: nat) returns (i: nat, j: nat)
    requires |streams| == StreamCount && Indexed(streams) && k < StreamCount
    ensures IndicesInRange(Packed(streams)) && Covers(Packed(streams)) && DistinctIndices(Packed(streams))
    ensures i < |Packed(streams)| && j < |Packed(streams)[i]|
    ensures Packed(streams)[i][j] == streams[k] && streams[k].index == k
  {
    var roms := Packed(streams);
    PackedLayout(streams);
    assert Holds(roms, k);
    i, j :| 0 <= i < |roms| && 0 <= j < |roms[i]| && roms[i][j].index == k;
  }

  /**
   * In a successful run, stream k sits in the image of the bank its table
   * record names, at the address its record gives, inside the bank's
   * 0x8000..0xC000 window.
   */
  lemma FitPlacesStream(text: string, data: seq<Byte>, k: nat) returns (i: nat, addr: nat)
    requires Fit(text, data).Success? && k < StreamCount
    ensures var out := Fit(text, data).value;
      var stream := SplitStreams(data).value[k];
      && i < |out.images| && out.images[i].bank == out.toc[7 + 3 * k]
      && addr == (out.toc[8 + 3 * k] as int) + 256 * (out.toc[9 + 3 * k] as int)
      && RomBase <= addr && addr + Size(stream) <= RomBase + |out.images[i].data| <= RomBase + Capacity
      && out.images[i].data[addr - RomBase..addr - RomBase + Size(stream)] == stream.data
  {
    var banks := ParseBanks(text).value;
    var streams := SplitStreams(data).value;
    assert Fit(text, data) == FitStreams(banks, streams);
    i, addr := PlacesStream(banks, streams, k);
  }

  /**
   * A run that stops for want of banks reports the number of ROMs the packing
   * needs and the number of banks given; it was given fewer banks than that,
   * and no rearrangement of the streams would have needed as few.
   */
  lemma FitNeedsMoreBanks(text: string, data: seq<Byte>, needed: nat, available: nat)
    requires Fit(text, data) == Failure(InsufficientBanks(needed, available))
    ensures ParseBanks(text).Success? && available == |ParseBanks(text).value| < needed
    ensures SplitStreams(data).Success? && AllFit(SplitStreams(data).value)
    ensures needed == |Packed(SplitStreams(data).value)| == FirstFitCount(Winner(SplitStreams(data).value))
    ensures forall p :: multiset(p) == multiset(SplitStreams(data).value) ==> available < FirstFitCount(p)
  {
    ParseBanksCharacterization(text);
    var banks := ParseBanks(text).value;
    var streams := SplitStreams(data).value;
    SizeCheckCharacterization(streams);
    assert Fit(text, data) == FitStreams(banks, streams);
    assert SizeCheck(streams) == Pass;
    PackedCapacity(streams);
  }

  /**
   * main stops at the first step that fails, in order: the bank list, the
   * header, the stream framing, the stream sizes.
   */
  lemma FitStopsAt(text: string, data: seq<Byte>)
    ensures (Fit(text, data).Failure? && Fit(text, data).error.BankNotHex?) <==> ParseBanks(text).Failure?
    ensures ParseBanks(text).Success? ==>
      ((Fit(text, data).Failure? && Fit(text, data).error in {TooSmall, BadMagic, Compressed}) <==> CheckHeader(data).Fail?)
    ensures ParseBanks(text).Success? && CheckHeader(data) == Pass ==>
      (Fit(text, data) == Failure(Truncated) <==> SplitStreams(data).Failure?)
    ensures ParseBanks(text).Success? && CheckHeader(data) == Pass && SplitStreams(data).Success? ==>
      ((Fit(text, data).Failure? && Fit(text, data).error.StreamTooLarge?) <==> !AllFit(SplitStreams(data).value))
  {
    ParseBanksCharacterization(text);
    if SplitStreams(data).Success? {
      SizeCheckCharacterization(SplitStreams(data).value);
    }
  }
}
