/**
 * The values shared by every part of the packer: bytes, bank numbers, the
 * streams cut out of a VGC container, and the fatal errors of the tool.
 */
module VgcTypes {

  /** One byte of a file; the tool reads files as lists of integers 0..255. */
  type Byte = b: int | 0 <= b < 256

  /** A sideways ROM bank number, given on the command line as one hex digit. */
  type BankId = b: int | 0 <= b < 16

  /** A VGC container always holds this many streams. */
  const StreamCount: nat := 8

  /** Bytes available in one ROM bank (&8000..&BFFF). */
  const Capacity: nat := 16384

  /** Address of the first byte of a ROM bank. */
  const RomBase: nat := 0x8000

  /** One stream: its position in the container and its bytes, length field included. */
  datatype Stream = Stream(index: nat, data: seq<Byte>)

  /** Everything that makes the tool stop with "FATAL: ...". */
  datatype Error =
    | BankNotHex(c: char)                        // handle_options
    | TooSmall                                   // ensure_ok: fewer than 4 bytes
    | BadMagic                                   // ensure_ok: no "VGC" header
    | Compressed                                 // ensure_ok: Huffman flag set
    | Truncated                                  // find_vgc_streams reads a length past the end
    | StreamTooLarge(index: nat, size: nat)      // main: a stream larger than a bank
    | InsufficientBanks(needed: nat, available: nat)  // main: more ROMs than banks

  function Size(s: Stream): nat { |s.data| }

  /** Sum of the stream lengths of a ROM. */
  function Total(rom: seq<Stream>): nat
  {
    if rom == [] then 0 else Total(rom[..|rom| - 1]) + Size(rom[|rom| - 1])
  }

  /** The bytes of a ROM image: its streams' bytes, one after the other. */
  function Payload(rom: seq<Stream>): (bytes: seq<Byte>)
    ensures |bytes| == Total(rom)
  {
    if rom == [] then [] else Payload(rom[..|rom| - 1]) + rom[|rom| - 1].data
  }

  /** All the streams of a list of ROMs, ROM by ROM. */
  function Flatten(roms: seq<seq<Stream>>): seq<Stream>
  {
    if roms == [] then [] else Flatten(roms[..|roms| - 1]) + roms[|roms| - 1]
  }

  /** Every stream is no larger than a bank (the guard in main). */
  predicate AllFit(streams: seq<Stream>)
  {
    forall k :: 0 <= k < |streams| ==> Size(streams[k]) <= Capacity
  }

  /** Stream k of the list has index k, as find_vgc_streams numbers them. */
  predicate Indexed(streams: seq<Stream>)
  {
    forall k :: 0 <= k < |streams| ==> streams[k].index == k
  }

  /** Prefix totals never exceed the whole. */
  lemma {:induction false} TotalPrefix(rom: seq<Stream>, j: nat)
    requires j <= |rom|
    ensures Total(rom[..j]) <= Total(rom)
    decreases |rom|
  {
    if j < |rom| {
      var init := rom[..|rom| - 1];
      assert init[..j] == rom[..j];
      TotalPrefix(init, j);
    } else {
      assert rom[..j] == rom;
    }
  }

  /** The image of the first j streams of a ROM is a prefix of the ROM's image. */
  lemma {:induction false} PayloadPrefix(rom: seq<Stream>, j: nat)
    requires j <= |rom|
    ensures Total(rom[..j]) <= Total(rom)
    ensures Payload(rom)[..Total(rom[..j])] == Payload(rom[..j])
    decreases |rom|
  {
    TotalPrefix(rom, j);
    if j < |rom| {
      var init := rom[..|rom| - 1];
      assert init[..j] == rom[..j];
      PayloadPrefix(init, j);
      assert Payload(rom) == Payload(init) + rom[|rom| - 1].data;
    } else {
      assert rom[..j] == rom;
    }
  }

  /**
   * Stream j of a ROM lies in the ROM image at offset Total(rom[..j]),
   * exactly as long as its own data.
   */
  lemma StreamInPayload(rom: seq<Stream>, j: nat)
    requires j < |rom|
    ensures Total(rom[..j]) + Size(rom[j]) <= Total(rom)
    ensures Payload(rom)[Total(rom[..j])..Total(rom[..j]) + Size(rom[j])] == rom[j].data
  {
    var pre := rom[..j + 1];
    assert pre[..j] == rom[..j];
    var a := Total(rom[..j]);
    assert Total(pre) == a + Size(rom[j]);
    assert Payload(pre) == Payload(rom[..j]) + rom[j].data;
    PayloadPrefix(rom, j + 1);
    var whole := Payload(rom);
    assert whole[..a + Size(rom[j])] == Payload(rom[..j]) + rom[j].data;
    assert whole[a..a + Size(rom[j])] == whole[..a + Size(rom[j])][a..];
  }

  /** The image of a ROM is its first stream's bytes followed by the image of the rest. */
  lemma {:induction false} PayloadCons(rom: seq<Stream>)
    requires rom != []
    ensures Payload(rom) == rom[0].data + Payload(rom[1..])
    decreases |rom|
  {
    if |rom| > 1 {
      var init := rom[..|rom| - 1];
      PayloadCons(init);
      assert init[1..] == rom[1..][..|rom[1..]| - 1];
    } else {
      assert rom[..0] == [];
    }
  }

  lemma FlattenAppend(roms: seq<seq<Stream>>, rom: seq<Stream>)
    ensures Flatten(roms + [rom]) == Flatten(roms) + rom
  {
    assert (roms + [rom])[..|roms|] == roms;
  }

  /** Where stream j of ROM i sits in the flattened list. */
  lemma {:induction false} FlattenAt(roms: seq<seq<Stream>>, i: nat, j: nat)
    requires i < |roms| && j < |roms[i]|
    ensures |Flatten(roms[..i])| + j < |Flatten(roms)|
    ensures Flatten(roms)[|Flatten(roms[..i])| + j] == roms[i][j]
    decreases |roms|
  {
    var init := roms[..|roms| - 1];
    if i < |roms| - 1 {
      assert init[..i] == roms[..i];
      FlattenAt(init, i, j);
    } else {
      assert roms[..i] == init;
    }
  }

  /** Positions in the flattened list grow with (ROM, slot) in lexicographic order. */
  lemma {:induction false} FlattenOffsetsIncrease(roms: seq<seq<Stream>>, i1: nat, i2: nat)
    requires i1 < i2 <= |roms|
    ensures |Flatten(roms[..i1])| + |roms[i1]| <= |Flatten(roms[..i2])|
    decreases i2
  {
    var pre := roms[..i1 + 1];
    assert pre[..i1] == roms[..i1];
    if i2 > i1 + 1 {
      FlattenOffsetsIncrease(roms, i1, i2 - 1);
      var pre2 := roms[..i2];
      assert pre2[..i2 - 1] == roms[..i2 - 1];
    }
  }

  /** Every position of the flattened list comes from some stream of some ROM. */
  lemma {:induction false} FlattenPosition(roms: seq<seq<Stream>>, p: nat) returns (i: nat, j: nat)
    requires p < |Flatten(roms)|
    ensures i < |roms| && j < |roms[i]|
    ensures |Flatten(roms[..i])| + j == p
    ensures roms[i][j] == Flatten(roms)[p]
    decreases |roms|
  {
    var init := roms[..|roms| - 1];
    if p < |Flatten(init)| {
      i, j := FlattenPosition(init, p);
      assert init[..i] == roms[..i];
    } else {
      i, j := |roms| - 1, p - |Flatten(init)|;
      assert roms[..i] == init;
    }
  }
}
