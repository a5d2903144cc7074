# vgcfit in Dafny

A model of `vgcfit.py` from vgm-packer. The tool takes a VGC container: a
"VGC" header, then eight length-prefixed music streams starting at offset 7.
It packs the eight streams into 16 KB sideways ROM banks using as few banks
as possible, and produces:

- one image per bank: the bank's streams laid end to end, to be loaded at
  &8000;
- a 31-byte table of contents: "VGC", 0x20, three zero bytes, then for each
  stream index 0..7 its bank number and the low and high byte of its address.

The modules follow the parts of the script:

- `VgcTypes` (`vgc_types.dfy`): bytes, bank numbers, streams, the tool's
  fatal errors, ROM totals and images, and flattening a list of ROMs.
- `Container` (`container.dfy`): `ensure_ok` and `find_vgc_streams`.
  - The framing is a function `Frame` over the start offsets.
  - `FindStreams` is the source's loop, proved equal to that function.
- `Orderings` (`orderings.dfy`): the orderings of a sequence in the order
  `itertools.permutations` yields them. They are generated by position: first
  those that start with element 0, then those that start with element 1, and
  so on. The module proves that these are exactly the rearrangements and that
  there are n! of them.
- `Packer` (`packer.dfy`): `find_order`.
  - The first loop is a first-fit simulation (`Simulate`) inside a fold with
    strict `<` replacement (`Search`).
  - The second loop is `Materialize`.
  - The methods `SearchOrder`, `CountRoms`, `PackOrder` and `FindOrder` are
    the loops themselves.
- `Layout` (`layout.dfy`): `save_files` without the file writes. The
  eight-slot `stream_locations` list is an array. `SaveFiles` returns the bank
  images and the TOC bytes.
- `BankOptions` (`options.dfy`): `isxdigit` and `handle_options`.
- `VgcFit` (`fit.dfy`): `main`, as a function `Fit` from the `--banks` text
  and the file's bytes to the outputs or the first fatal error, and as a
  method `Run` made of the steps above.

`fatal` becomes an `Error` value in a `Result` or `Outcome`. A byte is an
integer 0..255, as the script's `[ord(x) for x in f.read()]` gives them.

## Model

| member | source | states |
|---|---|---|
| Container.CheckHeader | vgcfit.py:91-98 | fails with TooSmall iff the data has fewer than 4 bytes; otherwise with BadMagic iff bytes 0..2 are not 0x56 0x47 0x43; otherwise with Compressed iff bit 7 of byte 3 is set; passes exactly when none of these holds |
| Container.SegmentLength | vgcfit.py:113-114 | a segment is 4 to 0x10003 bytes long (little-endian 16-bit length plus 4) |
| Container.Frame | vgcfit.py:107-118 | the start offsets: count+1 of them, the first being the starting offset, or Truncated when a length field lies past the end of the data |
| Container.FrameCharacterization | vgcfit.py:107-118 | Frame succeeds with `starts` iff starts[0] = 7 and each next start is the previous one plus the little-endian length read there plus 4, with both length bytes inside the data |
| Container.FrameSound | vgcfit.py:110-116 | a successful framing satisfies the start-offset recurrence |
| Container.FrameComplete | vgcfit.py:110-116 | any offsets satisfying the recurrence are what the framing returns |
| Container.Slice | vgcfit.py:120 | Python slicing: `data[a:b]` when b is within the data, the tail when b is past the end, empty when b <= a |
| Container.SplitStreams | vgcfit.py:106-121 | exactly eight streams with indices 0..7, or Truncated |
| Container.FindStreams | vgcfit.py:106-121 | the loop returns what SplitStreams specifies: eight streams numbered 0..7 cut at the framed offsets, or Truncated |
| Container.StreamsAt | vgcfit.py:120 | the list comprehension: eight streams numbered 0..7, stream i being the Python slice of the data between starts[i] and starts[i+1] |
| Container.StreamsFromFrame | vgcfit.py:118-120 | each stream i is the slice between starts[i] and starts[i+1] of a framing that satisfies the recurrence |
| Container.StreamBytes | vgcfit.py:113-120 | stream i starts with its own two length bytes; when the next start is within the data it is exactly length+4 bytes long, otherwise it is cut short at the end of the data |
| Container.StreamsTile | vgcfit.py:118-120 | when the end offset is within the data, the eight streams laid end to end are exactly `data[7:starts[8]]`, and that end offset is at least 7+32 |
| Orderings.Permutations | vgcfit.py:132 | `itertools.permutations(streams)`: the orderings that start with element 0, then those that start with element 1, and so on, each block ordered the same way over the remaining elements; the list is never empty |
| Orderings.PermutationsCharacterization | vgcfit.py:132 | a sequence is enumerated iff it is a rearrangement of the input |
| Orderings.PermutationsSound | vgcfit.py:132 | every enumerated ordering is a rearrangement of the input |
| Orderings.PermutationsComplete | vgcfit.py:132 | every rearrangement of the input is enumerated |
| Orderings.PermutationsFirst | vgcfit.py:132 | the first ordering enumerated is the input order itself |
| Orderings.PermutationsOfTwo | vgcfit.py:132 | two elements are enumerated as the input order, then the swap |
| Orderings.PermutationsOfThree | vgcfit.py:132 | [a, b, c] is enumerated as abc, acb, bac, bca, cab, cba: by first element in input position order, then the rest in input order |
| Orderings.PermutationsCount | vgcfit.py:132 | n elements give n! orderings (8! = 40320 for the eight streams) |
| Packer.Simulate | vgcfit.py:133-140 | first-fit simulation: between 1 and n+1 ROMs; with every stream fitting in a bank, the last ROM stays within 16384 bytes and at most n ROMs are used for n > 0 streams |
| Packer.FirstFitCount | vgcfit.py:133-140 | the `num_roms` the inner loop ends with on one ordering: between 1 and n+1 |
| Packer.Search | vgcfit.py:129-144 | the outer loop as a fold over the orderings from best_num_roms = 16 and no best_order: an ordering replaces the best only when its count is strictly smaller; without a best order the count is still 16, with one it is that order's count and below 16 |
| Packer.CountRoms | vgcfit.py:133-140 | the inner loop computes the simulated ROM count, between 1 and n+1 |
| Packer.SearchWinner | vgcfit.py:129-144 | over a nonempty list of orderings that all count below 16, the search ends on ordering j: no ordering needs fewer ROMs and every earlier one needs strictly more |
| Packer.SearchBounded | vgcfit.py:130-144 | with eight streams every ordering needs fewer than 16 ROMs, so some ordering always replaces the initial best_order = None |
| Packer.SearchOrder | vgcfit.py:129-144 | the outer loop returns the winning ordering |
| Packer.Winner | vgcfit.py:129-144 | the winning ordering is a rearrangement of the streams |
| Packer.PlaceStream | vgcfit.py:149-156 | one step of the second loop: a stream that would take rom_size past 16384 opens a new ROM holding only it, otherwise it is appended to the last ROM; rom_size becomes the last ROM's size |
| Packer.Materialize | vgcfit.py:147-156 | the second loop from `roms = []` and `rom_size = 16385` over the winning ordering; while no ROM is open the kept size is above a bank, so the first stream always opens one |
| Packer.WinnerIsFirstMinimum | vgcfit.py:129-144 | the winner is the j-th ordering enumerated; no ordering needs fewer ROMs; every ordering before it needs strictly more, so later ties are not taken |
| Packer.WinnerIsMinimal | vgcfit.py:129-144 | no rearrangement of the streams first-fits into fewer ROMs than the winner |
| Packer.PlaceStreamConsistent | vgcfit.py:149-156 | one step of the second loop keeps every ROM nonempty and rom_size equal to the last ROM's size (16385 before the first) |
| Packer.PlaceStreamAppends | vgcfit.py:149-156 | one step appends the stream to the ROMs laid end to end |
| Packer.PlaceStreamCapacity | vgcfit.py:150-156 | a stream no larger than a bank never takes a ROM past 16384 bytes |
| Packer.MaterializePartition | vgcfit.py:147-156 | the ROMs laid end to end give back the ordering, and no ROM is empty |
| Packer.MaterializeCapacity | vgcfit.py:147-156 | when every stream fits in a bank, every ROM holds at most 16384 bytes |
| Packer.MaterializeMatchesSimulation | vgcfit.py:133-156 | when every stream fits in a bank and the ordering is nonempty, the second loop opens as many ROMs as the simulation counted, and ends with the same last-ROM size |
| Packer.AllFitReordered | vgcfit.py:224-226 | a rearrangement of streams that fit in a bank holds only streams that fit |
| Packer.PackOrder | vgcfit.py:147-156 | the second loop, with its aliased `rom` list, builds the ROMs Materialize specifies, and they flatten back to the ordering |
| Packer.FindOrder | vgcfit.py:126-158 | returns the winner's first-fit ROMs; they hold a rearrangement of the streams and none is empty; when every stream fits in a bank: each ROM is within 16384 bytes, the ROM count is the first-fit count of their order, and no rearrangement of the streams needs fewer ROMs |
| Layout.AddressStep | vgcfit.py:170-175 | the first stream of a ROM is at 0x8000 and each next one starts where the previous one ends |
| Layout.PlaceRom | vgcfit.py:171-175 | the inner loop's writes for one ROM loaded into a bank: stream j's slot gets that bank and 0x8000 plus the sizes of streams 0..j-1, a later write to the same index replacing an earlier one; the table keeps its eight slots |
| Layout.Locate | vgcfit.py:166-175 | `stream_locations` after the outer loop over the first n ROMs, ROM i loaded into banks[i], starting from eight `None` slots; the table keeps its eight slots |
| Layout.PlaceRomAt | vgcfit.py:171-173 | a stream's slot holds its bank and address unless a later stream of the ROM has the same index |
| Layout.PlaceRomOther | vgcfit.py:171-173 | slots of indices the ROM does not hold are unchanged |
| Layout.LocateRecords | vgcfit.py:168-173 | after the first n ROMs, every index they hold has a location |
| Layout.LocateFilled | vgcfit.py:166-173 | when every index 0..7 occurs, no slot is left None |
| Layout.LocateAt | vgcfit.py:166-175 | when no two streams share an index, stream j of ROM i is recorded with bank banks[i] at 0x8000 plus the sizes of the streams before it |
| Layout.TocRecord | vgcfit.py:185-187 | a record is 3 bytes: the bank, then low and high byte that recombine to the address when it is below 0x10000 |
| Layout.Toc | vgcfit.py:180-187 | the TOC bytes: the 7-byte header followed by three bytes per location, 7 + 3n bytes in all |
| Layout.TocLayout | vgcfit.py:180-187 | the TOC is 31 bytes, starts with 0x56 0x47 0x43 0x20 0 0 0, and bytes 7+3k..9+3k are the bank and the address bytes of location k |
| Layout.Locations | vgcfit.py:166-173 | eight locations, each the filled slot of the location table |
| Layout.WriteRom | vgcfit.py:169-175 | the inner loop builds the ROM image as its streams' bytes end to end and records each stream's bank and address in the slot array |
| Layout.WriteToc | vgcfit.py:180-187 | the TOC loop writes the table of contents for the eight locations |
| Layout.SaveFiles | vgcfit.py:165-189 | image i is for bank banks[i] and is exactly its ROM's streams end to end; the TOC is the 31-byte table for the recorded locations, starting with the header |
| BankOptions.IsHexDigit | vgcfit.py:194 | `isxdigit`: a decimal digit or a letter A..F in either case |
| BankOptions.ParseBanks | vgcfit.py:196-203 | what handle_options leaves in options.banks: one value per character when it succeeds; a failure names a character of the text that is not a hex digit |
| BankOptions.IsHexDigitMembership | vgcfit.py:194 | a character passes the test iff it occurs in "0123456789ABCDEFabcdef" |
| BankOptions.HexValue | vgcfit.py:201 | the value 0..15 of a hex digit: the digit is that value printed in lower or upper case |
| BankOptions.HexValueRoundTrip | vgcfit.py:194-201 | every value 0..15 is read back from both its lower- and upper-case digit, and both are accepted by isxdigit |
| BankOptions.ParseBanksCharacterization | vgcfit.py:196-203 | parsing succeeds iff every character is a hex digit, and then gives each character's value in order; otherwise it fails naming the first character that is not a hex digit |
| BankOptions.DuplicateBankAccepted | vgcfit.py:200 | the duplicate test compares a character with integers and never fires: "44" gives banks [4, 4] |
| BankOptions.DefaultBanksParse | vgcfit.py:268-269 | the default bank list "4567" gives banks 4, 5, 6, 7 |
| BankOptions.HandleOptions | vgcfit.py:196-203 | the loop gives the parsed bank list: one value per character, in order, exactly when all characters are hex digits |
| VgcFit.SizeCheck | vgcfit.py:224-226 | the oversize guard over the streams in order; a failure reports a stream larger than 16384 bytes |
| VgcFit.SizeCheckCharacterization | vgcfit.py:224-226 | the size check passes iff every stream is at most 16384 bytes; otherwise it names the first oversize stream's index and size |
| VgcFit.CheckSizes | vgcfit.py:224-226 | the loop passes exactly when every stream fits in a bank |
| VgcFit.PartitionLayout | vgcfit.py:166-173 | ROMs holding a rearrangement of the eight numbered streams hold each index 0..7 exactly once, so every TOC slot is written once |
| VgcFit.PackedLayout | vgcfit.py:228-246 | the ROMs find_order returns hold the eight streams, each index once, as save_files needs |
| VgcFit.PackedCapacity | vgcfit.py:224-228 | when every stream fits, the packed ROMs are within a bank each, there is at least one, and no rearrangement needs fewer |
| VgcFit.Fit | vgcfit.py:208-246 | a successful run parsed the banks, passed the header check and framed the streams |
| VgcFit.FitStreams | vgcfit.py:224-246 | main after framing: the size guard, find_order, the bank guard and save_files; it fails only with an oversize stream or with too few banks |
| VgcFit.Run | vgcfit.py:208-246 | main's steps, in order, give what Fit specifies |
| VgcFit.RunStreams | vgcfit.py:224-246 | main's steps after framing give what FitStreams specifies |
| VgcFit.FitSteps | vgcfit.py:208-246 | a successful run had every stream within a bank and no more ROMs than banks, and its output is the images and TOC of the packed ROMs |
| VgcFit.FitOutput | vgcfit.py:208-246 | a successful run writes a 31-byte TOC starting with the header and between 1 and len(banks) images; image i is for banks[i] and at most 16384 bytes; no rearrangement of the streams needs fewer ROMs |
| VgcFit.RecordNamesPlace | vgcfit.py:170-187 | the TOC record of a location names its bank and its address; the stream's bytes lie at that address in its ROM image, inside &8000..&C000 |
| VgcFit.LaidOut | vgcfit.py:165-187 | stream j of ROM i lies in image i at the address its TOC record gives, and the record names bank banks[i] |
| VgcFit.PlacesStream | vgcfit.py:224-246 | after framing, stream k is found in the image whose bank its TOC record names, at the address the record gives |
| VgcFit.FitPlacesStream | vgcfit.py:208-246 | in a successful run stream k lies byte for byte in the image of the bank named by TOC bytes 7+3k, at the address in bytes 8+3k and 9+3k, within &8000..&C000 |
| VgcFit.FitNeedsMoreBanks | vgcfit.py:243-244 | a run that stops for want of banks reports len(roms), the packed ROM count, which is the winner's first-fit count, and len(banks); the banks are fewer than the ROMs, and no rearrangement of the streams would fit in the banks given |
| VgcFit.FitStopsAt | vgcfit.py:212-226 | the run reports a bank-digit error iff the bank text is bad; otherwise a header error iff the header is bad; otherwise Truncated iff framing runs off the data; otherwise an oversize error iff some stream exceeds a bank |

## Left out

- Reading the input file and writing the `.dat` files (`load_file`,
  `save_file`, the output names `STEM.<bank>.dat` and `STEM.toc.dat`): the
  model takes the file's bytes and returns the images and the TOC.
- The verbose report in `main` and `V`: console output only.
- `fatal`'s message text, stderr output and exit status: each fatal call is one
  `Error` constructor with the values its message prints.
- `vgcsplit`, argparse and `auto_int`: the model starts from the `--banks`
  text. Only the default bank list "4567" is kept.
- `ord`/`chr` conversions: data is a sequence of integers 0..255 from the start.
- An index past the end in `find_vgc_streams` raises IndexError in the script.
  The model reports it as the error `Truncated` rather than as a crash.
- Container.StreamsTile: requires the framed end offset to be within the data.
  Past the end, the script slices silently. That case is modelled by
  `Container.Slice`, and its effect is stated in `Container.StreamBytes`.
- Packer.FindOrder: requires exactly eight streams, as `find_vgc_streams`
  always gives. With 15 or more streams (16 or more once `main`'s size guard
  has passed) every ordering could need 16 or more ROMs, `best_order` would
  stay `None`, and the script would crash iterating over it.
- Layout.SaveFiles: requires every index 0..7 to occur in the ROMs and no more
  ROMs than banks. This is what `main` guarantees. Otherwise the script would
  fail on `None.bank` or on `options.banks[i]`.
- In `find_order`, `rom` is a list both appended to `roms` and mutated
  afterwards. The model updates the last element of `roms` by value. Aliasing
  is not represented.
- The duplicate-bank test in `handle_options` is kept as the script behaves:
  it never rejects anything (`BankOptions.DuplicateBankAccepted`).
- VgcFit.FitPlacesStream: the model returns one image per ROM, and two ROMs
  may carry the same bank number when a digit is repeated in `--banks`. The
  script writes each image to `STEM.<bank>.dat`, so images for the same bank
  go to one file and the last one written wins, while the TOC still names
  that bank for the earlier ROM's streams. The placement stated by
  `VgcFit.FitPlacesStream`, `VgcFit.PlacesStream` and `VgcFit.LaidOut` holds
  of the image list; it holds of the files left behind only when the bank
  digits of the ROMs used are distinct. File writing is not modelled.
