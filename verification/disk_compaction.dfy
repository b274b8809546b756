/** Model of 2024/09/puzzle9.php: a disk map made of file blocks and free-space
    blocks, read from a digit string, compacted by moving whole files into the
    first free space on their left that can hold them, then summarised by a
    checksum. */
module DiskCompaction {
  import opened Common

  datatype BlockType = FileType | SpaceType

  /** A disk block: a file (with its id, its size and whether it was already
      moved) or a run of free cells. */
  datatype Block = File(id: nat, filesize: nat, moved: bool) | Space(size: nat)
  {
    function Type(): BlockType { if File? then FileType else SpaceType }
  }

  // ---------------------------------------------------------------------------
  // Reading the disk map

  /** The blocks the parser builds from `input`, naming the first file `n`:
      even positions are file sizes (a non-digit there throws), odd positions
      are space sizes (blank characters add no block, anything else throws). */
  function ParseFrom(input: string, n: nat): (r: Result<seq<Block>>)
    ensures input != [] && !IsDigit(input[0]) ==> r.Err?
    ensures r.Ok? && input != [] ==> r.value != [] && r.value[0] == File(n, DigitValue(input[0]), false)
    ensures r.Ok? && input == [] ==> r.value == []
    decreases |input|
  {
    if input == [] then Ok([])
    else if !IsDigit(input[0]) then Err("Unreadable filesize")
    else
      var f := File(n, DigitValue(input[0]), false);
      if |input| == 1 then Ok([f])
      else if !IsTrimmed(input[1]) && !IsDigit(input[1]) then Err("Corrupted space size")
      else
        var s := if IsDigit(input[1]) then [Space(DigitValue(input[1]))] else [];
        Prepend([f] + s, ParseFrom(input[2..], n + 1))
  }

  function Prepend(pre: seq<Block>, r: Result<seq<Block>>): Result<seq<Block>> {
    if r.Ok? then Ok(pre + r.value) else r
  }

  /** A disk map the parser accepts: digits at even positions, digits or blanks at odd ones. */
  predicate WellFormed(input: string) {
    forall i :: 0 <= i < |input| ==>
      if i % 2 == 0 then IsDigit(input[i]) else IsDigit(input[i]) || IsTrimmed(input[i])
  }

  /** The parser's loop over the characters of the file. */
  method Parse(input: string) returns (r: Result<seq<Block>>)
    ensures r == ParseFrom(input, 0)
  {
    var blocks: seq<Block> := [];
    var i, n := 0, 0;
    assert input[0..] == input;
    var whole := ParseFrom(input, 0);
    if whole.Ok? { assert [] + whole.value == whole.value; }
    while i < |input|
      invariant i <= |input| && i == 2 * n
      invariant ParseFrom(input, 0) == Prepend(blocks, ParseFrom(input[i..], n))
      decreases |input| - i
    {
      var rest := input[i..];
      assert rest[0] == input[i];
      var c := input[i];
      if !IsDigit(c) {
        return Err("Unreadable filesize");
      }
      var f := File(n, DigitValue(c), false);
      if i + 1 == |input| {
        assert rest == [c];
        return Ok(blocks + [f]);
      }
      assert rest[1] == input[i + 1] && rest[2..] == input[i + 2..];
      var s := input[i + 1];
      if !IsTrimmed(s) && !IsDigit(s) {
        return Err("Corrupted space size");
      }
      var space := if IsDigit(s) then [Space(DigitValue(s))] else [];
      PrependTwice(blocks, [f] + space, ParseFrom(input[i + 2..], n + 1));
      blocks := blocks + ([f] + space);
      n := n + 1;
      i := i + 2;
    }
    assert input[i..] == [];
    assert blocks + [] == blocks;
    return Ok(blocks);
  }

  lemma {:induction false} PrependTwice(a: seq<Block>, b: seq<Block>, r: Result<seq<Block>>)
    ensures Prepend(a, Prepend(b, r)) == Prepend(a + b, r)
  {
    if r.Ok? { assert a + (b + r.value) == (a + b) + r.value; }
  }

  lemma {:induction false} ParseOkIff(input: string, n: nat)
    ensures ParseFrom(input, n).Ok? <==> WellFormed(input)
    decreases |input|
  {
    if |input| >= 2 {
      var tail := input[2..];
      ParseOkIff(tail, n + 1);
      assert WellFormed(input) ==> WellFormed(tail) by {
        if WellFormed(input) {
          forall i | 0 <= i < |tail|
            ensures if i % 2 == 0 then IsDigit(tail[i]) else IsDigit(tail[i]) || IsTrimmed(tail[i])
          {
            assert tail[i] == input[i + 2];
          }
        }
      }
      if WellFormed(tail) && IsDigit(input[0]) && (IsDigit(input[1]) || IsTrimmed(input[1])) {
        forall i | 0 <= i < |input|
          ensures if i % 2 == 0 then IsDigit(input[i]) else IsDigit(input[i]) || IsTrimmed(input[i])
        {
          if i >= 2 { assert input[i] == tail[i - 2]; }
        }
      }
    }
  }

  /** The file blocks of a disk, in order. */
  function Files(d: seq<Block>): (fs: seq<Block>)
    ensures forall k :: 0 <= k < |fs| ==> fs[k].File?
  {
    if d == [] then [] else (if d[0].File? then [d[0]] else []) + Files(d[1..])
  }

  lemma {:induction false} FilesAppend(a: seq<Block>, b: seq<Block>)
    ensures Files(a + b) == Files(a) + Files(b)
  {
    if a == [] {
      assert a + b == b;
    } else {
      assert (a + b)[1..] == a[1..] + b;
      FilesAppend(a[1..], b);
    }
  }

  /** Dropping the first block and the blank or digit after it keeps a map well formed. */
  lemma {:induction false} WellFormedTail(input: string)
    requires WellFormed(input) && |input| >= 2
    ensures WellFormed(input[2..])
  {
    var tail := input[2..];
    forall i | 0 <= i < |tail|
      ensures if i % 2 == 0 then IsDigit(tail[i]) else IsDigit(tail[i]) || IsTrimmed(tail[i])
    {
      assert tail[i] == input[i + 2];
    }
  }

  /** One step of the parse of a well-formed map: a file, maybe a space, then the rest. */
  lemma {:induction false} ParseStep(input: string, n: nat)
    requires WellFormed(input) && |input| >= 2
    ensures ParseFrom(input, n).Ok? && ParseFrom(input[2..], n + 1).Ok?
    ensures ParseFrom(input, n).value
      == [File(n, DigitValue(input[0]), false)]
         + (if IsDigit(input[1]) then [Space(DigitValue(input[1]))] else [])
         + ParseFrom(input[2..], n + 1).value
  {
    WellFormedTail(input);
    ParseOkIff(input, n);
    ParseOkIff(input[2..], n + 1);
  }

  /** The parsed files are numbered n, n+1, ... and take their sizes from the
      even positions of the map. */
  lemma {:induction false} ParsedFiles(input: string, n: nat)
    requires WellFormed(input)
    ensures ParseFrom(input, n).Ok?
    ensures var fs := Files(ParseFrom(input, n).value);
      && |fs| == (|input| + 1) / 2
      && forall k :: 0 <= k < |fs| ==> fs[k] == File(n + k, DigitValue(input[2 * k]), false)
  {
    ParsedFileCount(input, n);
    forall k | 0 <= k < |Files(ParseFrom(input, n).value)|
      ensures Files(ParseFrom(input, n).value)[k] == File(n + k, DigitValue(input[2 * k]), false)
    {
      ParsedFileAt(input, n, k);
    }
  }

  /** One file per character pair of the map (and one for a final lone digit). */
  lemma {:induction false} ParsedFileCount(input: string, n: nat)
    requires WellFormed(input)
    ensures ParseFrom(input, n).Ok? && |Files(ParseFrom(input, n).value)| == (|input| + 1) / 2
    decreases |input|
  {
    ParseOkIff(input, n);
    if |input| >= 2 {
      FilesOfParseStep(input, n);
      WellFormedTail(input);
      ParsedFileCount(input[2..], n + 1);
    } else if |input| == 1 {
      assert ParseFrom(input, n).value == [File(n, DigitValue(input[0]), false)];
    }
  }

  /** File `k` of the parse is the one the digit at position 2k describes. */
  lemma {:induction false} ParsedFileAt(input: string, n: nat, k: nat)
    requires WellFormed(input) && 2 * k < |input|
    ensures ParseFrom(input, n).Ok? && k < |Files(ParseFrom(input, n).value)|
    ensures Files(ParseFrom(input, n).value)[k] == File(n + k, DigitValue(input[2 * k]), false)
    decreases k
  {
    ParseOkIff(input, n);
    if |input| == 1 {
      assert ParseFrom(input, n).value == [File(n, DigitValue(input[0]), false)];
    } else {
      FilesOfParseStep(input, n);
      if k > 0 {
        WellFormedTail(input);
        ParsedFileAt(input[2..], n + 1, k - 1);
        assert input[2 * k] == input[2..][2 * (k - 1)];
      }
    }
  }

  /** The files of a parse: the first one, then those of the rest of the map. */
  lemma {:induction false} FilesOfParseStep(input: string, n: nat)
    requires WellFormed(input) && |input| >= 2
    ensures ParseFrom(input, n).Ok? && ParseFrom(input[2..], n + 1).Ok?
    ensures var fs, rest := Files(ParseFrom(input, n).value), Files(ParseFrom(input[2..], n + 1).value);
      && |fs| == |rest| + 1 && fs[0] == File(n, DigitValue(input[0]), false)
      && forall k :: 0 < k < |fs| ==> fs[k] == rest[k - 1]
  {
    ParseStep(input, n);
    var f := File(n, DigitValue(input[0]), false);
    var s := if IsDigit(input[1]) then [Space(DigitValue(input[1]))] else [];
    FilesOfStep(f, s, ParseFrom(input[2..], n + 1).value);
  }

  lemma {:induction false} FilesOfStep(f: Block, s: seq<Block>, rest: seq<Block>)
    requires f.File? && forall k :: 0 <= k < |s| ==> s[k].Space?
    requires |s| <= 1
    ensures Files([f] + s + rest) == [f] + Files(rest)
  {
    FilesAppend([f] + s, rest);
    FilesAppend([f], s);
    assert Files([f]) == [f];
    assert Files(s) == [] by {
      if s != [] { assert Files(s) == Files(s[1..]); }
    }
  }

  /** A parsed disk starts with a file and never holds two spaces in a row. */
  lemma {:induction false} ParsedShape(input: string, n: nat)
    requires WellFormed(input)
    ensures ParseFrom(input, n).Ok?
    ensures var bs := ParseFrom(input, n).value;
      && (bs != [] ==> bs[0].File?)
      && forall k :: 0 <= k < |bs| - 1 && bs[k].Space? ==> bs[k + 1].File?
    decreases |input|
  {
    ParseOkIff(input, n);
    var bs := ParseFrom(input, n).value;
    if |input| >= 2 {
      var tail := input[2..];
      ParseStep(input, n);
      WellFormedTail(input);
      ParsedShape(tail, n + 1);
      var rest := ParseFrom(tail, n + 1).value;
      var f := File(n, DigitValue(input[0]), false);
      var s := if IsDigit(input[1]) then [Space(DigitValue(input[1]))] else [];
      assert bs[0] == f;
      assert s != [] ==> bs[1] == s[0];
      assert forall j :: 0 <= j < |rest| ==> bs[1 + |s| + j] == rest[j];
    } else if |input| == 1 {
      assert bs == [File(n, DigitValue(input[0]), false)];
    }
  }

  // ---------------------------------------------------------------------------
  // Searching

  /** Where a search of a disk of length `l` starts, after `find` clamps `from`. */
  function ScanStart(l: int, from: int, incr: bool): int {
    if incr then (if from < 0 then 0 else from)
    else (if from > l then l - 1 else from)
  }

  /** Index `k` lies on the path `find` walks from `from` in direction `incr`. */
  predicate Scanned(l: int, from: int, incr: bool, k: int) {
    var s := ScanStart(l, from, incr);
    if incr then s <= k < l else s <= l - 1 && 0 <= k <= s
  }

  /** `k` is reached before `r` when walking in direction `incr`. */
  predicate Earlier(incr: bool, k: int, r: int) {
    if incr then k < r else k > r
  }

  predicate IsFreeSpace(b: Block, largerThan: int) {
    b.Space? && b.size > largerThan
  }

  predicate IsUnmovedFile(b: Block) {
    b.File? && !b.moved
  }

  // ---------------------------------------------------------------------------
  // Cell accounting

  function Width(b: Block): nat {
    if b.File? then b.filesize else b.size
  }

  /** Number of disk cells covered by the blocks. */
  function CellCount(d: seq<Block>): nat {
    if d == [] then 0 else Width(d[0]) + CellCount(d[1..])
  }

  /** Number of cells that hold file `id`. */
  function FileCells(d: seq<Block>, id: nat): nat {
    if d == [] then 0
    else (if d[0].File? && d[0].id == id then d[0].filesize else 0) + FileCells(d[1..], id)
  }

  /** Number of file blocks not yet moved. */
  function UnmovedCount(d: seq<Block>): nat {
    if d == [] then 0 else (if IsUnmovedFile(d[0]) then 1 else 0) + UnmovedCount(d[1..])
  }

  lemma {:induction false} CountsAppend(a: seq<Block>, b: seq<Block>, id: nat)
    ensures CellCount(a + b) == CellCount(a) + CellCount(b)
    ensures UnmovedCount(a + b) == UnmovedCount(a) + UnmovedCount(b)
    ensures FileCells(a + b, id) == FileCells(a, id) + FileCells(b, id)
  {
    if a == [] {
      assert a + b == b;
    } else {
      assert (a + b)[1..] == a[1..] + b;
      CountsAppend(a[1..], b, id);
    }
  }

  lemma {:induction false} CountsSingle(b: Block, id: nat)
    ensures CellCount([b]) == Width(b)
    ensures UnmovedCount([b]) == if IsUnmovedFile(b) then 1 else 0
    ensures FileCells([b], id) == if b.File? && b.id == id then b.filesize else 0
  {
    assert [b][1..] == [];
  }

  /** PHP's `array_splice($d, $offset, $length, $ins)` for a non-negative
      offset: keep `offset` blocks (all of them when there are fewer), put `ins`
      in the place of the next `length` blocks, keep the rest. */
  function Splice(d: seq<Block>, offset: nat, length: nat, ins: seq<Block>): seq<Block>
    decreases d
  {
    if offset == 0 || d == [] then ins + (if length < |d| then d[length..] else [])
    else [d[0]] + Splice(d[1..], offset - 1, length, ins)
  }

  /** Within bounds the splice cuts out exactly `length` blocks at `offset`. */
  lemma {:induction false} SpliceShape(d: seq<Block>, offset: nat, length: nat, ins: seq<Block>)
    requires offset + length <= |d|
    ensures Splice(d, offset, length, ins) == d[..offset] + ins + d[offset + length..]
    decreases d
  {
    if offset == 0 {
      assert d[..0] + ins == ins;
      if length == |d| { assert d[length..] == []; }
    } else {
      SpliceShape(d[1..], offset - 1, length, ins);
      assert d[1..][..offset - 1] == d[1..offset] && d[1..][offset - 1 + length..] == d[offset + length..];
      assert [d[0]] + d[1..offset] == d[..offset];
    }
  }

  /** `r` is `d` with the `length` blocks at `offset` replaced by `ins`, block
      by block: the blocks before `offset` stay, `ins` follows, and the blocks
      after the cut keep their order. */
  predicate SplicedAt(r: seq<Block>, d: seq<Block>, offset: nat, length: nat, ins: seq<Block>) {
    && offset + length <= |d|
    && |r| == |d| - length + |ins|
    && (forall k {:trigger r[k]} :: 0 <= k < offset ==> r[k] == d[k])
    && (forall k {:trigger r[k]} :: offset <= k < offset + |ins| ==> r[k] == ins[k - offset])
    && (forall k {:trigger r[k]} :: offset + |ins| <= k < |r| ==> r[k] == d[k - |ins| + length])
  }

  /** `Splice` does what `SplicedAt` describes. */
  lemma {:induction false} SpliceAt(d: seq<Block>, offset: nat, length: nat, ins: seq<Block>)
    requires offset + length <= |d|
    ensures SplicedAt(Splice(d, offset, length, ins), d, offset, length, ins)
  {
    SpliceShape(d, offset, length, ins);
  }

  /** A splice trades the counts of the removed blocks for those of the inserted ones. */
  lemma {:induction false} SpliceCounts(d: seq<Block>, offset: nat, length: nat, ins: seq<Block>, id: nat)
    requires offset + length <= |d|
    ensures var r := Splice(d, offset, length, ins);
      var gone := d[offset..offset + length];
      && CellCount(r) + CellCount(gone) == CellCount(d) + CellCount(ins)
      && UnmovedCount(r) + UnmovedCount(gone) == UnmovedCount(d) + UnmovedCount(ins)
      && FileCells(r, id) + FileCells(gone, id) == FileCells(d, id) + FileCells(ins, id)
  {
    var pre, gone, post := d[..offset], d[offset..offset + length], d[offset + length..];
    SpliceShape(d, offset, length, ins);
    assert d == pre + gone + post;
    CountsAppend(pre, gone, id);
    CountsAppend(pre + gone, post, id);
    CountsAppend(pre, ins, id);
    CountsAppend(pre + ins, post, id);
  }

  // ---------------------------------------------------------------------------
  // Swapping a file into a space, as written

  /** The checks `swapFileToSpace` makes before touching the disk. */
  predicate SwapAllowed(d: seq<Block>, fileIndex: int, spaceIndex: int) {
    && 0 <= fileIndex < |d| && 0 <= spaceIndex < |d|
    && d[fileIndex].File? && d[spaceIndex].Space?
    && d[fileIndex].filesize > 0 && d[spaceIndex].size > 0
  }

  /** The blocks that replace a file block and its neighbouring spaces once
      `transfer` of its cells have left: the part of the file left behind, if
      any, then one space merging the freed cells with those neighbours. */
  function FileSideBlocks(d: seq<Block>, f: nat, transfer: nat): seq<Block>
    requires f < |d| && d[f].File? && transfer <= d[f].filesize
  {
    var before := f >= 1 && d[f - 1].Space?;
    var after := f + 1 < |d| && d[f + 1].Space?;
    var created := transfer + (if before then d[f - 1].size else 0) + (if after then d[f + 1].size else 0);
    var leftover := if transfer < d[f].filesize then [File(d[f].id, d[f].filesize - transfer, false)] else [];
    leftover + [Space(created)]
  }

  /** Where the file-side splice starts and how many blocks it removes. */
  function RemoveFrom(d: seq<Block>, f: nat): nat
    requires f < |d|
  {
    if f >= 1 && d[f - 1].Space? then f - 1 else f
  }

  function RemoveCount(d: seq<Block>, f: nat): nat
    requires f < |d|
  {
    1 + (if f >= 1 && d[f - 1].Space? then 1 else 0) + (if f + 1 < |d| && d[f + 1].Space? then 1 else 0)
  }

  /** The three blocks that replace the target space: an empty space, the
      moved part of the file, and what is left of the space. */
  function SpaceSideBlocks(id: nat, transfer: nat, remainder: nat, moved: bool): seq<Block> {
    [Space(0), File(id, transfer, moved), Space(remainder)]
  }

  /** The space-side splice: the block at `spaceIndex` gives way to `SpaceSideBlocks`. */
  function SpaceSide(d: seq<Block>, spaceIndex: nat, id: nat, transfer: nat, remainder: nat, moved: bool): (r: seq<Block>)
    requires spaceIndex < |d|
    ensures |r| == |d| + 2 && forall k :: spaceIndex + 2 < k < |r| ==> r[k] == d[k - 2]
  {
    SpliceAt(d, spaceIndex, 1, SpaceSideBlocks(id, transfer, remainder, moved));
    Splice(d, spaceIndex, 1, SpaceSideBlocks(id, transfer, remainder, moved))
  }

  /** The space-side splice keeps the blocks before the space, puts the three
      new blocks in its place and shifts the blocks after it two places on. */
  lemma {:induction false} SpaceSideShape(d: seq<Block>, spaceIndex: nat, id: nat, transfer: nat, remainder: nat, moved: bool)
    requires spaceIndex < |d|
    ensures var r := SpaceSide(d, spaceIndex, id, transfer, remainder, moved);
      && (forall k {:trigger r[k]} :: 0 <= k < spaceIndex ==> r[k] == d[k])
      && r[spaceIndex] == Space(0) && r[spaceIndex + 1] == File(id, transfer, moved)
      && r[spaceIndex + 2] == Space(remainder)
  {
    var x := SpaceSideBlocks(id, transfer, remainder, moved);
    SpliceAt(d, spaceIndex, 1, x);
  }

  /** The file-side splice: the file block at `f` and the spaces right next to
      it give way to `FileSideBlocks`. */
  function FileSide(d: seq<Block>, f: nat, transfer: nat): (r: seq<Block>)
    requires f < |d| && d[f].File? && transfer <= d[f].filesize
    ensures |r| > RemoveFrom(d, f)
  {
    SpliceAt(d, RemoveFrom(d, f), RemoveCount(d, f), FileSideBlocks(d, f, transfer));
    Splice(d, RemoveFrom(d, f), RemoveCount(d, f), FileSideBlocks(d, f, transfer))
  }

  /** The file-side splice keeps every block before the space in front of the file. */
  lemma {:induction false} FileSideShape(d: seq<Block>, f: nat, transfer: nat)
    requires f < |d| && d[f].File? && transfer <= d[f].filesize
    ensures var r := FileSide(d, f, transfer);
      var from, nb := RemoveFrom(d, f), RemoveCount(d, f);
      && from + nb <= |d|
      && |r| > from && forall k {:trigger r[k]} :: 0 <= k < from ==> r[k] == d[k]
  {
    var from := RemoveFrom(d, f);
    SpliceAt(d, from, RemoveCount(d, f), FileSideBlocks(d, f, transfer));
  }

  /** The space-side splice, block by block. */
  lemma {:induction false} SpaceSideAt(d: seq<Block>, spaceIndex: nat, id: nat, transfer: nat, remainder: nat, moved: bool)
    requires spaceIndex < |d|
    ensures SplicedAt(SpaceSide(d, spaceIndex, id, transfer, remainder, moved), d, spaceIndex, 1, SpaceSideBlocks(id, transfer, remainder, moved))
  {
    SpliceAt(d, spaceIndex, 1, SpaceSideBlocks(id, transfer, remainder, moved));
  }

  /** The file-side splice, block by block. */
  lemma {:induction false} FileSideAt(d: seq<Block>, f: nat, transfer: nat)
    requires f < |d| && d[f].File? && transfer <= d[f].filesize
    ensures SplicedAt(FileSide(d, f, transfer), d, RemoveFrom(d, f), RemoveCount(d, f), FileSideBlocks(d, f, transfer))
  {
    SpliceAt(d, RemoveFrom(d, f), RemoveCount(d, f), FileSideBlocks(d, f, transfer));
  }

  /** `swapFileToSpace` exactly as written: the file side is spliced first, then
      the block at `spaceIndex` of the resulting disk is replaced. */
  function SwappedAsWritten(d: seq<Block>, fileIndex: nat, spaceIndex: nat, moved: bool): (r: seq<Block>)
    requires SwapAllowed(d, fileIndex, spaceIndex) && spaceIndex < fileIndex
    ensures var transfer := Min(d[fileIndex].filesize, d[spaceIndex].size);
      && spaceIndex + 2 < |r| && r[..spaceIndex] == d[..spaceIndex]
      && r[spaceIndex] == Space(0)
      && r[spaceIndex + 1] == File(d[fileIndex].id, transfer, moved)
      && r[spaceIndex + 2] == Space(d[spaceIndex].size - transfer)
  {
    var src, dst := d[fileIndex].filesize, d[spaceIndex].size;
    var transfer := Min(src, dst);
    var d1 := FileSide(d, fileIndex, transfer);
    FileSideShape(d, fileIndex, transfer);
    SpaceSideAt(d1, spaceIndex, d[fileIndex].id, transfer, dst - transfer, moved);
    var r := SpaceSide(d1, spaceIndex, d[fileIndex].id, transfer, dst - transfer, moved);
    assert forall k :: 0 <= k < spaceIndex ==> r[k] == d1[k] == d[k];
    r
  }

  /** The swap with the two splices in the other order: the target space is
      replaced first, so a space right before the file is merged only after it
      has been split; the file then sits two blocks further on. */
  function Swapped(d: seq<Block>, fileIndex: nat, spaceIndex: nat, moved: bool): seq<Block>
    requires SwapAllowed(d, fileIndex, spaceIndex) && spaceIndex < fileIndex
  {
    var src, dst := d[fileIndex].filesize, d[spaceIndex].size;
    var transfer := Min(src, dst);
    var d1 := SpaceSide(d, spaceIndex, d[fileIndex].id, transfer, dst - transfer, moved);
    FileSide(d1, fileIndex + 2, transfer)
  }

  /** `Swapped` as its two splices. */
  lemma {:induction false} SwappedSteps(d: seq<Block>, fileIndex: nat, spaceIndex: nat, moved: bool)
    requires SwapAllowed(d, fileIndex, spaceIndex) && spaceIndex < fileIndex
    ensures var transfer := Min(d[fileIndex].filesize, d[spaceIndex].size);
      Swapped(d, fileIndex, spaceIndex, moved)
      == FileSide(SpaceSide(d, spaceIndex, d[fileIndex].id, transfer, d[spaceIndex].size - transfer, moved), fileIndex + 2, transfer)
  {
  }

  /** The target space becomes an empty space, then the moved part of size
      min(filesize, space size), then a space of the difference (merged with the
      freed cells when the file sat right after the space). */
  lemma {:induction false} SwapPlacesMovedPart(d: seq<Block>, fileIndex: nat, spaceIndex: nat, moved: bool)
    requires SwapAllowed(d, fileIndex, spaceIndex) && spaceIndex < fileIndex
    ensures var r := Swapped(d, fileIndex, spaceIndex, moved);
      var transfer := Min(d[fileIndex].filesize, d[spaceIndex].size);
      && |r| >= spaceIndex + 3 && (forall k {:trigger r[k]} :: 0 <= k < spaceIndex ==> r[k] == d[k])
      && r[spaceIndex] == Space(0)
      && r[spaceIndex + 1] == File(d[fileIndex].id, transfer, moved)
      && (spaceIndex + 1 < fileIndex ==> r[spaceIndex + 2] == Space(d[spaceIndex].size - transfer))
  {
    var src, dst := d[fileIndex].filesize, d[spaceIndex].size;
    var transfer := Min(src, dst);
    var d1 := SpaceSide(d, spaceIndex, d[fileIndex].id, transfer, dst - transfer, moved);
    SpaceSideShape(d, spaceIndex, d[fileIndex].id, transfer, dst - transfer, moved);
    var f := fileIndex + 2;
    assert d1[f] == d[fileIndex];
    FileSideShape(d1, f, transfer);
    assert RemoveFrom(d1, f) >= spaceIndex + 2;
    if spaceIndex + 1 < fileIndex {
      assert RemoveFrom(d1, f) >= spaceIndex + 3;
    }
  }

  /** Counts after the space-side splice: the moved part now occupies cells
      that were free. */
  lemma {:induction false} SpaceSideCounts(d: seq<Block>, spaceIndex: nat, id: nat, transfer: nat, moved: bool, x: nat)
    requires spaceIndex < |d| && d[spaceIndex].Space? && 0 < transfer <= d[spaceIndex].size
    ensures var d1 := SpaceSide(d, spaceIndex, id, transfer, d[spaceIndex].size - transfer, moved);
      && CellCount(d1) == CellCount(d)
      && UnmovedCount(d1) == UnmovedCount(d) + (if moved then 0 else 1)
      && FileCells(d1, x) == FileCells(d, x) + (if x == id then transfer else 0)
  {
    var dst := d[spaceIndex].size;
    var a, b, c := Space(0), File(id, transfer, moved), Space(dst - transfer);
    SpliceCounts(d, spaceIndex, 1, [a, b, c], x);
    assert d[spaceIndex..spaceIndex + 1] == [Space(dst)];
    CountsSingle(Space(dst), x);
    assert [a, b, c] == [a] + [b] + [c];
    CountsAppend([a], [b], x);
    CountsAppend([a] + [b], [c], x);
    CountsSingle(a, x);
    CountsSingle(b, x);
    CountsSingle(c, x);
  }

  /** Counts after the file-side splice: `transfer` cells of the file became free. */
  lemma {:induction false} FileSideCounts(d: seq<Block>, f: nat, transfer: nat, id: nat)
    requires f < |d| && d[f].File? && 0 < transfer <= d[f].filesize
    ensures var r := FileSide(d, f, transfer);
      && CellCount(r) == CellCount(d)
      && UnmovedCount(r) + (if IsUnmovedFile(d[f]) then 1 else 0)
           == UnmovedCount(d) + (if transfer < d[f].filesize then 1 else 0)
      && FileCells(r, id) + (if id == d[f].id then transfer else 0) == FileCells(d, id)
  {
    var from, nb := RemoveFrom(d, f), RemoveCount(d, f);
    var gone := d[from..from + nb];
    var ins := FileSideBlocks(d, f, transfer);
    FileSideShape(d, f, transfer);
    SpliceCounts(d, from, nb, ins, id);
    var src := d[f].filesize;
    var before := f >= 1 && d[f - 1].Space?;
    var after := f + 1 < |d| && d[f + 1].Space?;
    var pc := if before then d[f - 1].size else 0;
    var qc := if after then d[f + 1].size else 0;
    GoneCounts(d, f, id);
    assert CellCount(gone) == pc + src + qc;
    assert FileCells(gone, id) == (if d[f].id == id then src else 0);
    assert UnmovedCount(gone) == (if IsUnmovedFile(d[f]) then 1 else 0);
    InsCounts(d, f, transfer, id);
  }

  /** The blocks the file-side splice inserts: what is left of the file, and one
      space holding the freed cells and those of the neighbouring spaces. */
  lemma {:induction false} InsCounts(d: seq<Block>, f: nat, transfer: nat, id: nat)
    requires f < |d| && d[f].File? && transfer <= d[f].filesize
    ensures var ins := FileSideBlocks(d, f, transfer);
      var pc := if f >= 1 && d[f - 1].Space? then d[f - 1].size else 0;
      var qc := if f + 1 < |d| && d[f + 1].Space? then d[f + 1].size else 0;
      var left := transfer < d[f].filesize;
      && CellCount(ins) == d[f].filesize + pc + qc
      && FileCells(ins, id) == (if left && d[f].id == id then d[f].filesize - transfer else 0)
      && UnmovedCount(ins) == (if left then 1 else 0)
  {
    var src := d[f].filesize;
    var pc := if f >= 1 && d[f - 1].Space? then d[f - 1].size else 0;
    var qc := if f + 1 < |d| && d[f + 1].Space? then d[f + 1].size else 0;
    var leftover := if transfer < src then [File(d[f].id, src - transfer, false)] else [];
    var created := transfer + pc + qc;
    assert FileSideBlocks(d, f, transfer) == leftover + [Space(created)];
    CountsAppend(leftover, [Space(created)], id);
    CountsSingle(Space(created), id);
    if leftover != [] { CountsSingle(leftover[0], id); } else { assert leftover + [Space(created)] == [Space(created)]; }
  }

  /** The blocks the file-side splice removes: the file and the spaces right next to it. */
  lemma {:induction false} GoneCounts(d: seq<Block>, f: nat, id: nat)
    requires f < |d| && d[f].File?
    ensures var from, nb := RemoveFrom(d, f), RemoveCount(d, f);
      var pc := if f >= 1 && d[f - 1].Space? then d[f - 1].size else 0;
      var qc := if f + 1 < |d| && d[f + 1].Space? then d[f + 1].size else 0;
      && from + nb <= |d|
      && CellCount(d[from..from + nb]) == pc + d[f].filesize + qc
      && FileCells(d[from..from + nb], id) == (if d[f].id == id then d[f].filesize else 0)
      && UnmovedCount(d[from..from + nb]) == (if IsUnmovedFile(d[f]) then 1 else 0)
  {
    var from, nb := RemoveFrom(d, f), RemoveCount(d, f);
    var before := f >= 1 && d[f - 1].Space?;
    var after := f + 1 < |d| && d[f + 1].Space?;
    var pre := if before then [d[f - 1]] else [];
    var post := if after then [d[f + 1]] else [];
    assert d[from..from + nb] == pre + [d[f]] + post;
    CountsAppend(pre, [d[f]], id);
    CountsAppend(pre + [d[f]], post, id);
    CountsSingle(d[f], id);
    if before { CountsSingle(d[f - 1], id); } else { assert pre + [d[f]] == [d[f]]; }
    if after { CountsSingle(d[f + 1], id); } else { assert pre + [d[f]] + post == pre + [d[f]]; }
  }

  /** The corrected swap keeps every cell: the disk length and each file's total
      size are unchanged; the moved part is unmoved only when `moved` is false,
      and a part left behind is one more unmoved file. */
  lemma {:induction false} SwapPreservesCells(d: seq<Block>, fileIndex: nat, spaceIndex: nat, moved: bool, id: nat)
    requires SwapAllowed(d, fileIndex, spaceIndex) && spaceIndex < fileIndex
    ensures var r := Swapped(d, fileIndex, spaceIndex, moved);
      && CellCount(r) == CellCount(d)
      && FileCells(r, id) == FileCells(d, id)
      && UnmovedCount(r) + (if IsUnmovedFile(d[fileIndex]) then 1 else 0)
           == UnmovedCount(d) + (if moved then 0 else 1)
              + (if d[fileIndex].filesize > d[spaceIndex].size then 1 else 0)
  {
    var src, dst := d[fileIndex].filesize, d[spaceIndex].size;
    var transfer := Min(src, dst);
    var d1 := SpaceSide(d, spaceIndex, d[fileIndex].id, transfer, dst - transfer, moved);
    SpaceSideCounts(d, spaceIndex, d[fileIndex].id, transfer, moved, id);
    var f := fileIndex + 2;
    assert d1[f] == d[fileIndex];
    FileSideCounts(d1, f, transfer, id);
  }

  /** Block `k` of a disk where the block at `spaceIndex` was replaced by the
      three blocks `x` and, further on, the `nb` blocks at `from` by `ins`:
      indices after each replaced stretch are shifted by the difference in length. */
  function Piecewise(d: seq<Block>, spaceIndex: nat, x: seq<Block>, from: nat, nb: nat, ins: seq<Block>, k: nat): Block
    requires spaceIndex < from && from + nb <= |d| && |x| == 3 && k < |d| + 2 - nb + |ins|
  {
    if k < spaceIndex then d[k]
    else if k < spaceIndex + 3 then x[k - spaceIndex]
    else if k < from + 2 then d[k - 2]
    else if k < from + 2 + |ins| then ins[k - from - 2]
    else d[k - 2 - |ins| + nb]
  }

  /** `r` is `d` with both replacements of `Piecewise` made. */
  predicate IsPiecewise(r: seq<Block>, d: seq<Block>, spaceIndex: nat, x: seq<Block>, from: nat, nb: nat, ins: seq<Block>) {
    && spaceIndex < from && from + nb <= |d| && |x| == 3
    && |r| == |d| + 2 - nb + |ins|
    && forall k :: 0 <= k < |r| ==> r[k] == Piecewise(d, spaceIndex, x, from, nb, ins, k)
  }

  /** Away from the file's own neighbourhood the two splice orders agree, so the
      source's swap keeps every cell whenever the space is not right before the file. */
  lemma {:induction false} SwapOrdersAgree(d: seq<Block>, fileIndex: nat, spaceIndex: nat, moved: bool)
    requires SwapAllowed(d, fileIndex, spaceIndex) && spaceIndex + 1 < fileIndex
    ensures SwappedAsWritten(d, fileIndex, spaceIndex, moved) == Swapped(d, fileIndex, spaceIndex, moved)
  {
    var w := SwappedAsWritten(d, fileIndex, spaceIndex, moved);
    var r := Swapped(d, fileIndex, spaceIndex, moved);
    AsWrittenAt(d, fileIndex, spaceIndex, moved);
    SwappedAt(d, fileIndex, spaceIndex, moved);
    assert |w| == |r|;
    forall k | 0 <= k < |w| ensures w[k] == r[k] { }
  }

  /** The swap as written, block by block, when the space is not right before the file. */
  lemma {:induction false} AsWrittenAt(d: seq<Block>, fileIndex: nat, spaceIndex: nat, moved: bool)
    requires SwapAllowed(d, fileIndex, spaceIndex) && spaceIndex + 1 < fileIndex
    ensures var transfer := Min(d[fileIndex].filesize, d[spaceIndex].size);
      var x := SpaceSideBlocks(d[fileIndex].id, transfer, d[spaceIndex].size - transfer, moved);
      var from, nb := RemoveFrom(d, fileIndex), RemoveCount(d, fileIndex);
      var ins := FileSideBlocks(d, fileIndex, transfer);
      IsPiecewise(SwappedAsWritten(d, fileIndex, spaceIndex, moved), d, spaceIndex, x, from, nb, ins)
  {
    var id, dst := d[fileIndex].id, d[spaceIndex].size;
    var transfer := Min(d[fileIndex].filesize, dst);
    var x := SpaceSideBlocks(id, transfer, dst - transfer, moved);
    var from, nb := RemoveFrom(d, fileIndex), RemoveCount(d, fileIndex);
    var ins := FileSideBlocks(d, fileIndex, transfer);
    var w1 := FileSide(d, fileIndex, transfer);
    FileSideAt(d, fileIndex, transfer);
    var w := SwappedAsWritten(d, fileIndex, spaceIndex, moved);
    SpaceSideAt(w1, spaceIndex, id, transfer, dst - transfer, moved);
    PiecewiseFileFirst(d, w1, w, spaceIndex, x, from, nb, ins);
  }

  /** The corrected swap, block by block, when the space is not right before the file. */
  lemma {:induction false} SwappedAt(d: seq<Block>, fileIndex: nat, spaceIndex: nat, moved: bool)
    requires SwapAllowed(d, fileIndex, spaceIndex) && spaceIndex + 1 < fileIndex
    ensures var transfer := Min(d[fileIndex].filesize, d[spaceIndex].size);
      var x := SpaceSideBlocks(d[fileIndex].id, transfer, d[spaceIndex].size - transfer, moved);
      var from, nb := RemoveFrom(d, fileIndex), RemoveCount(d, fileIndex);
      var ins := FileSideBlocks(d, fileIndex, transfer);
      IsPiecewise(Swapped(d, fileIndex, spaceIndex, moved), d, spaceIndex, x, from, nb, ins)
  {
    var id, dst := d[fileIndex].id, d[spaceIndex].size;
    var transfer := Min(d[fileIndex].filesize, dst);
    var x := SpaceSideBlocks(id, transfer, dst - transfer, moved);
    var from, nb := RemoveFrom(d, fileIndex), RemoveCount(d, fileIndex);
    var ins := FileSideBlocks(d, fileIndex, transfer);
    var c1 := SpaceSide(d, spaceIndex, id, transfer, dst - transfer, moved);
    SpaceSideAt(d, spaceIndex, id, transfer, dst - transfer, moved);
    FileSideAt(d, fileIndex, transfer);
    FileSideShifted(d, c1, spaceIndex, fileIndex, transfer);
    FileSideAt(c1, fileIndex + 2, transfer);
    SwappedSteps(d, fileIndex, spaceIndex, moved);
    PiecewiseSpaceFirst(d, c1, FileSide(c1, fileIndex + 2, transfer), spaceIndex, x, from, from + 2, nb, ins);
  }

  /** Replacing the block at `spaceIndex` by `x` and then the `nb` blocks that
      were at `from` (now two further on) by `ins` yields `Piecewise`. */
  lemma {:induction false} PiecewiseSpaceFirst(d: seq<Block>, c: seq<Block>, r: seq<Block>, spaceIndex: nat, x: seq<Block>, from: nat, at: nat, nb: nat, ins: seq<Block>)
    requires spaceIndex < from && from + nb <= |d| && |x| == 3 && at == from + 2
    requires SplicedAt(c, d, spaceIndex, 1, x) && SplicedAt(r, c, at, nb, ins)
    ensures IsPiecewise(r, d, spaceIndex, x, from, nb, ins)
  {
    forall k | 0 <= k < |r| ensures r[k] == Piecewise(d, spaceIndex, x, from, nb, ins, k) {
      if k < from + 2 {
        assert r[k] == c[k];
      } else if k >= from + 2 + |ins| {
        assert r[k] == c[k - |ins| + nb];
      }
    }
  }

  /** Replacing the `nb` blocks at `from` by `ins` and then the block at
      `spaceIndex` by `x` yields `Piecewise` too. */
  lemma {:induction false} PiecewiseFileFirst(d: seq<Block>, c: seq<Block>, r: seq<Block>, spaceIndex: nat, x: seq<Block>, from: nat, nb: nat, ins: seq<Block>)
    requires spaceIndex < from && |x| == 3
    requires SplicedAt(c, d, from, nb, ins) && SplicedAt(r, c, spaceIndex, 1, x)
    ensures IsPiecewise(r, d, spaceIndex, x, from, nb, ins)
  {
    forall k | 0 <= k < |r| ensures r[k] == Piecewise(d, spaceIndex, x, from, nb, ins, k) {
      if k < spaceIndex {
        assert r[k] == c[k];
      } else if k >= spaceIndex + 3 {
        assert r[k] == c[k - 2];
      }
    }
  }

  /** After the space-side splice the file sits two blocks further on, with the
      same neighbours, so the file-side splice removes and inserts the same blocks. */
  lemma {:induction false} FileSideShifted(d: seq<Block>, c1: seq<Block>, spaceIndex: nat, fileIndex: nat, transfer: nat)
    requires spaceIndex + 1 < fileIndex < |d| && d[fileIndex].File? && transfer <= d[fileIndex].filesize
    requires |c1| == |d| + 2 && forall k :: spaceIndex + 2 < k < |c1| ==> c1[k] == d[k - 2]
    ensures c1[fileIndex + 2] == d[fileIndex]
    ensures RemoveFrom(c1, fileIndex + 2) == RemoveFrom(d, fileIndex) + 2
    ensures RemoveCount(c1, fileIndex + 2) == RemoveCount(d, fileIndex)
    ensures FileSideBlocks(c1, fileIndex + 2, transfer) == FileSideBlocks(d, fileIndex, transfer)
  {
    assert c1[fileIndex + 2] == d[fileIndex];
    assert c1[fileIndex + 1] == d[fileIndex - 1];
    if fileIndex + 1 < |d| {
      assert c1[fileIndex + 3] == d[fileIndex + 1];
    }
  }

  /** The disk map "12213": file 0 of one cell, two free cells, file 1 of two
      cells, one free cell, file 2 of three cells. */
  lemma {:induction false} AdjacentExampleParse()
    ensures ParseFrom("12213", 0) == Ok([File(0, 1, false), Space(2), File(1, 2, false), Space(1), File(2, 3, false)])
  {
    var s0: string := "12213";
    var s1: string := "213";
    var s2: string := "3";
    assert s2 != [] && IsDigit(s2[0]) && |s2| == 1;
    assert ParseFrom(s2, 2) == Ok([File(2, 3, false)]);
    assert s1[2..] == s2 && |s1| == 3 && IsDigit(s1[0]) && IsDigit(s1[1]);
    assert ParseFrom(s1, 1) == Prepend([File(1, 2, false)] + [Space(1)], ParseFrom(s1[2..], 2));
    assert s0[2..] == s1 && |s0| == 5 && IsDigit(s0[0]) && IsDigit(s0[1]);
    assert ParseFrom(s0, 0) == Prepend([File(0, 1, false)] + [Space(2)], ParseFrom(s0[2..], 1));
    assert [File(0, 1, false)] + [Space(2)] + ([File(1, 2, false)] + [Space(1)] + [File(2, 3, false)])
      == [File(0, 1, false), Space(2), File(1, 2, false), Space(1), File(2, 3, false)];
  }

  /** Cell count of a five-block disk, block by block. */
  lemma {:induction false} CellCountFive(d: seq<Block>)
    requires |d| == 5
    ensures CellCount(d) == Width(d[0]) + Width(d[1]) + Width(d[2]) + Width(d[3]) + Width(d[4])
  {
    assert d[1..][1..] == d[2..] && d[2..][1..] == d[3..] && d[3..][1..] == d[4..] && d[4..][1..] == [];
    assert CellCount(d[4..]) == Width(d[4]);
    assert CellCount(d[3..]) == Width(d[3]) + CellCount(d[4..]);
    assert CellCount(d[2..]) == Width(d[2]) + CellCount(d[3..]);
    assert CellCount(d[1..]) == Width(d[1]) + CellCount(d[2..]);
  }

  /** The disk of the map "12213" once file 2 has found no room and file 1 is
      about to move into the space right before it. */
  function AdjacentExample(): seq<Block> {
    [File(0, 1, false), Space(2), File(1, 2, true), Space(1), File(2, 3, true)]
  }

  /** The source's swap into a space that sits right before the file loses cells:
      moving file 1 of `AdjacentExample` drops the disk from 9 cells to 6, pulling
      file 2 three cells to the left. */
  lemma {:induction false} AdjacentSwapLosesCells()
    ensures SwapAllowed(AdjacentExample(), 2, 1)
    ensures CellCount(AdjacentExample()) == 9
    ensures SwappedAsWritten(AdjacentExample(), 2, 1, true)
      == [File(0, 1, false), Space(0), File(1, 2, true), Space(0), File(2, 3, true)]
    ensures CellCount(SwappedAsWritten(AdjacentExample(), 2, 1, true)) == 6
  {
    var d := AdjacentExample();
    CellCountFive(d);
    var w1 := [File(0, 1, false), Space(5), File(2, 3, true)];
    AdjacentFileSide();
    var w := SwappedAsWritten(d, 2, 1, true);
    assert w == SpaceSide(w1, 1, 1, 2, 0, true);
    SpaceSideAt(w1, 1, 1, 2, 0, true);
    assert w[0] == w1[0] && w[4] == w1[2];
    assert w == [File(0, 1, false), Space(0), File(1, 2, true), Space(0), File(2, 3, true)];
    CellCountFive(w);
  }

  /** The file-side splice of the source's swap on `AdjacentExample`: the file,
      the space before it and the space after it become one space of five cells. */
  lemma {:induction false} AdjacentFileSide()
    ensures FileSide(AdjacentExample(), 2, 2) == [File(0, 1, false), Space(5), File(2, 3, true)]
  {
    var d := AdjacentExample();
    FileSideAt(d, 2, 2);
    assert RemoveFrom(d, 2) == 1 && RemoveCount(d, 2) == 3 && FileSideBlocks(d, 2, 2) == [Space(5)];
    var w1 := FileSide(d, 2, 2);
    assert w1[0] == d[0] && w1[2] == d[4];
  }

  /** The corrected swap on the same disk keeps all 9 cells: the freed cells join
      what is left of the target space. */
  lemma {:induction false} AdjacentSwapCorrected()
    ensures Swapped(AdjacentExample(), 2, 1, true)
      == [File(0, 1, false), Space(0), File(1, 2, true), Space(3), File(2, 3, true)]
    ensures CellCount(Swapped(AdjacentExample(), 2, 1, true)) == 9
  {
    AdjacentCorrectedBlocks();
    CellCountFive([File(0, 1, false), Space(0), File(1, 2, true), Space(3), File(2, 3, true)]);
  }

  lemma {:induction false} AdjacentCorrectedBlocks()
    ensures Swapped(AdjacentExample(), 2, 1, true)
      == [File(0, 1, false), Space(0), File(1, 2, true), Space(3), File(2, 3, true)]
  {
    AdjacentSpaceSide();
    SwappedSteps(AdjacentExample(), 2, 1, true);
    AdjacentCorrectedFileSide();
  }

  /** The file-side splice of the corrected swap on `AdjacentExample`: the file's
      old place and the spaces around it become one space of three cells. */
  lemma {:induction false} AdjacentCorrectedFileSide()
    ensures FileSide([File(0, 1, false), Space(0), File(1, 2, true), Space(0), File(1, 2, true), Space(1), File(2, 3, true)], 4, 2)
      == [File(0, 1, false), Space(0), File(1, 2, true), Space(3), File(2, 3, true)]
  {
    var c1 := [File(0, 1, false), Space(0), File(1, 2, true), Space(0), File(1, 2, true), Space(1), File(2, 3, true)];
    FileSideAt(c1, 4, 2);
    assert RemoveFrom(c1, 4) == 3 && RemoveCount(c1, 4) == 3 && FileSideBlocks(c1, 4, 2) == [Space(3)];
    var r := FileSide(c1, 4, 2);
    assert r[0] == c1[0] && r[1] == c1[1] && r[2] == c1[2] && r[3] == Space(3) && r[4] == c1[6];
  }

  /** The space-side splice of the corrected swap on `AdjacentExample`. */
  lemma {:induction false} AdjacentSpaceSide()
    ensures SpaceSide(AdjacentExample(), 1, 1, 2, 0, true)
      == [File(0, 1, false), Space(0), File(1, 2, true), Space(0), File(1, 2, true), Space(1), File(2, 3, true)]
  {
    var d := AdjacentExample();
    var c1 := SpaceSide(d, 1, 1, 2, 0, true);
    SpaceSideAt(d, 1, 1, 2, 0, true);
    assert c1[0] == d[0] && c1[4] == d[2] && c1[5] == d[3] && c1[6] == d[4];
  }

  // ---------------------------------------------------------------------------
  // Checksum

  /** Σ r·id over the positions `r` that `range()` lists. */
  function Weighted(r: seq<int>, id: int): int {
    if r == [] then 0 else r[0] * id + Weighted(r[1..], id)
  }

  /** The checksum loop as written, with `index` the position of the first block:
      a file adds position·id over `range(index, index+size-1)`, whose last
      element plus one becomes the next index; a space only advances it. */
  function ChecksumFrom(d: seq<Block>, index: int): int {
    if d == [] then 0
    else match d[0]
      case File(id, size, _) =>
        var r := Range(index, index + size - 1);
        Weighted(r, id) + ChecksumFrom(d[1..], r[|r| - 1] + 1)
      case Space(size) => ChecksumFrom(d[1..], index + size)
  }

  lemma {:induction false} WeightedSnoc(r: seq<int>, x: int, id: int)
    ensures Weighted(r + [x], id) == Weighted(r, id) + x * id
  {
    if r == [] {
      assert r + [x] == [x];
      assert [x][1..] == [];
    } else {
      assert (r + [x])[1..] == r[1..] + [x];
      WeightedSnoc(r[1..], x, id);
    }
  }

  /** `n` copies of a cell. */
  function Run(c: Option<nat>, n: nat): (r: seq<Option<nat>>)
    ensures |r| == n
  {
    if n == 0 then [] else [c] + Run(c, n - 1)
  }

  /** The cells of the disk: `Some(id)` for a cell of file `id`, `None` when free. */
  function Cells(d: seq<Block>): seq<Option<nat>> {
    if d == [] then []
    else (match d[0]
      case File(id, size, _) => Run(Some(id), size)
      case Space(size) => Run(None, size)) + Cells(d[1..])
  }

  /** Σ position·id over the file cells, the first cell being at `index`. */
  function CellChecksum(cells: seq<Option<nat>>, index: int): int {
    if cells == [] then 0
    else (if cells[0].Some? then index * cells[0].value else 0) + CellChecksum(cells[1..], index + 1)
  }

  lemma {:induction false} CellChecksumAppend(a: seq<Option<nat>>, b: seq<Option<nat>>, index: int)
    ensures CellChecksum(a + b, index) == CellChecksum(a, index) + CellChecksum(b, index + |a|)
  {
    if a == [] {
      assert a + b == b;
    } else {
      assert (a + b)[1..] == a[1..] + b;
      CellChecksumAppend(a[1..], b, index + 1);
    }
  }

  lemma {:induction false} RunChecksum(size: nat, id: nat, index: int)
    requires size > 0
    ensures CellChecksum(Run(Some(id), size), index) == Weighted(Range(index, index + size - 1), id)
    decreases size
  {
    var run := Run(Some(id), size);
    var r := Range(index, index + size - 1);
    assert run[1..] == Run(Some(id), size - 1);
    if size > 1 {
      RunChecksum(size - 1, id, index + 1);
      assert r[1..] == Range(index + 1, index + size - 1);
    } else {
      assert r[1..] == [];
    }
  }

  lemma {:induction false} FreeRunChecksum(size: nat, index: int)
    ensures CellChecksum(Run(None, size), index) == 0
    decreases size
  {
    if size > 0 {
      assert Run(None, size)[1..] == Run(None, size - 1);
      FreeRunChecksum(size - 1, index + 1);
    }
  }

  /** Every file block of the disk covers at least one cell. */
  predicate NoEmptyFile(d: seq<Block>) {
    forall k :: 0 <= k < |d| && d[k].File? ==> d[k].filesize > 0
  }

  /** One block of the checksum loop: the block's own cells, then the rest of
      the disk from the position after them. */
  lemma {:induction false} ChecksumStep(d: seq<Block>, index: int)
    requires d != [] && (d[0].File? ==> d[0].filesize > 0)
    ensures ChecksumFrom(d, index)
      == (if d[0].File? then Weighted(Range(index, index + Width(d[0]) - 1), d[0].id) else 0)
         + ChecksumFrom(d[1..], index + Width(d[0]))
    ensures Cells(d) == Run(if d[0].File? then Some(d[0].id) else None, Width(d[0])) + Cells(d[1..])
  {
    if d[0].File? {
      var r := Range(index, index + d[0].filesize - 1);
      assert r[|r| - 1] + 1 == index + d[0].filesize;
    }
  }

  /** On a disk without empty files the block-wise checksum is Σ position·file_id
      over the file cells; free cells only advance the position. */
  lemma {:induction false} ChecksumIsCellSum(d: seq<Block>, index: int)
    requires NoEmptyFile(d)
    ensures ChecksumFrom(d, index) == CellChecksum(Cells(d), index)
  {
    if d != [] {
      var rest := d[1..];
      assert NoEmptyFile(rest) by {
        forall k | 0 <= k < |rest| && rest[k].File?
          ensures rest[k].filesize > 0
        {
          assert rest[k] == d[k + 1];
        }
      }
      ChecksumStep(d, index);
      var w := Width(d[0]);
      ChecksumIsCellSum(rest, index + w);
      if d[0].File? {
        CellChecksumAppend(Run(Some(d[0].id), w), Cells(rest), index);
        RunChecksum(w, d[0].id, index);
      } else {
        CellChecksumAppend(Run(None, w), Cells(rest), index);
        FreeRunChecksum(w, index);
      }
    }
  }

  /** An empty file counts twice: `range(i, i-1)` lists i and i-1, although the
      file covers no cell. */
  lemma {:induction false} EmptyFileCountsTwice(id: nat, moved: bool, index: int)
    ensures ChecksumFrom([File(id, 0, moved)], index) == (2 * index - 1) * id
    ensures CellChecksum(Cells([File(id, 0, moved)]), index) == 0
  {
    var r := Range(index, index - 1);
    assert r == [index, index - 1];
    assert r[1..] == [index - 1] && r[1..][1..] == [];
    assert Weighted(r[1..], id) == (index - 1) * id;
    assert Weighted(r, id) == index * id + (index - 1) * id;
    assert [File(id, 0, moved)][1..] == [];
    assert Cells([File(id, 0, moved)]) == [];
  }

  // ---------------------------------------------------------------------------
  // Moving files, pass by pass

  /** The last unmoved file among the first `n` blocks, or -1. */
  function LastUnmovedIn(d: seq<Block>, n: nat): (r: int)
    requires n <= |d|
    ensures -1 <= r < n
    ensures r != -1 ==> IsUnmovedFile(d[r])
    ensures forall k :: r < k < n ==> !IsUnmovedFile(d[k])
  {
    if n == 0 then -1
    else if IsUnmovedFile(d[n - 1]) then n - 1
    else LastUnmovedIn(d, n - 1)
  }

  /** The first space at or after block `k` larger than `largerThan`, or -1. */
  function FirstFitFrom(d: seq<Block>, k: nat, largerThan: int): (r: int)
    requires k <= |d|
    ensures r == -1 || (k <= r < |d| && IsFreeSpace(d[r], largerThan))
    ensures forall j :: k <= j < |d| && (r == -1 || j < r) ==> !IsFreeSpace(d[j], largerThan)
    decreases |d| - k
  {
    if k == |d| then -1
    else if IsFreeSpace(d[k], largerThan) then k
    else FirstFitFrom(d, k + 1, largerThan)
  }

  /** One pass of the `do`/`while` of `moveFiles`: none once no unmoved file
      is left; otherwise the last unmoved file is marked as moved and, when
      the first space that holds all of it lies to its left, swapped into it
      (by `SwappedAsWritten` as the source does, by `Swapped` when `fixed`). */
  function MoveStep(d: seq<Block>, fixed: bool): Option<seq<Block>> {
    var f := LastUnmovedIn(d, |d|);
    if f == -1 then None
    else
      var m := d[f := d[f].(moved := true)];
      var s := FirstFitFrom(m, 0, m[f].filesize - 1);
      if s > -1 && f > s && SwapAllowed(m, f, s) then
        Some(if fixed then Swapped(m, f, s, true) else SwappedAsWritten(m, f, s, true))
      else Some(m)
  }

  /** The disk once every file has been tried. */
  function Compacted(d: seq<Block>, fixed: bool): seq<Block>
    decreases UnmovedCount(d)
  {
    match MoveStep(d, fixed)
    case None => d
    case Some(next) =>
      MoveStepShrinks(d, fixed);
      Compacted(next, fixed)
  }

  /** Splicing over one block trades its unmoved count for that of the new blocks. */
  lemma {:induction false} SpliceOneUnmoved(d: seq<Block>, at: nat, ins: seq<Block>)
    requires at < |d|
    ensures UnmovedCount(Splice(d, at, 1, ins)) + (if IsUnmovedFile(d[at]) then 1 else 0)
      == UnmovedCount(d) + UnmovedCount(ins)
  {
    var gone := d[at..at + 1];
    assert UnmovedCount(Splice(d, at, 1, ins)) + UnmovedCount(gone) == UnmovedCount(d) + UnmovedCount(ins) by {
      SpliceCounts(d, at, 1, ins, 0);
    }
    assert UnmovedCount(gone) == (if IsUnmovedFile(d[at]) then 1 else 0) by {
      assert gone == [d[at]];
      CountsSingle(d[at], 0);
    }
  }

  lemma {:induction false} SpaceSideBlocksUnmoved(id: nat, transfer: nat, remainder: nat, moved: bool)
    ensures UnmovedCount(SpaceSideBlocks(id, transfer, remainder, moved)) == if moved then 0 else 1
  {
    var a, b, c := Space(0), File(id, transfer, moved), Space(remainder);
    assert SpaceSideBlocks(id, transfer, remainder, moved) == [a] + [b] + [c];
    CountsAppend([a], [b], 0);
    CountsAppend([a] + [b], [c], 0);
    CountsSingle(a, 0);
    CountsSingle(b, 0);
    CountsSingle(c, 0);
  }

  /** Swapping a whole, already marked file as the source does adds no
      unmoved file. */
  lemma {:induction false} AsWrittenUnmoved(m: seq<Block>, f: nat, s: nat)
    requires SwapAllowed(m, f, s) && s < f && m[f].filesize <= m[s].size && !IsUnmovedFile(m[f])
    ensures UnmovedCount(SwappedAsWritten(m, f, s, true)) <= UnmovedCount(m)
  {
    var transfer := m[f].filesize;
    FileSideCounts(m, f, transfer, 0);
    FileSideShape(m, f, transfer);
    SpliceOneUnmoved(FileSide(m, f, transfer), s, SpaceSideBlocks(m[f].id, transfer, m[s].size - transfer, true));
    SpaceSideBlocksUnmoved(m[f].id, transfer, m[s].size - transfer, true);
  }

  /** Every pass marks one more file as moved, so `moveFiles` ends. */
  lemma {:induction false} MoveStepShrinks(d: seq<Block>, fixed: bool)
    requires MoveStep(d, fixed).Some?
    ensures UnmovedCount(MoveStep(d, fixed).value) < UnmovedCount(d)
  {
    var f := LastUnmovedIn(d, |d|);
    var m := d[f := d[f].(moved := true)];
    MarkMovedCounts(d, f, 0);
    var s := FirstFitFrom(m, 0, m[f].filesize - 1);
    if s > -1 && f > s && SwapAllowed(m, f, s) {
      if fixed {
        SwapPreservesCells(m, f, s, true, 0);
      } else {
        AsWrittenUnmoved(m, f, s);
      }
    }
  }

  /** The source's swap puts the moved part right after an emptied target
      space and keeps every block before it. */
  lemma {:induction false} AsWrittenPlacesMovedPart(d: seq<Block>, fileIndex: nat, spaceIndex: nat, moved: bool)
    requires SwapAllowed(d, fileIndex, spaceIndex) && spaceIndex < fileIndex
    ensures var r := SwappedAsWritten(d, fileIndex, spaceIndex, moved);
      var transfer := Min(d[fileIndex].filesize, d[spaceIndex].size);
      && |r| >= spaceIndex + 3 && (forall k {:trigger r[k]} :: 0 <= k < spaceIndex ==> r[k] == d[k])
      && r[spaceIndex] == Space(0)
      && r[spaceIndex + 1] == File(d[fileIndex].id, transfer, moved)
  {
    var transfer := Min(d[fileIndex].filesize, d[spaceIndex].size);
    FileSideShape(d, fileIndex, transfer);
    var d1 := FileSide(d, fileIndex, transfer);
    SpaceSideShape(d1, spaceIndex, d[fileIndex].id, transfer, d[spaceIndex].size - transfer, moved);
  }

  /** A file moved into a space that holds all of it lands whole right
      after that space, which is emptied, with every block before it kept,
      by either swap. */
  lemma PlacedWhole(m: seq<Block>, f: nat, s: nat, fixed: bool)
    requires SwapAllowed(m, f, s) && s < f && m[s].size >= m[f].filesize
    ensures var r := if fixed then Swapped(m, f, s, true) else SwappedAsWritten(m, f, s, true);
      && |r| >= s + 3 && (forall k :: 0 <= k < s ==> r[k] == m[k])
      && r[s] == Space(0) && r[s + 1] == File(m[f].id, m[f].filesize, true)
  {
    if fixed {
      SwapPlacesMovedPart(m, f, s, true);
    } else {
      AsWrittenPlacesMovedPart(m, f, s, true);
    }
  }

  /** Where a pass puts the file: when the first space that holds all of it
      lies to its left, the whole file lands right after that space, which
      is emptied, and every block before it stays; otherwise the file is
      only marked as moved. */
  lemma {:induction false} MoveStepPlaces(d: seq<Block>, fixed: bool)
    requires MoveStep(d, fixed).Some?
    ensures var f := LastUnmovedIn(d, |d|);
      var m := d[f := d[f].(moved := true)];
      var s := FirstFitFrom(m, 0, d[f].filesize - 1);
      var r := MoveStep(d, fixed).value;
      if 0 <= s < f && d[f].filesize > 0 then
        && |r| >= s + 3 && (forall k :: 0 <= k < s ==> r[k] == d[k])
        && r[s] == Space(0) && r[s + 1] == File(d[f].id, d[f].filesize, true)
      else r == m
  {
    var f := LastUnmovedIn(d, |d|);
    var m := d[f := d[f].(moved := true)];
    assert m[f].filesize == d[f].filesize;
    var s := FirstFitFrom(m, 0, d[f].filesize - 1);
    var r := MoveStep(d, fixed).value;
    if 0 <= s < f && d[f].filesize > 0 {
      assert SwapAllowed(m, f, s);
      assert r == if fixed then Swapped(m, f, s, true) else SwappedAsWritten(m, f, s, true);
      PlacedWhole(m, f, s, fixed);
      assert forall k :: 0 <= k < s ==> m[k] == d[k];
    } else {
      assert r == m;
    }
  }

  /** Every file block is marked as moved. */
  predicate AllMoved(d: seq<Block>) {
    forall k :: 0 <= k < |d| && d[k].File? ==> d[k].moved
  }

  /** Once `moveFiles` is done, every file is marked as moved. */
  lemma {:induction false} CompactedAllMoved(d: seq<Block>, fixed: bool)
    ensures AllMoved(Compacted(d, fixed))
    decreases UnmovedCount(d)
  {
    match MoveStep(d, fixed)
    case None =>
      var f := LastUnmovedIn(d, |d|);
      assert forall k :: 0 <= k < |d| ==> !IsUnmovedFile(d[k]);
    case Some(next) =>
      MoveStepShrinks(d, fixed);
      assert Compacted(d, fixed) == Compacted(next, fixed);
      CompactedAllMoved(next, fixed);
  }

  /** With the corrected swap, compacting only rearranges cells: the disk
      keeps its size and each file its number of cells. */
  lemma {:induction false} CompactedKeepsCells(d: seq<Block>, id: nat)
    ensures CellCount(Compacted(d, true)) == CellCount(d)
    ensures FileCells(Compacted(d, true), id) == FileCells(d, id)
    decreases UnmovedCount(d)
  {
    match MoveStep(d, true)
    case None =>
    case Some(next) =>
      MoveStepShrinks(d, true);
      var f := LastUnmovedIn(d, |d|);
      var m := d[f := d[f].(moved := true)];
      MarkMovedCounts(d, f, id);
      var s := FirstFitFrom(m, 0, m[f].filesize - 1);
      if s > -1 && f > s && SwapAllowed(m, f, s) {
        SwapPreservesCells(m, f, s, true, id);
      }
      CompactedKeepsCells(next, id);
  }

  // ---------------------------------------------------------------------------
  // The disk map object

  class DiskMap {
    var disk: seq<Block>

    constructor(blocks: seq<Block>)
      ensures disk == blocks
    {
      disk := blocks;
    }

    /** `find`: the first block of type `t` met when walking from `from` (clamped
        as the source does) in direction `incr`, or -1. */
    method Find(t: BlockType, from: int, incr: bool) returns (r: int)
      ensures r == -1 || (Scanned(|disk|, from, incr, r) && disk[r].Type() == t)
      ensures r == -1 ==> forall k :: Scanned(|disk|, from, incr, k) ==> disk[k].Type() != t
      ensures r != -1 ==> forall k :: Scanned(|disk|, from, incr, k) && Earlier(incr, k, r) ==> disk[k].Type() != t
    {
      var l := |disk|;
      if l == 0 {
        return -1;
      }
      var f := from;
      if f < 0 && incr { f := 0; }
      if f > l && !incr { f := l - 1; }
      if f < 0 || f > l - 1 {
        return -1;
      }
      while f > -1 && f < l
        invariant -1 <= f <= l
        invariant f == -1 || f == l || Scanned(l, from, incr, f)
        invariant incr ==> f >= ScanStart(l, from, incr)
        invariant !incr ==> f <= ScanStart(l, from, incr) && ScanStart(l, from, incr) <= l - 1
        invariant forall k :: Scanned(l, from, incr, k) && Earlier(incr, k, f) ==> disk[k].Type() != t
        decreases if incr then l - f else f + 1
      {
        if disk[f].Type() == t {
          return f;
        }
        f := f + if incr then 1 else -1;
      }
      return -1;
    }

    /** `getFreeSpaceIndex`: the first space larger than `largerThan` met when
        walking from `from` in direction `incr`, or -1. */
    method GetFreeSpaceIndex(incr: bool, from: int, largerThan: int) returns (r: int)
      ensures r == -1 || (Scanned(|disk|, from, incr, r) && IsFreeSpace(disk[r], largerThan))
      ensures r == -1 ==> forall k :: Scanned(|disk|, from, incr, k) ==> !IsFreeSpace(disk[k], largerThan)
      ensures r != -1 ==> forall k :: Scanned(|disk|, from, incr, k) && Earlier(incr, k, r) ==> !IsFreeSpace(disk[k], largerThan)
    {
      var l := |disk|;
      var cur := from;
      while true
        invariant forall k :: Scanned(l, cur, incr, k) ==> Scanned(l, from, incr, k)
        invariant forall k :: Scanned(l, from, incr, k) && !Earlier(incr, k, cur) ==> Scanned(l, cur, incr, k)
        invariant forall k :: Scanned(l, from, incr, k) && Earlier(incr, k, cur) ==> !IsFreeSpace(disk[k], largerThan)
        decreases if incr then l + 1 - cur else cur + 1
      {
        var freeIndex := Find(SpaceType, cur, incr);
        if freeIndex > -1 {
          if incr && cur < freeIndex { cur := freeIndex; }
          if !incr && cur > freeIndex { cur := freeIndex; }
        }
        var found := freeIndex > -1 && disk[freeIndex].size > largerThan;
        if !found {
          cur := cur + if incr then 1 else -1;
        }
        if freeIndex == -1 || found {
          return freeIndex;
        }
      }
    }

    /** `lastIndexOfUnmoved`: the last file block not yet moved, at or before
        `from` (the last block by default), which it then marks as moved; or -1. */
    method LastIndexOfUnmoved(from: Option<int>) returns (r: int)
      modifies this
      ensures var start := if from.Some? then from.value else |old(disk)| - 1;
        && (r == -1 || (Scanned(|old(disk)|, start, false, r) && IsUnmovedFile(old(disk)[r])))
        && (r == -1 ==> forall k :: Scanned(|old(disk)|, start, false, k) ==> !IsUnmovedFile(old(disk)[k]))
        && (r != -1 ==> forall k :: Scanned(|old(disk)|, start, false, k) && k > r ==> !IsUnmovedFile(old(disk)[k]))
      ensures disk == if r == -1 then old(disk) else old(disk)[r := old(disk)[r].(moved := true)]
    {
      var l := |disk|;
      var start := if from.Some? then from.value else l - 1;
      var cur := start;
      while true
        invariant disk == old(disk)
        invariant forall k :: Scanned(l, cur, false, k) ==> Scanned(l, start, false, k)
        invariant forall k :: Scanned(l, start, false, k) && k <= cur ==> Scanned(l, cur, false, k)
        invariant forall k :: Scanned(l, start, false, k) && k > cur ==> !IsUnmovedFile(disk[k])
        decreases cur + 1
      {
        r := Find(FileType, cur, false);
        if r > -1 && cur > r { cur := r; }
        var found := r > -1 && !disk[r].moved;
        if !found { cur := cur - 1; }
        if r == -1 || found {
          break;
        }
      }
      if r > -1 {
        disk := disk[r := disk[r].(moved := true)];
      }
    }

    /** `swapFileToSpace`: false, and nothing changed, when an index is
        missing, a block has the wrong type or a size is not positive;
        otherwise the file-side splice first, then the block at `spaceIndex`
        of the resulting disk gives way to the moved part. */
    method SwapFileToSpace(fileIndex: int, spaceIndex: int, moved: bool) returns (ok: bool)
      requires spaceIndex < fileIndex
      modifies this
      ensures ok == SwapAllowed(old(disk), fileIndex, spaceIndex)
      ensures disk == if ok then SwappedAsWritten(old(disk), fileIndex, spaceIndex, moved) else old(disk)
    {
      if !(0 <= fileIndex < |disk| && 0 <= spaceIndex < |disk|) {
        return false;
      }
      if disk[fileIndex].Type() != FileType { return false; }
      if disk[spaceIndex].Type() != SpaceType { return false; }
      if disk[fileIndex].filesize <= 0 { return false; }
      if disk[spaceIndex].size <= 0 { return false; }
      var id, src, dst := disk[fileIndex].id, disk[fileIndex].filesize, disk[spaceIndex].size;
      var transfer := Min(src, dst);
      var remainder := dst - transfer;
      ghost var d := disk;
      // free the cells of the file, merging them with the spaces around it
      FreeFileCells(fileIndex, transfer);
      FileSideShape(d, fileIndex, transfer);
      // move the file part into the space
      disk := Splice(disk, spaceIndex, 1, [Space(0), File(id, transfer, moved), Space(remainder)]);
      return true;
    }

    /** The file-side half of `swapFileToSpace`: the file block at `f` loses
        `transfer` cells, which join the spaces right before and after it. */
    method FreeFileCells(f: nat, transfer: nat)
      requires 1 <= f < |disk| && disk[f].File? && transfer <= disk[f].filesize
      modifies this
      ensures disk == FileSide(old(disk), f, transfer)
    {
      var id, src := disk[f].id, disk[f].filesize;
      var nextSpace := Find(SpaceType, f + 1, true);
      var spaceAfter := nextSpace == f + 1;
      var prevSpace := Find(SpaceType, f - 1, false);
      var spaceBefore := prevSpace == f - 1;
      assert spaceAfter == (f + 1 < |disk| && disk[f + 1].Space?) by {
        if f + 1 < |disk| && disk[f + 1].Space? {
          assert Scanned(|disk|, f + 1, true, f + 1);
        }
      }
      assert spaceBefore == disk[f - 1].Space? by {
        assert Scanned(|disk|, f - 1, false, f - 1);
      }
      var created := transfer;
      var removeFrom := f;
      var removeNb := 1;
      if spaceBefore && spaceAfter {
        created := created + disk[prevSpace].size + disk[nextSpace].size;
        removeFrom := removeFrom - 1;
        removeNb := 3;
      } else if spaceBefore {
        created := created + disk[prevSpace].size;
        removeFrom := removeFrom - 1;
        removeNb := 2;
      } else if spaceAfter {
        created := created + disk[nextSpace].size;
        removeNb := 2;
      }
      var inserted := [];
      if transfer < src {
        inserted := [File(id, src - transfer, false)];
      }
      inserted := inserted + [Space(created)];
      assert removeFrom == RemoveFrom(disk, f) && removeNb == RemoveCount(disk, f);
      assert inserted == FileSideBlocks(disk, f, transfer);
      disk := Splice(disk, removeFrom, removeNb, inserted);
    }

    /** `getChecksum`: walk the blocks, adding position·id for every position
        `range()` lists for a file and skipping the cells of a space. */
    method GetChecksum() returns (checksum: int)
      ensures checksum == ChecksumFrom(disk, 0)
    {
      checksum := 0;
      var index := 0;
      var i := 0;
      while i < |disk|
        invariant 0 <= i <= |disk|
        invariant checksum + ChecksumFrom(disk[i..], index) == ChecksumFrom(disk, 0)
      {
        assert disk[i..][1..] == disk[i + 1..];
        var b := disk[i];
        if b.File? {
          var range := Range(index, index + b.filesize - 1);
          ghost var base := checksum;
          var j := 0;
          while j < |range|
            invariant 0 <= j <= |range|
            invariant checksum == base + Weighted(range[..j], b.id)
          {
            assert range[..j + 1] == range[..j] + [range[j]];
            WeightedSnoc(range[..j], range[j], b.id);
            checksum := checksum + range[j] * b.id;
            j := j + 1;
          }
          assert range[..j] == range;
          index := range[|range| - 1] + 1;
        } else {
          index := index + b.size;
        }
        i := i + 1;
      }
      assert disk[i..] == [];
    }

    /** `moveFiles`: the `do`/`while` that takes the last unmoved file
        and swaps it into the first space that can hold all of it when
        that space lies to its left, until no unmoved file is left. */
    method MoveFiles()
      modifies this
      ensures disk == Compacted(old(disk), false)
      ensures AllMoved(disk)
    {
      CompactedAllMoved(disk, false);
      while true
        invariant Compacted(disk, false) == Compacted(old(disk), false)
        decreases UnmovedCount(disk)
      {
        ghost var before := disk;
        var fileId: int := -1;
        var fileIndex := LastIndexOfUnmoved(None);
        LastUnmovedIs(before, fileIndex);
        ghost var marked := disk;
        var filesize := 0;
        if fileIndex > -1 {
          filesize := disk[fileIndex].filesize - 1;
        }
        var spaceIndex := -1;
        if fileIndex > -1 {
          spaceIndex := GetFreeSpaceIndex(true, 0, filesize);
          FirstFitIs(marked, filesize, spaceIndex);
        }
        if fileIndex > -1 {
          fileId := disk[fileIndex].id;
        }
        if fileIndex > -1 && spaceIndex > -1 && fileIndex > spaceIndex {
          var ok := SwapFileToSpace(fileIndex, spaceIndex, true);
        }
        if fileId <= -1 {
          return;
        }
        assert disk == MoveStep(before, false).value;
        MoveStepShrinks(before, false);
      }
    }
  }

  /** What `lastIndexOfUnmoved` returns, as its contract states it, is
      the last unmoved file. */
  lemma {:induction false} LastUnmovedIs(d: seq<Block>, r: int)
    requires r == -1 || (Scanned(|d|, |d| - 1, false, r) && IsUnmovedFile(d[r]))
    requires r == -1 ==> forall k :: Scanned(|d|, |d| - 1, false, k) ==> !IsUnmovedFile(d[k])
    requires r != -1 ==> forall k :: Scanned(|d|, |d| - 1, false, k) && k > r ==> !IsUnmovedFile(d[k])
    ensures r == LastUnmovedIn(d, |d|)
  {
    var e := LastUnmovedIn(d, |d|);
    if e != -1 {
      assert Scanned(|d|, |d| - 1, false, e);
    }
  }

  /** What `getFreeSpaceIndex` returns from the start of the disk, as its
      contract states it, is the first space that fits. */
  lemma {:induction false} FirstFitIs(d: seq<Block>, largerThan: int, r: int)
    requires r == -1 || (Scanned(|d|, 0, true, r) && IsFreeSpace(d[r], largerThan))
    requires r == -1 ==> forall k :: Scanned(|d|, 0, true, k) ==> !IsFreeSpace(d[k], largerThan)
    requires r != -1 ==> forall k :: Scanned(|d|, 0, true, k) && Earlier(true, k, r) ==> !IsFreeSpace(d[k], largerThan)
    ensures r == FirstFitFrom(d, 0, largerThan)
  {
    var e := FirstFitFrom(d, 0, largerThan);
    if e != -1 {
      assert Scanned(|d|, 0, true, e);
    }
  }

  lemma {:induction false} MarkMovedCounts(d: seq<Block>, k: nat, id: nat)
    requires k < |d| && IsUnmovedFile(d[k])
    ensures var m := d[k := d[k].(moved := true)];
      && CellCount(m) == CellCount(d)
      && FileCells(m, id) == FileCells(d, id)
      && UnmovedCount(m) + 1 == UnmovedCount(d)
  {
    var m := d[k := d[k].(moved := true)];
    assert d == d[..k] + [d[k]] + d[k + 1..];
    assert m == d[..k] + [m[k]] + d[k + 1..];
    CountsAppend(d[..k], [d[k]], id);
    CountsAppend(d[..k] + [d[k]], d[k + 1..], id);
    CountsAppend(d[..k], [m[k]], id);
    CountsAppend(d[..k] + [m[k]], d[k + 1..], id);
    CountsSingle(d[k], id);
    CountsSingle(m[k], id);
  }
}
