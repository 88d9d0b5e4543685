/** The level text format of `GameMap`: one character per slot, the top row
    first (Assets/Scripts/GameData/GameMap.cs). */
module MapText {

  import opened Tiles
  import opened Maps
  import Options

  /** `TileTypes`: the symbol table read by import. */
  function TileTypes(c: char): Options.Option<TileType> {
    match c
    case '0' => Options.Some(Dirt)
    case '1' => Options.Some(Blank)
    case '2' => Options.Some(Water)
    case '3' => Options.Some(Poison)
    case '4' => Options.Some(ReflectorTL)
    case '5' => Options.Some(ReflectorTR)
    case '6' => Options.Some(ReflectorBL)
    case '7' => Options.Some(ReflectorBR)
    case '8' => Options.Some(RootUp)
    case '9' => Options.Some(RootDown)
    case 'B' => Options.Some(RootRight)
    case 'A' => Options.Some(RootLeft)
    case _ => Options.None
  }

  /** `ReverseTileTypes`: the symbol table written by export. */
  function ReverseTileTypes(t: TileType): char {
    match t
    case Dirt => '0'
    case Blank => '1'
    case Water => '2'
    case Poison => '3'
    case ReflectorTL => '4'
    case ReflectorTR => '5'
    case ReflectorBL => '6'
    case ReflectorBR => '7'
    case RootUp => '8'
    case RootDown => '9'
    case RootRight => 'B'
    case RootLeft => 'A'
  }

  /** The two tables are inverse to each other, and their keys are exactly the
      twelve symbols 0-9, A and B. */
  lemma TablesAreInverse(t: TileType, c: char)
    ensures TileTypes(ReverseTileTypes(t)) == Options.Some(t)
    ensures TileTypes(c).Some? ==> ReverseTileTypes(TileTypes(c).value) == c
    ensures TileTypes(c).Some? <==> c in "0123456789AB"
  {
  }

  /** The line terminator `AppendLine` writes (`Environment.NewLine`). */
  datatype NewLine = LF | CRLF

  function NewLineText(nl: NewLine): string {
    match nl
    case LF => "\n"
    case CRLF => "\r\n"
  }

  /** A character at which `StringReader.ReadLine` ends a line. */
  predicate IsBreak(c: char) {
    c == '\n' || c == '\r'
  }

  predicate NoBreaks(s: string) {
    forall i :: 0 <= i < |s| ==> !IsBreak(s[i])
  }

  /** The text `StringBuilder.AppendLine` produces for `lines`. */
  function JoinLines(lines: seq<string>, nl: NewLine): string {
    if lines == [] then [] else lines[0] + NewLineText(nl) + JoinLines(lines[1..], nl)
  }

  // ---------------------------------------------------------------- export

  /** The symbols of row `y` from column `x` to the right edge. */
  function ExportRow(g: Grid, y: int, x: int): (line: string)
    requires Valid(g) && Populated(g) && 0 <= y < g.sizeY && 0 <= x <= g.sizeX
    ensures |line| == g.sizeX - x
    ensures forall i :: 0 <= i < |line| ==> line[i] == ReverseTileTypes(At(g, x + i, y).tile.tileType)
    decreases g.sizeX - x
  {
    if x == g.sizeX then [] else [ReverseTileTypes(At(g, x, y).tile.tileType)] + ExportRow(g, y, x + 1)
  }

  /** The lines for rows `y`, `y - 1`, ..., `0`, in that order. */
  function ExportRows(g: Grid, y: int): (lines: seq<string>)
    requires Valid(g) && Populated(g) && -1 <= y < g.sizeY
    ensures |lines| == y + 1
    ensures forall k :: 0 <= k < |lines| ==> lines[k] == ExportRow(g, y - k, 0)
    decreases y + 1
  {
    if y < 0 then [] else [ExportRow(g, y, 0)] + ExportRows(g, y - 1)
  }

  /** The lines of `ExportMapData`: `sizeY` lines of `sizeX` symbols, line `k`
      showing row `sizeY - 1 - k` and column `x` showing slot `x`. */
  function ExportLines(g: Grid): (lines: seq<string>)
    requires Valid(g) && Populated(g)
    ensures |lines| == g.sizeY
    ensures forall k :: 0 <= k < |lines| ==> |lines[k]| == g.sizeX && NoBreaks(lines[k])
    ensures forall k, x :: 0 <= k < g.sizeY && 0 <= x < g.sizeX ==>
      lines[k][x] == ReverseTileTypes(At(g, x, g.sizeY - 1 - k).tile.tileType)
  {
    ExportRows(g, g.sizeY - 1)
  }

  /** `ExportMapData`. A null slot would make the source throw, so the grid
      must be populated. */
  function ExportMapData(g: Grid, nl: NewLine): string
    requires Valid(g) && Populated(g)
  {
    JoinLines(ExportLines(g), nl)
  }

  // ---------------------------------------------------------------- reading lines

  /** The first line break at or after `i`, or the end of `s`. */
  function LineEnd(s: string, i: nat): (j: nat)
    requires i <= |s|
    ensures i <= j <= |s|
    ensures j < |s| ==> IsBreak(s[j])
    ensures forall k :: i <= k < j ==> !IsBreak(s[k])
    decreases |s| - i
  {
    if i == |s| || IsBreak(s[i]) then i else LineEnd(s, i + 1)
  }

  /** The successive results of `StringReader.ReadLine` until it returns null:
      a line ends at "\n", "\r" or "\r\n", and a final line break does not
      start another line. */
  function ReadLines(s: string): (lines: seq<string>)
    ensures forall k :: 0 <= k < |lines| ==> NoBreaks(lines[k])
    decreases |s|
  {
    if s == [] then []
    else
      var j := LineEnd(s, 0);
      if j == |s| then [s]
      else if s[j] == '\r' && j + 1 < |s| && s[j + 1] == '\n' then [s[..j]] + ReadLines(s[j + 2..])
      else [s[..j]] + ReadLines(s[j + 1..])
  }

  lemma {:induction false} LineEndAtBreak(s: string, i: nat, n: nat)
    requires i <= n < |s| && IsBreak(s[n])
    requires forall k :: i <= k < n ==> !IsBreak(s[k])
    ensures LineEnd(s, i) == n
    decreases n - i
  {
    if i < n {
      LineEndAtBreak(s, i + 1, n);
    }
  }

  /** Reading back joined lines that contain no line breaks gives the lines. */
  lemma {:induction false} ReadLinesOfJoin(lines: seq<string>, nl: NewLine)
    requires forall k :: 0 <= k < |lines| ==> NoBreaks(lines[k])
    ensures ReadLines(JoinLines(lines, nl)) == lines
  {
    if lines != [] {
      var l := lines[0];
      var rest := JoinLines(lines[1..], nl);
      var s := JoinLines(lines, nl);
      assert s == l + NewLineText(nl) + rest;
      assert s[|l|] == NewLineText(nl)[0];
      assert s[..|l|] == l;
      assert forall k :: 0 <= k < |l| ==> s[k] == l[k];
      LineEndAtBreak(s, 0, |l|);
      ReadLinesOfJoin(lines[1..], nl);
      match nl
      case LF =>
        assert s[|l| + 1..] == rest;
      case CRLF =>
        assert s[|l| + 1] == '\n';
        assert s[|l| + 2..] == rest;
    }
  }

  // ---------------------------------------------------------------- import

  /** Why an import stopped. `UnknownSymbol` stands for the lookup exception on
      a character that is not a key of `TileTypes`; the model records the slot
      it was meant for. `NullTile` stands for the null dereference that follows
      when the lines left a slot of a fresh map unwritten. */
  datatype ImportError = UnknownSymbol(symbol: char, x: int, y: int) | NullTile

  /** The outcome of an import. The source has no staging copy: a failed import
      leaves its partial writes in the map, carried here as `partial`. */
  datatype ImportResult = Imported(grid: Grid) | Failed(partial: Grid, error: ImportError)

  function GridOf(r: ImportResult): Grid {
    match r
    case Imported(g) => g
    case Failed(p, _) => p
  }

  /** The slot the new import writes for symbol type `t`: a copy of the lookup
      tile. */
  function Loaded(t: TileType): Cell {
    Placed(CopyTile(NewTile(t)))
  }

  /** Slot (x, y) of a `sizeX` by `sizeY` map is reached by the lines from line
      `k` on: its line (`sizeY - 1 - y`) is present and has a character in
      column x. Columns beyond `sizeX` and lines beyond `sizeY` are never
      reached. */
  predicate Reached(sizeX: int, sizeY: int, lines: seq<string>, k: int, x: int, y: int) {
    && 0 <= x < sizeX && 0 <= y < sizeY
    && k <= sizeY - 1 - y < |lines|
    && x < |lines[sizeY - 1 - y]|
  }

  function SymbolAt(sizeY: int, lines: seq<string>, x: int, y: int): char
    requires 0 <= y < sizeY && sizeY - 1 - y < |lines| && 0 <= x < |lines[sizeY - 1 - y]|
  {
    lines[sizeY - 1 - y][x]
  }

  predicate Known(sizeY: int, lines: seq<string>, x: int, y: int)
    requires 0 <= y < sizeY && sizeY - 1 - y < |lines| && 0 <= x < |lines[sizeY - 1 - y]|
  {
    TileTypes(SymbolAt(sizeY, lines, x, y)).Some?
  }

  /** The slot a reached, known symbol is loaded into. */
  function LoadedAt(sizeY: int, lines: seq<string>, x: int, y: int): Cell
    requires 0 <= y < sizeY && sizeY - 1 - y < |lines| && 0 <= x < |lines[sizeY - 1 - y]|
    requires Known(sizeY, lines, x, y)
  {
    Loaded(TileTypes(SymbolAt(sizeY, lines, x, y)).value)
  }

  /** Slot (x, y) is read before slot (ex, ey): rows are read top down and
      each row left to right. */
  predicate ReadBefore(x: int, y: int, ex: int, ey: int) {
    y > ey || (y == ey && x < ex)
  }

  /** Every slot holds what the reached lines put there when the write loop ran
      up to (but not including) the failing slot, if any; other slots are
      untouched. */
  ghost predicate WrittenUpTo(g: Grid, lines: seq<string>, k: int, r: ImportResult)
    requires Valid(g) && Valid(GridOf(r)) && GridOf(r).sizeX == g.sizeX && GridOf(r).sizeY == g.sizeY
  {
    forall x, y :: InRange(g, x, y) ==>
      At(GridOf(r), x, y) ==
        if && Reached(g.sizeX, g.sizeY, lines, k, x, y) && Known(g.sizeY, lines, x, y)
           && (r.Imported? || (r.error.UnknownSymbol? && ReadBefore(x, y, r.error.x, r.error.y)))
        then LoadedAt(g.sizeY, lines, x, y)
        else At(g, x, y)
  }

  /** The foreach over one line, from column `x`: stops at the end of the line
      or at column `sizeX`, and throws on an unknown symbol. */
  function WriteRow(g: Grid, lines: seq<string>, y: int, x: int): (r: ImportResult)
    requires Valid(g) && 0 <= y < g.sizeY && g.sizeY - 1 - y < |lines| && 0 <= x
    ensures Valid(GridOf(r)) && GridOf(r).sizeX == g.sizeX && GridOf(r).sizeY == g.sizeY
    ensures r.Imported? <==>
      forall i :: x <= i && Reached(g.sizeX, g.sizeY, lines, 0, i, y) ==> Known(g.sizeY, lines, i, y)
    ensures r.Failed? ==>
      && r.error.UnknownSymbol? && r.error.y == y && x <= r.error.x
      && Reached(g.sizeX, g.sizeY, lines, 0, r.error.x, y) && !Known(g.sizeY, lines, r.error.x, y)
      && r.error.symbol == SymbolAt(g.sizeY, lines, r.error.x, y)
      && forall i :: x <= i < r.error.x ==> Known(g.sizeY, lines, i, y)
    ensures forall i, j :: InRange(g, i, j) ==>
      At(GridOf(r), i, j) ==
        if && j == y && x <= i && Reached(g.sizeX, g.sizeY, lines, 0, i, j) && Known(g.sizeY, lines, i, j)
           && (r.Imported? || i < r.error.x)
        then LoadedAt(g.sizeY, lines, i, j)
        else At(g, i, j)
    decreases |lines[g.sizeY - 1 - y]| - x
  {
    var line := lines[g.sizeY - 1 - y];
    if x >= |line| || x >= g.sizeX then Imported(g)
    else
      match TileTypes(line[x])
      case None =>
        assert !Known(g.sizeY, lines, x, y);
        Failed(g, UnknownSymbol(line[x], x, y))
      case Some(t) =>
        assert Known(g.sizeY, lines, x, y);
        var g1 := SetCell(g, x, y, Loaded(t));
        var r := WriteRow(g1, lines, y, x + 1);
        WriteRowStep(g.sizeX, g.sizeY, lines, y, x, r);
        WriteRowStepWritten(g, g1, lines, y, x, r);
        r
  }

  /** One column more: column `x` read cleanly, so the line fails from `x` on
      exactly where it fails from `x + 1` on. */
  lemma WriteRowStep(sx: int, sy: int, lines: seq<string>, y: int, x: int, r: ImportResult)
    requires 0 <= y < sy && sy - 1 - y < |lines| && 0 <= x
    requires Reached(sx, sy, lines, 0, x, y) && Known(sy, lines, x, y)
    requires r.Imported? <==>
      forall i :: x + 1 <= i && Reached(sx, sy, lines, 0, i, y) ==> Known(sy, lines, i, y)
    requires r.Failed? ==>
      && r.error.UnknownSymbol? && r.error.y == y && x + 1 <= r.error.x
      && Reached(sx, sy, lines, 0, r.error.x, y)
      && forall i :: x + 1 <= i < r.error.x ==> Known(sy, lines, i, y)
    ensures r.Imported? <==>
      forall i :: x <= i && Reached(sx, sy, lines, 0, i, y) ==> Known(sy, lines, i, y)
    ensures r.Failed? ==> forall i :: x <= i < r.error.x ==> Known(sy, lines, i, y)
  {
  }

  /** One column more, slot by slot: the slot written at column `x` and the
      writes of the rest of the line together. */
  lemma WriteRowStepWritten(g: Grid, g1: Grid, lines: seq<string>, y: int, x: int, r: ImportResult)
    requires Valid(g) && Valid(g1) && g1.sizeX == g.sizeX && g1.sizeY == g.sizeY
    requires Valid(GridOf(r)) && GridOf(r).sizeX == g.sizeX && GridOf(r).sizeY == g.sizeY
    requires 0 <= y < g.sizeY && g.sizeY - 1 - y < |lines| && 0 <= x
    requires Reached(g.sizeX, g.sizeY, lines, 0, x, y) && Known(g.sizeY, lines, x, y)
    requires At(g1, x, y) == LoadedAt(g.sizeY, lines, x, y)
    requires forall i, j :: InRange(g, i, j) && (i != x || j != y) ==> At(g1, i, j) == At(g, i, j)
    requires r.Failed? ==> r.error.UnknownSymbol? && x < r.error.x
    requires forall i, j :: InRange(g1, i, j) ==>
      At(GridOf(r), i, j) ==
        if && j == y && x + 1 <= i && Reached(g.sizeX, g.sizeY, lines, 0, i, j) && Known(g.sizeY, lines, i, j)
           && (r.Imported? || i < r.error.x)
        then LoadedAt(g.sizeY, lines, i, j)
        else At(g1, i, j)
    ensures forall i, j :: InRange(g, i, j) ==>
      At(GridOf(r), i, j) ==
        if && j == y && x <= i && Reached(g.sizeX, g.sizeY, lines, 0, i, j) && Known(g.sizeY, lines, i, j)
           && (r.Imported? || i < r.error.x)
        then LoadedAt(g.sizeY, lines, i, j)
        else At(g, i, j)
  {
    forall i, j | InRange(g, i, j)
      ensures At(GridOf(r), i, j) ==
        if && j == y && x <= i && Reached(g.sizeX, g.sizeY, lines, 0, i, j) && Known(g.sizeY, lines, i, j)
           && (r.Imported? || i < r.error.x)
        then LoadedAt(g.sizeY, lines, i, j)
        else At(g, i, j)
    {
      assert InRange(g1, i, j);
    }
  }

  /** The do/while over lines, from line `k`: line k fills row `sizeY - 1 - k`;
      the loop ends when the lines run out or every row has been filled. */
  function WriteLines(g: Grid, lines: seq<string>, k: int): (r: ImportResult)
    requires Valid(g) && 0 <= k
    ensures Valid(GridOf(r)) && GridOf(r).sizeX == g.sizeX && GridOf(r).sizeY == g.sizeY
    ensures r.Imported? <==>
      forall x, y :: Reached(g.sizeX, g.sizeY, lines, k, x, y) ==> Known(g.sizeY, lines, x, y)
    ensures r.Failed? ==>
      && r.error.UnknownSymbol?
      && Reached(g.sizeX, g.sizeY, lines, k, r.error.x, r.error.y) && !Known(g.sizeY, lines, r.error.x, r.error.y)
      && r.error.symbol == SymbolAt(g.sizeY, lines, r.error.x, r.error.y)
      && forall x, y :: Reached(g.sizeX, g.sizeY, lines, k, x, y) && ReadBefore(x, y, r.error.x, r.error.y) ==>
           Known(g.sizeY, lines, x, y)
    ensures WrittenUpTo(g, lines, k, r)
    decreases |lines| - k, 1
  {
    if k >= |lines| || k >= g.sizeY then Imported(g)
    else
      var row := g.sizeY - 1 - k;
      match WriteRow(g, lines, row, 0)
      case Failed(p, e) =>
        WriteLinesRowFails(g, lines, k, row, Failed(p, e));
        Failed(p, e)
      case Imported(h) =>
        var r := WriteLines(h, lines, k + 1);
        WriteLinesStep(g.sizeX, g.sizeY, lines, k, row, r);
        WriteLinesStepWritten(g, h, lines, k, row, r);
        r
  }

  /** Line `k` itself fails: the failure is the first unknown symbol read
      from line `k` on, and the slots before it on that line are written. */
  lemma WriteLinesRowFails(g: Grid, lines: seq<string>, k: int, row: int, r: ImportResult)
    requires Valid(g) && 0 <= k < |lines| && k < g.sizeY && row == g.sizeY - 1 - k
    requires Valid(GridOf(r)) && GridOf(r).sizeX == g.sizeX && GridOf(r).sizeY == g.sizeY
    requires r.Failed? && r.error.UnknownSymbol? && r.error.y == row && 0 <= r.error.x
    requires Reached(g.sizeX, g.sizeY, lines, 0, r.error.x, row) && !Known(g.sizeY, lines, r.error.x, row)
    requires forall i :: 0 <= i < r.error.x ==> Known(g.sizeY, lines, i, row)
    requires forall i, j :: InRange(g, i, j) ==>
      At(GridOf(r), i, j) ==
        if j == row && 0 <= i && Reached(g.sizeX, g.sizeY, lines, 0, i, j) && Known(g.sizeY, lines, i, j)
           && i < r.error.x
        then LoadedAt(g.sizeY, lines, i, j)
        else At(g, i, j)
    ensures !forall x, y :: Reached(g.sizeX, g.sizeY, lines, k, x, y) ==> Known(g.sizeY, lines, x, y)
    ensures Reached(g.sizeX, g.sizeY, lines, k, r.error.x, r.error.y)
    ensures forall x, y :: Reached(g.sizeX, g.sizeY, lines, k, x, y) && ReadBefore(x, y, r.error.x, r.error.y) ==>
      Known(g.sizeY, lines, x, y)
    ensures WrittenUpTo(g, lines, k, r)
  {
    assert Reached(g.sizeX, g.sizeY, lines, k, r.error.x, r.error.y);
    forall x, y | InRange(g, x, y)
      ensures At(GridOf(r), x, y) ==
        if && Reached(g.sizeX, g.sizeY, lines, k, x, y) && Known(g.sizeY, lines, x, y)
           && (r.Imported? || (r.error.UnknownSymbol? && ReadBefore(x, y, r.error.x, r.error.y)))
        then LoadedAt(g.sizeY, lines, x, y)
        else At(g, x, y)
    {
      if Reached(g.sizeX, g.sizeY, lines, k, x, y) && ReadBefore(x, y, r.error.x, r.error.y) {
        assert y == row;
      }
    }
  }

  /** The outcome of a line failing or not, one line more: line `k` read
      cleanly, so the lines from `k` on fail exactly where the lines from
      `k + 1` on do. */
  lemma WriteLinesStep(sx: int, sy: int, lines: seq<string>, k: int, row: int, r: ImportResult)
    requires 0 <= k < |lines| && k < sy && row == sy - 1 - k
    requires forall i :: 0 <= i && Reached(sx, sy, lines, 0, i, row) ==> Known(sy, lines, i, row)
    requires r.Imported? <==> forall x, y :: Reached(sx, sy, lines, k + 1, x, y) ==> Known(sy, lines, x, y)
    requires r.Failed? ==>
      && r.error.UnknownSymbol?
      && Reached(sx, sy, lines, k + 1, r.error.x, r.error.y) && !Known(sy, lines, r.error.x, r.error.y)
      && r.error.symbol == SymbolAt(sy, lines, r.error.x, r.error.y)
      && forall x, y :: Reached(sx, sy, lines, k + 1, x, y) && ReadBefore(x, y, r.error.x, r.error.y) ==>
           Known(sy, lines, x, y)
    ensures r.Imported? <==> forall x, y :: Reached(sx, sy, lines, k, x, y) ==> Known(sy, lines, x, y)
    ensures r.Failed? ==>
      && Reached(sx, sy, lines, k, r.error.x, r.error.y)
      && forall x, y :: Reached(sx, sy, lines, k, x, y) && ReadBefore(x, y, r.error.x, r.error.y) ==>
           Known(sy, lines, x, y)
  {
    if r.Imported? {
      forall x, y | Reached(sx, sy, lines, k, x, y) ensures Known(sy, lines, x, y) {
        if y != row {
          assert Reached(sx, sy, lines, k + 1, x, y);
        }
      }
    } else {
      forall x, y | Reached(sx, sy, lines, k, x, y) && ReadBefore(x, y, r.error.x, r.error.y)
        ensures Known(sy, lines, x, y)
      {
        if y != row {
          assert Reached(sx, sy, lines, k + 1, x, y);
        }
      }
    }
  }

  /** One line more, slot by slot: the row written for line `k` and the
      writes of the remaining lines together. */
  lemma WriteLinesStepWritten(g: Grid, h: Grid, lines: seq<string>, k: int, row: int, r: ImportResult)
    requires Valid(g) && Valid(h) && h.sizeX == g.sizeX && h.sizeY == g.sizeY
    requires Valid(GridOf(r)) && GridOf(r).sizeX == g.sizeX && GridOf(r).sizeY == g.sizeY
    requires 0 <= k < |lines| && k < g.sizeY && row == g.sizeY - 1 - k
    requires forall i, j :: InRange(g, i, j) ==>
      At(h, i, j) ==
        if j == row && 0 <= i && Reached(g.sizeX, g.sizeY, lines, 0, i, j) && Known(g.sizeY, lines, i, j)
        then LoadedAt(g.sizeY, lines, i, j)
        else At(g, i, j)
    requires WrittenUpTo(h, lines, k + 1, r)
    requires r.Failed? ==> r.error.UnknownSymbol? && Reached(g.sizeX, g.sizeY, lines, k + 1, r.error.x, r.error.y)
    ensures WrittenUpTo(g, lines, k, r)
  {
    forall x, y | InRange(g, x, y)
      ensures At(GridOf(r), x, y) ==
        if && Reached(g.sizeX, g.sizeY, lines, k, x, y) && Known(g.sizeY, lines, x, y)
           && (r.Imported? || (r.error.UnknownSymbol? && ReadBefore(x, y, r.error.x, r.error.y)))
        then LoadedAt(g.sizeY, lines, x, y)
        else At(g, x, y)
    {
      assert InRange(h, x, y);
      if y == row {
        assert !Reached(g.sizeX, g.sizeY, lines, k + 1, x, y);
        assert Reached(g.sizeX, g.sizeY, lines, k, x, y) == Reached(g.sizeX, g.sizeY, lines, 0, x, y);
      } else {
        assert Reached(g.sizeX, g.sizeY, lines, k, x, y) == Reached(g.sizeX, g.sizeY, lines, k + 1, x, y);
      }
    }
  }

  /** `ImportMapData` on the lines the reader yields. After the write loop the
      source walks every slot (`ClearRoots`, then `SetupBlocks`), so a slot
      still null fails the import; otherwise `SetupBlocks` marks every
      logically blocked slot occupied. Freshly loaded slots are unoccupied
      until then, and slots the lines did not reach keep their tile. */
  function ImportLines(g: Grid, lines: seq<string>): (r: ImportResult)
    requires Valid(g)
    ensures Valid(GridOf(r)) && GridOf(r).sizeX == g.sizeX && GridOf(r).sizeY == g.sizeY
    ensures r.Imported? ==>
      && Populated(r.grid)
      && forall x, y :: InRange(g, x, y) ==>
           (if Reached(g.sizeX, g.sizeY, lines, 0, x, y)
            then (&& TileTypes(SymbolAt(g.sizeY, lines, x, y)).Some?
                  && At(r.grid, x, y).tile.tileType == TileTypes(SymbolAt(g.sizeY, lines, x, y)).value
                  && At(r.grid, x, y).tile.blocked == BlocksByType(At(r.grid, x, y).tile.tileType))
            else (&& At(g, x, y).Placed?
                  && At(r.grid, x, y).tile ==
                       At(g, x, y).tile.(blocked := At(g, x, y).tile.blocked || BlocksByType(At(g, x, y).tile.tileType))))
    ensures r.Failed? && r.error.UnknownSymbol? ==>
      && Reached(g.sizeX, g.sizeY, lines, 0, r.error.x, r.error.y) && !Known(g.sizeY, lines, r.error.x, r.error.y)
      && r.error.symbol == SymbolAt(g.sizeY, lines, r.error.x, r.error.y)
      && (forall x, y :: Reached(g.sizeX, g.sizeY, lines, 0, x, y) && ReadBefore(x, y, r.error.x, r.error.y) ==>
           Known(g.sizeY, lines, x, y))
      && WrittenUpTo(g, lines, 0, r)
    ensures r.Failed? && r.error.NullTile? ==>
      && (forall x, y :: Reached(g.sizeX, g.sizeY, lines, 0, x, y) ==> Known(g.sizeY, lines, x, y))
      && (exists x, y :: InRange(g, x, y) && !Reached(g.sizeX, g.sizeY, lines, 0, x, y) && At(g, x, y) == Null)
      && WrittenUpTo(g, lines, 0, Imported(r.partial))
  {
    match WriteLines(g, lines, 0)
    case Failed(p, e) => Failed(p, e)
    case Imported(w) =>
      if Populated(w) then Imported(SetupBlocks(w))
      else
        assert exists x, y :: InRange(g, x, y) && At(w, x, y) == Null;
        Failed(w, NullTile)
  }

  /** `ImportMapData`: the text is split by `StringReader.ReadLine`. */
  function ImportMapData(g: Grid, text: string): ImportResult
    requires Valid(g)
  {
    ImportLines(g, ReadLines(text))
  }

  /** Every slot of the map is reached by the exported lines, and its symbol
      reads back as its own tile type. */
  lemma ExportedSymbolsReadBack(g: Grid)
    requires Valid(g) && Populated(g)
    ensures forall x, y :: InRange(g, x, y) ==>
      && Reached(g.sizeX, g.sizeY, ExportLines(g), 0, x, y)
      && TileTypes(SymbolAt(g.sizeY, ExportLines(g), x, y)) == Options.Some(At(g, x, y).tile.tileType)
  {
    var lines := ExportLines(g);
    forall x, y | InRange(g, x, y)
      ensures Reached(g.sizeX, g.sizeY, lines, 0, x, y)
      ensures TileTypes(SymbolAt(g.sizeY, lines, x, y)) == Options.Some(At(g, x, y).tile.tileType)
    {
      assert SymbolAt(g.sizeY, lines, x, y) == ReverseTileTypes(At(g, x, y).tile.tileType);
      TablesAreInverse(At(g, x, y).tile.tileType, ' ');
    }
  }

  /** Importing exported text into any map of the same size reproduces every
      slot's tile type, with exactly the Dirt and seed slots occupied. */
  lemma ExportImportRoundTrip(g: Grid, h: Grid, nl: NewLine)
    requires Valid(g) && Populated(g)
    requires Valid(h) && h.sizeX == g.sizeX && h.sizeY == g.sizeY
    ensures var r := ImportMapData(h, ExportMapData(g, nl));
      && r.Imported? && SameLayout(g, r.grid)
      && forall x, y :: InRange(g, x, y) ==>
           At(r.grid, x, y).tile.blocked == BlocksByType(At(g, x, y).tile.tileType)
  {
    var lines := ExportLines(g);
    ReadLinesOfJoin(lines, nl);
    assert ReadLines(ExportMapData(g, nl)) == lines;
    ExportedSymbolsReadBack(g);
    var w := WriteLines(h, lines, 0);
    assert w.Imported?;
    assert forall x, y :: InRange(g, x, y) ==> At(w.grid, x, y) == Loaded(At(g, x, y).tile.tileType);
    assert Populated(w.grid);
    assert ImportLines(h, lines) == Imported(SetupBlocks(w.grid));
  }
}
