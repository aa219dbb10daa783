/** The grid World of src/World.cc: a height, a width and the rows of cell
    values, the text format `save` writes (the height line, the width line,
    then one line per row with every value followed by a space) and the path
    constructor that reads it back. The file's contents are passed in as a
    string. */
module Storage {
  import opened Decimal

  // ---------------------------------------------------------------------------
  // Lines of text

  /** The length of the first line of `s`, up to the first '\n'. */
  function LineEnd(s: string): (k: nat)
    ensures k <= |s|
    ensures forall i :: 0 <= i < k ==> s[i] != '\n'
    ensures k < |s| ==> s[k] == '\n'
  {
    if s == [] || s[0] == '\n' then 0 else 1 + LineEnd(s[1..])
  }

  predicate NoNewline(l: string) {
    forall i :: 0 <= i < |l| ==> l[i] != '\n'
  }

  /** The lines successive `std::getline` calls return: the '\n' after each
      line is consumed, and a last line needs no '\n'. */
  function Lines(s: string): (ls: seq<string>)
    ensures (ls == []) == (s == [])
    ensures forall k :: 0 <= k < |ls| ==> NoNewline(ls[k])
    decreases |s|
  {
    if s == [] then []
    else
      var k := LineEnd(s);
      var rest := if k == |s| then [] else Lines(s[k + 1..]);
      assert NoNewline(s[..k]);
      assert forall j :: 1 <= j < 1 + |rest| ==> ([s[..k]] + rest)[j] == rest[j - 1];
      [s[..k]] + rest
  }

  /** Text written as a sequence of lines, each ended by `std::endl`. */
  function JoinLines(ls: seq<string>): string
    decreases |ls|
  {
    if ls == [] then [] else JoinLines(ls[..|ls| - 1]) + ls[|ls| - 1] + "\n"
  }

  lemma JoinLinesSnoc(ls: seq<string>, l: string)
    ensures JoinLines(ls + [l]) == JoinLines(ls) + l + "\n"
  {
    assert (ls + [l])[..|ls|] == ls;
  }

  lemma {:induction false} JoinLinesCons(l: string, ls: seq<string>)
    ensures JoinLines([l] + ls) == l + "\n" + JoinLines(ls)
    decreases |ls|
  {
    if ls == [] {
      assert ([l] + ls)[..0] == [];
    } else {
      var init := ls[..|ls| - 1];
      assert ([l] + ls)[..|ls|] == [l] + init;
      JoinLinesCons(l, init);
    }
  }

  lemma LinesCons(l: string, rest: string)
    requires NoNewline(l)
    ensures Lines(l + "\n" + rest) == [l] + Lines(rest)
  {
    var s := l + "\n" + rest;
    LineEndOfLine(l, "\n" + rest);
    assert s == l + ("\n" + rest);
    assert s[..|l|] == l;
    assert s[|l| + 1..] == rest;
  }

  lemma {:induction false} LineEndOfLine(l: string, rest: string)
    requires NoNewline(l) && rest != [] && rest[0] == '\n'
    ensures LineEnd(l + rest) == |l|
    decreases |l|
  {
    if l != [] {
      assert (l + rest)[1..] == l[1..] + rest;
      LineEndOfLine(l[1..], rest);
    }
  }

  /** Reading back written lines gives the lines. */
  lemma {:induction false} LinesJoinLines(ls: seq<string>)
    requires forall k :: 0 <= k < |ls| ==> NoNewline(ls[k])
    ensures Lines(JoinLines(ls)) == ls
    decreases |ls|
  {
    if ls != [] {
      JoinLinesCons(ls[0], ls[1..]);
      assert [ls[0]] + ls[1..] == ls;
      LinesCons(ls[0], JoinLines(ls[1..]));
      LinesJoinLines(ls[1..]);
    }
  }

  // ---------------------------------------------------------------------------
  // The text format

  /** Words each followed by a space. */
  function Spaced(ws: seq<string>): string
    decreases |ws|
  {
    if ws == [] then [] else Spaced(ws[..|ws| - 1]) + ws[|ws| - 1] + " "
  }

  /** One saved row: every value as `operator<<` writes it, then a space. */
  function RowText(row: seq<int>): string {
    Spaced(ShowAll(row))
  }

  function RowLines(rows: seq<seq<int>>): (ls: seq<string>)
    ensures |ls| == |rows| && forall k :: 0 <= k < |rows| ==> ls[k] == RowText(rows[k])
  {
    seq(|rows|, k requires 0 <= k < |rows| => RowText(rows[k]))
  }

  /** What `save` writes. */
  function Serialise(height: int, width: int, rows: seq<seq<int>>): (text: string)
    ensures |text| > 0 && text[|text| - 1] == '\n'
  {
    JoinLines([Show(height), Show(width)] + RowLines(rows))
  }

  /** The values `while (iss >> val)` collects from one line: ints in order,
      up to the first thing that is not one. */
  function ParseRow(line: string): (row: seq<int>)
    ensures |row| <= |line|
    ensures forall k :: 0 <= k < |row| ==> IsInt32(row[k])
    decreases |line|
  {
    match ReadInt(line)
    case None => []
    case Some((v, n)) => [v] + ParseRow(line[n..])
  }

  lemma RowLinesStep(header: seq<string>, rows: seq<seq<int>>, i: nat)
    requires i < |rows|
    ensures header + RowLines(rows[..i + 1]) == header + RowLines(rows[..i]) + [RowText(rows[i])]
  {
    assert RowLines(rows[..i + 1]) == RowLines(rows[..i]) + [RowText(rows[i])];
  }

  /** What the path constructor builds. */
  datatype Grid = Grid(height: int, width: int, rows: seq<seq<int>>)

  /** Each line read as one row. */
  function ParseRows(ls: seq<string>): (rows: seq<seq<int>>)
    ensures |rows| == |ls|
  {
    seq(|ls|, k requires 0 <= k < |ls| => ParseRow(ls[k]))
  }

  lemma ParseRowsStep(ls: seq<string>, k: nat)
    requires k < |ls|
    ensures ParseRows(ls[..k + 1]) == ParseRows(ls[..k]) + [ParseRow(ls[k])]
  {
  }

  /** The path constructor: the first line is the height, the second the
      width (`std::stoi` throwing yields no World), and each later line is one
      row. */
  function Parse(text: string): (g: Option<Grid>)
    ensures g.None? <==> |Lines(text)| < 2 || Stoi(Lines(text)[0]).None? || Stoi(Lines(text)[1]).None?
    ensures g.Some? ==> IsInt32(g.value.height) && IsInt32(g.value.width)
  {
    var ls := Lines(text);
    if |ls| < 2 then None
    else
      var h, w := Stoi(ls[0]), Stoi(ls[1]);
      if h.None? || w.None? then None else Some(Grid(h.value, w.value, ParseRows(ls[2..])))
  }

  /** The loader takes every line after the two header lines as a row, as
      many as there are and each as long as it is: neither the row count nor
      the row lengths are checked against the declared height and width. */
  lemma ParseKeepsRowsAsRead(text: string)
    requires Parse(text).Some?
    ensures var g := Parse(text).value;
      && |Lines(text)| >= 2
      && Stoi(Lines(text)[0]) == Some(g.height) && Stoi(Lines(text)[1]) == Some(g.width)
      && |g.rows| == |Lines(text)| - 2
      && forall k :: 0 <= k < |g.rows| ==> g.rows[k] == ParseRow(Lines(text)[k + 2])
  {
  }

  lemma {:induction false} SpacedCons(w: string, ws: seq<string>)
    ensures Spaced([w] + ws) == w + " " + Spaced(ws)
    decreases |ws|
  {
    if ws == [] {
      assert ([w] + ws)[..0] == [];
    } else {
      var init := ws[..|ws| - 1];
      var cell := ws[|ws| - 1] + " ";
      assert ([w] + ws)[..|ws|] == [w] + init;
      SpacedCons(w, init);
      calc {
        Spaced([w] + ws);
        Spaced([w] + init) + cell;
        (w + " " + Spaced(init)) + cell;
        w + " " + (Spaced(init) + cell);
        w + " " + Spaced(ws);
      }
    }
  }

  lemma {:induction false} SpacedNoNewline(ws: seq<string>)
    requires forall k :: 0 <= k < |ws| ==> NoNewline(ws[k])
    ensures NoNewline(Spaced(ws))
    decreases |ws|
  {
    if ws != [] {
      SpacedNoNewline(ws[..|ws| - 1]);
    }
  }

  /** A leading space only shifts what `ReadInt` consumes. */
  lemma ReadIntSpace(t: string)
    ensures ReadInt(t).None? ==> ReadInt(" " + t).None?
    ensures ReadInt(t).Some? ==> ReadInt(" " + t) == Some((ReadInt(t).value.0, ReadInt(t).value.1 + 1))
  {
    var s := " " + t;
    assert s[1..] == t;
    var i := LeadingSpaces(t);
    assert LeadingSpaces(s) == i + 1;
    assert s[i + 1..] == t[i..];
  }

  lemma ParseRowSpace(t: string)
    ensures ParseRow(" " + t) == ParseRow(t)
  {
    ReadIntSpace(t);
    match ReadInt(t)
    case None =>
    case Some((v, n)) =>
      assert (" " + t)[n + 1..] == t[n..];
  }

  /** One step of the row reader: a value read, then the rest of the line. */
  lemma ParseRowNext(s: string)
    requires ReadInt(s).Some?
    ensures ParseRow(s) == [ReadInt(s).value.0] + ParseRow(s[ReadInt(s).value.1..])
  {
  }

  /** The row reader stops where no int can be read. */
  lemma ParseRowDone(rest: string)
    requires ReadInt(rest).None?
    ensures ParseRow(rest) == []
  {
  }

  /** One turn of the `while (iss >> val)` loop: the value read is appended
      to the row, and the rest of the line is shorter. */
  lemma ReadRowStep(row: seq<int>, rest: string, line: string)
    requires ReadInt(rest).Some? && row + ParseRow(rest) == ParseRow(line)
    ensures (row + [ReadInt(rest).value.0]) + ParseRow(rest[ReadInt(rest).value.1..]) == ParseRow(line)
    ensures |rest[ReadInt(rest).value.1..]| < |rest|
  {
    var (v, n) := ReadInt(rest).value;
    ParseRowNext(rest);
    assert row + ([v] + ParseRow(rest[n..])) == (row + [v]) + ParseRow(rest[n..]);
  }

  /** A value written and followed by a space is read back, and reading goes
      on with what follows the space. */
  lemma ParseRowShow(v: int, t: string)
    requires IsInt32(v)
    ensures ParseRow(Show(v) + " " + t) == [v] + ParseRow(t)
  {
    var tail := " " + t;
    assert Show(v) + " " + t == Show(v) + tail;
    ReadShow(v, tail);
    assert (Show(v) + tail)[|Show(v)|..] == tail;
    ParseRowNext(Show(v) + tail);
    ParseRowSpace(t);
  }

  /** Reading a saved row gives the row back. */
  lemma {:induction false} ParseRowText(row: seq<int>)
    requires forall k :: 0 <= k < |row| ==> IsInt32(row[k])
    ensures ParseRow(RowText(row)) == row
    decreases |row|
  {
    if row == [] {
      assert ReadInt([]) == None;
    } else {
      var v, rest := row[0], row[1..];
      ShowAllCons(row);
      SpacedCons(Show(v), ShowAll(rest));
      ParseRowShow(v, RowText(rest));
      ParseRowText(rest);
      assert [v] + rest == row;
    }
  }

  predicate AllInt32Rows(rows: seq<seq<int>>) {
    forall i, j :: 0 <= i < |rows| && 0 <= j < |rows[i]| ==> IsInt32(rows[i][j])
  }

  lemma LinesOfSerialise(height: int, width: int, rows: seq<seq<int>>)
    ensures Lines(Serialise(height, width, rows)) == [Show(height), Show(width)] + RowLines(rows)
  {
    var ls := [Show(height), Show(width)] + RowLines(rows);
    forall k | 0 <= k < |ls|
      ensures NoNewline(ls[k])
    {
      if k >= 2 {
        var ws := ShowAll(rows[k - 2]);
        forall i | 0 <= i < |ws|
          ensures NoNewline(ws[i])
        {
          ShowNoSpace(rows[k - 2][i]);
        }
        SpacedNoNewline(ws);
      } else {
        ShowNoSpace(if k == 0 then height else width);
      }
    }
    LinesJoinLines(ls);
  }

  lemma ParseRowLines(rows: seq<seq<int>>)
    requires AllInt32Rows(rows)
    ensures ParseRows(RowLines(rows)) == rows
  {
    forall k | 0 <= k < |rows|
      ensures ParseRows(RowLines(rows))[k] == rows[k]
    {
      ParseRowText(rows[k]);
    }
  }

  /** Loading what `save` wrote gives back the same height, width and rows. */
  lemma ParseSerialise(height: int, width: int, rows: seq<seq<int>>)
    requires IsInt32(height) && IsInt32(width) && AllInt32Rows(rows)
    ensures Parse(Serialise(height, width, rows)) == Some(Grid(height, width, rows))
  {
    var ls := [Show(height), Show(width)] + RowLines(rows);
    LinesOfSerialise(height, width, rows);
    StoiShow(height);
    StoiShow(width);
    assert ls[2..] == RowLines(rows);
    ParseRowLines(rows);
  }

  /** `h` rows of `w` zeros. */
  function ZeroGrid(height: nat, width: nat): (g: seq<seq<int>>)
    ensures |g| == height
    ensures forall i :: 0 <= i < height ==> |g[i]| == width
    ensures forall i, j :: 0 <= i < height && 0 <= j < width ==> g[i][j] == 0
  {
    seq(height, _ => seq(width, _ => 0))
  }

  /** The number of cells a grid holds. */
  function CellCount(rows: seq<seq<int>>): nat
    decreases |rows|
  {
    if rows == [] then 0 else CellCount(rows[..|rows| - 1]) + |rows[|rows| - 1]|
  }

  lemma {:induction false} CellCountZeroGrid(height: nat, width: nat)
    ensures CellCount(ZeroGrid(height, width)) == width * height
    decreases height
  {
    if height > 0 {
      assert ZeroGrid(height, width)[..height - 1] == ZeroGrid(height - 1, width);
      CellCountZeroGrid(height - 1, width);
    }
  }

  /** `world_size()` of a World built by `World(height, width)` is the number
      of cells it holds. */
  lemma WorldSizeCountsCells(w: World)
    requires w.height >= 0 && w.width >= 0 && w.state == ZeroGrid(w.height, w.width)
    ensures w.WorldSize() == CellCount(w.state)
  {
    CellCountZeroGrid(w.height, w.width);
  }

  class World {
    var height: int
    var width: int
    var state: seq<seq<int>>

    /** `World(height, width)`: `height` rows of `width` zeros. */
    constructor (height: nat, width: nat)
      ensures this.height == height && this.width == width
      ensures state == ZeroGrid(height, width)
    {
      this.height := height;
      this.width := width;
      state := ZeroGrid(height, width);
    }

    /** `World(height, width)` for any pair of ints: a negative size becomes a
        huge `size_t` in `vector<int>(width, 0)` or in `resize(height, ...)`,
        which throws `std::length_error`, so no World is built. */
    static method Make(height: int, width: int) returns (w: World?)
      ensures w == null <==> height < 0 || width < 0
      ensures w != null ==> fresh(w) && w.height == height && w.width == width
      ensures w != null ==> w.state == ZeroGrid(height, width)
    {
      if height < 0 || width < 0 {
        return null;
      }
      w := new World(height, width);
    }

    constructor Restore(height: int, width: int, state: seq<seq<int>>)
      ensures this.height == height && this.width == width && this.state == state
    {
      this.height := height;
      this.width := width;
      this.state := state;
    }

    /** `World(f_path)` on a file holding `text`: null when `std::stoi`
        throws on a header line or a header line is missing. */
    static method Open(text: string) returns (w: World?)
      ensures w == null <==> Parse(text).None?
      ensures w != null ==> fresh(w) && Parse(text) == Some(Grid(w.height, w.width, w.state))
    {
      var lines := Lines(text);
      if |lines| < 2 {
        return null;
      }
      var h := Stoi(lines[0]);
      var wd := Stoi(lines[1]);
      if h.None? || wd.None? {
        return null;
      }
      var body := lines[2..];
      var rows: seq<seq<int>> := [];
      var k := 0;
      while k < |body|
        invariant 0 <= k <= |body|
        invariant rows == ParseRows(body[..k])
      {
        var row := ReadRow(body[k]);
        ParseRowsStep(body, k);
        rows := rows + [row];
        k := k + 1;
      }
      assert body[..k] == body;
      w := new World.Restore(h.value, wd.value, rows);
    }

    /** The `while (iss >> val)` loop over one line. */
    static method ReadRow(line: string) returns (row: seq<int>)
      ensures row == ParseRow(line)
    {
      row := [];
      var rest := line;
      var next := ReadInt(rest);
      while next.Some?
        invariant next == ReadInt(rest)
        invariant row + ParseRow(rest) == ParseRow(line)
        decreases |rest|
      {
        ReadRowStep(row, rest, line);
        row := row + [next.value.0];
        rest := rest[next.value.1..];
        next := ReadInt(rest);
      }
      ParseRowDone(rest);
      assert row + [] == row;
    }

    function GetHeight(): (h: int)
      reads this
      ensures h == height
    {
      height
    }

    function GetWidth(): (w: int)
      reads this
      ensures w == width
    {
      width
    }

    /** `world_size()`. */
    function WorldSize(): (n: int)
      reads this
      ensures n == GetWidth() * GetHeight()
    {
      width * height
    }

    /** `save()`: the text written to the file. */
    method Save() returns (text: string)
      ensures text == Serialise(height, width, state)
    {
      ghost var header := [Show(height), Show(width)];
      text := Show(height) + "\n";
      JoinLinesSnoc([], Show(height));
      assert [] + [Show(height)] == header[..1];
      assert text == JoinLines(header[..1]);
      text := text + Show(width) + "\n";
      JoinLinesSnoc(header[..1], Show(width));
      assert header[..1] + [Show(width)] == header == header + RowLines(state[..0]);
      var i := 0;
      while i < |state|
        invariant 0 <= i <= |state|
        invariant text == JoinLines(header + RowLines(state[..i]))
      {
        var line := WriteRow(state[i]);
        JoinLinesSnoc(header + RowLines(state[..i]), line);
        text := text + line + "\n";
        RowLinesStep(header, state, i);
        i := i + 1;
      }
      assert state[..i] == state;
    }

    /** The inner loop of `save()`: one row, every value followed by a
        space. */
    static method WriteRow(row: seq<int>) returns (text: string)
      ensures text == RowText(row)
    {
      text := "";
      var j := 0;
      while j < |row|
        invariant 0 <= j <= |row|
        invariant text == RowText(row[..j])
      {
        ghost var ws := ShowAll(row[..j + 1]);
        assert ws[..j] == ShowAll(row[..j]) && ws[j] == Show(row[j]);
        text := text + Show(row[j]) + " ";
        j := j + 1;
      }
      assert row[..j] == row;
    }

    /** `evolve()`: a stub that changes nothing. */
    method Evolve()
      ensures unchanged(this)
    {
    }

    /** `is_stable()`: always false in this version. */
    method IsStable() returns (stable: bool)
      ensures !stable
      ensures unchanged(this)
    {
      stable := false;
    }

    /** `load(f_path)`: a stub that changes nothing. */
    method Load(path: string)
      ensures unchanged(this)
    {
    }
  }
}
