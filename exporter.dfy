/**
  The spreadsheet exporter of `main.py`: load a workbook (or stop with a
  message), turn the column letter into a column number, read that column
  from row 2 down, keep the values that are truthy strings or integers,
  render each as a barcode file in the output directory, collect the paths
  of the renders that succeed in row order, and write an HTML page with one
  captioned image per path when there is at least one.

  The workbook is its rows of cell values; the barcode renderer is the
  parameter `render`, which says whether rendering a text to a path
  succeeds; `os.path.relpath` against the output directory is the parameter
  `relPath`; whether the output directory exists already is `dirExists`.
 */
module Exporter {
  import opened Decimal

  datatype Option<T> = None | Some(value: T)

  /** A cell value as the spreadsheet library hands it over. Python's `bool`
      is a subclass of `int`, so `Bool` passes the `isinstance` test;
      `Other` stands for dates, times and the like. */
  datatype Cell = Empty | Str(s: string) | Int(i: int) | Bool(b: bool) | Float(x: real) | Other

  /** The outcome of `openpyxl.load_workbook`: the active sheet's rows, or one
      of the two failures the exporter catches. */
  datatype Workbook = Sheet(rows: seq<seq<Cell>>) | Missing | Unreadable

  /** One image block of the HTML page: the image source and its caption. */
  datatype Entry = Entry(src: string, caption: string)

  /** What one run of the exporter leaves behind. `madeDir` says whether it
      created the output directory; `page` is the HTML page, if written. */
  datatype Export =
    | FileNotFound
    | LoadFailed
    | ColumnRejected(madeDir: bool)
    | Finished(madeDir: bool, barcodes: seq<string>, page: Option<seq<Entry>>)

  /** `str.upper` on one character (ASCII letters only). */
  function Upper(c: char): (u: char)
    ensures 'a' <= c <= 'z' ==> 'A' <= u <= 'Z' && u as int == c as int - 32
    ensures !('a' <= c <= 'z') ==> u == c
  {
    if 'a' <= c <= 'z' then (c as int - 32) as char else c
  }

  /** `ord(column.upper()) - 64`. `ord` refuses a string that is not exactly
      one character long, and then there is no column number. */
  function ColumnIndex(column: string): (r: Option<int>)
    ensures r.None? <==> |column| != 1
  {
    if |column| == 1 then Some(Upper(column[0]) as int - 64) else None
  }

  /** The letters name columns 1 to 26 in alphabetical order, whatever their case. */
  lemma ColumnIndexOfLetter(c: char)
    requires 'A' <= c <= 'Z'
    ensures ColumnIndex([c]) == Some(c as int - 'A' as int + 1)
    ensures ColumnIndex([(c as int + 32) as char]) == ColumnIndex([c])
    ensures 1 <= ColumnIndex([c]).value <= 26
  {
  }

  /** Python truthiness of a cell value. Every `Other` value is taken as
      true; Python's one exception, a zero duration, is never accepted anyway. */
  predicate Truthy(v: Cell) {
    match v
    case Empty => false
    case Str(s) => s != ""
    case Int(i) => i != 0
    case Bool(b) => b
    case Float(x) => x != 0.0
    case Other => true
  }

  /** `value and isinstance(value, (str, int))`. */
  predicate Accepted(v: Cell) {
    Truthy(v) && (v.Str? || v.Int? || v.Bool?)
  }

  /** The values the exporter renders: non-empty strings, non-zero integers
      and `True`; `None`, `""`, `0`, `False`, floats and other values are
      skipped. */
  lemma AcceptedValues(v: Cell)
    ensures Accepted(v) <==> (v.Str? && v.s != "") || (v.Int? && v.i != 0) || v == Bool(true)
  {
  }

  /** `f"{value}"`, which is `str(value)`, for an accepted value. */
  function Text(v: Cell): (t: string)
    requires Accepted(v)
    ensures t != ""
  {
    if v.Str? then v.s else if v.Int? then IntToString(v.i) else "True"
  }

  /** Different non-zero integers get different texts, hence different
      barcode files. */
  lemma TextOfInt(dir: string, i: int, j: int)
    requires i != 0 && j != 0
    ensures Text(Int(i)) == Text(Int(j)) ==> i == j
    ensures PathOf(dir, Int(i)) == PathOf(dir, Int(j)) ==> i == j
  {
    IntToStringInjective(i, j);
    if PathOf(dir, Int(i)) == PathOf(dir, Int(j)) {
      assert PathOf(dir, Int(i))[|dir| + 1..] == Text(Int(i));
      assert PathOf(dir, Int(j))[|dir| + 1..] == Text(Int(j));
    }
  }

  /** `os.path.join(output_dir, name)`, written as a `/` between the two. */
  function Join(dir: string, name: string): string
  {
    dir + "/" + name
  }

  /** The barcode path of an accepted value. */
  function PathOf(dir: string, v: Cell): string
    requires Accepted(v)
  {
    Join(dir, Text(v))
  }

  /** Value `v` yields path `p`: it is accepted, `p` is its path, and its render succeeds. */
  predicate Yields(dir: string, render: (string, string) -> bool, v: Cell, p: string) {
    Accepted(v) && p == PathOf(dir, v) && render(Text(v), p)
  }

  /** The cell in column `c` (from 1) of a row; cells past the row's end are empty. */
  function CellAt(row: seq<Cell>, c: int): Cell
    requires c >= 1
  {
    if c <= |row| then row[c - 1] else Empty
  }

  /** `iter_rows(min_col=c, max_col=c, min_row=2, values_only=True)`, each
      row's only value: column `c` from row 2 to the last row. */
  function ColumnValues(rows: seq<seq<Cell>>, c: int): (vs: seq<Cell>)
    requires c >= 1
    ensures |rows| >= 2 ==> |vs| == |rows| - 1
    ensures |rows| < 2 ==> vs == []
    ensures forall r :: 0 <= r < |vs| ==> vs[r] == CellAt(rows[r + 1], c)
  {
    if |rows| < 2 then [] else seq(|rows| - 1, r requires 0 <= r < |rows| - 1 => CellAt(rows[r + 1], c))
  }

  /** The header row is never read: rows that agree from row 2 on give the
      same values. */
  lemma HeaderRowIgnored(rows: seq<seq<Cell>>, rows': seq<seq<Cell>>, c: int)
    requires c >= 1 && |rows| == |rows'| >= 1 && rows[1..] == rows'[1..]
    ensures ColumnValues(rows, c) == ColumnValues(rows', c)
  {
    forall r | 1 <= r < |rows| ensures rows[r] == rows'[r] {
      assert rows[r] == rows[1..][r - 1];
    }
  }

  /** The paths the row loop collects from `values`, in row order. */
  function Collected(values: seq<Cell>, dir: string, render: (string, string) -> bool): (ps: seq<string>)
    ensures |ps| <= |values|
  {
    if values == [] then []
    else
      var v := values[|values| - 1];
      Collected(values[..|values| - 1], dir, render)
        + (if Accepted(v) && render(Text(v), PathOf(dir, v)) then [PathOf(dir, v)] else [])
  }

  /** Collecting keeps row order: it distributes over consecutive rows. */
  lemma {:induction false} CollectedAppend(a: seq<Cell>, b: seq<Cell>, dir: string, render: (string, string) -> bool)
    ensures Collected(a + b, dir, render) == Collected(a, dir, render) + Collected(b, dir, render)
    decreases |b|
  {
    if b == [] {
      assert a + b == a;
    } else {
      var b' := b[..|b| - 1];
      assert (a + b)[..|a + b| - 1] == a + b';
      CollectedAppend(a, b', dir, render);
    }
  }

  /** Collecting the rows up to one more value adds that value's path when
      it yields one, and nothing otherwise. */
  lemma CollectedStep(values: seq<Cell>, dir: string, render: (string, string) -> bool, p: string)
    requires values != []
    ensures var v := values[|values| - 1];
      p in Collected(values, dir, render) <==>
        p in Collected(values[..|values| - 1], dir, render) || Yields(dir, render, v, p)
  {
  }

  /** Every collected path comes from some value of the column that yields it. */
  lemma {:induction false} CollectedSound(values: seq<Cell>, dir: string, render: (string, string) -> bool, p: string)
    requires p in Collected(values, dir, render)
    ensures exists r :: 0 <= r < |values| && Yields(dir, render, values[r], p)
  {
    var init := values[..|values| - 1];
    CollectedStep(values, dir, render, p);
    if p in Collected(init, dir, render) {
      CollectedSound(init, dir, render, p);
      var r :| 0 <= r < |init| && Yields(dir, render, init[r], p);
      assert values[r] == init[r];
    } else {
      assert Yields(dir, render, values[|values| - 1], p);
    }
  }

  /** Every value of the column that yields a path has that path collected. */
  lemma {:induction false} CollectedComplete(values: seq<Cell>, dir: string, render: (string, string) -> bool, r: nat, p: string)
    requires r < |values| && Yields(dir, render, values[r], p)
    ensures p in Collected(values, dir, render)
  {
    var init := values[..|values| - 1];
    CollectedStep(values, dir, render, p);
    if r < |init| {
      assert init[r] == values[r];
      CollectedComplete(init, dir, render, r, p);
    }
  }

  /** A skipped value, or one whose render fails, adds nothing. */
  lemma SkippedAddsNothing(values: seq<Cell>, v: Cell, dir: string, render: (string, string) -> bool)
    requires !Accepted(v) || !render(Text(v), PathOf(dir, v))
    ensures Collected(values + [v], dir, render) == Collected(values, dir, render)
  {
    assert (values + [v])[..|values|] == values;
  }

  /** Every value is collected when all are accepted and every render succeeds. */
  lemma {:induction false} AllCollected(values: seq<Cell>, dir: string, render: (string, string) -> bool)
    requires forall r :: 0 <= r < |values| ==> Accepted(values[r]) && render(Text(values[r]), PathOf(dir, values[r]))
    ensures |Collected(values, dir, render)| == |values|
  {
    if values != [] {
      var init := values[..|values| - 1];
      assert forall r :: 0 <= r < |init| ==> init[r] == values[r];
      AllCollected(init, dir, render);
    }
  }

  /** `path.split('/')[-1]`: the part after the last `/`. */
  function AfterLastSlash(s: string): (r: string)
    ensures |r| <= |s| && r == s[|s| - |r|..]
    ensures '/' !in r
    ensures |r| < |s| ==> s[|s| - |r| - 1] == '/'
  {
    if s == [] then []
    else if s[|s| - 1] == '/' then []
    else AfterLastSlash(s[..|s| - 1]) + [s[|s| - 1]]
  }

  /** `segment.split('.')[0]`: the part before the first `.`. */
  function BeforeFirstDot(s: string): (r: string)
    ensures |r| <= |s| && r == s[..|r|]
    ensures '.' !in r
    ensures |r| < |s| ==> s[|r|] == '.'
  {
    if s == [] then []
    else if s[0] == '.' then []
    else [s[0]] + BeforeFirstDot(s[1..])
  }

  /** The caption under a barcode image: `barcode.split('/')[-1].split('.')[0]`. */
  function Caption(path: string): (c: string)
    ensures '/' !in c && '.' !in c
  {
    BeforeFirstDot(AfterLastSlash(path))
  }

  /** Joined to a directory, a name without `/` is the path's last segment. */
  lemma {:induction false} AfterLastSlashOfJoin(dir: string, name: string)
    requires '/' !in name
    ensures AfterLastSlash(Join(dir, name)) == name
    decreases |name|
  {
    var p := Join(dir, name);
    if name == [] {
      assert p[|p| - 1] == '/';
    } else {
      var init := name[..|name| - 1];
      assert p[..|p| - 1] == Join(dir, init);
      assert name[|name| - 1] in name;
      AfterLastSlashOfJoin(dir, init);
      assert init + [name[|name| - 1]] == name;
    }
  }

  /** A name without `.` is its own stem. */
  lemma {:induction false} BeforeFirstDotOfPlain(s: string)
    requires '.' !in s
    ensures BeforeFirstDot(s) == s
  {
    if s != [] {
      assert s[0] in s;
      assert forall x :: x in s[1..] ==> x in s;
      BeforeFirstDotOfPlain(s[1..]);
    }
  }

  /** A name without `/` is its own last segment. */
  lemma {:induction false} AfterLastSlashOfPlain(name: string)
    requires '/' !in name
    ensures AfterLastSlash(name) == name
    decreases |name|
  {
    if name != [] {
      var init := name[..|name| - 1];
      assert name[|name| - 1] in name;
      assert forall x :: x in init ==> x in name;
      AfterLastSlashOfPlain(init);
      assert init + [name[|name| - 1]] == name;
    }
  }

  /** The caption of a value's barcode is its text up to the first `.`, and
      the whole text when the text has neither `/` nor `.`. This holds of the
      joined path and of the bare name alike, so it does not matter which of
      the two the relative-path step hands to the page. */
  lemma CaptionOfValue(dir: string, v: Cell)
    requires Accepted(v) && '/' !in Text(v)
    ensures Caption(PathOf(dir, v)) == Caption(Text(v)) == BeforeFirstDot(Text(v))
    ensures '.' !in Text(v) ==> Caption(PathOf(dir, v)) == Text(v)
  {
    AfterLastSlashOfJoin(dir, Text(v));
    AfterLastSlashOfPlain(Text(v));
    if '.' !in Text(v) {
      BeforeFirstDotOfPlain(Text(v));
    }
  }

  /** A joined path has the last segment of its name, whatever the name:
      the directory is cut off at the `/` the join puts in, or earlier at a
      `/` of the name itself. */
  lemma {:induction false} AfterLastSlashOfJoinAny(dir: string, name: string)
    ensures AfterLastSlash(Join(dir, name)) == AfterLastSlash(name)
    decreases |name|
  {
    var p := Join(dir, name);
    if name == [] {
      assert p[|p| - 1] == '/';
    } else {
      var init := name[..|name| - 1];
      var last := name[|name| - 1];
      assert p[|p| - 1] == last;
      assert p[..|p| - 1] == Join(dir, init);
      if last != '/' {
        AfterLastSlashOfJoinAny(dir, init);
      }
    }
  }

  /** The caption of a joined path is the caption of the name alone, for
      every name, so the page's captions do not depend on whether the
      relative-path step keeps the directory. */
  lemma CaptionOfJoin(dir: string, name: string)
    ensures Caption(Join(dir, name)) == Caption(name)
  {
    AfterLastSlashOfJoinAny(dir, name);
  }

  /** A value with a `/` is captioned from its last segment: the value
      "A/B.1" of directory "barcodes" is captioned "B". */
  lemma CaptionOfNestedValue()
    ensures Caption(PathOf("barcodes", Str("A/B.1"))) == "B"
  {
    CaptionOfJoin("barcodes", "A/B.1");
    assert Join("A", "B.1") == "A/B.1";
    AfterLastSlashOfJoin("A", "B.1");
    assert "B.1"[1..] == ".1";
    assert BeforeFirstDot(".1") == [];
  }

  /** A value with a dot is cut at it: the bin "A.01" of directory
      "barcodes" is captioned "A". */
  lemma CaptionCutsAtDot()
    ensures Caption(PathOf("barcodes", Str("A.01"))) == "A"
  {
    CaptionOfValue("barcodes", Str("A.01"));
    assert "A.01"[0] == 'A' && "A.01"[1] == '.';
    assert BeforeFirstDot("A.01"[1..]) == [];
  }

  /** The image blocks of `create_barcode_html`, one per collected path in
      order, each captioned from its relative path. */
  function Page(barcodes: seq<string>, relPath: string -> string): (es: seq<Entry>)
    ensures |es| == |barcodes|
    ensures forall i :: 0 <= i < |barcodes| ==>
      es[i].src == relPath(barcodes[i]) && es[i].caption == Caption(relPath(barcodes[i]))
  {
    seq(|barcodes|, i requires 0 <= i < |barcodes| => Entry(relPath(barcodes[i]), Caption(relPath(barcodes[i]))))
  }

  /** `generate_barcodes_from_excel`, with the workbook, the renderer, the
      relative-path computation and the directory's existence as parameters. */
  method GenerateBarcodesFromExcel(book: Workbook, dirExists: bool,
                                   render: (string, string) -> bool, relPath: string -> string,
                                   column: string := "A", outputDir: string := "barcodes")
    returns (e: Export)
    ensures book.Missing? <==> e.FileNotFound?
    ensures book.Unreadable? <==> e.LoadFailed?
    ensures e.ColumnRejected? <==> book.Sheet? && (ColumnIndex(column).None? || ColumnIndex(column).value < 1)
    ensures e.ColumnRejected? || e.Finished? ==> e.madeDir == !dirExists
    ensures e.Finished? ==>
      && e.barcodes == Collected(ColumnValues(book.rows, ColumnIndex(column).value), outputDir, render)
      && (e.page.Some? <==> e.barcodes != [])
      && (e.page.Some? ==> e.page.value == Page(e.barcodes, relPath))
  {
    match book {
      case Missing => return FileNotFound;
      case Unreadable => return LoadFailed;
      case Sheet(rows) =>
        var madeDir := !dirExists;
        var index := ColumnIndex(column);
        if index.None? || index.value < 1 {
          return ColumnRejected(madeDir);
        }
        var values := ColumnValues(rows, index.value);
        var barcodes: seq<string> := [];
        var i := 0;
        while i < |values|
          invariant 0 <= i <= |values|
          invariant barcodes == Collected(values[..i], outputDir, render)
        {
          var value := values[i];
          assert values[..i + 1][..i] == values[..i];
          if Accepted(value) {
            var barcodePath := Join(outputDir, Text(value));
            if render(Text(value), barcodePath) {
              barcodes := barcodes + [barcodePath];
            }
          }
          i := i + 1;
        }
        assert values[..i] == values;
        if barcodes != [] {
          return Finished(madeDir, barcodes, Some(Page(barcodes, relPath)));
        } else {
          return Finished(madeDir, barcodes, None);
        }
    }
  }
}
