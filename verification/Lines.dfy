/** A file as a sequence of lines, the text they make when joined, and positions in both. */
module Lines {
  import opened Lexical

  /** A line number and a column. */
  datatype Spot = Spot(line: nat, column: nat)

  function Join(lines: seq<string>): string {
    if lines == [] then "" else Join(Init(lines)) + Last(lines)
  }

  /** The line and column of each character of the joined text. */
  function Cells(lines: seq<string>): seq<Spot> {
    if lines == [] then []
    else
      var l: nat := |lines| - 1;
      Cells(Init(lines)) + seq(|Last(lines)|, (c: nat) => Spot(l, c))
  }

  /** The offset in the joined text at which line l starts. */
  function Start(lines: seq<string>, l: nat): nat
    requires l <= |lines|
  {
    |Join(lines[..l])|
  }

  /** The characters of text are those that lines holds at cells. */
  ghost predicate Layout(lines: seq<string>, cells: seq<Spot>, text: string) {
    && |cells| == |text|
    && forall k | 0 <= k < |cells| ::
         && cells[k].line < |lines|
         && cells[k].column < |lines[cells[k].line]|
         && text[k] == lines[cells[k].line][cells[k].column]
  }

  /** Every character but the first of a line comes right after its neighbour on the line. */
  ghost predicate Contiguous(cells: seq<Spot>) {
    forall k | 0 <= k < |cells| && cells[k].column > 0 ::
      k > 0 && cells[k - 1] == Spot(cells[k].line, cells[k].column - 1)
  }

  /** From offset k on, cells runs over the first n columns of line l. */
  ghost predicate Row(cells: seq<Spot>, l: nat, k: nat, n: nat) {
    && k + n <= |cells|
    && forall j | k <= j < k + n :: cells[j] == Spot(l, j - k)
  }

  lemma {:induction false} LayoutJoin(lines: seq<string>)
    ensures Layout(lines, Cells(lines), Join(lines)) && Contiguous(Cells(lines)) && |Cells(lines)| == |Join(lines)|
  {
    hide Layout, Contiguous;
    if lines == [] {
      LayoutNothing();
    } else {
      LayoutJoin(Init(lines));
      LayoutMore(Init(lines), Last(lines), Cells(Init(lines)), Join(Init(lines)));
      assert Init(lines) + [Last(lines)] == lines;
    }
  }

  lemma LayoutNothing()
    ensures Layout([], [], "") && Contiguous([])
  {
  }

  /** One more line adds its own row of cells. */
  lemma LayoutMore(lines: seq<string>, line: string, cells: seq<Spot>, text: string)
    requires Layout(lines, cells, text) && Contiguous(cells)
    ensures var l: nat := |lines|;
            var next := cells + seq(|line|, (c: nat) => Spot(l, c));
            Layout(lines + [line], next, text + line) && Contiguous(next) && |next| == |text + line|
  {
  }

  lemma {:induction false} RowAt(lines: seq<string>, l: nat)
    requires l < |lines|
    ensures Row(Cells(lines), l, Start(lines, l), |lines[l]|)
    ensures Start(lines, l + 1) == Start(lines, l) + |lines[l]| <= |Cells(lines)|
  {
    hide Layout, Contiguous;
    LayoutJoin(Init(lines));
    assert Init(lines[..l + 1]) == lines[..l];
    if l == |lines| - 1 {
      assert lines[..l] == Init(lines);
    } else {
      assert Init(lines)[..l] == lines[..l];
      RowAt(Init(lines), l);
    }
  }

  /** Cells inverts the offset of every line and column. */
  lemma CellAt(lines: seq<string>, s: Spot)
    requires s.line < |lines| && s.column < |lines[s.line]|
    ensures var k := Start(lines, s.line) + s.column;
            k < |Join(lines)| == |Cells(lines)| && Cells(lines)[k] == s
            && Join(lines)[k] == lines[s.line][s.column]
  {
    RowAt(lines, s.line);
    LayoutJoin(lines);
  }

  /** Every offset is that of a line and column: the spot that Cells holds there. */
  lemma CellOffset(lines: seq<string>, k: nat)
    requires k < |Join(lines)|
    ensures |Cells(lines)| == |Join(lines)|
    ensures var s := Cells(lines)[k];
            s.line < |lines| && s.column < |lines[s.line]| && Start(lines, s.line) + s.column == k
  {
    LayoutJoin(lines);
    RowsCover(lines, k);
  }

  lemma {:induction false} RowsCover(lines: seq<string>, k: nat)
    requires k < |Join(lines)|
    ensures |Cells(lines)| == |Join(lines)| && Cells(lines)[k].line < |lines|
    ensures Start(lines, Cells(lines)[k].line) + Cells(lines)[k].column == k
  {
    var front := Init(lines);
    LayoutJoin(lines);
    LayoutJoin(front);
    if k < |Join(front)| {
      RowsCover(front, k);
      var l := Cells(front)[k].line;
      assert front[..l] == lines[..l];
    } else {
      assert lines[..|lines| - 1] == front;
    }
  }
}
