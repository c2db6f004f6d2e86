/** The composer's rows: typed text cut into rows of a given width, and the
    cursor's place among them (apps/vitna-tui/src/text.rs). */
module TextRows {
  import opened Common

  /** How many cells a character takes. */
  type Width = char -> nat

  datatype Row = Row(start: nat, end: nat)

  /** The cells of the characters from `start` up to `end`. */
  function Cells(chars: string, start: nat, end: nat, width: Width): nat
    requires start <= end <= |chars|
  {
    if start == end then 0 else Cells(chars, start, end - 1, width) + width(chars[end - 1])
  }

  lemma {:induction false} CellsSplit(chars: string, start: nat, mid: nat, end: nat, width: Width)
    requires start <= mid <= end <= |chars|
    ensures Cells(chars, start, end, width) == Cells(chars, start, mid, width) + Cells(chars, mid, end, width)
    decreases end - mid
  {
    if mid == end {
    } else {
      CellsSplit(chars, start, mid, end - 1, width);
    }
  }

  // ----- What a layout is -----

  predicate Free(chars: string, start: nat, end: nat, c: char)
    requires start <= end <= |chars|
  {
    forall i :: start <= i < end ==> chars[i] != c
  }

  /** At most `max` cells, or more only by a last character wider than one. */
  predicate Narrow(chars: string, start: nat, end: nat, max: nat, width: Width)
    requires start <= end <= |chars|
  {
    || Cells(chars, start, end, width) <= max
    || (start < end && Cells(chars, start, end - 1, width) <= max && width(chars[end - 1]) > 1)
  }

  predicate InText(chars: string, row: Row) {
    row.start <= row.end <= |chars| && Free(chars, row.start, row.end, '\n')
  }

  /** The word at `at` runs on to `i`, past the edge. */
  predicate WordOverflows(chars: string, start: nat, at: nat, i: nat, max: nat, width: Width) {
    && start <= at <= i < |chars|
    && Free(chars, at, i + 1, ' ') && Free(chars, at, i + 1, '\n')
    && Cells(chars, start, i + 1, width) > max
  }

  /** Why a row ends where it does and the next starts at `next`. */
  ghost predicate Breaks(chars: string, row: Row, next: nat, max: nat, width: Width) {
    && InText(chars, row)
    && (|| AtNewline(chars, row, next, max, width)
        || AtHangingSpace(chars, row, next, max, width)
        || AtWord(chars, row, next, max, width)
        || AtEdge(chars, row, next, max, width))
  }

  /** At a newline, which is dropped. */
  predicate AtNewline(chars: string, row: Row, next: nat, max: nat, width: Width)
    requires InText(chars, row)
  {
    && row.end < |chars| && chars[row.end] == '\n' && next == row.end + 1
    && Narrow(chars, row.start, row.end, max, width)
  }

  /** After the space that meets the edge, which hangs there. */
  predicate AtHangingSpace(chars: string, row: Row, next: nat, max: nat, width: Width)
    requires InText(chars, row)
  {
    && next == row.end > row.start && chars[row.end - 1] == ' '
    && Narrow(chars, row.start, row.end - 1, max, width) && Cells(chars, row.start, row.end, width) > max
  }

  /** After the last space, when the word after it does not fit. */
  ghost predicate AtWord(chars: string, row: Row, next: nat, max: nat, width: Width)
    requires InText(chars, row)
  {
    && next == row.end > row.start && chars[row.end - 1] == ' '
    && Narrow(chars, row.start, row.end, max, width)
    && exists i :: WordOverflows(chars, row.start, row.end, i, max, width)
  }

  /** At the edge, inside a word with no space before it in the row. */
  predicate AtEdge(chars: string, row: Row, next: nat, max: nat, width: Width)
    requires InText(chars, row)
  {
    && next == row.end > row.start && Free(chars, row.start, row.end, ' ')
    && Narrow(chars, row.start, row.end, max, width)
    && WordOverflows(chars, row.start, row.end, row.end, max, width)
  }

  /** `rows` cut the text up to `next`, each break needed. */
  ghost predicate LaidOutTo(rows: seq<Row>, next: nat, chars: string, max: nat, width: Width)
    decreases |rows|
  {
    if rows == [] then next == 0
    else
      var last := rows[|rows| - 1];
      Breaks(chars, last, next, max, width) && LaidOutTo(rows[..|rows| - 1], last.start, chars, max, width)
  }

  /** The whole text cut into rows, each break needed; the last row runs to the
      end of the text and fits. */
  ghost predicate LaidOut(rows: seq<Row>, chars: string, max: nat, width: Width) {
    && rows != []
    && LaidOutTo(rows[..|rows| - 1], rows[|rows| - 1].start, chars, max, width)
    && LastRow(chars, rows[|rows| - 1], max, width)
  }

  predicate LastRow(chars: string, row: Row, max: nat, width: Width) {
    InText(chars, row) && row.end == |chars| && Narrow(chars, row.start, row.end, max, width)
  }

  lemma LayoutGrows(rows: seq<Row>, row: Row, next: nat, chars: string, max: nat, width: Width)
    requires LaidOutTo(rows, row.start, chars, max, width)
    requires Breaks(chars, row, next, max, width)
    ensures LaidOutTo(rows + [row], next, chars, max, width)
  {
    assert (rows + [row])[..|rows|] == rows;
  }

  /** The row being filled from `start` to `i`, and the place after its last space. */
  ghost predicate Filling(start: nat, i: nat, lastBreak: Option<nat>, chars: string, max: nat, width: Width) {
    && start <= i <= |chars|
    && Free(chars, start, i, '\n')
    && Narrow(chars, start, i, max, width)
    && match lastBreak
       case None => Free(chars, start, i, ' ')
       case Some(b) => start < b <= i && chars[b - 1] == ' ' && Free(chars, b, i, ' ')
                       && Cells(chars, start, i, width) <= max
  }

  lemma WordWraps(rows: seq<Row>, start: nat, i: nat, b: nat, chars: string, max: nat, width: Width)
    requires LaidOutTo(rows, start, chars, max, width)
    requires width(' ') == 1 && Filling(start, i, Some(b), chars, max, width)
    requires i < |chars| && chars[i] != ' ' && chars[i] != '\n' && Cells(chars, start, i + 1, width) > max
    ensures LaidOutTo(rows + [Row(start, b)], b, chars, max, width)
    ensures Filling(b, i, None, chars, max, width) && Cells(chars, b, i, width) < max
  {
    CellsSplit(chars, start, b, i, width);
    CellsSplit(chars, start, b - 1, b, width);
    assert WordOverflows(chars, start, b, i, max, width);
    assert AtWord(chars, Row(start, b), b, max, width);
    LayoutGrows(rows, Row(start, b), b, chars, max, width);
  }

  lemma EdgeWraps(rows: seq<Row>, start: nat, i: nat, chars: string, max: nat, width: Width)
    requires LaidOutTo(rows, start, chars, max, width) && Filling(start, i, None, chars, max, width)
    requires start < i < |chars| && chars[i] != ' ' && chars[i] != '\n' && Cells(chars, start, i + 1, width) > max
    ensures LaidOutTo(rows + [Row(start, i)], i, chars, max, width)
    ensures Filling(i, i, None, chars, max, width)
  {
    assert AtEdge(chars, Row(start, i), i, max, width);
    LayoutGrows(rows, Row(start, i), i, chars, max, width);
  }

  lemma NewlineBreaks(rows: seq<Row>, start: nat, i: nat, lastBreak: Option<nat>, chars: string, max: nat, width: Width)
    requires LaidOutTo(rows, start, chars, max, width)
    requires Filling(start, i, lastBreak, chars, max, width) && i < |chars| && chars[i] == '\n'
    ensures LaidOutTo(rows + [Row(start, i)], i + 1, chars, max, width)
    ensures Filling(i + 1, i + 1, None, chars, max, width)
  {
    assert AtNewline(chars, Row(start, i), i + 1, max, width);
    LayoutGrows(rows, Row(start, i), i + 1, chars, max, width);
  }

  lemma HangingSpaceBreaks(rows: seq<Row>, start: nat, i: nat, lastBreak: Option<nat>,
                           chars: string, max: nat, width: Width)
    requires LaidOutTo(rows, start, chars, max, width)
    requires Filling(start, i, lastBreak, chars, max, width) && i < |chars| && chars[i] == ' '
    requires Cells(chars, start, i + 1, width) > max
    ensures LaidOutTo(rows + [Row(start, i + 1)], i + 1, chars, max, width)
    ensures Filling(i + 1, i + 1, None, chars, max, width)
  {
    assert AtHangingSpace(chars, Row(start, i + 1), i + 1, max, width);
    LayoutGrows(rows, Row(start, i + 1), i + 1, chars, max, width);
  }

  lemma CharacterFills(start: nat, i: nat, lastBreak: Option<nat>, chars: string, max: nat, width: Width)
    requires Filling(start, i, lastBreak, chars, max, width) && i < |chars| && chars[i] != '\n'
    requires Cells(chars, start, i + 1, width) <= max
             || (lastBreak.None? && chars[i] != ' ' && Narrow(chars, start, i + 1, max, width))
    ensures Filling(start, i + 1, if chars[i] == ' ' then Some(i + 1) else lastBreak, chars, max, width)
  {
  }

  /** Ends the row before the character at `i`, which does not fit any more. */
  method Wrap(rows: seq<Row>, start: nat, i: nat, lastBreak: Option<nat>, chars: string, max: nat, width: Width)
    returns (wrapped: seq<Row>, next: nat)
    requires LaidOutTo(rows, start, chars, max, width) && Filling(start, i, lastBreak, chars, max, width)
    requires width(' ') == 1 && max > 0
    requires i < |chars| && chars[i] != ' ' && chars[i] != '\n' && Cells(chars, start, i + 1, width) > max
    ensures LaidOutTo(wrapped, next, chars, max, width) && Filling(next, i, None, chars, max, width)
    ensures Narrow(chars, next, i + 1, max, width)
  {
    if lastBreak.Some? && lastBreak.value > start {
      WordWraps(rows, start, i, lastBreak.value, chars, max, width);
      wrapped, next := rows + [Row(start, lastBreak.value)], lastBreak.value;
    } else if i > start {
      EdgeWraps(rows, start, i, chars, max, width);
      wrapped, next := rows + [Row(start, i)], i;
    } else {
      wrapped, next := rows, start;
    }
  }

  method Rows(chars: string, atMost: nat, width: Width) returns (rows: seq<Row>)
    requires width(' ') == 1
    ensures LaidOut(rows, chars, if atMost > 1 then atMost else 1, width)
  {
    var max: nat := if atMost > 1 then atMost else 1;
    rows := [];
    var start: nat, used: nat, i: nat := 0, 0, 0;
    var lastBreak: Option<nat> := None;
    while i < |chars|
      invariant LaidOutTo(rows, start, chars, max, width)
      invariant Filling(start, i, lastBreak, chars, max, width)
      invariant used == Cells(chars, start, i, width)
    {
      var c := chars[i];
      if c == '\n' {
        NewlineBreaks(rows, start, i, lastBreak, chars, max, width);
        rows := rows + [Row(start, i)];
        start, used, lastBreak, i := i + 1, 0, None, i + 1;
        continue;
      }
      var w := width(c);
      if used + w > max {
        if c == ' ' {
          HangingSpaceBreaks(rows, start, i, lastBreak, chars, max, width);
          rows := rows + [Row(start, i + 1)];
          start, used, lastBreak, i := i + 1, 0, None, i + 1;
          continue;
        }
        rows, start := Wrap(rows, start, i, lastBreak, chars, max, width);
        used := Cells(chars, start, i, width);
        lastBreak := None;
      }
      CharacterFills(start, i, lastBreak, chars, max, width);
      used := used + w;
      if c == ' ' {
        lastBreak := Some(i + 1);
      }
      i := i + 1;
    }
    assert (rows + [Row(start, |chars|)])[..|rows|] == rows;
    rows := rows + [Row(start, |chars|)];
  }

  // ----- What a layout promises -----

  lemma {:induction false} BreakInside(rows: seq<Row>, next: nat, chars: string, max: nat, width: Width, k: nat)
    requires LaidOutTo(rows, next, chars, max, width) && k < |rows|
    ensures Breaks(chars, rows[k], if k + 1 < |rows| then rows[k + 1].start else next, max, width)
    ensures rows[0].start == 0
    decreases |rows|
  {
    var n := |rows| - 1;
    if k < n {
      BreakInside(rows[..n], rows[n].start, chars, max, width, k);
    } else if n > 0 {
      BreakInside(rows[..n], rows[n].start, chars, max, width, 0);
    } else {
      assert rows[..n] == [];
    }
  }

  lemma BreakAfter(rows: seq<Row>, chars: string, max: nat, width: Width, k: nat)
    requires LaidOut(rows, chars, max, width) && k + 1 < |rows|
    ensures Breaks(chars, rows[k], rows[k + 1].start, max, width)
  {
    BreakInside(rows[..|rows| - 1], rows[|rows| - 1].start, chars, max, width, k);
  }

  lemma FirstRowStartsTheText(rows: seq<Row>, chars: string, max: nat, width: Width)
    requires LaidOut(rows, chars, max, width)
    ensures rows[0].start == 0
  {
    if |rows| > 1 {
      BreakInside(rows[..|rows| - 1], rows[|rows| - 1].start, chars, max, width, 0);
    } else {
      assert rows[..0] == [];
    }
  }

  lemma RowIsInText(rows: seq<Row>, chars: string, max: nat, width: Width, k: nat)
    requires LaidOut(rows, chars, max, width) && k < |rows|
    ensures InText(chars, rows[k])
  {
    if k + 1 < |rows| {
      BreakAfter(rows, chars, max, width, k);
    }
  }

  /** Later rows start later, at or after the end of the rows before. */
  lemma {:induction false} RowsAdvance(rows: seq<Row>, chars: string, max: nat, width: Width, k: nat, l: nat)
    requires LaidOut(rows, chars, max, width) && k < l < |rows|
    ensures rows[k].start < rows[l].start && rows[k].end <= rows[l].start
    decreases l
  {
    BreakAfter(rows, chars, max, width, l - 1);
    if k < l - 1 {
      RowsAdvance(rows, chars, max, width, k, l - 1);
    }
  }

  predicate AllInText(chars: string, rows: seq<Row>) {
    forall k :: 0 <= k < |rows| ==> InText(chars, rows[k])
  }

  lemma RowsAreInText(rows: seq<Row>, chars: string, max: nat, width: Width)
    requires LaidOut(rows, chars, max, width)
    ensures AllInText(chars, rows)
  {
    forall k | 0 <= k < |rows|
      ensures InText(chars, rows[k])
    {
      RowIsInText(rows, chars, max, width, k);
    }
  }

  /** The text of the rows from `k` on, with a newline wherever the next row
      leaves a gap. */
  function Rejoined(rows: seq<Row>, chars: string, k: nat): string
    requires k < |rows| && AllInText(chars, rows)
    decreases |rows| - k
  {
    var own := chars[rows[k].start..rows[k].end];
    if k + 1 == |rows| then own
    else own + (if rows[k + 1].start > rows[k].end then "\n" else "") + Rejoined(rows, chars, k + 1)
  }

  lemma {:induction false} RejoinedFrom(rows: seq<Row>, chars: string, max: nat, width: Width, k: nat)
    requires LaidOut(rows, chars, max, width) && k < |rows| && AllInText(chars, rows)
    ensures Rejoined(rows, chars, k) == chars[rows[k].start..]
    decreases |rows| - k
  {
    if k + 1 == |rows| {
    } else {
      BreakAfter(rows, chars, max, width, k);
      RejoinedFrom(rows, chars, max, width, k + 1);
      RowThenRest(chars, rows[k], rows[k + 1].start);
    }
  }

  lemma RowThenRest(chars: string, r: Row, next: nat)
    requires r.start <= r.end <= next <= |chars|
    requires next == r.end || (next == r.end + 1 && chars[r.end] == '\n')
    ensures chars[r.start..r.end] + (if next > r.end then "\n" else "") + chars[next..] == chars[r.start..]
  {
    assert chars[r.start..] == chars[r.start..r.end] + chars[r.end..];
    if next > r.end {
      assert chars[r.end..] == "\n" + chars[next..];
    }
  }

  /** A layout partitions the text: nothing but newlines is dropped, no newline
      is kept in a row, and rejoining the rows gives the text back. */
  lemma RowsPartitionTheText(rows: seq<Row>, chars: string, max: nat, width: Width)
    requires LaidOut(rows, chars, max, width)
    ensures AllInText(chars, rows)
    ensures Rejoined(rows, chars, 0) == chars
  {
    RowsAreInText(rows, chars, max, width);
    RejoinedFrom(rows, chars, max, width, 0);
    FirstRowStartsTheText(rows, chars, max, width);
  }

  // ----- Words -----

  /** A row that is not cut off by a newline ends inside a word only if it is
      all one word; and what it breaks before did not fit in it any more. */
  lemma WordsAreKeptWhole(rows: seq<Row>, chars: string, max: nat, width: Width, k: nat)
    requires LaidOut(rows, chars, max, width) && k + 1 < |rows|
    ensures AllInText(chars, rows)
    ensures var r, next := rows[k], rows[k + 1];
            next.start == r.end ==>
              && r.start < r.end
              && (chars[r.end - 1] != ' ' ==> forall i :: r.start <= i < r.end ==> chars[i] != ' ')
              && (|| Cells(chars, r.start, r.end, width) > max
                  || exists end: nat :: UnbrokenTo(chars, r, end) && Cells(chars, r.start, end, width) > max)
  {
    RowsAreInText(rows, chars, max, width);
    BreakAfter(rows, chars, max, width, k);
    var r := rows[k];
    if i: nat :| WordOverflows(chars, r.start, r.end, i, max, width) {
      assert UnbrokenTo(chars, r, i + 1);
    }
  }

  /** Neither space nor newline stands between the row's end and `end`. */
  predicate UnbrokenTo(chars: string, r: Row, end: nat)
    requires InText(chars, r)
  {
    r.end < end <= |chars| && forall j :: r.end <= j < end ==> chars[j] != ' ' && chars[j] != '\n'
  }

  // ----- Characters of one cell -----

  /** No character of a row takes more than one cell; a newline is in no row. */
  ghost predicate OneCell(width: Width) {
    width(' ') == 1 && forall c :: c != '\n' ==> width(c) <= 1
  }

  /** No wider than `max`, apart from one space hanging after a full row. */
  predicate Fits(chars: string, r: Row, max: nat, width: Width)
    requires InText(chars, r)
  {
    || Cells(chars, r.start, r.end, width) <= max
    || (r.start < r.end && chars[r.end - 1] == ' ' && Cells(chars, r.start, r.end - 1, width) == max)
  }

  /** With characters of one cell no row is wider than `max`, apart from one
      space hanging at the end of a row that is full without it. */
  lemma RowsFit(rows: seq<Row>, chars: string, max: nat, width: Width, k: nat)
    requires LaidOut(rows, chars, max, width) && OneCell(width) && k < |rows|
    ensures InText(chars, rows[k])
    ensures Fits(chars, rows[k], max, width)
  {
    RowIsInText(rows, chars, max, width, k);
    if k + 1 < |rows| {
      BreakAfter(rows, chars, max, width, k);
    }
  }

  /** The rows of every text fit. */
  ghost predicate AlwaysFits(max: nat, width: Width) {
    forall chars, rows, k: nat :: LaidOut(rows, chars, max, width) && k < |rows| ==> FitsAt(chars, rows, k, max, width)
  }

  predicate FitsAt(chars: string, rows: seq<Row>, k: nat, max: nat, width: Width)
    requires k < |rows|
  {
    InText(chars, rows[k]) && Fits(chars, rows[k], max, width)
  }

  /** A space, a word that with it fills the row, and one character more. */
  function FullRow(max: nat, wide: char): string
    requires max > 0
  {
    " " + seq(max - 1, _ => 'a') + [wide]
  }

  lemma {:induction false} CellsOfRun(chars: string, start: nat, end: nat, width: Width)
    requires start <= end <= |chars| && forall i :: start <= i < end ==> width(chars[i]) == 1
    ensures Cells(chars, start, end, width) == end - start
    decreases end
  {
    if start == end {
    } else {
      CellsOfRun(chars, start, end - 1, width);
    }
  }

  /** Such a text is cut after the space, and its second row takes the last
      character whatever its width. */
  lemma WideCharacterSticksOut(max: nat, wide: char, width: Width)
    requires max > 0 && width(' ') == 1 && width('a') == 1 && width(wide) > 1 && wide != '\n'
    ensures LaidOut([Row(0, 1), Row(1, max + 1)], FullRow(max, wide), max, width)
    ensures Cells(FullRow(max, wide), 1, max + 1, width) == max - 1 + width(wide)
  {
    var chars, first, second := FullRow(max, wide), Row(0, 1), Row(1, max + 1);
    CellsOfRun(chars, 0, max, width);
    CellsOfRun(chars, 1, max, width);
    CellsOfRun(chars, 0, 1, width);
    assert WordOverflows(chars, 0, 1, max, max, width);
    assert AtWord(chars, first, 1, max, width);
    assert [first, second][..1] == [first] && [first][..0] == [];
    assert LaidOutTo([first], 1, chars, max, width);
  }

  /** Whatever the width, the rows of every text fit exactly when no character
      of a row is wider than one cell. */
  lemma RowsAlwaysFitExactlyWhen(max: nat, width: Width)
    requires max > 0 && width(' ') == 1 && width('a') == 1
    ensures AlwaysFits(max, width) <==> OneCell(width)
  {
    if c :| c != '\n' && width(c) > 1 {
      WideCharacterSticksOut(max, c, width);
      var chars, rows := FullRow(max, c), [Row(0, 1), Row(1, max + 1)];
      assert !FitsAt(chars, rows, 1, max, width);
    } else {
      forall chars, rows, k: nat | LaidOut(rows, chars, max, width) && k < |rows|
        ensures FitsAt(chars, rows, k, max, width)
      {
        RowsFit(rows, chars, max, width, k);
      }
    }
  }

  ghost predicate Ends(chars: string, row: Row, next: Option<nat>, max: nat, width: Width) {
    match next
    case None => LastRow(chars, row, max, width)
    case Some(at) => Breaks(chars, row, at, max, width)
  }

  lemma FullerIsWider(chars: string, start: nat, mid: nat, end: nat, width: Width)
    requires start <= mid <= end <= |chars|
    ensures Cells(chars, start, mid, width) <= Cells(chars, start, end, width)
  {
    CellsSplit(chars, start, mid, end, width);
  }

  /** What fits into a row before its last character. */
  lemma FitsWithoutLast(chars: string, s: Row, after: Option<nat>, max: nat, width: Width, at: nat)
    requires OneCell(width) && Ends(chars, s, after, max, width) && s.start <= at < s.end
    ensures Cells(chars, s.start, at, width) <= max
    ensures Cells(chars, s.start, s.end, width) > max ==> chars[s.end - 1] == ' '
  {
    FullerIsWider(chars, s.start, at, s.end - 1, width);
    FullerIsWider(chars, s.start, s.end - 1, s.end, width);
  }

  lemma HangingSpaceIsFirst(chars: string, r: Row, next: nat, s: Row, after: Option<nat>, max: nat, width: Width)
    requires OneCell(width) && r.start == s.start && Ends(chars, s, after, max, width)
    requires InText(chars, r) && AtHangingSpace(chars, r, next, max, width)
    ensures r.end >= s.end
  {
    if r.end < s.end {
      FitsWithoutLast(chars, s, after, max, width, r.end);
    }
  }

  lemma EdgeIsFirst(chars: string, r: Row, next: nat, s: Row, after: Option<nat>, max: nat, width: Width)
    requires OneCell(width) && r.start == s.start && Ends(chars, s, after, max, width)
    requires InText(chars, r) && AtEdge(chars, r, next, max, width)
    ensures r.end >= s.end
  {
    if r.end + 1 < s.end {
      FitsWithoutLast(chars, s, after, max, width, r.end + 1);
    } else if r.end + 1 == s.end {
      FitsWithoutLast(chars, s, after, max, width, r.end);
    }
  }

  lemma WordIsFirst(chars: string, r: Row, s: Row, after: Option<nat>, i: nat, max: nat, width: Width)
    requires OneCell(width) && r.start == s.start && Ends(chars, s, after, max, width)
    requires InText(chars, r) && r.end > r.start && chars[r.end - 1] == ' '
    requires WordOverflows(chars, r.start, r.end, i, max, width)
    ensures r.end >= s.end
  {
    if i + 1 < s.end {
      FitsWithoutLast(chars, s, after, max, width, i + 1);
    } else if i + 1 == s.end {
      FitsWithoutLast(chars, s, after, max, width, i);
    } else if r.end < s.end {
      SpaceBeforeWord(chars, r, s, after, i, max, width);
    }
  }

  lemma SpaceBeforeWord(chars: string, r: Row, s: Row, after: Option<nat>, i: nat, max: nat, width: Width)
    requires r.start == s.start && Ends(chars, s, after, max, width)
    requires InText(chars, r) && r.end > r.start && chars[r.end - 1] == ' '
    requires WordOverflows(chars, r.start, r.end, i, max, width)
    ensures r.end >= s.end || s.end > i
  {
  }

  lemma NoEarlierEnd(chars: string, r: Row, next: Option<nat>, s: Row, after: Option<nat>, max: nat, width: Width)
    requires OneCell(width) && r.start == s.start
    requires Ends(chars, r, next, max, width) && Ends(chars, s, after, max, width)
    ensures r.end >= s.end
  {
    if next.Some? {
      if AtHangingSpace(chars, r, next.value, max, width) {
        HangingSpaceIsFirst(chars, r, next.value, s, after, max, width);
      } else if AtEdge(chars, r, next.value, max, width) {
        EdgeIsFirst(chars, r, next.value, s, after, max, width);
      } else if AtWord(chars, r, next.value, max, width) {
        var i :| WordOverflows(chars, r.start, r.end, i, max, width);
        WordIsFirst(chars, r, s, after, i, max, width);
      }
    }
  }

  lemma EndsOneWay(chars: string, r: Row, next: Option<nat>, s: Row, after: Option<nat>, max: nat, width: Width)
    requires OneCell(width) && r.start == s.start
    requires Ends(chars, r, next, max, width) && Ends(chars, s, after, max, width)
    ensures r == s && next == after
  {
    NoEarlierEnd(chars, r, next, s, after, max, width);
    NoEarlierEnd(chars, s, after, r, next, max, width);
  }

  function NextStart(rows: seq<Row>, k: nat): Option<nat> {
    if k + 1 < |rows| then Some(rows[k + 1].start) else None
  }

  lemma RowEnds(rows: seq<Row>, chars: string, max: nat, width: Width, k: nat)
    requires LaidOut(rows, chars, max, width) && k < |rows|
    ensures Ends(chars, rows[k], NextStart(rows, k), max, width)
  {
    if k + 1 < |rows| {
      BreakAfter(rows, chars, max, width, k);
    }
  }

  lemma SameStartSameRow(a: seq<Row>, b: seq<Row>, chars: string, max: nat, width: Width, k: nat)
    requires OneCell(width) && LaidOut(a, chars, max, width) && LaidOut(b, chars, max, width)
    requires k < |a| && k < |b| && a[k].start == b[k].start
    ensures a[k] == b[k] && NextStart(a, k) == NextStart(b, k)
  {
    RowEnds(a, chars, max, width, k);
    RowEnds(b, chars, max, width, k);
    EndsOneWay(chars, a[k], NextStart(a, k), b[k], NextStart(b, k), max, width);
  }

  lemma {:induction false} SameRowsTo(a: seq<Row>, b: seq<Row>, chars: string, max: nat, width: Width, k: nat)
    requires OneCell(width) && LaidOut(a, chars, max, width) && LaidOut(b, chars, max, width)
    requires k < |a|
    ensures k < |b| && a[k] == b[k] && NextStart(a, k) == NextStart(b, k)
    decreases k
  {
    if k == 0 {
      FirstRowStartsTheText(a, chars, max, width);
      FirstRowStartsTheText(b, chars, max, width);
    } else {
      SameRowsTo(a, b, chars, max, width, k - 1);
    }
    SameStartSameRow(a, b, chars, max, width, k);
  }

  /** With characters of one cell there is only one layout, so `Rows` returns it. */
  lemma LayoutIsUnique(a: seq<Row>, b: seq<Row>, chars: string, max: nat, width: Width)
    requires OneCell(width) && LaidOut(a, chars, max, width) && LaidOut(b, chars, max, width)
    ensures a == b
  {
    SameRowsTo(a, b, chars, max, width, |a| - 1);
    forall k | 0 <= k < |a|
      ensures k < |b| && a[k] == b[k]
    {
      SameRowsTo(a, b, chars, max, width, k);
    }
  }

  // ----- The cursor -----

  /** The last row that starts at or before `at`, or the first. */
  function RowOf(rows: seq<Row>, at: nat): (row: nat)
    requires rows != []
    ensures row < |rows|
    ensures rows[row].start <= at || row == 0
    ensures forall k :: row < k < |rows| ==> rows[k].start > at
  {
    if |rows| == 1 || rows[|rows| - 1].start <= at then |rows| - 1 else RowOf(rows[..|rows| - 1], at)
  }

  /** Where the cursor is shown: the row it is in, and the cells left of it. */
  function CursorIn(chars: string, rows: seq<Row>, at: nat, width: Width): (nat, nat)
    requires rows != [] && AllInText(chars, rows)
  {
    var row := RowOf(rows, at);
    var r := rows[row];
    var upTo := if at < r.end then at else r.end;
    var end := if upTo > r.start then upTo else r.start;
    (row, Cells(chars, r.start, end, width))
  }

  /** Every place in the text is within the bounds of its row, and before the
      next row's start. */
  lemma CursorIsInItsRow(chars: string, rows: seq<Row>, at: nat, max: nat, width: Width)
    requires LaidOut(rows, chars, max, width) && at <= |chars|
    ensures var row := RowOf(rows, at);
            && InText(chars, rows[row])
            && rows[row].start <= at <= rows[row].end
            && (row + 1 < |rows| ==> at < rows[row + 1].start)
  {
    var row := RowOf(rows, at);
    FirstRowStartsTheText(rows, chars, max, width);
    RowIsInText(rows, chars, max, width, row);
    if row + 1 < |rows| {
      BreakAfter(rows, chars, max, width, row);
    }
  }

  /** The cursor starts each row at its left edge, and moves right by a
      character's width when it passes one and stays in the row. */
  lemma CursorMovesByWidth(chars: string, rows: seq<Row>, at: nat, max: nat, width: Width)
    requires LaidOut(rows, chars, max, width) && at <= |chars|
    ensures AllInText(chars, rows)
    ensures CursorIn(chars, rows, at, width).0 == RowOf(rows, at)
    ensures rows[RowOf(rows, at)].start == at ==> CursorIn(chars, rows, at, width).1 == 0
    ensures at < |chars| && RowOf(rows, at + 1) == RowOf(rows, at) ==>
              CursorIn(chars, rows, at + 1, width).1 == CursorIn(chars, rows, at, width).1 + width(chars[at])
  {
    RowsAreInText(rows, chars, max, width);
    CursorIsInItsRow(chars, rows, at, max, width);
    if at < |chars| {
      CursorIsInItsRow(chars, rows, at + 1, max, width);
    }
  }

  lemma NoCellsExactlyWhen(chars: string, start: nat, end: nat, width: Width)
    requires start <= end <= |chars|
    ensures Cells(chars, start, end, width) == 0 <==> forall i :: start <= i < end ==> width(chars[i]) == 0
  {
  }

  /** Two places share a row and a column exactly when nothing between them
      takes a cell and no row starts between them. */
  lemma CursorsMeetExactlyWhen(chars: string, rows: seq<Row>, x: nat, y: nat, max: nat, width: Width)
    requires LaidOut(rows, chars, max, width) && x < y <= |chars|
    ensures AllInText(chars, rows)
    ensures CursorIn(chars, rows, x, width) == CursorIn(chars, rows, y, width)
            <==> && (forall i :: x <= i < y ==> width(chars[i]) == 0)
                 && (forall k :: 0 <= k < |rows| ==> !(x < rows[k].start <= y))
  {
    RowsAreInText(rows, chars, max, width);
    CursorIsInItsRow(chars, rows, x, max, width);
    CursorIsInItsRow(chars, rows, y, max, width);
    NoCellsExactlyWhen(chars, x, y, width);
    SameRowExactlyWhen(chars, rows, x, y, max, width);
    if RowOf(rows, x) == RowOf(rows, y) {
      CellsSplit(chars, rows[RowOf(rows, x)].start, x, y, width);
    }
  }

  lemma SameRowExactlyWhen(chars: string, rows: seq<Row>, x: nat, y: nat, max: nat, width: Width)
    requires LaidOut(rows, chars, max, width) && x < y <= |chars|
    ensures RowOf(rows, x) == RowOf(rows, y) <==> forall k :: 0 <= k < |rows| ==> !(x < rows[k].start <= y)
  {
    var a, b := RowOf(rows, x), RowOf(rows, y);
    CursorIsInItsRow(chars, rows, x, max, width);
    CursorIsInItsRow(chars, rows, y, max, width);
    if a == b {
      forall k | 0 <= k < |rows|
        ensures !(x < rows[k].start <= y)
      {
        if k < a {
          RowsAdvance(rows, chars, max, width, k, a);
        }
      }
    } else if a < b {
      assert x < rows[b].start <= y;
    }
  }

  /** When every character takes a cell, no two places share a row and column. */
  lemma CursorsNeverMeet(chars: string, rows: seq<Row>, x: nat, y: nat, max: nat, width: Width)
    requires LaidOut(rows, chars, max, width) && x < y <= |chars|
    requires forall c :: width(c) > 0
    ensures AllInText(chars, rows)
    ensures CursorIn(chars, rows, x, width) != CursorIn(chars, rows, y, width)
  {
    CursorsMeetExactlyWhen(chars, rows, x, y, max, width);
    assert width(chars[x]) > 0;
  }
}
