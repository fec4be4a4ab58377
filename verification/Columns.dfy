/** Lining up a chart's header with its data: parseColumns, over cells and integers that have already been
found on their lines. Which room a label means is a parameter; which integer a label belongs to is not. */
module Columns {
  import opened Types

  /** What bounds the first group on the left and the last on the right. */
  const LEFTMOST := -1_073_741_824
  const RIGHTMOST := 1_073_741_823

  /** A cell of the NIGHTS line: its offsets, and whether its text names a known room type, or is the row
      label NIGHTS itself. */
  datatype Cell = Cell(start: int, end: int, matched: bool, rowLabel: bool)

  /** A run of digits and where it starts. */
  datatype IntPos = IntPos(token: string, x: int)

  datatype ViewCode = ViewCode(text: string, x: int)

  datatype Room = Room(name: string, sleeps: int)

  datatype Column = Column(roomType: string, view: string, sleeps: int)

  datatype ParseError = NoIntegers | NoNightsLine | NoGroups

  /** What the header says: the cells of its NIGHTS line, its view codes, and the room that the text
      around a position means in a group (with or without a view code to go with it). */
  datatype Header = Header(nights: Option<seq<Cell>>, codes: seq<ViewCode>, room: (int, int, bool) -> Room)

  // ----- The integers of the first data row

  function RunEnd(s: string, i: nat): (j: nat)
    requires i <= |s|
    ensures i <= j <= |s|
    ensures forall k :: i <= k < j ==> IsDigit(s[k])
    ensures j == |s| || !IsDigit(s[j])
    decreases |s| - i
  {
    if i < |s| && IsDigit(s[i]) then RunEnd(s, i + 1) else i
  }

  /** The maximal runs of digits from offset i on, left to right. */
  function Integers(s: string, i: nat): seq<IntPos>
    requires i <= |s|
    decreases |s| - i
  {
    if i == |s| then []
    else if IsDigit(s[i]) then [IntPos(s[i..RunEnd(s, i)], i)] + Integers(s, RunEnd(s, i))
    else Integers(s, i + 1)
  }

  ghost predicate Ascending(data: seq<IntPos>) {
    forall i, j :: 0 <= i < j < |data| ==> data[i].x < data[j].x
  }

  lemma {:induction false} IntegersAscend(s: string, i: nat)
    requires i <= |s|
    ensures Ascending(Integers(s, i))
    ensures forall k :: 0 <= k < |Integers(s, i)| ==> i <= Integers(s, i)[k].x < |s|
    decreases |s| - i
  {
    if i < |s| {
      IntegersAscend(s, if IsDigit(s[i]) then RunEnd(s, i) else i + 1);
    }
  }

  /** p is a run of digits of the line, as long as it goes from where it starts. */
  ghost predicate IsRun(s: string, i: nat, p: IntPos) {
    && i <= p.x && p.x + |p.token| <= |s| && p.token != "" && p.token == s[p.x..p.x + |p.token|]
    && (forall k :: p.x <= k < p.x + |p.token| ==> '0' <= s[k] <= '9')
    && (p.x == i || !('0' <= s[p.x - 1] <= '9'))
    && (p.x + |p.token| == |s| || !('0' <= s[p.x + |p.token|] <= '9'))
  }

  /** The integers of a line are its maximal runs of digits, and every digit is in one. */
  lemma {:induction false} IntegersExact(s: string, i: nat)
    requires i <= |s|
    ensures forall k :: 0 <= k < |Integers(s, i)| ==> IsRun(s, i, Integers(s, i)[k])
    ensures forall j :: i <= j < |s| && '0' <= s[j] <= '9' ==>
              exists p :: p in Integers(s, i) && p.x <= j < p.x + |p.token|
    decreases |s| - i
  {
    if i < |s| {
      var next := if IsDigit(s[i]) then RunEnd(s, i) else i + 1;
      IntegersExact(s, next);
    }
  }

  lemma {:induction false} RunEndAfter(s: string, offset: nat, i: nat)
    requires offset + i <= |s|
    ensures RunEnd(s[offset..], i) + offset == RunEnd(s, offset + i)
    decreases |s| - i
  {
    if offset + i < |s| && IsDigit(s[offset + i]) {
      RunEndAfter(s, offset, i + 1);
    }
  }

  /** The same integers, further along by the offset. */
  ghost predicate Shifted(all: seq<IntPos>, rest: seq<IntPos>, offset: int) {
    |all| == |rest| && forall j :: 0 <= j < |all| ==> all[j] == rest[j].(x := rest[j].x + offset)
  }

  lemma ShiftedHead(head: IntPos, all: seq<IntPos>, rest: seq<IntPos>, offset: int)
    requires Shifted(all, rest, offset)
    ensures Shifted([head.(x := head.x + offset)] + all, [head] + rest, offset)
  {
  }

  /** Reading only the rest of the line, as the season rows are read, finds the same integers in the same
      order: value j of a row is the integer that anchors column j. */
  lemma {:induction false} IntegersAfter(s: string, offset: nat, i: nat)
    requires offset + i <= |s|
    ensures Shifted(Integers(s, offset + i), Integers(s[offset..], i), offset)
    decreases |s| - i
  {
    hide Shifted, Integers, RunEnd;
    var rest := s[offset..];
    IntegersHere(s, offset + i);
    IntegersHere(rest, i);
    if offset + i == |s| {
      NoneShifted(offset);
    } else {
      assert rest[i] == s[offset + i];
      if IsDigit(rest[i]) {
        RunEndAfter(s, offset, i);
        RunsOn(rest, i);
        var j := RunEnd(rest, i);
        assert rest[i..j] == s[offset + i..offset + j];
        IntegersAfter(s, offset, j);
        ShiftedHead(IntPos(rest[i..j], i), Integers(s, offset + j), Integers(rest, j), offset);
      } else {
        IntegersAfter(s, offset, i + 1);
      }
    }
  }

  lemma RunsOn(s: string, i: nat)
    requires i < |s| && IsDigit(s[i])
    ensures RunEnd(s, i) > i
  {
  }

  lemma IntegersHere(s: string, i: nat)
    requires i <= |s|
    ensures Integers(s, i) ==
            if i == |s| then []
            else if IsDigit(s[i]) then [IntPos(s[i..RunEnd(s, i)], i)] + Integers(s, RunEnd(s, i))
            else Integers(s, i + 1)
  {
  }

  lemma NoneShifted(offset: int)
    ensures Shifted([], [], offset)
  {
  }

  // ----- Group ranges

  /** Cells in order, not touching. */
  ghost predicate InOrder(cells: seq<Cell>) {
    && (forall i :: 0 <= i < |cells| ==> 0 <= cells[i].start < cells[i].end)
    && forall i :: 0 <= i < |cells| - 1 ==> cells[i].end < cells[i + 1].start
  }

  /** Where a group starts: at its label if the label is a known room type, which is left-aligned, and
      otherwise half way across the gap before it. */
  function BoundaryAt(prev: Cell, next: Cell): int {
    if next.matched then next.start else (prev.end + next.start + 1) / 2
  }

  function StartOf(groups: seq<Cell>, g: nat): int
    requires g < |groups|
  {
    if g == 0 then LEFTMOST else BoundaryAt(groups[g - 1], groups[g])
  }

  function EndOf(groups: seq<Cell>, g: nat): int
    requires g < |groups|
  {
    if g == |groups| - 1 then RIGHTMOST else BoundaryAt(groups[g], groups[g + 1])
  }

  /** Group starts are strictly increasing, each at or before its own label and after the one before: at the
      label when it names a known room type, and otherwise at the middle of the gap before it, or the offset
      after the middle when the gap has none. */
  lemma {:induction false} StartsAscend(groups: seq<Cell>, g: nat, h: nat)
    requires InOrder(groups) && g < h < |groups|
    ensures StartOf(groups, g) < StartOf(groups, h)
    ensures groups[h - 1].end < StartOf(groups, h) <= groups[h].start
    ensures groups[h].matched ==> StartOf(groups, h) == groups[h].start
    ensures !groups[h].matched ==>
              groups[h - 1].end + groups[h].start <= 2 * StartOf(groups, h) <= groups[h - 1].end + groups[h].start + 1
    ensures g > 0 ==> StartOf(groups, g) <= groups[g].start
  {
    if g < h - 1 {
      StartsAscend(groups, g, h - 1);
    }
  }

  /** The group whose range a position falls in: the last that starts at or before it. */
  function GroupOf(groups: seq<Cell>, g: nat, x: int): (r: nat)
    requires g < |groups|
    ensures r <= g
  {
    if g == 0 || StartOf(groups, g) <= x then g else GroupOf(groups, g - 1, x)
  }

  lemma {:induction false} GroupOfExact(groups: seq<Cell>, last: nat, g: nat, x: int)
    requires InOrder(groups) && g <= last < |groups|
    requires StartOf(groups, g) <= x && (g < last ==> x < StartOf(groups, g + 1))
    ensures GroupOf(groups, last, x) == g
    decreases last
  {
    if g < last {
      if g + 1 < last {
        StartsAscend(groups, g + 1, last);
      }
      GroupOfExact(groups, last - 1, g, x);
    }
  }

  /** The middle character of the gap before a label that names no known room type, when the gap has one,
      belongs to the group on its left; the one after it does not. */
  lemma MiddleFallsLeft(groups: seq<Cell>, g: nat, x: int)
    requires InOrder(groups) && 0 < g < |groups| && !groups[g].matched
    requires x - groups[g - 1].end == groups[g].start - 1 - x
    ensures GroupOf(groups, |groups| - 1, x) == g - 1 && GroupOf(groups, |groups| - 1, x + 1) == g
  {
    hide GroupOf, BoundaryAt;
    assert 0 <= groups[g - 1].start < groups[g - 1].end < groups[g].start < groups[g].end;
    StartsAscend(groups, g - 1, g);
    if g + 1 < |groups| {
      StartsAscend(groups, g, g + 1);
    }
    hide InOrder;
    GroupOfExact(groups, |groups| - 1, g - 1, x);
    GroupOfExact(groups, |groups| - 1, g, x + 1);
  }

  // ----- Positions within a range

  function ColsIn(data: seq<IntPos>, lo: int, hi: int): seq<IntPos> {
    if data == [] then []
    else
      var front, last := ColsIn(data[..|data| - 1], lo, hi), data[|data| - 1];
      if lo <= last.x < hi then front + [last] else front
  }

  function CodesIn(codes: seq<ViewCode>, lo: int, hi: int): seq<ViewCode> {
    if codes == [] then []
    else
      var front, last := CodesIn(codes[..|codes| - 1], lo, hi), codes[|codes| - 1];
      if lo <= last.x < hi then front + [last] else front
  }

  lemma {:induction false} ColsInMembers(data: seq<IntPos>, lo: int, hi: int)
    ensures forall d :: d in ColsIn(data, lo, hi) <==> d in data && lo <= d.x < hi
  {
    if data != [] {
      ColsInMembers(data[..|data| - 1], lo, hi);
      assert data == data[..|data| - 1] + [data[|data| - 1]];
    }
  }

  lemma {:induction false} ColsInAscend(data: seq<IntPos>, lo: int, hi: int)
    requires Ascending(data)
    ensures Ascending(ColsIn(data, lo, hi))
  {
    if data != [] {
      var front, last := data[..|data| - 1], data[|data| - 1];
      ColsInAscend(front, lo, hi);
      ColsInMembers(front, lo, hi);
      var cols := ColsIn(front, lo, hi);
      forall i | 0 <= i < |cols| ensures cols[i].x < last.x {
        assert cols[i] in cols;
      }
    }
  }

  /** A range's view codes are those that start within it, in their order on the line. */
  lemma {:induction false} CodesInExact(codes: seq<ViewCode>, lo: int, hi: int)
    requires forall i, j :: 0 <= i < j < |codes| ==> codes[i].x < codes[j].x
    ensures forall c :: c in CodesIn(codes, lo, hi) <==> c in codes && lo <= c.x < hi
    ensures forall i, j :: 0 <= i < j < |CodesIn(codes, lo, hi)| ==>
              CodesIn(codes, lo, hi)[i].x < CodesIn(codes, lo, hi)[j].x
  {
    if codes != [] {
      var before, last := codes[..|codes| - 1], codes[|codes| - 1];
      var front := CodesIn(before, lo, hi);
      CodesInExact(before, lo, hi);
      assert codes == before + [last];
      forall i | 0 <= i < |front| ensures front[i].x < last.x {
        assert front[i] in before;
      }
    }
  }

  lemma {:induction false} ColsInNone(data: seq<IntPos>, lo: int, hi: int)
    requires forall i :: 0 <= i < |data| ==> !(lo <= data[i].x < hi)
    ensures ColsIn(data, lo, hi) == []
  {
    if data != [] {
      ColsInNone(data[..|data| - 1], lo, hi);
    }
  }

  /** In ascending data the positions of two adjoining ranges follow one another. */
  lemma {:induction false} ColsInJoin(data: seq<IntPos>, lo: int, mid: int, hi: int)
    requires Ascending(data) && lo <= mid <= hi
    ensures ColsIn(data, lo, hi) == ColsIn(data, lo, mid) + ColsIn(data, mid, hi)
  {
    if data != [] {
      var front, last := data[..|data| - 1], data[|data| - 1];
      ColsInJoin(front, lo, mid, hi);
      if last.x < mid {
        ColsInNone(front, mid, hi);
      }
    }
  }

  lemma {:induction false} ColsInAll(data: seq<IntPos>, lo: int, hi: int)
    requires forall i :: 0 <= i < |data| ==> lo <= data[i].x < hi
    ensures ColsIn(data, lo, hi) == data
  {
    if data != [] {
      ColsInAll(data[..|data| - 1], lo, hi);
    }
  }

  /** A position's place in its range is the number of positions before it there. */
  lemma PlaceInRange(data: seq<IntPos>, lo: int, hi: int, i: nat)
    requires Ascending(data) && i < |ColsIn(data, lo, hi)|
    ensures |ColsIn(data, lo, ColsIn(data, lo, hi)[i].x)| == i
  {
    var cols := ColsIn(data, lo, hi);
    var x := cols[i].x;
    ColsInMembers(data, lo, hi);
    assert cols[i] in cols;
    ColsInJoin(data, lo, x, hi);
    var before, rest := ColsIn(data, lo, x), ColsIn(data, x, hi);
    ColsInMembers(data, lo, x);
    ColsInMembers(data, x, hi);
    ColsInAscend(data, lo, hi);
    forall b | 0 <= b < |before| ensures cols[b].x < x {
      assert before[b] in before;
    }
    forall c | |before| <= c < |cols| ensures cols[c].x >= x {
      assert rest[c - |before|] in rest;
    }
    assert |before| < |cols| ==> cols[|before|].x >= x;
  }

  // ----- What each integer's column is

  /** The column of a group's i-th position. */
  function ColumnAt(h: Header, group: Cell, g: nat, dp: IntPos, codes: seq<ViewCode>, i: nat): Column {
    var coded := group.matched && i < |codes|;
    var room := h.room(g, dp.x, coded);
    Column(room.name, if coded then codes[i].text else "", room.sleeps)
  }

  /** The column of one integer on its own: labelled for the group it falls in, with the view code of that
      group that has as many codes before it there as the integer has integers. */
  function ColumnFor(h: Header, groups: seq<Cell>, data: seq<IntPos>, dp: IntPos): Column
    requires groups != []
  {
    var g := GroupOf(groups, |groups| - 1, dp.x);
    var lo := StartOf(groups, g);
    ColumnAt(h, groups[g], g, dp, CodesIn(h.codes, lo, EndOf(groups, g)), |ColsIn(data, lo, dp.x)|)
  }

  /** What a position's column says, from the group whose range it falls in: a group with a known room type
      pairs its positions with its view codes in order, for as long as there are codes, and the others carry
      none. */
  lemma ColumnForExact(h: Header, groups: seq<Cell>, data: seq<IntPos>, dp: IntPos, g: nat)
    requires InOrder(groups) && g < |groups|
    requires StartOf(groups, g) <= dp.x && (g < |groups| - 1 ==> dp.x < StartOf(groups, g + 1))
    ensures var c := ColumnFor(h, groups, data, dp);
            var codes := CodesIn(h.codes, StartOf(groups, g), EndOf(groups, g));
            var place := |ColsIn(data, StartOf(groups, g), dp.x)|;
            && (groups[g].matched && place < |codes| ==>
              c.view == codes[place].text && Room(c.roomType, c.sleeps) == h.room(g, dp.x, true))
            && (!groups[g].matched || place >= |codes| ==>
              c.view == "" && Room(c.roomType, c.sleeps) == h.room(g, dp.x, false))
  {
    GroupOfExact(groups, |groups| - 1, g, dp.x);
  }

  function ColumnsFor(h: Header, groups: seq<Cell>, data: seq<IntPos>, part: seq<IntPos>): (r: seq<Column>)
    requires groups != []
    ensures |r| == |part|
    ensures forall j :: 0 <= j < |part| ==> r[j] == ColumnFor(h, groups, data, part[j])
  {
    if part == [] then []
    else ColumnsFor(h, groups, data, part[..|part| - 1]) + [ColumnFor(h, groups, data, part[|part| - 1])]
  }

  lemma {:induction false} ColumnsForJoin(h: Header, groups: seq<Cell>, data: seq<IntPos>,
                                           a: seq<IntPos>, b: seq<IntPos>)
    requires groups != []
    ensures ColumnsFor(h, groups, data, a + b) == ColumnsFor(h, groups, data, a) + ColumnsFor(h, groups, data, b)
  {
  }

  // ----- The parse

  /** Cells that are labels of the data region. */
  function GroupCells(cells: seq<Cell>, firstX: int): seq<Cell> {
    if cells == [] then []
    else
      var front, c := GroupCells(cells[..|cells| - 1], firstX), cells[|cells| - 1];
      if c.end + 5 < firstX || c.rowLabel then front else front + [c]
  }

  lemma {:induction false} GroupCellsInOrder(cells: seq<Cell>, firstX: int)
    requires InOrder(cells)
    ensures InOrder(GroupCells(cells, firstX))
    ensures var groups := GroupCells(cells, firstX);
            groups != [] ==> cells != [] && groups[|groups| - 1].end <= cells[|cells| - 1].end
  {
    if cells != [] {
      var before, c := cells[..|cells| - 1], cells[|cells| - 1];
      var front := GroupCells(before, firstX);
      GroupCellsInOrder(before, firstX);
      if front != [] {
        assert front[|front| - 1].end <= before[|before| - 1].end < c.start;
      }
      forall i | 0 <= i < |front| ensures (front + [c])[i].end < (front + [c])[i + 1].start {
        if i < |front| - 1 {
          assert front[i].end < front[i + 1].start;
        }
      }
    }
  }

  /** Labels are the cells that reach to within five characters of the first integer, but for the row's own. */
  lemma {:induction false} GroupCellsExact(cells: seq<Cell>, firstX: int)
    ensures forall c :: c in GroupCells(cells, firstX) <==> c in cells && firstX <= c.end + 5 && !c.rowLabel
  {
    if cells != [] {
      GroupCellsExact(cells[..|cells| - 1], firstX);
      assert cells == cells[..|cells| - 1] + [cells[|cells| - 1]];
    }
  }

  /** Positions the ranges of the first n groups take in. */
  function Reach(groups: seq<Cell>, n: nat): int
    requires n <= |groups|
  {
    if n == 0 then LEFTMOST
    else if n < |groups| then StartOf(groups, n)
    else if StartOf(groups, n - 1) > RIGHTMOST then StartOf(groups, n - 1) else RIGHTMOST
  }

  method FindCols(data: seq<IntPos>, lo: int, hi: int) returns (found: seq<IntPos>)
    ensures found == ColsIn(data, lo, hi)
  {
    found := [];
    for i := 0 to |data|
      invariant found == ColsIn(data[..i], lo, hi)
    {
      assert data[..i + 1][..i] == data[..i];
      if lo <= data[i].x < hi { found := found + [data[i]]; }
    }
    assert data[..|data|] == data;
  }

  method FindCodes(codes: seq<ViewCode>, lo: int, hi: int) returns (found: seq<ViewCode>)
    ensures found == CodesIn(codes, lo, hi)
  {
    found := [];
    for i := 0 to |codes|
      invariant found == CodesIn(codes[..i], lo, hi)
    {
      assert codes[..i + 1][..i] == codes[..i];
      if lo <= codes[i].x < hi { found := found + [codes[i]]; }
    }
    assert codes[..|codes|] == codes;
  }

  /** The positions that fall in a group, with the group's view codes in order. */
  method EmitGroup(h: Header, groups: seq<Cell>, g: nat, data: seq<IntPos>) returns (columns: seq<Column>)
    requires InOrder(groups) && g < |groups| && Ascending(data)
    ensures columns == ColumnsFor(h, groups, data, ColsIn(data, StartOf(groups, g), EndOf(groups, g)))
  {
    hide ColumnFor, StartOf, EndOf, InOrder, Ascending, Integers;
    var lo, hi := StartOf(groups, g), EndOf(groups, g);
    var colsInGroup := FindCols(data, lo, hi);
    columns := [];
    if |colsInGroup| == 0 { return; }
    var codesInGroup := FindCodes(h.codes, lo, hi);
    for i := 0 to |colsInGroup|
      invariant columns == ColumnsFor(h, groups, data, colsInGroup[..i])
    {
      var dp := colsInGroup[i];
      assert colsInGroup[..i + 1][..i] == colsInGroup[..i];
      InItsGroup(h, groups, g, data, i);
      if !groups[g].matched {
        var room := h.room(g, dp.x, false);
        columns := columns + [Column(room.name, "", room.sleeps)];
      } else {
        var view := "";
        if i < |codesInGroup| { view := codesInGroup[i].text; }
        var room := h.room(g, dp.x, i < |codesInGroup|);
        columns := columns + [Column(room.name, view, room.sleeps)];
      }
    }
    assert colsInGroup[..|colsInGroup|] == colsInGroup;
  }

  /** A position in a group's range is labelled for that group, at its place there. */
  lemma InItsGroup(h: Header, groups: seq<Cell>, g: nat, data: seq<IntPos>, i: nat)
    requires InOrder(groups) && g < |groups| && Ascending(data)
    requires i < |ColsIn(data, StartOf(groups, g), EndOf(groups, g))|
    ensures var lo, hi := StartOf(groups, g), EndOf(groups, g);
            var dp := ColsIn(data, lo, hi)[i];
            ColumnFor(h, groups, data, dp) == ColumnAt(h, groups[g], g, dp, CodesIn(h.codes, lo, hi), i)
  {
    var lo, hi := StartOf(groups, g), EndOf(groups, g);
    var cols := ColsIn(data, lo, hi);
    ColsInMembers(data, lo, hi);
    assert cols[i] in cols;
    GroupOfExact(groups, |groups| - 1, g, cols[i].x);
    PlaceInRange(data, lo, hi, i);
  }

  method EmitGroups(h: Header, groups: seq<Cell>, data: seq<IntPos>) returns (columns: seq<Column>)
    requires InOrder(groups) && groups != [] && Ascending(data)
    ensures columns == ColumnsFor(h, groups, data, ColsIn(data, LEFTMOST, Reach(groups, |groups|)))
  {
    columns := [];
    ColsInNone(data, LEFTMOST, LEFTMOST);
    assert ColsIn(data, LEFTMOST, Reach(groups, 0)) == [];
    hide Reach, ColumnFor, ColsIn, GroupCells, StartOf, EndOf, InOrder, Ascending;
    for g := 0 to |groups|
      invariant columns == ColumnsFor(h, groups, data, ColsIn(data, LEFTMOST, Reach(groups, g)))
    {
      var emitted := EmitGroup(h, groups, g, data);
      NextGroup(groups, g, data);
      ColumnsForJoin(h, groups, data, ColsIn(data, LEFTMOST, Reach(groups, g)),
                     ColsIn(data, StartOf(groups, g), EndOf(groups, g)));
      columns := columns + emitted;
    }
  }

  method FindGroups(cells: seq<Cell>, firstX: int) returns (groups: seq<Cell>)
    ensures groups == GroupCells(cells, firstX)
  {
    groups := [];
    for i := 0 to |cells|
      invariant groups == GroupCells(cells[..i], firstX)
    {
      assert cells[..i + 1][..i] == cells[..i];
      if cells[i].end + 5 < firstX { continue; }
      if cells[i].rowLabel { continue; }
      groups := groups + [cells[i]];
    }
    assert cells[..|cells|] == cells;
  }

  /** The columns of a chart's first data row, or why there are none. */
  function ColumnsOf(h: Header, data: seq<IntPos>): Result<seq<Column>, ParseError> {
    if data == [] then Err(NoIntegers)
    else if h.nights.None? then Err(NoNightsLine)
    else
      var groups := GroupCells(h.nights.value, data[0].x);
      if groups == [] then Err(NoGroups)
      else Ok(ColumnsFor(h, groups, data, ColsIn(data, LEFTMOST, Reach(groups, |groups|))))
  }

  method ParseColumns(h: Header, data: seq<IntPos>) returns (r: Result<seq<Column>, ParseError>)
    requires Ascending(data) && forall j :: 0 <= j < |data| ==> data[j].x >= 0
    requires h.nights.Some? ==> InOrder(h.nights.value)
    ensures r == ColumnsOf(h, data)
    ensures r == Err(NoIntegers) <==> data == []
    ensures r == Err(NoNightsLine) <==> data != [] && h.nights.None?
    ensures r == Err(NoGroups) <==>
              data != [] && h.nights.Some? &&
              forall c :: c in h.nights.value ==> c.end + 5 < data[0].x || c.rowLabel
  {
    if |data| == 0 { return Err(NoIntegers); }
    if h.nights.None? { return Err(NoNightsLine); }
    var cells, firstX := h.nights.value, data[0].x;
    var groups := FindGroups(cells, firstX);
    GroupCellsExact(cells, firstX);
    if |groups| == 0 { return Err(NoGroups); }
    GroupCellsInOrder(cells, firstX);
    var columns := EmitGroups(h, groups, data);
    return Ok(columns);
  }

  /** Group by group, the ranges take in the positions from the left without gap or overlap. */
  lemma NextGroup(groups: seq<Cell>, g: nat, data: seq<IntPos>)
    requires InOrder(groups) && g < |groups| && Ascending(data)
    ensures ColsIn(data, LEFTMOST, Reach(groups, g + 1)) ==
            ColsIn(data, LEFTMOST, Reach(groups, g)) + ColsIn(data, StartOf(groups, g), EndOf(groups, g))
  {
    var lo, hi := StartOf(groups, g), EndOf(groups, g);
    if g > 0 {
      StartsAscend(groups, 0, g);
    }
    if g < |groups| - 1 {
      StartsAscend(groups, g, g + 1);
    }
    if lo <= hi {
      ColsInJoin(data, LEFTMOST, lo, hi);
    } else {
      ColsInNone(data, lo, hi);
    }
  }

  /** Every integer of the row gets exactly one column, in order, so that column j goes with value j; but
      only as long as the row stays left of the last group's end. */
  lemma OneColumnEach(h: Header, groups: seq<Cell>, data: seq<IntPos>)
    requires InOrder(groups) && groups != [] && Ascending(data)
    requires forall j :: 0 <= j < |data| ==> data[j].x >= 0
    ensures var columns := ColumnsFor(h, groups, data, ColsIn(data, LEFTMOST, Reach(groups, |groups|)));
            && (|columns| == |data| <==> data == [] || data[|data| - 1].x < Reach(groups, |groups|))
            && (|columns| == |data| ==> forall j :: 0 <= j < |data| ==>
              columns[j] == ColumnFor(h, groups, data, data[j]))
  {
    var reach := Reach(groups, |groups|);
    if data == [] || data[|data| - 1].x < reach {
      ColsInAll(data, LEFTMOST, reach);
    } else {
      ColsInShorter(data[..|data| - 1], LEFTMOST, reach);
    }
  }

  /** For the text of a row: the parse gives one column for each of the values that reading the rest of the
      row gives, and column j is the one that value j calls for, exactly as long as the last of them stays
      left of the last group's end; which is always so in a line of ordinary length. */
  lemma ColumnsMatchValues(h: Header, s: string, offset: nat)
    requires offset <= |s| && h.nights.Some? && InOrder(h.nights.value)
    requires ColumnsOf(h, Integers(s, offset)).Ok?
    ensures var data, values := Integers(s, offset), Integers(s[offset..], 0);
            var columns, groups := ColumnsOf(h, data).value, GroupCells(h.nights.value, data[0].x);
            && (|columns| == |values| <==> data[|data| - 1].x < Reach(groups, |groups|))
            && (|s| <= 1_073_741_823 ==> |columns| == |values|)
            && (|columns| == |values| ==> forall j :: 0 <= j < |values| ==>
              columns[j] == ColumnFor(h, groups, data, values[j].(x := values[j].x + offset)))
  {
    hide Integers, ColumnFor, ColsIn, ColumnsFor, GroupCells, InOrder, StartOf, Shifted;
    var data, values := Integers(s, offset), Integers(s[offset..], 0);
    IntegersAscend(s, offset);
    IntegersAfter(s, offset, 0);
    var groups := GroupCells(h.nights.value, data[0].x);
    GroupCellsInOrder(h.nights.value, data[0].x);
    ColumnsOfShifted(h, groups, data, values, offset);
  }

  lemma ColumnsOfShifted(h: Header, groups: seq<Cell>, data: seq<IntPos>, values: seq<IntPos>, offset: nat)
    requires InOrder(groups) && groups != [] && Ascending(data) && data != [] && Shifted(data, values, offset)
    requires forall j :: 0 <= j < |data| ==> data[j].x >= 0
    ensures var columns := ColumnsFor(h, groups, data, ColsIn(data, LEFTMOST, Reach(groups, |groups|)));
            && |data| == |values|
            && (|columns| == |values| <==> data[|data| - 1].x < Reach(groups, |groups|))
            && (|columns| == |values| ==> forall j :: 0 <= j < |values| ==>
              columns[j] == ColumnFor(h, groups, data, values[j].(x := values[j].x + offset)))
  {
    hide ColumnFor, ColsIn, InOrder, Reach;
    OneColumnEach(h, groups, data);
  }

  lemma {:induction false} ColsInShorter(data: seq<IntPos>, lo: int, hi: int)
    ensures |ColsIn(data, lo, hi)| <= |data|
  {
    if data != [] {
      ColsInShorter(data[..|data| - 1], lo, hi);
    }
  }
}
