/**
 * The filter pass over a control network (pvl.py: `point_in_measures`,
 * `filter_coreg_result`, `count_ignored`): control points whose measures
 * match a flagged statistics row get an ` Ignore = True` line, and every
 * other line is written back unchanged.
 *
 * `FilterBlock` and `FilterPieces` define the pass on the joined lines of the
 * network; `FilterCoregResult` is the pass itself, reading the network through
 * a `LineCursor`, and is proved to produce what `FilterPieces` says.
 */
module FilterPass {
  import opened Options
  import opened Text
  import opened Scanner
  import opened Codec

  // ---------------------------------------------------------------------
  // point_in_measures
  // ---------------------------------------------------------------------

  /** The columns of a flagged statistics row that `point_in_measures` reads. */
  datatype StatsRow = StatsRow(
    sampleDifference: real,
    lineDifference: real,
    sample: real,
    line: real,
    translatedSample: real,
    translatedLine: real)

  /** `math.isclose(a, b, abs_tol=0.01)`, left abstract; `IsClose` is the function it stands for. */
  type Closeness = (real, real) -> bool

  /** Python's `abs` on a real. */
  function Abs(x: real): real {
    if x < 0.0 then -x else x
  }

  function Max(a: real, b: real): real {
    if a < b then b else a
  }

  /** `math.isclose`'s default relative tolerance, 1e-9. */
  const RelTol: real := 0.000000001

  /** The absolute tolerance `point_in_measures` passes to `math.isclose`. */
  const AbsTol: real := 0.01

  /** `math.isclose(a, b, abs_tol=0.01)` on exact reals. */
  function IsClose(a: real, b: real): bool {
    Abs(a - b) <= Max(RelTol * Max(Abs(a), Abs(b)), AbsTol)
  }

  /** Closeness does not depend on the order of its arguments, and values within 0.01 are close. */
  lemma IsCloseProperties(a: real, b: real)
    ensures IsClose(a, b) == IsClose(b, a)
    ensures Abs(a - b) <= AbsTol ==> IsClose(a, b)
  {
    assert Abs(a - b) == Abs(b - a);
  }

  /** Near zero the absolute tolerance decides: 0.01 apart is close, 0.0101 apart is not. */
  lemma IsCloseNearZero()
    ensures IsClose(0.0, 0.01)
    ensures !IsClose(0.0, 0.0101)
  {
  }

  /** `pvl_dict_measures.get(key, -1)` for a key whose cleaned value is a number. */
  function MeasureValue(d: map<string, Value>, key: string): (x: real)
    ensures key !in d ==> x == -1.0
    ensures key in d && d[key].Float? ==> x == d[key].x
  {
    if key in d && d[key].Float? then d[key].x else -1.0
  }

  /** The row's original or translated position is close to the measure's `Sample` and `Line`. */
  predicate SamePoint(row: StatsRow, d: map<string, Value>, close: Closeness) {
    || (close(row.sample, MeasureValue(d, "Sample")) && close(row.line, MeasureValue(d, "Line")))
    || (close(row.translatedSample, MeasureValue(d, "Sample")) && close(row.translatedLine, MeasureValue(d, "Line")))
  }

  /** The row's differences are close to the measure's residuals. */
  predicate SameResidual(row: StatsRow, d: map<string, Value>, close: Closeness) {
    && close(row.sampleDifference, MeasureValue(d, "SampleResidual"))
    && close(row.lineDifference, MeasureValue(d, "LineResidual"))
  }

  predicate RowMatches(row: StatsRow, d: map<string, Value>, close: Closeness) {
    SamePoint(row, d, close) && SameResidual(row, d, close)
  }

  /**
   * With `math.isclose` itself as the closeness: a row whose original
   * position and differences are each within 0.01 of the measure's
   * `Sample`, `Line` and residuals matches it.
   */
  lemma RowMatchesWithinTolerance(row: StatsRow, d: map<string, Value>)
    requires forall k :: k in ["Sample", "Line", "SampleResidual", "LineResidual"] ==> k in d && d[k].Float?
    requires Abs(row.sample - d["Sample"].x) <= AbsTol && Abs(row.line - d["Line"].x) <= AbsTol
    requires Abs(row.sampleDifference - d["SampleResidual"].x) <= AbsTol
    requires Abs(row.lineDifference - d["LineResidual"].x) <= AbsTol
    ensures RowMatches(row, d, IsClose)
  {
    IsCloseProperties(row.sample, d["Sample"].x);
    IsCloseProperties(row.line, d["Line"].x);
    IsCloseProperties(row.sampleDifference, d["SampleResidual"].x);
    IsCloseProperties(row.lineDifference, d["LineResidual"].x);
  }

  /** Some flagged row matches the measures. */
  predicate AnyRowMatches(rows: seq<StatsRow>, d: map<string, Value>, close: Closeness) {
    exists i :: 0 <= i < |rows| && RowMatches(rows[i], d, close)
  }

  /** Python's `point_in_measures`: a flag set by each row in turn, leaving the loop at the first match. */
  method PointInMeasures(rows: seq<StatsRow>, d: map<string, Value>, close: Closeness) returns (res: bool)
    ensures res <==> AnyRowMatches(rows, d, close)
    ensures rows == [] ==> !res
  {
    res := false;
    for i := 0 to |rows|
      invariant !res
      invariant forall j :: 0 <= j < i ==> !RowMatches(rows[j], d, close)
    {
      res := SamePoint(rows[i], d, close) && SameResidual(rows[i], d, close);
      if res {
        return;
      }
    }
  }

  // ---------------------------------------------------------------------
  // The pass on joined lines
  // ---------------------------------------------------------------------

  /** The line the pass inserts into a control point it marks. */
  const IgnoreLine: string := " Ignore = True\n"

  const PointMarkers: seq<string> := ["Object", "=", "ControlPoint"]
  const MeasureMarkers: seq<string> := ["Group", "=", "ControlMeasure"]
  const EndObjectMarkers: seq<string> := ["End_Object"]

  /** An emitted line: one of the network's own, or an inserted ` Ignore = True` line. */
  datatype Piece = Kept(line: string) | IgnoreMark

  function PieceLine(p: Piece): string {
    match p
    case Kept(l) => l
    case IgnoreMark => IgnoreLine
  }

  /** The lines of the network the pieces stand for. */
  function Render(ps: seq<Piece>): (r: seq<string>)
    ensures |r| == |ps|
    ensures forall i :: 0 <= i < |ps| ==> r[i] == PieceLine(ps[i])
  {
    seq(|ps|, i requires 0 <= i < |ps| => PieceLine(ps[i]))
  }

  /** Network lines passed through unchanged. */
  function KeepAll(lines: seq<string>): (ps: seq<Piece>)
    ensures |ps| == |lines|
    ensures forall i :: 0 <= i < |lines| ==> ps[i] == Kept(lines[i])
  {
    seq(|lines|, i requires 0 <= i < |lines| => Kept(lines[i]))
  }

  /** The network's own lines among the pieces, without the insertions. */
  function KeptLines(ps: seq<Piece>): seq<string>
    decreases |ps|
  {
    if ps == [] then []
    else (if ps[0].Kept? then [ps[0].line] else []) + KeptLines(ps[1..])
  }

  /** Number of inserted ` Ignore = True` lines. */
  function Marks(ps: seq<Piece>): nat
    decreases |ps|
  {
    if ps == [] then 0 else (if ps[0].IgnoreMark? then 1 else 0) + Marks(ps[1..])
  }

  /** Python's `lst[:-1]`: all but the last element (nothing for an empty list). */
  function DropLast<T>(s: seq<T>): seq<T> {
    if s == [] then [] else s[..|s| - 1]
  }

  /** `pieces` appended after `done`, unless the pass raised. */
  function Prepend(done: seq<Piece>, r: Option<seq<Piece>>): Option<seq<Piece>> {
    match r
    case None => None
    case Some(ps) => Some(done + ps)
  }

  /** What one turn of the pass's loop emits, the line it stops on, and the joined lines it leaves. */
  datatype Block = Block(pieces: seq<Piece>, found: string, rest: seq<string>)

  /**
   * One turn of `filter_coreg_result`'s loop on the joined lines `lines`:
   * the lines up to an `Object = ControlPoint` line, then the point's lines
   * up to its first `Group = ControlMeasure` line; when the point has a
   * `PointId` and no `Ignore`, also its measures up to `End_Object`, with
   * ` Ignore = True` put in front of the point's lines when a flagged row
   * matches the measures. `None` where cleaning a dictionary raises.
   */
  function FilterBlock(lines: seq<string>, flagged: seq<StatsRow>, parse: FloatParser, close: Closeness): (r: Option<Block>)
    ensures r.Some? ==> |r.value.rest| <= |lines| && (r.value.found != "" ==> |r.value.rest| < |lines|)
    ensures r.Some? && r.value.found == "" ==> r.value.rest == []
  {
    var t1 := TakeTill(lines, PointMarkers);
    var t2 := TakeTill(t1.rest, MeasureMarkers);
    TakeTillNothingFound(t1.rest, MeasureMarkers);
    TakeTillNothingFound(t2.rest, EndObjectMarkers);
    match Cleaned(GroupToDict(DropLast(t2.head)), parse)
    case None => None
    case Some(pd) =>
      if "PointId" in pd && "Ignore" !in pd then
        var t3 := TakeTill(t2.rest, EndObjectMarkers);
        match Cleaned(GroupToDict(DropLast(t3.head)), parse)
        case None => None
        case Some(md) =>
          var mark := if AnyRowMatches(flagged, md, close) then [IgnoreMark] else [];
          Some(Block(KeepAll(t1.head) + mark + KeepAll(t2.head) + KeepAll(t3.head), t3.found, t3.rest))
      else
        Some(Block(KeepAll(t1.head) + KeepAll(t2.head), t2.found, t2.rest))
  }

  /** The pieces `filter_coreg_result` emits for the joined lines `lines`, or `None` where it raises. */
  function FilterPieces(lines: seq<string>, flagged: seq<StatsRow>, parse: FloatParser, close: Closeness): Option<seq<Piece>>
    decreases |lines|
  {
    match FilterBlock(lines, flagged, parse, close)
    case None => None
    case Some(b) =>
      if b.found == "" then Some(b.pieces)
      else Prepend(b.pieces, FilterPieces(b.rest, flagged, parse, close))
  }

  lemma PrependAppend(a: seq<Piece>, b: seq<Piece>, r: Option<seq<Piece>>)
    ensures Prepend(a, Prepend(b, r)) == Prepend(a + b, r)
  {
    if r.Some? {
      assert a + (b + r.value) == (a + b) + r.value;
    }
  }

  lemma RenderAppend(a: seq<Piece>, b: seq<Piece>)
    ensures Render(a + b) == Render(a) + Render(b)
  {
  }

  lemma RenderKeepAll(lines: seq<string>)
    ensures Render(KeepAll(lines)) == lines
  {
  }

  /** The lines of one block's pieces: the network's lines, with the insertion where it was made. */
  lemma RenderBlock(head: seq<string>, mark: bool, grp: seq<string>, measures: seq<string>)
    ensures Render(KeepAll(head) + (if mark then [IgnoreMark] else []) + KeepAll(grp) + KeepAll(measures))
         == head + ((if mark then [IgnoreLine] else []) + grp) + measures
    ensures Render(KeepAll(head) + KeepAll(grp)) == head + grp
  {
    var ps := KeepAll(head) + (if mark then [IgnoreMark] else []) + KeepAll(grp) + KeepAll(measures);
    var ls := head + ((if mark then [IgnoreLine] else []) + grp) + measures;
    assert |Render(ps)| == |ls|;
    forall i | 0 <= i < |ls|
      ensures Render(ps)[i] == ls[i]
    {
      var k := if mark then 1 else 0;
      if i < |head| {
      } else if i < |head| + k {
      } else if i < |head| + k + |grp| {
        assert ps[i] == Kept(grp[i - |head| - k]);
      } else {
        assert ps[i] == Kept(measures[i - |head| - k - |grp|]);
      }
    }
  }

  // ---------------------------------------------------------------------
  // filter_coreg_result
  // ---------------------------------------------------------------------

  /** What `filter_coreg_result` does. */
  datatype FilterOutcome =
    | NothingFlagged                                  // no flagged rows: returns 0, the network is not read
    | Raised                                          // `float` raised while cleaning a dictionary
    | Written(network: seq<string>, returned: nat)    // the lines written out, and the value returned

  /**
   * The loop body's effect as one `FilterBlock`: the reads of one turn, with
   * the point's and the measures' dictionaries, make up the block.
   */
  lemma FilterBlockOfReads(
    lines: seq<string>, flagged: seq<StatsRow>, parse: FloatParser, close: Closeness,
    t1: Take, t2: Take, pd: map<string, Value>)
    requires t1 == TakeTill(lines, PointMarkers) && t2 == TakeTill(t1.rest, MeasureMarkers)
    requires Cleaned(GroupToDict(DropLast(t2.head)), parse) == Some(pd)
    ensures !("PointId" in pd && "Ignore" !in pd) ==>
              FilterBlock(lines, flagged, parse, close) == Some(Block(KeepAll(t1.head) + KeepAll(t2.head), t2.found, t2.rest))
    ensures "PointId" in pd && "Ignore" !in pd ==>
              var t3 := TakeTill(t2.rest, EndObjectMarkers);
              match Cleaned(GroupToDict(DropLast(t3.head)), parse)
              case None => FilterBlock(lines, flagged, parse, close).None?
              case Some(md) =>
                FilterBlock(lines, flagged, parse, close)
                == Some(Block(KeepAll(t1.head) + (if AnyRowMatches(flagged, md, close) then [IgnoreMark] else [])
                              + KeepAll(t2.head) + KeepAll(t3.head), t3.found, t3.rest))
  {
  }

  /**
   * One turn of `filter_coreg_result`'s loop: reads a control point and,
   * when it is a candidate, its measures; returns the lines to emit and the
   * last line read, or reports that cleaning a dictionary raised.
   */
  method FilterTurn(f: LineCursor, flagged: seq<StatsRow>, parse: FloatParser, close: Closeness)
    returns (emitted: seq<string>, line: string, raised: bool, ghost pieces: seq<Piece>)
    requires f.Valid()
    modifies f
    ensures f.Valid()
    ensures raised ==> FilterBlock(old(f.Pending()), flagged, parse, close).None?
    ensures !raised ==> FilterBlock(old(f.Pending()), flagged, parse, close) == Some(Block(pieces, line, f.Pending()))
    ensures !raised ==> emitted == Render(pieces)
  {
    ghost var pending := f.Pending();
    var head;
    head, line := f.ReadTill(PointMarkers);
    ghost var t1 := TakeTill(pending, PointMarkers);
    var grp;
    grp, line := f.ReadTill(MeasureMarkers);
    ghost var t2 := TakeTill(t1.rest, MeasureMarkers);
    var pointDict := PvlGroupToDict(DropLast(grp));
    var cleanedPoint := CleanPvlDict(pointDict, parse);
    if cleanedPoint.None? {
      return [], line, true, [];
    }
    var pd := cleanedPoint.value;
    FilterBlockOfReads(pending, flagged, parse, close, t1, t2, pd);
    if "PointId" in pd && "Ignore" !in pd {
      var measures;
      measures, line := f.ReadTill(EndObjectMarkers);
      var measureDict := PvlGroupToDict(DropLast(measures));
      var cleanedMeasures := CleanPvlDict(measureDict, parse);
      if cleanedMeasures.None? {
        return [], line, true, [];
      }
      var hit := PointInMeasures(flagged, cleanedMeasures.value, close);
      pieces := KeepAll(head) + (if hit then [IgnoreMark] else []) + KeepAll(grp) + KeepAll(measures);
      RenderBlock(head, hit, grp, measures);
      if hit {
        grp := [IgnoreLine] + grp;
      } else {
        assert [] + grp == grp;
      }
      emitted := head + grp + measures;
    } else {
      pieces := KeepAll(head) + KeepAll(grp);
      RenderBlock(head, false, grp, []);
      emitted := head + grp;
    }
    raised := false;
  }

  /**
   * Python's `filter_coreg_result` on the raw lines of the network file,
   * given the rows `filter_points` flagged: with no flagged rows it returns 0
   * at once; otherwise it writes the lines `FilterPieces` describes and
   * returns the number of flagged rows.
   */
  method FilterCoregResult(raw: seq<string>, flagged: seq<StatsRow>, parse: FloatParser, close: Closeness)
    returns (out: FilterOutcome)
    ensures flagged == [] ==> out == NothingFlagged
    ensures flagged != [] ==>
              match FilterPieces(Joined(raw, ""), flagged, parse, close)
              case None => out == Raised
              case Some(ps) => out == Written(Render(ps), |flagged|)
  {
    if flagged == [] {
      return NothingFlagged;
    }
    ghost var all := Joined(raw, "");
    var f := new LineCursor(raw);
    var line := " ";
    var network: seq<string> := [];
    ghost var done: seq<Piece> := [];
    if FilterPieces(all, flagged, parse, close).Some? {
      assert [] + FilterPieces(all, flagged, parse, close).value == FilterPieces(all, flagged, parse, close).value;
    }
    while line != ""
      invariant f.Valid()
      invariant network == Render(done)
      invariant line != "" ==> FilterPieces(all, flagged, parse, close) == Prepend(done, FilterPieces(f.Pending(), flagged, parse, close))
      invariant line == "" ==> FilterPieces(all, flagged, parse, close) == Some(done)
      decreases |f.Pending()| + (if line != "" then 1 else 0)
    {
      var emitted, raised;
      ghost var pieces;
      emitted, line, raised, pieces := FilterTurn(f, flagged, parse, close);
      if raised {
        return Raised;
      }
      RenderAppend(done, pieces);
      PrependAppend(done, pieces, FilterPieces(f.Pending(), flagged, parse, close));
      network := network + emitted;
      done := done + pieces;
    }
    return Written(network, |flagged|);
  }

  // ---------------------------------------------------------------------
  // What the pass emits
  // ---------------------------------------------------------------------

  lemma {:induction false} KeptLinesAppend(a: seq<Piece>, b: seq<Piece>)
    ensures KeptLines(a + b) == KeptLines(a) + KeptLines(b)
    decreases |a|
  {
    if a != [] {
      KeptLinesAppend(a[1..], b);
      assert (a + b)[1..] == a[1..] + b;
    } else {
      assert a + b == b;
    }
  }

  lemma {:induction false} KeptLinesKeepAll(lines: seq<string>)
    ensures KeptLines(KeepAll(lines)) == lines
    decreases |lines|
  {
    if lines != [] {
      KeptLinesKeepAll(lines[1..]);
      assert KeepAll(lines)[1..] == KeepAll(lines[1..]);
    }
  }

  /** The network's lines among a block's pieces. */
  lemma KeptLinesOfBlock(head: seq<string>, mark: seq<Piece>, grp: seq<string>, measures: seq<string>)
    requires mark == [] || mark == [IgnoreMark]
    ensures KeptLines(KeepAll(head) + mark + KeepAll(grp) + KeepAll(measures)) == head + grp + measures
    ensures KeptLines(KeepAll(head) + KeepAll(grp)) == head + grp
  {
    KeptLinesKeepAll(head);
    KeptLinesKeepAll(grp);
    KeptLinesKeepAll(measures);
    KeptLinesAppend(KeepAll(head), mark);
    KeptLinesAppend(KeepAll(head) + mark, KeepAll(grp));
    KeptLinesAppend(KeepAll(head) + mark + KeepAll(grp), KeepAll(measures));
    KeptLinesAppend(KeepAll(head), KeepAll(grp));
    assert KeptLines(mark) == [];
    assert head + [] == head;
  }

  /** Reassembling successive reads: what each read took, then what the last one left. */
  lemma ReadsReassemble(lines: seq<string>, t1: Take, t2: Take, t3: Take)
    requires t1.head + t1.rest == lines && t2.head + t2.rest == t1.rest && t3.head + t3.rest == t2.rest
    ensures t1.head + t2.head + t2.rest == lines
    ensures t1.head + t2.head + t3.head + t3.rest == lines
  {
  }

  /** A block's own lines are the joined lines it consumed. */
  lemma BlockKeepsLines(lines: seq<string>, flagged: seq<StatsRow>, parse: FloatParser, close: Closeness)
    requires FilterBlock(lines, flagged, parse, close).Some?
    ensures var b := FilterBlock(lines, flagged, parse, close).value;
            KeptLines(b.pieces) + b.rest == lines
  {
    var t1 := TakeTill(lines, PointMarkers);
    var t2 := TakeTill(t1.rest, MeasureMarkers);
    var t3 := TakeTill(t2.rest, EndObjectMarkers);
    var b := FilterBlock(lines, flagged, parse, close).value;
    ReadsReassemble(lines, t1, t2, t3);
    var pd := Cleaned(GroupToDict(DropLast(t2.head)), parse).value;
    if "PointId" in pd && "Ignore" !in pd {
      var md := Cleaned(GroupToDict(DropLast(t3.head)), parse).value;
      var mark: seq<Piece> := if AnyRowMatches(flagged, md, close) then [IgnoreMark] else [];
      assert b == Block(KeepAll(t1.head) + mark + KeepAll(t2.head) + KeepAll(t3.head), t3.found, t3.rest);
      KeptLinesOfBlock(t1.head, mark, t2.head, t3.head);
    } else {
      assert b == Block(KeepAll(t1.head) + KeepAll(t2.head), t2.found, t2.rest);
      KeptLinesOfBlock(t1.head, [], t2.head, []);
    }
  }

  /**
   * The pass only inserts: without the ` Ignore = True` lines, what it emits
   * is the network's joined lines, in order.
   */
  lemma {:induction false} FilterKeepsLines(lines: seq<string>, flagged: seq<StatsRow>, parse: FloatParser, close: Closeness)
    requires FilterPieces(lines, flagged, parse, close).Some?
    ensures KeptLines(FilterPieces(lines, flagged, parse, close).value) == lines
    decreases |lines|
  {
    var b := FilterBlock(lines, flagged, parse, close).value;
    BlockKeepsLines(lines, flagged, parse, close);
    if b.found != "" {
      var more := FilterPieces(b.rest, flagged, parse, close).value;
      FilterKeepsLines(b.rest, flagged, parse, close);
      KeptLinesAppend(b.pieces, more);
    }
  }

  /** Every inserted ` Ignore = True` line directly follows an `Object = ControlPoint` line. */
  predicate MarksFollowPoints(ps: seq<Piece>) {
    forall i :: 0 <= i < |ps| && ps[i].IgnoreMark? ==> 0 < i && ps[i - 1].Kept? && Matches(PointMarkers, ps[i - 1].line)
  }

  lemma MarksFollowPointsAppend(a: seq<Piece>, b: seq<Piece>)
    requires MarksFollowPoints(a) && MarksFollowPoints(b)
    ensures MarksFollowPoints(a + b)
  {
    forall i | 0 <= i < |a + b| && (a + b)[i].IgnoreMark?
      ensures 0 < i && (a + b)[i - 1].Kept? && Matches(PointMarkers, (a + b)[i - 1].line)
    {
      if i >= |a| {
        assert (a + b)[i] == b[i - |a|];
        assert (a + b)[i - 1] == b[i - |a| - 1];
      }
    }
  }

  /** A point that has a `PointId` was found after an `Object = ControlPoint` line, which ends the lines before it. */
  lemma CandidateFollowsPoint(lines: seq<string>, parse: FloatParser, pd: map<string, Value>)
    requires Cleaned(GroupToDict(DropLast(TakeTill(TakeTill(lines, PointMarkers).rest, MeasureMarkers).head)), parse) == Some(pd)
    requires "PointId" in pd
    ensures var h := TakeTill(lines, PointMarkers).head;
            h != [] && Matches(PointMarkers, h[|h| - 1])
  {
    var t1 := TakeTill(lines, PointMarkers);
    var t2 := TakeTill(t1.rest, MeasureMarkers);
    assert "PointId" in GroupToDict(DropLast(t2.head));
    assert t1.rest != [];
  }

  /** Within one block, the insertion comes right after the block's `Object = ControlPoint` line. */
  lemma BlockMarksFollowPoints(lines: seq<string>, flagged: seq<StatsRow>, parse: FloatParser, close: Closeness)
    requires FilterBlock(lines, flagged, parse, close).Some?
    ensures MarksFollowPoints(FilterBlock(lines, flagged, parse, close).value.pieces)
  {
    var t1 := TakeTill(lines, PointMarkers);
    var t2 := TakeTill(t1.rest, MeasureMarkers);
    var pd := Cleaned(GroupToDict(DropLast(t2.head)), parse).value;
    if "PointId" in pd && "Ignore" !in pd {
      CandidateMarksFollowPoint(lines, flagged, parse, close, pd);
    } else {
      var b := FilterBlock(lines, flagged, parse, close).value;
      assert b.pieces == KeepAll(t1.head) + KeepAll(t2.head);
      MarkAfterHead(t1.head, false, t2.head, []);
    }
  }

  lemma CandidateMarksFollowPoint(lines: seq<string>, flagged: seq<StatsRow>, parse: FloatParser, close: Closeness, pd: map<string, Value>)
    requires FilterBlock(lines, flagged, parse, close).Some?
    requires Cleaned(GroupToDict(DropLast(TakeTill(TakeTill(lines, PointMarkers).rest, MeasureMarkers).head)), parse) == Some(pd)
    requires "PointId" in pd && "Ignore" !in pd
    ensures MarksFollowPoints(FilterBlock(lines, flagged, parse, close).value.pieces)
  {
    var t1 := TakeTill(lines, PointMarkers);
    var t2 := TakeTill(t1.rest, MeasureMarkers);
    var t3 := TakeTill(t2.rest, EndObjectMarkers);
    CandidateFollowsPoint(lines, parse, pd);
    MarkAfterHead(t1.head, true, t2.head, t3.head);
    MarkAfterHead(t1.head, false, t2.head, t3.head);
    FilterBlockOfReads(lines, flagged, parse, close, t1, t2, pd);
  }

  /** Where the only insertion of a block sits. */
  lemma MarkAfterHead(head: seq<string>, mark: bool, grp: seq<string>, measures: seq<string>)
    requires mark ==> head != [] && Matches(PointMarkers, head[|head| - 1])
    ensures MarksFollowPoints(KeepAll(head) + (if mark then [IgnoreMark] else []) + KeepAll(grp) + KeepAll(measures))
    ensures MarksFollowPoints(KeepAll(head) + KeepAll(grp))
  {
    var k := if mark then 1 else 0;
    var ps := KeepAll(head) + (if mark then [IgnoreMark] else []) + KeepAll(grp) + KeepAll(measures);
    forall i | 0 <= i < |ps| && (i < |head| || i >= |head| + k)
      ensures ps[i].Kept?
    {
      if i < |head| {
      } else if i < |head| + k + |grp| {
        assert ps[i] == Kept(grp[i - |head| - k]);
      } else {
        assert ps[i] == Kept(measures[i - |head| - k - |grp|]);
      }
    }
    if mark {
      assert ps[|head| - 1] == Kept(head[|head| - 1]);
    }
    var qs := KeepAll(head) + KeepAll(grp);
    forall i | 0 <= i < |qs|
      ensures qs[i].Kept?
    {
      if i >= |head| {
        assert qs[i] == Kept(grp[i - |head|]);
      }
    }
  }

  /** Every ` Ignore = True` line the pass inserts directly follows an `Object = ControlPoint` line. */
  lemma {:induction false} FilterMarksFollowPoints(lines: seq<string>, flagged: seq<StatsRow>, parse: FloatParser, close: Closeness)
    requires FilterPieces(lines, flagged, parse, close).Some?
    ensures MarksFollowPoints(FilterPieces(lines, flagged, parse, close).value)
    decreases |lines|
  {
    var b := FilterBlock(lines, flagged, parse, close).value;
    BlockMarksFollowPoints(lines, flagged, parse, close);
    if b.found != "" {
      FilterMarksFollowPoints(b.rest, flagged, parse, close);
      MarksFollowPointsAppend(b.pieces, FilterPieces(b.rest, flagged, parse, close).value);
    }
  }

  // ---------------------------------------------------------------------
  // Which points the pass marks
  // ---------------------------------------------------------------------

  /**
   * The control point whose lines are `after` (what follows its
   * `Object = ControlPoint` line) is one the pass marks: its dictionary, up
   * to its first `Group = ControlMeasure` line, has a `PointId` and no
   * `Ignore`, and the dictionary of its measures, up to `End_Object`,
   * matches a flagged row.
   */
  predicate Selected(after: seq<string>, flagged: seq<StatsRow>, parse: FloatParser, close: Closeness) {
    var t2 := TakeTill(after, MeasureMarkers);
    var t3 := TakeTill(t2.rest, EndObjectMarkers);
    match Cleaned(GroupToDict(DropLast(t2.head)), parse)
    case None => false
    case Some(pd) =>
      && "PointId" in pd && "Ignore" !in pd
      && (match Cleaned(GroupToDict(DropLast(t3.head)), parse)
          case None => false
          case Some(md) => AnyRowMatches(flagged, md, close))
  }

  /** `Selected` as a value, for the lemmas that only carry it along. */
  function SelectedBy(flagged: seq<StatsRow>, parse: FloatParser, close: Closeness): seq<string> -> bool {
    after => Selected(after, flagged, parse, close)
  }

  /** Every insertion among `ps` stands in front of lines `sel` accepts, the lines `rest` following the pieces. */
  predicate MarksBefore(ps: seq<Piece>, rest: seq<string>, sel: seq<string> -> bool) {
    forall j :: 0 <= j < |ps| && ps[j].IgnoreMark? ==> sel(KeptLines(ps[j + 1..]) + rest)
  }

  lemma KeepAllAppend(a: seq<string>, b: seq<string>)
    ensures KeepAll(a) + KeepAll(b) == KeepAll(a + b)
  {
  }

  lemma KeptNoMarks(lines: seq<string>, rest: seq<string>, sel: seq<string> -> bool)
    ensures MarksBefore(KeepAll(lines), rest, sel)
  {
  }

  /** In a marked block the only insertion follows the head, and the point's and measures' lines come after it. */
  lemma MarkedBlockShape(head: seq<string>, grp: seq<string>, measures: seq<string>)
    ensures var ps := KeepAll(head) + [IgnoreMark] + KeepAll(grp) + KeepAll(measures);
            && |head| < |ps| && ps[|head|].IgnoreMark?
            && KeptLines(ps[|head| + 1..]) == grp + measures
            && forall j :: 0 <= j < |ps| && ps[j].IgnoreMark? ==> j == |head|
  {
    var ps := KeepAll(head) + [IgnoreMark] + KeepAll(grp) + KeepAll(measures);
    forall j | 0 <= j < |ps| && j != |head|
      ensures ps[j].Kept?
    {
      if j < |head| {
      } else if j < |head| + 1 + |grp| {
        assert ps[j] == Kept(grp[j - |head| - 1]);
      } else {
        assert ps[j] == Kept(measures[j - |head| - 1 - |grp|]);
      }
    }
    assert ps[|head| + 1..] == KeepAll(grp) + KeepAll(measures);
    KeptLinesAppend(KeepAll(grp), KeepAll(measures));
    KeptLinesKeepAll(grp);
    KeptLinesKeepAll(measures);
  }

  /** A marked block's insertion stands in front of the point's and the measures' lines. */
  lemma MarkedBlockBefore(head: seq<string>, grp: seq<string>, measures: seq<string>, rest: seq<string>, sel: seq<string> -> bool)
    requires sel(grp + measures + rest)
    ensures MarksBefore(KeepAll(head) + [IgnoreMark] + KeepAll(grp) + KeepAll(measures), rest, sel)
  {
    MarkedBlockShape(head, grp, measures);
  }

  /** What a selected point's reads give: a candidate point whose measures match a flagged row. */
  lemma SelectedMeans(after: seq<string>, t2: Take, t3: Take, flagged: seq<StatsRow>, parse: FloatParser, close: Closeness)
    requires t2 == TakeTill(after, MeasureMarkers) && t3 == TakeTill(t2.rest, EndObjectMarkers)
    ensures Selected(after, flagged, parse, close) <==>
              && Cleaned(GroupToDict(DropLast(t2.head)), parse).Some?
              && "PointId" in Cleaned(GroupToDict(DropLast(t2.head)), parse).value
              && "Ignore" !in Cleaned(GroupToDict(DropLast(t2.head)), parse).value
              && Cleaned(GroupToDict(DropLast(t3.head)), parse).Some?
              && AnyRowMatches(flagged, Cleaned(GroupToDict(DropLast(t3.head)), parse).value, close)
    ensures (t2.head + t3.head) + t3.rest == after
  {
  }

  /** Within one block, the insertion, if any, stands in front of a selected point. */
  lemma BlockMarksSelected(lines: seq<string>, flagged: seq<StatsRow>, parse: FloatParser, close: Closeness)
    requires FilterBlock(lines, flagged, parse, close).Some?
    ensures var b := FilterBlock(lines, flagged, parse, close).value;
            MarksBefore(b.pieces, b.rest, SelectedBy(flagged, parse, close))
  {
    var sel := SelectedBy(flagged, parse, close);
    var t1 := TakeTill(lines, PointMarkers);
    var t2 := TakeTill(t1.rest, MeasureMarkers);
    var t3 := TakeTill(t2.rest, EndObjectMarkers);
    var pd := Cleaned(GroupToDict(DropLast(t2.head)), parse).value;
    FilterBlockOfReads(lines, flagged, parse, close, t1, t2, pd);
    if "PointId" in pd && "Ignore" !in pd {
      var md := Cleaned(GroupToDict(DropLast(t3.head)), parse).value;
      if AnyRowMatches(flagged, md, close) {
        SelectedMeans(t1.rest, t2, t3, flagged, parse, close);
        assert sel(t2.head + t3.head + t3.rest);
        MarkedBlockBefore(t1.head, t2.head, t3.head, t3.rest, sel);
      } else {
        assert KeepAll(t1.head) + [] == KeepAll(t1.head);
        KeepAllAppend(t1.head, t2.head);
        KeepAllAppend(t1.head + t2.head, t3.head);
        KeptNoMarks(t1.head + t2.head + t3.head, t3.rest, sel);
      }
    } else {
      KeepAllAppend(t1.head, t2.head);
      KeptNoMarks(t1.head + t2.head, t2.rest, sel);
    }
  }

  lemma SeqAssoc(x: seq<string>, y: seq<string>, z: seq<string>)
    ensures x + y + z == x + (y + z)
  {
  }

  lemma MarksBeforeAppend(a: seq<Piece>, b: seq<Piece>, rest: seq<string>, sel: seq<string> -> bool)
    requires MarksBefore(a, KeptLines(b) + rest, sel) && MarksBefore(b, rest, sel)
    ensures MarksBefore(a + b, rest, sel)
  {
    forall j | 0 <= j < |a + b| && (a + b)[j].IgnoreMark?
      ensures sel(KeptLines((a + b)[j + 1..]) + rest)
    {
      if j < |a| {
        var x := a[j + 1..];
        assert (a + b)[j] == a[j];
        assert (a + b)[j + 1..] == x + b;
        assert sel(KeptLines(x) + (KeptLines(b) + rest));
        KeptLinesAppend(x, b);
        SeqAssoc(KeptLines(x), KeptLines(b), rest);
      } else {
        var k := j - |a|;
        assert (a + b)[j] == b[k];
        assert (a + b)[j + 1..] == b[k + 1..];
      }
    }
  }

  lemma {:induction false} PassMarksSelected(lines: seq<string>, flagged: seq<StatsRow>, parse: FloatParser, close: Closeness)
    requires FilterPieces(lines, flagged, parse, close).Some?
    ensures MarksBefore(FilterPieces(lines, flagged, parse, close).value, [], SelectedBy(flagged, parse, close))
    decreases |lines|
  {
    var b := FilterBlock(lines, flagged, parse, close).value;
    BlockMarksSelected(lines, flagged, parse, close);
    if b.found != "" {
      var more := FilterPieces(b.rest, flagged, parse, close).value;
      PassMarksSelected(b.rest, flagged, parse, close);
      FilterKeepsLines(b.rest, flagged, parse, close);
      assert KeptLines(more) + [] == b.rest;
      MarksBeforeAppend(b.pieces, more, [], SelectedBy(flagged, parse, close));
    }
  }

  /**
   * Every ` Ignore = True` line the pass inserts directly follows an
   * `Object = ControlPoint` line, and the point whose lines follow it is
   * selected: it has a `PointId`, no `Ignore`, and measures matching a
   * flagged row.
   */
  lemma FilterMarksSelected(lines: seq<string>, flagged: seq<StatsRow>, parse: FloatParser, close: Closeness)
    requires FilterPieces(lines, flagged, parse, close).Some?
    ensures var ps := FilterPieces(lines, flagged, parse, close).value;
            forall j :: 0 <= j < |ps| && ps[j].IgnoreMark? ==>
              && 0 < j && ps[j - 1].Kept? && Matches(PointMarkers, ps[j - 1].line)
              && Selected(KeptLines(ps[j + 1..]), flagged, parse, close)
  {
    var ps := FilterPieces(lines, flagged, parse, close).value;
    FilterMarksFollowPoints(lines, flagged, parse, close);
    PassMarksSelected(lines, flagged, parse, close);
    forall j | 0 <= j < |ps| && ps[j].IgnoreMark?
      ensures Selected(KeptLines(ps[j + 1..]), flagged, parse, close)
    {
      assert KeptLines(ps[j + 1..]) + [] == KeptLines(ps[j + 1..]);
      assert SelectedBy(flagged, parse, close)(KeptLines(ps[j + 1..]));
    }
  }

  /** The pass starts a turn at `post`: `post` is `lines`, or the pass starts one there after its first turn on `lines`. */
  predicate TurnStartsAt(lines: seq<string>, post: seq<string>, flagged: seq<StatsRow>, parse: FloatParser, close: Closeness)
    decreases |lines|
  {
    || post == lines
    || match FilterBlock(lines, flagged, parse, close)
       case None => false
       case Some(b) => b.found != "" && TurnStartsAt(b.rest, post, flagged, parse, close)
  }

  /** A turn that reads a selected point inserts the line right after the point's `Object = ControlPoint` line. */
  lemma SelectedBlockMarked(lines: seq<string>, flagged: seq<StatsRow>, parse: FloatParser, close: Closeness)
    requires Selected(TakeTill(lines, PointMarkers).rest, flagged, parse, close)
    ensures FilterBlock(lines, flagged, parse, close).Some?
    ensures var b := FilterBlock(lines, flagged, parse, close).value;
            var t1 := TakeTill(lines, PointMarkers);
            && |t1.head| < |b.pieces| && b.pieces[|t1.head|].IgnoreMark?
            && KeptLines(b.pieces[|t1.head| + 1..]) + b.rest == t1.rest
  {
    var t1 := TakeTill(lines, PointMarkers);
    var t2 := TakeTill(t1.rest, MeasureMarkers);
    var t3 := TakeTill(t2.rest, EndObjectMarkers);
    SelectedMeans(t1.rest, t2, t3, flagged, parse, close);
    var pd := Cleaned(GroupToDict(DropLast(t2.head)), parse).value;
    FilterBlockOfReads(lines, flagged, parse, close, t1, t2, pd);
    var b := FilterBlock(lines, flagged, parse, close).value;
    assert b.pieces == KeepAll(t1.head) + [IgnoreMark] + KeepAll(t2.head) + KeepAll(t3.head) && b.rest == t3.rest;
    MarkedBlockShape(t1.head, t2.head, t3.head);
  }

  /**
   * The converse: wherever a turn of the pass starts on a point that is
   * selected, an ` Ignore = True` line is inserted in front of the point's
   * lines.
   */
  lemma {:induction false} SelectedPointsMarked(lines: seq<string>, post: seq<string>, flagged: seq<StatsRow>, parse: FloatParser, close: Closeness)
    requires FilterPieces(lines, flagged, parse, close).Some?
    requires TurnStartsAt(lines, post, flagged, parse, close)
    requires Selected(TakeTill(post, PointMarkers).rest, flagged, parse, close)
    ensures MarkBefore(FilterPieces(lines, flagged, parse, close).value, TakeTill(post, PointMarkers).rest)
    decreases |lines|
  {
    if post == lines {
      FirstTurnMarked(lines, flagged, parse, close);
    } else {
      var b := FilterBlock(lines, flagged, parse, close).value;
      SelectedPointsMarked(b.rest, post, flagged, parse, close);
      LaterTurnMarked(lines, flagged, parse, close, b, TakeTill(post, PointMarkers).rest);
    }
  }

  /** A first turn that reads a selected point marks it. */
  lemma FirstTurnMarked(lines: seq<string>, flagged: seq<StatsRow>, parse: FloatParser, close: Closeness)
    requires FilterPieces(lines, flagged, parse, close).Some?
    requires Selected(TakeTill(lines, PointMarkers).rest, flagged, parse, close)
    ensures MarkBefore(FilterPieces(lines, flagged, parse, close).value, TakeTill(lines, PointMarkers).rest)
  {
    var t1 := TakeTill(lines, PointMarkers);
    var b := FilterBlock(lines, flagged, parse, close).value;
    var ps := FilterPieces(lines, flagged, parse, close).value;
    SelectedBlockMarked(lines, flagged, parse, close);
    FirstBlockMarked(lines, flagged, parse, close, b, |t1.head|, t1.rest);
    assert ps[|t1.head|].IgnoreMark? && KeptLines(ps[|t1.head| + 1..]) == t1.rest;
  }

  /** A mark at the position the first block gives is a mark of the whole pass. */
  lemma FirstBlockMarked(lines: seq<string>, flagged: seq<StatsRow>, parse: FloatParser, close: Closeness, b: Block, j: nat, after: seq<string>)
    requires FilterPieces(lines, flagged, parse, close).Some?
    requires FilterBlock(lines, flagged, parse, close) == Some(b)
    requires j < |b.pieces| && b.pieces[j].IgnoreMark? && KeptLines(b.pieces[j + 1..]) + b.rest == after
    ensures var ps := FilterPieces(lines, flagged, parse, close).value;
            j < |ps| && ps[j].IgnoreMark? && KeptLines(ps[j + 1..]) == after
  {
    var ps := FilterPieces(lines, flagged, parse, close).value;
    if b.found != "" {
      var more := FilterPieces(b.rest, flagged, parse, close).value;
      FilterKeepsLines(b.rest, flagged, parse, close);
      assert ps == b.pieces + more;
      MarkInFront(b.pieces, more, j, after);
    } else {
      assert ps == b.pieces && b.rest == [];
      assert KeptLines(ps[j + 1..]) + [] == KeptLines(ps[j + 1..]);
    }
  }

  lemma MarkInFront(a: seq<Piece>, b: seq<Piece>, j: nat, after: seq<string>)
    requires j < |a| && a[j].IgnoreMark? && KeptLines(a[j + 1..]) + KeptLines(b) == after
    ensures (a + b)[j].IgnoreMark? && KeptLines((a + b)[j + 1..]) == after
  {
    assert (a + b)[j] == a[j];
    assert (a + b)[j + 1..] == a[j + 1..] + b;
    KeptLinesAppend(a[j + 1..], b);
  }

  /** A mark the pass makes after its first turn is a mark of the whole pass. */
  lemma LaterTurnMarked(lines: seq<string>, flagged: seq<StatsRow>, parse: FloatParser, close: Closeness, b: Block, after: seq<string>)
    requires FilterPieces(lines, flagged, parse, close).Some?
    requires FilterBlock(lines, flagged, parse, close) == Some(b) && b.found != ""
    requires MarkBefore(FilterPieces(b.rest, flagged, parse, close).value, after)
    ensures MarkBefore(FilterPieces(lines, flagged, parse, close).value, after)
  {
    FilterPiecesStep(lines, flagged, parse, close, b);
    MarkBeforeAppend(b.pieces, FilterPieces(b.rest, flagged, parse, close).value, after);
  }

  /** Some insertion among `ps` stands right in front of the network lines `after`. */
  predicate MarkBefore(ps: seq<Piece>, after: seq<string>) {
    exists j :: 0 <= j < |ps| && ps[j].IgnoreMark? && KeptLines(ps[j + 1..]) == after
  }

  lemma FilterPiecesStep(lines: seq<string>, flagged: seq<StatsRow>, parse: FloatParser, close: Closeness, b: Block)
    requires FilterPieces(lines, flagged, parse, close).Some?
    requires FilterBlock(lines, flagged, parse, close) == Some(b) && b.found != ""
    ensures FilterPieces(lines, flagged, parse, close).value == b.pieces + FilterPieces(b.rest, flagged, parse, close).value
  {
  }

  lemma MarkBeforeAppend(a: seq<Piece>, b: seq<Piece>, after: seq<string>)
    requires MarkBefore(b, after)
    ensures MarkBefore(a + b, after)
  {
    var k :| 0 <= k < |b| && b[k].IgnoreMark? && KeptLines(b[k + 1..]) == after;
    assert (a + b)[|a| + k] == b[k];
    assert (a + b)[|a| + k + 1..] == b[k + 1..];
  }

  // ---------------------------------------------------------------------
  // count_ignored
  // ---------------------------------------------------------------------

  const IgnoredMarkers: seq<string> := ["Ignore", "=", "True"]

  /** Number of lines that contain every marker. */
  function CountMatching(lines: seq<string>, markers: seq<string>): nat
    decreases |lines|
  {
    if lines == [] then 0
    else (if Matches(markers, lines[0]) then 1 else 0) + CountMatching(lines[1..], markers)
  }

  lemma {:induction false} CountMatchingAppend(a: seq<string>, b: seq<string>, markers: seq<string>)
    ensures CountMatching(a + b, markers) == CountMatching(a, markers) + CountMatching(b, markers)
    decreases |a|
  {
    if a == [] {
      assert a + b == b;
    } else {
      CountMatchingAppend(a[1..], b, markers);
      assert (a + b)[1..] == a[1..] + b;
    }
  }

  lemma {:induction false} CountMatchingNone(lines: seq<string>, markers: seq<string>)
    requires forall i :: 0 <= i < |lines| ==> !Matches(markers, lines[i])
    ensures CountMatching(lines, markers) == 0
    decreases |lines|
  {
    if lines != [] {
      CountMatchingNone(lines[1..], markers);
    }
  }

  /** A line holding a non-empty marker is not empty. */
  lemma MatchNotEmpty(markers: seq<string>, line: string)
    requires Matches(markers, line) && markers[0] != ""
    ensures line != ""
  {
    assert Contains(line, markers[0]);
    ContainsIff(line, markers[0]);
  }

  /**
   * One `read_till` accounts for one matching line when it finds one, and
   * for none when it reads to the end.
   */
  lemma CountMatchingTake(lines: seq<string>, markers: seq<string>)
    requires |markers| > 0 && markers[0] != ""
    ensures var t := TakeTill(lines, markers);
            && (t.found != "" <==> Matches(markers, t.found))
            && CountMatching(lines, markers) == (if t.found != "" then 1 else 0) + CountMatching(t.rest, markers)
            && (t.found == "" ==> t.rest == [])
  {
    var t := TakeTill(lines, markers);
    CountMatchingAppend(t.head, t.rest, markers);
    if exists i :: 0 <= i < |lines| && Matches(markers, lines[i]) {
      FoundHeadCountsOne(lines, markers);
    } else {
      TakeTillNone(lines, markers);
      CountMatchingNone(lines, markers);
      assert !Matches(markers, "");
    }
  }

  /** A `read_till` that finds a matching line reads exactly one. */
  lemma {:induction false} FoundHeadCountsOne(lines: seq<string>, markers: seq<string>)
    requires |markers| > 0 && markers[0] != ""
    requires exists i :: 0 <= i < |lines| && Matches(markers, lines[i])
    ensures var t := TakeTill(lines, markers);
            t.found != "" && Matches(markers, t.found) && CountMatching(t.head, markers) == 1
    decreases |lines|
  {
    if Matches(markers, lines[0]) {
      MatchNotEmpty(markers, lines[0]);
      assert CountMatching([lines[0]], markers) == 1 + CountMatching([], markers);
    } else {
      var i :| 0 <= i < |lines| && Matches(markers, lines[i]);
      assert lines[1..][i - 1] == lines[i];
      FoundHeadCountsOne(lines[1..], markers);
      var h := TakeTill(lines[1..], markers).head;
      assert ([lines[0]] + h)[1..] == h;
    }
  }

  /**
   * Python's `count_ignored` on the raw lines of a network file: the number
   * of joined lines that contain `Ignore`, `=` and `True`.
   */
  method CountIgnored(raw: seq<string>) returns (cnt: nat)
    ensures cnt == CountMatching(Joined(raw, ""), IgnoredMarkers)
  {
    ghost var all := Joined(raw, "");
    var f := new LineCursor(raw);
    var line := " ";
    cnt := 0;
    while line != ""
      invariant f.Valid()
      invariant line != "" ==> CountMatching(all, IgnoredMarkers) == cnt + CountMatching(f.Pending(), IgnoredMarkers)
      invariant line == "" ==> CountMatching(all, IgnoredMarkers) == cnt
      decreases |f.Pending()| + (if line != "" then 1 else 0)
    {
      ghost var before := f.Pending();
      var head;
      head, line := f.ReadTill(IgnoredMarkers);
      CountMatchingTake(before, IgnoredMarkers);
      if line != "" {
        cnt := cnt + 1;
      }
    }
  }

  /** The inserted line is one `count_ignored` counts. */
  lemma IgnoreLineCounted()
    ensures Matches(IgnoredMarkers, IgnoreLine)
  {
    assert OccursAt(IgnoreLine, "Ignore", 1);
    assert OccursAt(IgnoreLine, "=", 8);
    assert OccursAt(IgnoreLine, "True", 10);
    ContainsIff(IgnoreLine, "Ignore");
    ContainsIff(IgnoreLine, "=");
    ContainsIff(IgnoreLine, "True");
  }

  /** Counting over emitted lines: the network's own matches plus every insertion. */
  lemma {:induction false} CountRender(ps: seq<Piece>)
    ensures CountMatching(Render(ps), IgnoredMarkers) == CountMatching(KeptLines(ps), IgnoredMarkers) + Marks(ps)
    decreases |ps|
  {
    if ps != [] {
      CountRender(ps[1..]);
      assert Render(ps) == [PieceLine(ps[0])] + Render(ps[1..]);
      CountMatchingAppend([PieceLine(ps[0])], Render(ps[1..]), IgnoredMarkers);
      CountMatchingAppend(if ps[0].Kept? then [ps[0].line] else [], KeptLines(ps[1..]), IgnoredMarkers);
      if ps[0].IgnoreMark? {
        IgnoreLineCounted();
      }
    }
  }

  /**
   * After the pass, `count_ignored` finds the network's own `Ignore = True`
   * lines plus one for every point the pass marked.
   */
  lemma FilterCountsMarks(lines: seq<string>, flagged: seq<StatsRow>, parse: FloatParser, close: Closeness)
    requires FilterPieces(lines, flagged, parse, close).Some?
    ensures var ps := FilterPieces(lines, flagged, parse, close).value;
            CountMatching(Render(ps), IgnoredMarkers) == CountMatching(lines, IgnoredMarkers) + Marks(ps)
  {
    FilterKeepsLines(lines, flagged, parse, close);
    CountRender(FilterPieces(lines, flagged, parse, close).value);
  }
}
