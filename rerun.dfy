/**
 * Running `filter_coreg_result` on its own output (pvl.py:233-280): on a
 * network whose measure groups are closed by `End_Object` before the next
 * control point, the second run inserts no ` Ignore = True` line and writes
 * every line back unchanged. Points marked by the first run now carry
 * `Ignore`, so they are no longer candidates; the points left unmarked are
 * read the same way again, with the same measures, and stay unmarked.
 */
module FilterRerun {
  import opened Options
  import opened Text
  import opened Scanner
  import opened Codec
  import opened FilterPass

  // ---------------------------------------------------------------------
  // Well-formed networks
  // ---------------------------------------------------------------------

  /** No line of `lines` matches `markers`. */
  predicate NoneMatch(lines: seq<string>, markers: seq<string>) {
    forall i :: 0 <= i < |lines| ==> !Matches(markers, lines[i])
  }

  /**
   * Between a line matching `opening` and any later line matching `next`
   * there is a line matching `closing`.
   */
  predicate ClosedBefore(lines: seq<string>, opening: seq<string>, closing: seq<string>, next: seq<string>) {
    forall i, j :: 0 <= i < j < |lines| && Matches(opening, lines[i]) && Matches(next, lines[j]) ==>
      exists k :: i < k < j && Matches(closing, lines[k])
  }

  /**
   * Between a `Group = ControlMeasure` line and any later
   * `Object = ControlPoint` line there is an `End_Object` line: every point's
   * measures are closed before the next point starts.
   */
  predicate MeasuresClosed(lines: seq<string>) {
    ClosedBefore(lines, MeasureMarkers, EndObjectMarkers, PointMarkers)
  }

  lemma ClosedBeforeSuffix(a: seq<string>, b: seq<string>, opening: seq<string>, closing: seq<string>, next: seq<string>)
    requires ClosedBefore(a + b, opening, closing, next)
    ensures ClosedBefore(b, opening, closing, next)
  {
    var ab := a + b;
    forall i, j | 0 <= i < j < |b| && Matches(opening, b[i]) && Matches(next, b[j])
      ensures exists k :: i < k < j && Matches(closing, b[k])
    {
      assert ab[|a| + i] == b[i] && ab[|a| + j] == b[j];
      var k :| |a| + i < k < |a| + j && Matches(closing, ab[k]);
      assert ab[k] == b[k - |a|];
    }
  }

  /**
   * After an opening line, the lines read up to the next closing line hold
   * no `next` line: one there would not have been closed.
   */
  lemma NothingBeforeClose(m: string, s: seq<string>, opening: seq<string>, closing: seq<string>, next: seq<string>)
    requires Matches(opening, m) && ClosedBefore([m] + s, opening, closing, next)
    ensures NoneMatch(TakeTill(s, closing).head, next)
  {
    var t := TakeTill(s, closing);
    var ms := [m] + s;
    HeadInside(m, s, t.head, t.rest, closing);
    NoNextUntilClose(ms, |t.head|, opening, closing, next);
  }

  lemma HeadInside(m: string, s: seq<string>, h: seq<string>, rest: seq<string>, closing: seq<string>)
    requires s == h + rest
    requires forall i :: 0 <= i < |h| - 1 ==> !Matches(closing, h[i])
    ensures |h| < |[m] + s|
    ensures forall i :: 0 <= i < |h| ==> h[i] == ([m] + s)[i + 1]
    ensures forall k :: 0 < k < |h| ==> !Matches(closing, ([m] + s)[k])
  {
    var ms := [m] + s;
    assert forall i :: 0 <= i < |h| ==> h[i] == ms[i + 1];
  }

  /** The lines after an opening line and before its first closing line include no `next` line. */
  lemma NoNextUntilClose(ms: seq<string>, n: nat, opening: seq<string>, closing: seq<string>, next: seq<string>)
    requires n < |ms| && Matches(opening, ms[0]) && ClosedBefore(ms, opening, closing, next)
    requires forall k :: 0 < k < n ==> !Matches(closing, ms[k])
    ensures forall j :: 0 < j <= n ==> !Matches(next, ms[j])
  {
  }

  // ---------------------------------------------------------------------
  // Reading the same lines again
  // ---------------------------------------------------------------------

  /**
   * Reading `pre + t.head + tail`, where `t` is a `read_till` of some lines
   * and `pre` holds no matching line, stops where `t` stopped, leaving `tail`.
   */
  lemma TakeTillAgain(pre: seq<string>, lines: seq<string>, markers: seq<string>, tail: seq<string>)
    requires |markers| > 0 && markers[0] != ""
    requires NoneMatch(pre, markers)
    requires TakeTill(lines, markers).found != "" || tail == []
    ensures var t := TakeTill(lines, markers);
            TakeTill(pre + t.head + tail, markers) == Take(pre + t.head, t.found, tail)
  {
    var t := TakeTill(lines, markers);
    var head := pre + t.head;
    forall i | 0 <= i < |head| - 1
      ensures !Matches(markers, head[i])
    {
      if i >= |pre| {
        assert head[i] == t.head[i - |pre|];
      }
    }
    if exists i :: 0 <= i < |lines| && Matches(markers, lines[i]) {
      assert head[|head| - 1] == t.found;
    } else {
      assert !Matches(markers, "");
      forall i | 0 <= i < |head|
        ensures !Matches(markers, head[i])
      {
        if i >= |pre| {
          assert head[i] == lines[i - |pre|];
        }
      }
    }
    TakeTillSplit(pre + t.head + tail, markers, head, t.found, tail);
  }

  /**
   * Reading a block's point and group again, with `pre` in front of the
   * lines before the point and `mid` in front of the group, stops on the
   * same lines.
   */
  lemma ReadsAgain(pre: seq<string>, mid: seq<string>, lines: seq<string>, tail: seq<string>)
    requires NoneMatch(pre, PointMarkers) && NoneMatch(mid, MeasureMarkers)
    requires var t1 := TakeTill(lines, PointMarkers);
             t1.found != "" || mid + TakeTill(t1.rest, MeasureMarkers).head + tail == []
    requires TakeTill(TakeTill(lines, PointMarkers).rest, MeasureMarkers).found != "" || tail == []
    ensures var t1 := TakeTill(lines, PointMarkers);
            var t2 := TakeTill(t1.rest, MeasureMarkers);
            && TakeTill(pre + t1.head + (mid + t2.head + tail), PointMarkers) == Take(pre + t1.head, t1.found, mid + t2.head + tail)
            && TakeTill(mid + t2.head + tail, MeasureMarkers) == Take(mid + t2.head, t2.found, tail)
  {
    var t1 := TakeTill(lines, PointMarkers);
    var t2 := TakeTill(t1.rest, MeasureMarkers);
    TakeTillAgain(pre, lines, PointMarkers, mid + t2.head + tail);
    TakeTillAgain(mid, t1.rest, MeasureMarkers, tail);
  }

  lemma EmptyPrefix(s: seq<string>)
    ensures [] + s == s
  {
  }

  lemma FilterPiecesOfBlock(lines: seq<string>, flagged: seq<StatsRow>, parse: FloatParser, close: Closeness, b: Block)
    requires FilterBlock(lines, flagged, parse, close) == Some(b)
    ensures FilterPieces(lines, flagged, parse, close)
            == if b.found == "" then Some(b.pieces) else Prepend(b.pieces, FilterPieces(b.rest, flagged, parse, close))
  {
  }

  /** Lines without a control point are written back as they are. */
  lemma FilterPiecesNoPoint(pre: seq<string>, flagged: seq<StatsRow>, parse: FloatParser, close: Closeness)
    requires NoneMatch(pre, PointMarkers)
    ensures FilterPieces(pre, flagged, parse, close) == Some(KeepAll(pre))
  {
    TakeTillNone(pre, PointMarkers);
    var t1 := TakeTill(pre, PointMarkers);
    var t2 := TakeTill(t1.rest, MeasureMarkers);
    assert t2 == Take([], "", []);
    assert GroupToDict(DropLast(t2.head)) == map[];
    var pd := Cleaned(map[], parse).value;
    FilterBlockOfReads(pre, flagged, parse, close, t1, t2, pd);
    FilterPiecesOfBlock(pre, flagged, parse, close, Block(KeepAll(pre) + KeepAll([]), "", []));
    assert KeepAll(pre) + KeepAll([]) == KeepAll(pre);
  }

  // ---------------------------------------------------------------------
  // The inserted line
  // ---------------------------------------------------------------------

  /** A line without the first character of the first marker matches no marker list starting with it. */
  lemma FirstMarkerAbsent(markers: seq<string>, line: string)
    requires markers != [] && markers[0] != [] && markers[0][0] !in line
    ensures !Matches(markers, line)
  {
    FirstCharAbsent(line, markers[0]);
  }

  lemma IgnoreLineIsNoMarker()
    ensures !Matches(PointMarkers, IgnoreLine) && !Matches(MeasureMarkers, IgnoreLine)
  {
    assert PointMarkers[0][0] == 'O' && MeasureMarkers[0][0] == 'G';
    assert 'O' !in IgnoreLine && 'G' !in IgnoreLine;
    FirstMarkerAbsent(PointMarkers, IgnoreLine);
    FirstMarkerAbsent(MeasureMarkers, IgnoreLine);
  }

  lemma IgnoreLineAssigns()
    ensures ParseAssignment(IgnoreLine) == Some(("Ignore", "True"))
  {
    IgnoreLineCut();
    IgnoreKeyStripped();
    IgnoreValueStripped();
  }

  lemma IgnoreLineCut()
    ensures ParseAssignment(IgnoreLine) == Some((Strip(" Ignore ", Whitespace), Strip(" True\n", Whitespace)))
  {
    var line := IgnoreLine;
    assert line[8] == '=' && forall j :: 1 <= j < 8 ==> line[j] != '=';
    assert IndexOf(line, '=', 1) == Some(8);
    assert line[..8] == " Ignore ";
    assert line[9..] == " True\n";
  }

  lemma IgnoreKeyStripped()
    ensures Strip(" Ignore ", Whitespace) == "Ignore"
  {
    assert " Ignore " == " " + "Ignore" + " ";
    StripPadded("Ignore", ' ');
  }

  lemma IgnoreValueStripped()
    ensures Strip(" True\n", Whitespace) == "True"
  {
    assert " True\n" == " " + "True" + "\n";
    StripPadded("True", '\n');
  }

  /** One whitespace character on each side is stripped, and nothing more. */
  lemma StripPadded(r: string, c: char)
    requires c in Whitespace
    requires r != [] && r[0] !in Whitespace && r[|r| - 1] !in Whitespace
    ensures Strip(" " + r + [c], Whitespace) == r
  {
    var tail := [c];
    var s := " " + r + tail;
    assert s[1..] == r + tail;
    assert TrimLeft(s, Whitespace) == TrimLeft(r + tail, Whitespace) == r + tail;
    assert (r + tail)[..|r|] == r;
    assert TrimRight(r + tail, Whitespace) == TrimRight(r, Whitespace) == r;
  }

  /** The entries of `[l] + g` are `l`'s entry followed by those of `g`. */
  lemma DictOfPrepend(e: Option<(string, string)>, es: seq<Option<(string, string)>>)
    ensures DictOf([e] + es) == DictOf([e]) + DictOf(es)
    decreases |es|
  {
    if es != [] {
      var n := |es| - 1;
      assert ([e] + es)[..|es|] == [e] + es[..n];
      DictOfPrepend(e, es[..n]);
    }
  }

  /** A group read with the inserted line in front holds `Ignore = True` unless a later line assigns `Ignore` again. */
  lemma GroupToDictIgnored(g: seq<string>)
    ensures GroupToDict([IgnoreLine] + g) == map["Ignore" := "True"] + GroupToDict(g)
  {
    GroupToDictPrepend(IgnoreLine, g);
    IgnoreLineAssigns();
    DictOfSingle("Ignore", "True");
  }

  /** The dictionary of a group with one more line in front. */
  lemma GroupToDictPrepend(l: string, g: seq<string>)
    ensures GroupToDict([l] + g) == DictOf([ParseAssignment(l)]) + GroupToDict(g)
  {
    EntriesPrepend(l, g);
    DictOfPrepend(ParseAssignment(l), Entries(g));
  }

  lemma EntriesPrepend(l: string, g: seq<string>)
    ensures Entries([l] + g) == [ParseAssignment(l)] + Entries(g)
  {
    assert ([l] + g)[1..] == g;
  }

  lemma DictOfSingle(k: string, v: string)
    ensures DictOf([Some((k, v))]) == map[k := v]
  {
    var es := [Some((k, v))];
    assert es[..0] == [];
  }

  /** Adding an `Ignore` entry keeps the cleaning from raising, and the key is kept. */
  lemma CleanedIgnored(d: map<string, string>, parse: FloatParser)
    requires Cleaned(d, parse).Some?
    ensures var c := Cleaned(map["Ignore" := "True"] + d, parse); c.Some? && "Ignore" in c.value
  {
    var d2 := map["Ignore" := "True"] + d;
    assert "Ignore" !in NumericKeys;
    assert forall k :: k in d2 && k in NumericKeys ==> k in d && d2[k] == d[k];
    assert NumbersParse(d2, parse);
  }

  /** A point's group with the inserted line in front cleans to a dictionary that has `Ignore`. */
  lemma IgnoredGroup(g: seq<string>, parse: FloatParser)
    requires g != [] && Cleaned(GroupToDict(DropLast(g)), parse).Some?
    ensures var c := Cleaned(GroupToDict(DropLast([IgnoreLine] + g)), parse); c.Some? && "Ignore" in c.value
  {
    assert DropLast([IgnoreLine] + g) == [IgnoreLine] + DropLast(g);
    GroupToDictIgnored(DropLast(g));
    CleanedIgnored(GroupToDict(DropLast(g)), parse);
  }

  // ---------------------------------------------------------------------
  // One block, read again
  // ---------------------------------------------------------------------

  /** A block whose point is not a candidate is read again into the same lines, with nothing inserted. */
  lemma RerunPlain(
    pre: seq<string>, lines: seq<string>, flagged: seq<StatsRow>, parse: FloatParser, close: Closeness,
    rest: seq<string>, pd: map<string, Value>)
    requires NoneMatch(pre, PointMarkers)
    requires Cleaned(GroupToDict(DropLast(TakeTill(TakeTill(lines, PointMarkers).rest, MeasureMarkers).head)), parse) == Some(pd)
    requires !("PointId" in pd && "Ignore" !in pd)
    requires TakeTill(TakeTill(lines, PointMarkers).rest, MeasureMarkers).found != "" || rest == []
    ensures var t1 := TakeTill(lines, PointMarkers);
            var t2 := TakeTill(t1.rest, MeasureMarkers);
            FilterBlock(pre + t1.head + (t2.head + rest), flagged, parse, close)
            == Some(Block(KeepAll(pre + t1.head) + KeepAll(t2.head), t2.found, rest))
  {
    var t1 := TakeTill(lines, PointMarkers);
    var t2 := TakeTill(t1.rest, MeasureMarkers);
    TakeTillNothingFound(lines, PointMarkers);
    ReadsAgain(pre, [], lines, rest);
    EmptyPrefix(t2.head);
    FilterBlockOfReads(pre + t1.head + (t2.head + rest), flagged, parse, close,
                       Take(pre + t1.head, t1.found, t2.head + rest), Take(t2.head, t2.found, rest), pd);
  }

  /** A candidate block the first run left unmarked is read again the same way, and stays unmarked. */
  lemma RerunUnmarked(
    pre: seq<string>, lines: seq<string>, flagged: seq<StatsRow>, parse: FloatParser, close: Closeness,
    rest: seq<string>, pd: map<string, Value>, md: map<string, Value>)
    requires NoneMatch(pre, PointMarkers)
    requires var t2 := TakeTill(TakeTill(lines, PointMarkers).rest, MeasureMarkers);
             && Cleaned(GroupToDict(DropLast(t2.head)), parse) == Some(pd) && "PointId" in pd && "Ignore" !in pd
             && Cleaned(GroupToDict(DropLast(TakeTill(t2.rest, EndObjectMarkers).head)), parse) == Some(md)
             && !AnyRowMatches(flagged, md, close)
             && (TakeTill(t2.rest, EndObjectMarkers).found != "" || rest == [])
    ensures var t1 := TakeTill(lines, PointMarkers);
            var t2 := TakeTill(t1.rest, MeasureMarkers);
            var t3 := TakeTill(t2.rest, EndObjectMarkers);
            FilterBlock(pre + t1.head + (t2.head + (t3.head + rest)), flagged, parse, close)
            == Some(Block(KeepAll(pre + t1.head) + [] + KeepAll(t2.head) + KeepAll(t3.head), t3.found, rest))
  {
    var t1 := TakeTill(lines, PointMarkers);
    var t2 := TakeTill(t1.rest, MeasureMarkers);
    var t3 := TakeTill(t2.rest, EndObjectMarkers);
    CandidateReads(pre, lines, rest);
    FilterBlockOfReads(pre + t1.head + (t2.head + (t3.head + rest)), flagged, parse, close,
                       Take(pre + t1.head, t1.found, t2.head + (t3.head + rest)), Take(t2.head, t2.found, t3.head + rest), pd);
  }

  /** The reads of a candidate block, done again on the same lines behind `pre`. */
  lemma CandidateReads(pre: seq<string>, lines: seq<string>, rest: seq<string>)
    requires NoneMatch(pre, PointMarkers)
    requires var t2 := TakeTill(TakeTill(lines, PointMarkers).rest, MeasureMarkers);
             TakeTill(t2.rest, EndObjectMarkers).found != "" || rest == []
    ensures var t1 := TakeTill(lines, PointMarkers);
            var t2 := TakeTill(t1.rest, MeasureMarkers);
            var t3 := TakeTill(t2.rest, EndObjectMarkers);
            && TakeTill(pre + t1.head + (t2.head + (t3.head + rest)), PointMarkers) == Take(pre + t1.head, t1.found, t2.head + (t3.head + rest))
            && TakeTill(t2.head + (t3.head + rest), MeasureMarkers) == Take(t2.head, t2.found, t3.head + rest)
            && TakeTill(t3.head + rest, EndObjectMarkers) == Take(t3.head, t3.found, rest)
  {
    var t1 := TakeTill(lines, PointMarkers);
    var t2 := TakeTill(t1.rest, MeasureMarkers);
    var t3 := TakeTill(t2.rest, EndObjectMarkers);
    TakeTillNothingFound(lines, PointMarkers);
    TakeTillNothingFound(t1.rest, MeasureMarkers);
    ReadsAgain(pre, [], lines, t3.head + rest);
    EmptyPrefix(t2.head);
    EmptyPrefix(t3.head);
    TakeTillAgain([], t2.rest, EndObjectMarkers, rest);
  }

  /**
   * A block the first run marked is read again with the inserted line in
   * its group: the point now has `Ignore`, so it is not a candidate, and its
   * measures are left to the next turn.
   */
  lemma RerunMarked(
    pre: seq<string>, lines: seq<string>, flagged: seq<StatsRow>, parse: FloatParser, close: Closeness,
    rest: seq<string>, pd: map<string, Value>, md: map<string, Value>)
    requires NoneMatch(pre, PointMarkers)
    requires var t2 := TakeTill(TakeTill(lines, PointMarkers).rest, MeasureMarkers);
             && Cleaned(GroupToDict(DropLast(t2.head)), parse) == Some(pd) && "PointId" in pd && "Ignore" !in pd
             && (TakeTill(t2.rest, EndObjectMarkers).found != "" || rest == [])
    ensures var t1 := TakeTill(lines, PointMarkers);
            var t2 := TakeTill(t1.rest, MeasureMarkers);
            var t3 := TakeTill(t2.rest, EndObjectMarkers);
            FilterBlock(pre + t1.head + ([IgnoreLine] + t2.head + (t3.head + rest)), flagged, parse, close)
            == Some(Block(KeepAll(pre + t1.head) + KeepAll([IgnoreLine] + t2.head), t2.found, t3.head + rest))
  {
    var t1 := TakeTill(lines, PointMarkers);
    var t2 := TakeTill(t1.rest, MeasureMarkers);
    var t3 := TakeTill(t2.rest, EndObjectMarkers);
    CandidatePointFound(lines, parse, pd);
    MarkedReads(pre, lines, rest);
    MarkedGroup(t2.head, parse, pd);
    var pd2 := Cleaned(GroupToDict(DropLast([IgnoreLine] + t2.head)), parse).value;
    FilterBlockOfReads(pre + t1.head + ([IgnoreLine] + t2.head + (t3.head + rest)), flagged, parse, close,
                       Take(pre + t1.head, t1.found, [IgnoreLine] + t2.head + (t3.head + rest)),
                       Take([IgnoreLine] + t2.head, t2.found, t3.head + rest), pd2);
  }

  /** A candidate point was found after an `Object = ControlPoint` line. */
  lemma CandidatePointFound(lines: seq<string>, parse: FloatParser, pd: map<string, Value>)
    requires Cleaned(GroupToDict(DropLast(TakeTill(TakeTill(lines, PointMarkers).rest, MeasureMarkers).head)), parse) == Some(pd)
    requires "PointId" in pd
    ensures TakeTill(lines, PointMarkers).found != ""
  {
    CandidateFollowsPoint(lines, parse, pd);
    PointFound(lines);
  }

  /** The reads of a marked block, done again with the inserted line in front of the group. */
  lemma MarkedReads(pre: seq<string>, lines: seq<string>, rest: seq<string>)
    requires NoneMatch(pre, PointMarkers) && TakeTill(lines, PointMarkers).found != ""
    requires var t2 := TakeTill(TakeTill(lines, PointMarkers).rest, MeasureMarkers);
             TakeTill(t2.rest, EndObjectMarkers).found != "" || rest == []
    ensures var t1 := TakeTill(lines, PointMarkers);
            var t2 := TakeTill(t1.rest, MeasureMarkers);
            var t3 := TakeTill(t2.rest, EndObjectMarkers);
            && TakeTill(pre + t1.head + ([IgnoreLine] + t2.head + (t3.head + rest)), PointMarkers)
               == Take(pre + t1.head, t1.found, [IgnoreLine] + t2.head + (t3.head + rest))
            && TakeTill([IgnoreLine] + t2.head + (t3.head + rest), MeasureMarkers) == Take([IgnoreLine] + t2.head, t2.found, t3.head + rest)
  {
    var t1 := TakeTill(lines, PointMarkers);
    var t2 := TakeTill(t1.rest, MeasureMarkers);
    var t3 := TakeTill(t2.rest, EndObjectMarkers);
    TakeTillNothingFound(t1.rest, MeasureMarkers);
    IgnoreLineIsNoMarker();
    ReadsAgain(pre, [IgnoreLine], lines, t3.head + rest);
  }

  /** A point's group with a `PointId` is not empty, and with the inserted line in front it has `Ignore`. */
  lemma MarkedGroup(g: seq<string>, parse: FloatParser, pd: map<string, Value>)
    requires Cleaned(GroupToDict(DropLast(g)), parse) == Some(pd) && "PointId" in pd
    ensures var c := Cleaned(GroupToDict(DropLast([IgnoreLine] + g)), parse); c.Some? && "Ignore" in c.value
  {
    assert g != [] by {
      assert "PointId" in GroupToDict(DropLast(g));
    }
    IgnoredGroup(g, parse);
  }

  /** When the lines read before a point end on an `Object = ControlPoint` line, that line is the one found. */
  lemma PointFound(lines: seq<string>)
    requires var h := TakeTill(lines, PointMarkers).head; h != [] && Matches(PointMarkers, h[|h| - 1])
    ensures TakeTill(lines, PointMarkers).found != ""
  {
    var t := TakeTill(lines, PointMarkers);
    var n := |t.head| - 1;
    assert lines[n] == t.head[n];
    MatchNotEmpty(PointMarkers, lines[n]);
  }

  // ---------------------------------------------------------------------
  // One block of output, filtered again
  // ---------------------------------------------------------------------

  /**
   * A block's output behind `pre` reads again as the lines `u`, passed
   * through unchanged, followed by the lines `pre2` without a point, which
   * the next turn reads in front of what follows.
   */
  predicate RerunsAs(
    pre: seq<string>, b: Block, rest: seq<string>, u: seq<string>, pre2: seq<string>,
    flagged: seq<StatsRow>, parse: FloatParser, close: Closeness)
  {
    && pre + Render(b.pieces) == u + pre2
    && NoneMatch(pre2, PointMarkers)
    && FilterPieces(u + pre2 + rest, flagged, parse, close) == Prepend(KeepAll(u), FilterPieces(pre2 + rest, flagged, parse, close))
  }

  /** A block that emits its lines unchanged is followed by the pieces of what it leaves. */
  lemma KeptBlockPieces(lines: seq<string>, flagged: seq<StatsRow>, parse: FloatParser, close: Closeness, u: seq<string>, b: Block)
    requires FilterBlock(lines, flagged, parse, close) == Some(b) && b.pieces == KeepAll(u)
    ensures FilterPieces(lines, flagged, parse, close) == Prepend(KeepAll(u), FilterPieces(b.rest, flagged, parse, close))
  {
    FilterPiecesNoPoint([], flagged, parse, close);
    assert KeepAll(u) + [] == KeepAll(u);
  }

  /** The lines before what each read of a block leaves. */
  lemma ReadsSplit(lines: seq<string>)
    ensures var t1 := TakeTill(lines, PointMarkers);
            var t2 := TakeTill(t1.rest, MeasureMarkers);
            var t3 := TakeTill(t2.rest, EndObjectMarkers);
            && lines == (t1.head + t2.head) + t2.rest
            && lines == (t1.head + t2.head + t3.head) + t3.rest
            && (t2.found != "" ==> lines == (t1.head + DropLast(t2.head)) + ([t2.found] + t2.rest))
  {
    var t1 := TakeTill(lines, PointMarkers);
    var t2 := TakeTill(t1.rest, MeasureMarkers);
    var t3 := TakeTill(t2.rest, EndObjectMarkers);
    ConcatSplit(lines, t1.head, t1.rest, t2.head, t2.rest, t3.head, t3.rest);
    FoundIsLast(t1.rest, MeasureMarkers);
    if t2.found != "" {
      LastSplit(t1.head, t2.head, t2.rest, t2.found);
    }
  }

  /** A line `read_till` returns is the last one it read. */
  lemma FoundIsLast(lines: seq<string>, markers: seq<string>)
    ensures var t := TakeTill(lines, markers);
            t.found != "" ==> t.head != [] && t.head[|t.head| - 1] == t.found
  {
  }

  lemma ConcatSplit(
    lines: seq<string>, h1: seq<string>, r1: seq<string>, h2: seq<string>, r2: seq<string>, h3: seq<string>, r3: seq<string>)
    requires lines == h1 + r1 && r1 == h2 + r2 && r2 == h3 + r3
    ensures lines == (h1 + h2) + r2 && lines == (h1 + h2 + h3) + r3
  {
  }

  lemma LastSplit(h1: seq<string>, h2: seq<string>, r2: seq<string>, f: string)
    requires h2 != [] && h2[|h2| - 1] == f
    ensures h1 + (h2 + r2) == (h1 + DropLast(h2)) + ([f] + r2)
  {
    assert h2 == DropLast(h2) + [f];
  }

  /** The lines a block leaves keep measures closed. */
  lemma BlockRestClosed(lines: seq<string>)
    requires MeasuresClosed(lines)
    ensures var t2 := TakeTill(TakeTill(lines, PointMarkers).rest, MeasureMarkers);
            MeasuresClosed(t2.rest) && MeasuresClosed(TakeTill(t2.rest, EndObjectMarkers).rest)
  {
    var t1 := TakeTill(lines, PointMarkers);
    var t2 := TakeTill(t1.rest, MeasureMarkers);
    var t3 := TakeTill(t2.rest, EndObjectMarkers);
    ReadsSplit(lines);
    ClosedBeforeSuffix(t1.head + t2.head, t2.rest, MeasureMarkers, EndObjectMarkers, PointMarkers);
    ClosedBeforeSuffix(t1.head + t2.head + t3.head, t3.rest, MeasureMarkers, EndObjectMarkers, PointMarkers);
  }

  /** The measures read after a point's group hold no `Object = ControlPoint` line. */
  lemma MeasuresHoldNoPoint(lines: seq<string>)
    requires MeasuresClosed(lines)
    ensures var t2 := TakeTill(TakeTill(lines, PointMarkers).rest, MeasureMarkers);
            NoneMatch(TakeTill(t2.rest, EndObjectMarkers).head, PointMarkers)
  {
    var t1 := TakeTill(lines, PointMarkers);
    var t2 := TakeTill(t1.rest, MeasureMarkers);
    TakeTillNothingFound(t1.rest, MeasureMarkers);
    ReadsSplit(lines);
    if t2.found != "" {
      ClosedBeforeSuffix(t1.head + DropLast(t2.head), [t2.found] + t2.rest, MeasureMarkers, EndObjectMarkers, PointMarkers);
      NothingBeforeClose(t2.found, t2.rest, MeasureMarkers, EndObjectMarkers, PointMarkers);
    }
  }

  lemma PlainShape(pre: seq<string>, h1: seq<string>, h2: seq<string>, rest: seq<string>)
    ensures pre + h1 + (h2 + rest) == (pre + h1 + h2) + [] + rest
    ensures pre + (h1 + h2) == (pre + h1 + h2) + []
    ensures [] + rest == rest
  {
  }

  lemma UnmarkedShape(pre: seq<string>, h1: seq<string>, h2: seq<string>, h3: seq<string>, rest: seq<string>)
    ensures pre + h1 + (h2 + (h3 + rest)) == (pre + h1 + h2 + h3) + [] + rest
    ensures pre + (h1 + ([] + h2) + h3) == (pre + h1 + h2 + h3) + []
    ensures [] + rest == rest
  {
  }

  lemma MarkedShape(pre: seq<string>, h1: seq<string>, g: seq<string>, h3: seq<string>, rest: seq<string>)
    ensures pre + h1 + (g + (h3 + rest)) == (pre + h1 + g) + h3 + rest
    ensures pre + (h1 + g + h3) == (pre + h1 + g) + h3
  {
  }

  lemma KeepAllThree(a: seq<string>, b: seq<string>, c: seq<string>)
    ensures KeepAll(a) + [] + KeepAll(b) + KeepAll(c) == KeepAll(a + b + c)
  {
    KeepAllAppend(a, b);
    KeepAllAppend(a + b, c);
  }

  lemma RerunPlainBlock(
    pre: seq<string>, lines: seq<string>, flagged: seq<StatsRow>, parse: FloatParser, close: Closeness,
    rest: seq<string>, pd: map<string, Value>)
    returns (u: seq<string>, pre2: seq<string>)
    requires NoneMatch(pre, PointMarkers)
    requires var t2 := TakeTill(TakeTill(lines, PointMarkers).rest, MeasureMarkers);
             && Cleaned(GroupToDict(DropLast(t2.head)), parse) == Some(pd) && !("PointId" in pd && "Ignore" !in pd)
             && (t2.found != "" || rest == [])
    ensures FilterBlock(lines, flagged, parse, close).Some?
    ensures RerunsAs(pre, FilterBlock(lines, flagged, parse, close).value, rest, u, pre2, flagged, parse, close)
  {
    var t1 := TakeTill(lines, PointMarkers);
    var t2 := TakeTill(t1.rest, MeasureMarkers);
    FilterBlockOfReads(lines, flagged, parse, close, t1, t2, pd);
    RenderBlock(t1.head, false, t2.head, []);
    u, pre2 := pre + t1.head + t2.head, [];
    RerunPlain(pre, lines, flagged, parse, close, rest, pd);
    KeepAllAppend(pre + t1.head, t2.head);
    PlainShape(pre, t1.head, t2.head, rest);
    KeptBlockPieces(u + pre2 + rest, flagged, parse, close, u, Block(KeepAll(u), t2.found, rest));
  }

  lemma RerunUnmarkedBlock(
    pre: seq<string>, lines: seq<string>, flagged: seq<StatsRow>, parse: FloatParser, close: Closeness,
    rest: seq<string>, pd: map<string, Value>, md: map<string, Value>)
    returns (u: seq<string>, pre2: seq<string>)
    requires NoneMatch(pre, PointMarkers)
    requires var t2 := TakeTill(TakeTill(lines, PointMarkers).rest, MeasureMarkers);
             && Cleaned(GroupToDict(DropLast(t2.head)), parse) == Some(pd) && "PointId" in pd && "Ignore" !in pd
             && Cleaned(GroupToDict(DropLast(TakeTill(t2.rest, EndObjectMarkers).head)), parse) == Some(md)
             && !AnyRowMatches(flagged, md, close)
             && (TakeTill(t2.rest, EndObjectMarkers).found != "" || rest == [])
    ensures FilterBlock(lines, flagged, parse, close).Some?
    ensures RerunsAs(pre, FilterBlock(lines, flagged, parse, close).value, rest, u, pre2, flagged, parse, close)
  {
    var t1 := TakeTill(lines, PointMarkers);
    var t2 := TakeTill(t1.rest, MeasureMarkers);
    var t3 := TakeTill(t2.rest, EndObjectMarkers);
    FilterBlockOfReads(lines, flagged, parse, close, t1, t2, pd);
    RenderBlock(t1.head, false, t2.head, t3.head);
    u, pre2 := pre + t1.head + t2.head + t3.head, [];
    RerunUnmarked(pre, lines, flagged, parse, close, rest, pd, md);
    KeepAllThree(pre + t1.head, t2.head, t3.head);
    UnmarkedShape(pre, t1.head, t2.head, t3.head, rest);
    KeptBlockPieces(u + pre2 + rest, flagged, parse, close, u, Block(KeepAll(u), t3.found, rest));
  }

  lemma RerunMarkedBlock(
    pre: seq<string>, lines: seq<string>, flagged: seq<StatsRow>, parse: FloatParser, close: Closeness,
    rest: seq<string>, pd: map<string, Value>, md: map<string, Value>)
    returns (u: seq<string>, pre2: seq<string>)
    requires NoneMatch(pre, PointMarkers) && MeasuresClosed(lines)
    requires var t2 := TakeTill(TakeTill(lines, PointMarkers).rest, MeasureMarkers);
             && Cleaned(GroupToDict(DropLast(t2.head)), parse) == Some(pd) && "PointId" in pd && "Ignore" !in pd
             && Cleaned(GroupToDict(DropLast(TakeTill(t2.rest, EndObjectMarkers).head)), parse) == Some(md)
             && AnyRowMatches(flagged, md, close)
             && (TakeTill(t2.rest, EndObjectMarkers).found != "" || rest == [])
    ensures FilterBlock(lines, flagged, parse, close).Some?
    ensures RerunsAs(pre, FilterBlock(lines, flagged, parse, close).value, rest, u, pre2, flagged, parse, close)
  {
    var t1 := TakeTill(lines, PointMarkers);
    var t2 := TakeTill(t1.rest, MeasureMarkers);
    var t3 := TakeTill(t2.rest, EndObjectMarkers);
    FilterBlockOfReads(lines, flagged, parse, close, t1, t2, pd);
    RenderBlock(t1.head, true, t2.head, t3.head);
    u, pre2 := pre + t1.head + ([IgnoreLine] + t2.head), t3.head;
    MeasuresHoldNoPoint(lines);
    RerunMarked(pre, lines, flagged, parse, close, rest, pd, md);
    KeepAllAppend(pre + t1.head, [IgnoreLine] + t2.head);
    MarkedShape(pre, t1.head, [IgnoreLine] + t2.head, t3.head, rest);
    KeptBlockPieces(u + pre2 + rest, flagged, parse, close, u, Block(KeepAll(u), t2.found, t3.head + rest));
  }

  /** Any block of a network with closed measures reruns as some lines kept unchanged and some lines without a point. */
  lemma RerunBlock(pre: seq<string>, lines: seq<string>, flagged: seq<StatsRow>, parse: FloatParser, close: Closeness, rest: seq<string>)
    returns (u: seq<string>, pre2: seq<string>)
    requires NoneMatch(pre, PointMarkers) && MeasuresClosed(lines)
    requires FilterBlock(lines, flagged, parse, close).Some?
    requires FilterBlock(lines, flagged, parse, close).value.found != "" || rest == []
    ensures RerunsAs(pre, FilterBlock(lines, flagged, parse, close).value, rest, u, pre2, flagged, parse, close)
    ensures MeasuresClosed(FilterBlock(lines, flagged, parse, close).value.rest)
  {
    var t1 := TakeTill(lines, PointMarkers);
    var t2 := TakeTill(t1.rest, MeasureMarkers);
    var t3 := TakeTill(t2.rest, EndObjectMarkers);
    var pd := Cleaned(GroupToDict(DropLast(t2.head)), parse).value;
    BlockRestClosed(lines);
    FilterBlockOfReads(lines, flagged, parse, close, t1, t2, pd);
    if "PointId" in pd && "Ignore" !in pd {
      var md := Cleaned(GroupToDict(DropLast(t3.head)), parse).value;
      if AnyRowMatches(flagged, md, close) {
        u, pre2 := RerunMarkedBlock(pre, lines, flagged, parse, close, rest, pd, md);
      } else {
        u, pre2 := RerunUnmarkedBlock(pre, lines, flagged, parse, close, rest, pd, md);
      }
    } else {
      u, pre2 := RerunPlainBlock(pre, lines, flagged, parse, close, rest, pd);
    }
  }

  lemma RerunShape(pre: seq<string>, r: seq<string>, rest: seq<string>, u: seq<string>, pre2: seq<string>)
    requires pre + r == u + pre2
    ensures pre + (r + rest) == u + pre2 + rest
    ensures u + (pre2 + rest) == u + pre2 + rest
  {
  }

  // ---------------------------------------------------------------------
  // The whole output, filtered again
  // ---------------------------------------------------------------------

  /**
   * On a network whose measures are closed, filtering the output again,
   * behind lines `pre` without a point, keeps every line and inserts
   * nothing.
   */
  lemma {:induction false} FilterRerunKeeps(pre: seq<string>, lines: seq<string>, flagged: seq<StatsRow>, parse: FloatParser, close: Closeness)
    requires NoneMatch(pre, PointMarkers) && MeasuresClosed(lines)
    ensures FilterPieces(lines, flagged, parse, close).Some? ==>
              var out := pre + Render(FilterPieces(lines, flagged, parse, close).value);
              FilterPieces(out, flagged, parse, close) == Some(KeepAll(out))
    decreases |lines|
  {
    if FilterPieces(lines, flagged, parse, close).Some? {
      var b := FilterBlock(lines, flagged, parse, close).value;
      var restPs: seq<Piece> := if b.found == "" then [] else FilterPieces(b.rest, flagged, parse, close).value;
      FilterPiecesOfBlock(lines, flagged, parse, close, b);
      assert FilterPieces(lines, flagged, parse, close).value == b.pieces + restPs;
      var rest := Render(restPs);
      RenderAppend(b.pieces, restPs);
      var u, pre2 := RerunBlock(pre, lines, flagged, parse, close, rest);
      if b.found == "" {
        FilterPiecesNoPoint(pre2, flagged, parse, close);
        assert pre2 + rest == pre2;
      } else {
        FilterRerunKeeps(pre2, b.rest, flagged, parse, close);
      }
      KeepAllAppend(u, pre2 + rest);
      RerunShape(pre, Render(b.pieces), rest, u, pre2);
    }
  }

  /**
   * `filter_coreg_result` run again, with the same flagged rows, on the
   * network it wrote from a file without continued lines whose measures are
   * closed: it writes the same lines back and inserts no ` Ignore = True`
   * line.
   */
  lemma FilterRerunInsertsNothing(raw: seq<string>, flagged: seq<StatsRow>, parse: FloatParser, close: Closeness)
    requires MeasuresClosed(raw) && forall i :: 0 <= i < |raw| ==> !Continues(raw[i])
    ensures match FilterPieces(Joined(raw, ""), flagged, parse, close)
            case None => true
            case Some(ps) =>
              var out := Render(ps);
              && FilterPieces(Joined(out, ""), flagged, parse, close) == Some(KeepAll(out))
              && Render(KeepAll(out)) == out && Marks(KeepAll(out)) == 0
  {
    JoinedWithoutContinuations(raw);
    if FilterPieces(raw, flagged, parse, close).Some? {
      var ps := FilterPieces(raw, flagged, parse, close).value;
      var out := Render(ps);
      FilterRerunKeeps([], raw, flagged, parse, close);
      EmptyPrefix(out);
      FilterKeepsLines(raw, flagged, parse, close);
      RenderedWithoutContinuations(ps);
      JoinedWithoutContinuations(out);
      RenderKeepAll(out);
      MarksKeepAll(out);
    }
  }

  /** Written lines are continued only where a line of the network is: the inserted line is not. */
  lemma RenderedWithoutContinuations(ps: seq<Piece>)
    requires forall i :: 0 <= i < |KeptLines(ps)| ==> !Continues(KeptLines(ps)[i])
    ensures forall i :: 0 <= i < |Render(ps)| ==> !Continues(Render(ps)[i])
  {
    assert '-' !in IgnoreLine;
    FirstCharAbsent(IgnoreLine, ContinuationMarker);
    forall i | 0 <= i < |ps| && ps[i].Kept?
      ensures !Continues(ps[i].line)
    {
      KeptLineAmong(ps, i);
    }
  }

  /** A passed-through line is one of the network's lines among the pieces. */
  lemma {:induction false} KeptLineAmong(ps: seq<Piece>, i: nat)
    requires i < |ps| && ps[i].Kept?
    ensures ps[i].line in KeptLines(ps)
    decreases i
  {
    if i > 0 {
      KeptLineAmong(ps[1..], i - 1);
    }
  }

  lemma {:induction false} MarksKeepAll(lines: seq<string>)
    ensures Marks(KeepAll(lines)) == 0
    decreases |lines|
  {
    if lines != [] {
      assert KeepAll(lines)[1..] == KeepAll(lines[1..]);
      MarksKeepAll(lines[1..]);
    }
  }
}
