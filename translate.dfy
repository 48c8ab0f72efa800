/**
 * The translation pass over a control network (pvl.py: `translate_coreg_res`):
 * every `Group = ControlMeasure` block whose dictionary has a `SerialNumber`
 * is moved back onto a source image, by way of the ground point ISIS finds
 * for it, and its `Sample`, `Line` and `SerialNumber` lines are rewritten;
 * every other line is written back unchanged.
 *
 * The ISIS programs (`campt`, `getkey`, `getsn`) are an oracle `Isis` passed
 * in; `TranslateBlock` and `TranslateLines` define the pass on the joined
 * lines of the network, and `TranslateCoregRes` is the pass itself, proved
 * to produce what `TranslateLines` says.
 */
module Translation {
  import opened Options
  import opened Text
  import opened Scanner
  import opened Codec
  import opened FilterPass

  /** A ground point as ISIS prints it: planetocentric latitude and positive-east longitude. */
  datatype Ground = Ground(latitude: string, longitude: string)

  /** The image a measure is moved back to. */
  datatype Source = LrocCube | OldCube

  /**
   * What the ISIS programs answer, `None` where a program fails (and the
   * pass raises):
   *  - `ground(serial, sample, line)`: `campt` on the transformed cube named
   *    by the serial number, then the ground point's latitude and longitude;
   *  - `pixel(source, ground)`: `campt` with `type=ground` on the source
   *    image, then the ground point's `Sample` and `Line`;
   *  - `serialNumber(source)`: what `getsn` prints for the source image.
   */
  datatype Isis = Isis(
    ground: (string, real, real) -> Option<Ground>,
    pixel: (Source, Ground) -> Option<(string, string)>,
    serialNumber: Source -> Option<string>)

  const EndGroupMarkers: seq<string> := ["End_Group"]
  const SerialKey: string := "SerialNumber"

  /** The keys whose lines the pass rewrites, in the order it passes them to `update_pvlgroup`. */
  const UpdateKeys: seq<string> := ["Sample", "Line", SerialKey]

  /** `pvl_dict.get('Reference')` as a condition: present and true once cleaned. */
  predicate IsReference(d: map<string, Value>) {
    ReferenceKey in d && d[ReferenceKey] == Bool(true)
  }

  /** The image the measure is moved back to: the LROC cube for a reference measure, else the old cube. */
  function SourceOf(d: map<string, Value>): Source {
    if IsReference(d) then LrocCube else OldCube
  }

  /**
   * The new `Sample`, `Line` and `SerialNumber` of a measure at `sample`,
   * `line` on the transformed cube `serial`: its ground point looked up on
   * that cube, found again on `source`; the serial number is `getsn`'s output
   * stripped of whitespace. `None` where an ISIS program fails.
   */
  function Relocated(serial: string, sample: real, line: real, source: Source, isis: Isis): Option<map<string, string>> {
    match isis.ground(serial, sample, line)
    case None => None
    case Some(g) =>
      match isis.pixel(source, g)
      case None => None
      case Some(px) =>
        match isis.serialNumber(source)
        case None => None
        case Some(sn) => Some(map["Sample" := px.0, "Line" := px.1, SerialKey := Strip(sn, Whitespace)])
  }

  /** The new values cover the three keys the pass rewrites, and come from the source image. */
  lemma RelocatedValues(serial: string, sample: real, line: real, source: Source, isis: Isis)
    requires Relocated(serial, sample, line, source, isis).Some?
    ensures var v := Relocated(serial, sample, line, source, isis).value;
            var g := isis.ground(serial, sample, line).value;
            && (forall j :: 0 <= j < |UpdateKeys| ==> UpdateKeys[j] in v)
            && (v["Sample"], v["Line"]) == isis.pixel(source, g).value
            && v[SerialKey] == Strip(isis.serialNumber(source).value, Whitespace)
  {
  }

  /**
   * The source image follows the raw `Reference` entry: the LROC cube when
   * its first token is non-empty (`"False"` included), the old cube when it
   * is absent or blank.
   */
  lemma SourceFromReference(raw: map<string, string>, parse: FloatParser)
    requires Cleaned(raw, parse).Some?
    ensures SourceOf(Cleaned(raw, parse).value)
            == if ReferenceKey in raw && FirstToken(raw[ReferenceKey]) != "" then LrocCube else OldCube
  {
  }

  /** What one turn of the pass's loop emits, the value `line` holds after it, and the joined lines it leaves. */
  datatype Step = Step(out: seq<string>, line: string, rest: seq<string>)

  /** The entries of a dictionary `clean_pvldict` returned have the types it gave them. */
  predicate Typed(d: map<string, Value>) {
    && (forall k :: k in d && k in NumericKeys ==> d[k].Float?)
    && (SerialKey in d ==> d[SerialKey].Str?)
  }

  lemma CleanedTyped(raw: map<string, string>, parse: FloatParser)
    requires Cleaned(raw, parse).Some?
    ensures Typed(Cleaned(raw, parse).value)
  {
    assert SerialKey !in NumericKeys && SerialKey != ReferenceKey;
  }

  /** A group with an entry has at least one line besides the one `[:-1]` drops. */
  lemma KeyedGroupNotEmpty(grp: seq<string>, k: string)
    requires k in GroupToDict(DropLast(grp))
    ensures |grp| > 1
  {
    GroupToDictEntry(DropLast(grp), k);
  }

  /**
   * A moved measure's group, rewritten, and the value `line` then holds (the
   * new `Line` ISIS printed); `None` where the pass raises: `Sample` or
   * `Line` missing, or a failing ISIS program.
   */
  function MovedMeasure(grp: seq<string>, d: map<string, Value>, isis: Isis): Option<(seq<string>, string)>
    requires Typed(d) && SerialKey in d
  {
    match Relocation(d, isis)
    case None => None
    case Some(v) => Some((UpdatedGroup(grp, UpdateKeys, v), v["Line"]))
  }

  /**
   * The new values of a moved measure with dictionary `d`: its `Sample` and
   * `Line` relocated through ISIS onto its source image. `None` where the
   * pass raises: `Sample` or `Line` missing, or a failing ISIS program.
   */
  function Relocation(d: map<string, Value>, isis: Isis): (r: Option<map<string, string>>)
    requires Typed(d) && SerialKey in d
    ensures r.Some? ==> forall j :: 0 <= j < |UpdateKeys| ==> UpdateKeys[j] in r.value
  {
    if "Sample" !in d || "Line" !in d then None
    else
      var r := Relocated(d[SerialKey].s, d["Sample"].x, d["Line"].x, SourceOf(d), isis);
      if r.None? then r
      else
        RelocatedValues(d[SerialKey].s, d["Sample"].x, d["Line"].x, SourceOf(d), isis);
        r
  }

  /**
   * A moved measure gets new values exactly when it has a `Sample` and a
   * `Line` and every ISIS program succeeds; they are the pixel of its
   * ground point on the source image, and that image's serial number.
   */
  lemma RelocationValues(d: map<string, Value>, isis: Isis)
    requires Typed(d) && SerialKey in d
    ensures Relocation(d, isis).Some? <==>
              && "Sample" in d && "Line" in d
              && isis.ground(d[SerialKey].s, d["Sample"].x, d["Line"].x).Some?
              && isis.pixel(SourceOf(d), isis.ground(d[SerialKey].s, d["Sample"].x, d["Line"].x).value).Some?
              && isis.serialNumber(SourceOf(d)).Some?
    ensures Relocation(d, isis).Some? ==>
              && "Sample" in d && "Line" in d
              && var v := Relocation(d, isis).value;
                 var g := isis.ground(d[SerialKey].s, d["Sample"].x, d["Line"].x).value;
                 && (v["Sample"], v["Line"]) == isis.pixel(SourceOf(d), g).value
                 && v[SerialKey] == Strip(isis.serialNumber(SourceOf(d)).value, Whitespace)
  {
    if Relocation(d, isis).Some? {
      RelocatedValues(d[SerialKey].s, d["Sample"].x, d["Line"].x, SourceOf(d), isis);
    }
  }

  /**
   * One turn of `translate_coreg_res`'s loop on the joined lines `lines`:
   * the lines up to a `Group = ControlMeasure` line, then the measure's
   * lines up to `End_Group`. A measure with a `SerialNumber` is relocated
   * and its lines rewritten, and `line` is then the new `Line` value ISIS
   * printed; otherwise `line` is the `End_Group` line read, if any. `None`
   * where the pass raises: a dictionary that does not clean, or a moved
   * measure that `MovedMeasure` cannot rewrite.
   */
  function TranslateBlock(lines: seq<string>, isis: Isis, parse: FloatParser): (r: Option<Step>)
    ensures r.Some? ==> |r.value.rest| <= |lines|
    ensures r.Some? && r.value.line != "" ==> |r.value.rest| < |lines|
  {
    var t1 := TakeTill(lines, MeasureMarkers);
    var t2 := TakeTill(t1.rest, EndGroupMarkers);
    TakeTillNothingFound(t1.rest, EndGroupMarkers);
    match Cleaned(GroupToDict(DropLast(t2.head)), parse)
    case None => None
    case Some(d) =>
      if SerialKey !in d then Some(Step(t1.head + t2.head, t2.found, t2.rest))
      else
        CleanedTyped(GroupToDict(DropLast(t2.head)), parse);
        KeyedGroupNotEmpty(t2.head, SerialKey);
        match MovedMeasure(t2.head, d, isis)
        case None => None
        case Some(m) => Some(Step(t1.head + m.0, m.1, t2.rest))
  }

  /** The lines `translate_coreg_res` writes for the joined lines `lines`, or `None` where it raises. */
  function TranslateLines(lines: seq<string>, isis: Isis, parse: FloatParser): Option<seq<string>>
    decreases |lines|
  {
    match TranslateBlock(lines, isis, parse)
    case None => None
    case Some(s) =>
      if s.line == "" then Some(s.out)
      else match TranslateLines(s.rest, isis, parse)
        case None => None
        case Some(more) => Some(s.out + more)
  }

  // ---------------------------------------------------------------------
  // The pass itself
  // ---------------------------------------------------------------------

  /** The loop body's effect as one `TranslateBlock`, given its two reads and the measure's dictionary. */
  lemma TranslateBlockOfReads(lines: seq<string>, isis: Isis, parse: FloatParser, t1: Take, t2: Take, d: map<string, Value>)
    requires t1 == TakeTill(lines, MeasureMarkers) && t2 == TakeTill(t1.rest, EndGroupMarkers)
    requires Cleaned(GroupToDict(DropLast(t2.head)), parse) == Some(d)
    ensures Typed(d)
    ensures SerialKey !in d ==> TranslateBlock(lines, isis, parse) == Some(Step(t1.head + t2.head, t2.found, t2.rest))
    ensures SerialKey in d ==>
              TranslateBlock(lines, isis, parse)
              == match MovedMeasure(t2.head, d, isis)
                 case None => None
                 case Some(m) => Some(Step(t1.head + m.0, m.1, t2.rest))
  {
    CleanedTyped(GroupToDict(DropLast(t2.head)), parse);
  }

  /**
   * The relocating part of the loop body: asks ISIS for the measure's ground
   * point and for its pixel and serial number on the source image, then
   * rewrites the group; reports when the body raises instead.
   */
  method MoveMeasure(grp: seq<string>, d: map<string, Value>, isis: Isis)
    returns (out: seq<string>, line: string, raised: bool)
    requires Typed(d) && SerialKey in d
    ensures raised <==> MovedMeasure(grp, d, isis).None?
    ensures !raised ==> MovedMeasure(grp, d, isis) == Some((out, line))
  {
    if "Sample" !in d || "Line" !in d {
      return [], "", true;
    }
    var source := if IsReference(d) then LrocCube else OldCube;
    var ground := isis.ground(d[SerialKey].s, d["Sample"].x, d["Line"].x);
    if ground.None? {
      return [], "", true;
    }
    var px := isis.pixel(source, ground.value);
    if px.None? {
      return [], "", true;
    }
    var sn := isis.serialNumber(source);
    if sn.None? {
      return [], "", true;
    }
    var sample := px.value.0;
    line := px.value.1;
    var values := map["Sample" := sample, "Line" := line, SerialKey := Strip(sn.value, Whitespace)];
    out := UpdatePvlGroup(grp, UpdateKeys, values);
    raised := false;
  }

  /**
   * One turn of `translate_coreg_res`'s loop: reads a measure and, when it
   * has a `SerialNumber`, relocates it through ISIS and rewrites its lines;
   * returns the lines to write and the value `line` ends with, or reports
   * that the turn raised.
   */
  method TranslateTurn(f: LineCursor, isis: Isis, parse: FloatParser)
    returns (emitted: seq<string>, line: string, raised: bool)
    requires f.Valid()
    modifies f
    ensures f.Valid()
    ensures raised ==> TranslateBlock(old(f.Pending()), isis, parse).None?
    ensures !raised ==> TranslateBlock(old(f.Pending()), isis, parse) == Some(Step(emitted, line, f.Pending()))
  {
    ghost var pending := f.Pending();
    var head;
    head, line := f.ReadTill(MeasureMarkers);
    ghost var t1 := TakeTill(pending, MeasureMarkers);
    var grp;
    grp, line := f.ReadTill(EndGroupMarkers);
    var dict := PvlGroupToDict(DropLast(grp));
    var cleaned := CleanPvlDict(dict, parse);
    if cleaned.None? {
      return [], line, true;
    }
    var d := cleaned.value;
    TranslateBlockOfReads(pending, isis, parse, t1, TakeTill(t1.rest, EndGroupMarkers), d);
    if SerialKey in d {
      var moved, newLine, failed := MoveMeasure(grp, d, isis);
      if failed {
        return [], line, true;
      }
      grp, line := moved, newLine;
    }
    emitted := head + grp;
    raised := false;
  }

  /**
   * Python's `translate_coreg_res` on the raw lines of the network file:
   * the lines it writes, or `None` where it raises.
   */
  method TranslateCoregRes(raw: seq<string>, isis: Isis, parse: FloatParser) returns (out: Option<seq<string>>)
    ensures out == TranslateLines(Joined(raw, ""), isis, parse)
  {
    ghost var all := Joined(raw, "");
    var f := new LineCursor(raw);
    var line := " ";
    var network: seq<string> := [];
    if TranslateLines(all, isis, parse).Some? {
      assert [] + TranslateLines(all, isis, parse).value == TranslateLines(all, isis, parse).value;
    }
    while line != ""
      invariant f.Valid()
      invariant line != "" ==> TranslateLines(all, isis, parse) == Join(network, TranslateLines(f.Pending(), isis, parse))
      invariant line == "" ==> TranslateLines(all, isis, parse) == Some(network)
      decreases |f.Pending()| + (if line != "" then 1 else 0)
    {
      var emitted, raised;
      ghost var pending := f.Pending();
      emitted, line, raised := TranslateTurn(f, isis, parse);
      if raised {
        return None;
      }
      TranslateLinesOfStep(pending, isis, parse, Step(emitted, line, f.Pending()));
      JoinAppend(network, emitted, TranslateLines(f.Pending(), isis, parse));
      network := network + emitted;
    }
    return Some(network);
  }

  /** `done` followed by what is still to come, unless that raises. */
  function Join(done: seq<string>, r: Option<seq<string>>): Option<seq<string>> {
    match r
    case None => None
    case Some(more) => Some(done + more)
  }

  lemma JoinAppend(a: seq<string>, b: seq<string>, r: Option<seq<string>>)
    ensures Join(a, Join(b, r)) == Join(a + b, r)
  {
    if r.Some? {
      assert a + (b + r.value) == (a + b) + r.value;
    }
  }

  // ---------------------------------------------------------------------
  // What the pass writes
  // ---------------------------------------------------------------------

  /** `out` is `line` itself, or an assignment of one of the rewritten keys that `line` mentions. */
  predicate RewrittenLine(line: string, out: string) {
    || out == line
    || exists j :: 0 <= j < |UpdateKeys| && KeyMatches(UpdateKeys[j], line) && UpdateKeys[j] + " = " <= out
  }

  /** `out` is `lines`, line for line, except for rewritten `Sample`, `Line` and `SerialNumber` lines. */
  predicate Rewritten(lines: seq<string>, out: seq<string>) {
    |out| == |lines| && forall i :: 0 <= i < |lines| ==> RewrittenLine(lines[i], out[i])
  }

  lemma RewrittenAppend(a: seq<string>, x: seq<string>, b: seq<string>, y: seq<string>)
    requires Rewritten(a, x) && Rewritten(b, y)
    ensures Rewritten(a + b, x + y)
  {
    forall i | 0 <= i < |a + b|
      ensures RewrittenLine((a + b)[i], (x + y)[i])
    {
      if i >= |a| {
        assert (a + b)[i] == b[i - |a|] && (x + y)[i] == y[i - |a|];
      }
    }
  }

  lemma AssignmentStarts(key: string, value: string)
    ensures key + " = " <= Assignment(key, value)
  {
    assert Assignment(key, value) == (key + " = ") + (value + "\n");
  }

  /** A moved measure's group is rewritten line for line. */
  lemma MovedMeasureRewritten(grp: seq<string>, d: map<string, Value>, isis: Isis)
    requires Typed(d) && SerialKey in d && MovedMeasure(grp, d, isis).Some?
    ensures Rewritten(grp, MovedMeasure(grp, d, isis).value.0)
  {
    var v := Relocated(d[SerialKey].s, d["Sample"].x, d["Line"].x, SourceOf(d), isis).value;
    RelocatedValues(d[SerialKey].s, d["Sample"].x, d["Line"].x, SourceOf(d), isis);
    var out := UpdatedGroup(grp, UpdateKeys, v);
    forall i | 0 <= i < |grp|
      ensures RewrittenLine(grp[i], out[i])
    {
      UpdatedGroupChanges(grp, UpdateKeys, v, i);
      if out[i] != grp[i] {
        var j :| 0 <= j < |UpdateKeys| && KeyMatches(UpdateKeys[j], grp[i])
                 && out[i] == Assignment(UpdateKeys[j], v[UpdateKeys[j]]);
        AssignmentStarts(UpdateKeys[j], v[UpdateKeys[j]]);
      }
    }
  }

  /** Every `Line` value ISIS prints is non-empty. */
  ghost predicate LinesNeverEmpty(isis: Isis) {
    forall src, g :: isis.pixel(src, g).Some? ==> isis.pixel(src, g).value.1 != ""
  }

  /** The `line` a moved measure leaves is the `Line` ISIS printed. */
  lemma MovedMeasureLine(grp: seq<string>, d: map<string, Value>, isis: Isis)
    requires Typed(d) && SerialKey in d && MovedMeasure(grp, d, isis).Some? && LinesNeverEmpty(isis)
    ensures MovedMeasure(grp, d, isis).value.1 != ""
  {
    RelocatedValues(d[SerialKey].s, d["Sample"].x, d["Line"].x, SourceOf(d), isis);
  }

  /** The two reads of a turn, with the group rewritten, cover a prefix of the lines. */
  lemma ReadsRewritten(lines: seq<string>, t1: Take, t2: Take, grp: seq<string>)
    requires t1.head + t1.rest == lines && t2.head + t2.rest == t1.rest
    requires Rewritten(t2.head, grp)
    ensures var out := t1.head + grp;
            && |out| <= |lines| && t2.rest == lines[|out|..]
            && Rewritten(lines[..|out|], out)
  {
    assert lines == (t1.head + t2.head) + t2.rest;
    assert lines[..|t1.head| + |t2.head|] == t1.head + t2.head;
    assert Rewritten(t1.head, t1.head);
    RewrittenAppend(t1.head, t1.head, t2.head, grp);
  }

  /**
   * One turn writes the lines it read, rewritten, and leaves the rest; when
   * ISIS never prints an empty `Line`, a turn that ends the loop has read
   * everything.
   */
  lemma TranslateBlockRewrites(lines: seq<string>, isis: Isis, parse: FloatParser)
    requires TranslateBlock(lines, isis, parse).Some?
    ensures var s := TranslateBlock(lines, isis, parse).value;
            && |s.out| <= |lines| && s.rest == lines[|s.out|..]
            && Rewritten(lines[..|s.out|], s.out)
            && (LinesNeverEmpty(isis) && s.line == "" ==> s.rest == [])
  {
    var t1 := TakeTill(lines, MeasureMarkers);
    var t2 := TakeTill(t1.rest, EndGroupMarkers);
    TakeTillNothingFound(t1.rest, EndGroupMarkers);
    var d := Cleaned(GroupToDict(DropLast(t2.head)), parse).value;
    TranslateBlockOfReads(lines, isis, parse, t1, t2, d);
    if SerialKey in d {
      MovedMeasureRewritten(t2.head, d, isis);
      ReadsRewritten(lines, t1, t2, MovedMeasure(t2.head, d, isis).value.0);
      if LinesNeverEmpty(isis) {
        MovedMeasureLine(t2.head, d, isis);
      }
    } else {
      assert Rewritten(t2.head, t2.head);
      ReadsRewritten(lines, t1, t2, t2.head);
    }
  }

  /**
   * The pass writes the network's joined lines in order, rewriting only
   * `Sample`, `Line` and `SerialNumber` lines; it writes all of them unless
   * ISIS prints an empty `Line`, which ends the loop early.
   */
  lemma {:induction false} TranslateRewrites(lines: seq<string>, isis: Isis, parse: FloatParser)
    requires TranslateLines(lines, isis, parse).Some?
    ensures var out := TranslateLines(lines, isis, parse).value;
            && |out| <= |lines| && Rewritten(lines[..|out|], out)
            && (LinesNeverEmpty(isis) ==> |out| == |lines|)
    decreases |lines|
  {
    var s := TranslateBlock(lines, isis, parse).value;
    TranslateBlockRewrites(lines, isis, parse);
    if s.line != "" {
      TranslateRewrites(s.rest, isis, parse);
      var more := TranslateLines(s.rest, isis, parse).value;
      PrefixesRewritten(lines, s.out, s.rest, more);
    }
  }

  lemma PrefixesRewritten(lines: seq<string>, out: seq<string>, rest: seq<string>, more: seq<string>)
    requires |out| <= |lines| && rest == lines[|out|..] && Rewritten(lines[..|out|], out)
    requires |more| <= |rest| && Rewritten(rest[..|more|], more)
    ensures |out + more| <= |lines| && Rewritten(lines[..|out + more|], out + more)
  {
    assert lines[..|out| + |more|] == lines[..|out|] + rest[..|more|];
    RewrittenAppend(lines[..|out|], out, rest[..|more|], more);
  }

  /** No line of a suffix, or of a measure group read from the lines, assigns a `SerialNumber`. */
  lemma NoSerialInReads(lines: seq<string>, t1: Take, t2: Take)
    requires t1.head + t1.rest == lines && t2.head + t2.rest == t1.rest
    requires forall i :: 0 <= i < |lines| ==> !Assigns(lines[i], SerialKey)
    ensures SerialKey !in GroupToDict(DropLast(t2.head))
    ensures forall i :: 0 <= i < |t2.rest| ==> !Assigns(t2.rest[i], SerialKey)
    ensures (t1.head + t2.head) + t2.rest == lines
  {
    var g := DropLast(t2.head);
    forall i | 0 <= i < |g|
      ensures !Assigns(g[i], SerialKey)
    {
      assert g[i] == lines[|t1.head| + i];
    }
    forall i | 0 <= i < |t2.rest|
      ensures !Assigns(t2.rest[i], SerialKey)
    {
      assert t2.rest[i] == lines[|t1.head| + |t2.head| + i];
    }
    GroupToDictEntry(g, SerialKey);
  }

  /** The pass on `lines` is its first turn followed, unless that turn ends the loop, by the pass on what is left. */
  lemma TranslateLinesOfStep(lines: seq<string>, isis: Isis, parse: FloatParser, s: Step)
    requires TranslateBlock(lines, isis, parse) == Some(s)
    ensures TranslateLines(lines, isis, parse)
            == if s.line == "" then Some(s.out) else Join(s.out, TranslateLines(s.rest, isis, parse))
  {
  }

  /** A measure group whose lines assign no `SerialNumber` is written back as it was read. */
  lemma UnmovedBlock(lines: seq<string>, isis: Isis, parse: FloatParser)
    requires forall i :: 0 <= i < |lines| ==> !Assigns(lines[i], SerialKey)
    requires TranslateBlock(lines, isis, parse).Some?
    ensures var s := TranslateBlock(lines, isis, parse).value;
            && s.out + s.rest == lines && (s.line == "" ==> s.rest == [])
            && forall i :: 0 <= i < |s.rest| ==> !Assigns(s.rest[i], SerialKey)
  {
    var t1 := TakeTill(lines, MeasureMarkers);
    var t2 := TakeTill(t1.rest, EndGroupMarkers);
    TakeTillNothingFound(t1.rest, EndGroupMarkers);
    NoSerialInReads(lines, t1, t2);
    var d := Cleaned(GroupToDict(DropLast(t2.head)), parse).value;
    TranslateBlockOfReads(lines, isis, parse, t1, t2, d);
  }

  /** Without moved measures the pass writes the network back unchanged, or raises. */
  lemma {:induction false} TranslateWithoutSerials(lines: seq<string>, isis: Isis, parse: FloatParser)
    requires forall i :: 0 <= i < |lines| ==> !Assigns(lines[i], SerialKey)
    requires TranslateLines(lines, isis, parse).Some?
    ensures TranslateLines(lines, isis, parse) == Some(lines)
    decreases |lines|
  {
    var s := TranslateBlock(lines, isis, parse).value;
    UnmovedBlock(lines, isis, parse);
    TranslateLinesOfStep(lines, isis, parse, s);
    if s.line != "" {
      TranslateWithoutSerials(s.rest, isis, parse);
    } else {
      assert s.out + [] == s.out;
    }
  }

  // ---------------------------------------------------------------------
  // Which lines the pass rewrites, and with what
  // ---------------------------------------------------------------------

  /**
   * One turn of a loop over the joined lines: `None` where it raises, or
   * what it writes, the line it stops on and the lines it leaves.
   */
  type Turn = seq<string> -> Option<Step>

  /** One turn of `translate_coreg_res`'s loop, as a function value. */
  function TurnBy(isis: Isis, parse: FloatParser): Turn {
    l => TranslateBlock(l, isis, parse)
  }

  /**
   * A turn on `l` writes as many lines as it reads, leaves the rest of `l`,
   * and reads at least one line unless it ends the loop.
   */
  predicate ShapedAt(turn: Turn, l: seq<string>) {
    match turn(l)
    case None => true
    case Some(s) => |s.out| <= |l| && s.rest == l[|s.out|..] && (s.line != "" ==> |s.rest| < |l|)
  }

  ghost predicate Shaped(turn: Turn) {
    forall l :: ShapedAt(turn, l)
  }

  /**
   * The loop: turns until one raises or stops on an empty line. A turn
   * that would leave as many lines as it got ends it with a raise; the
   * pass's turns never do.
   */
  function Run(lines: seq<string>, turn: Turn): Option<seq<string>>
    decreases |lines|
  {
    match turn(lines)
    case None => None
    case Some(s) =>
      if s.line == "" then Some(s.out)
      else if |s.rest| >= |lines| then None
      else match Run(s.rest, turn)
        case None => None
        case Some(more) => Some(s.out + more)
  }

  /** The loop starts a turn on `post`: `post` is `lines`, or a turn starts there after its first turn on `lines`. */
  predicate StartsAt(lines: seq<string>, post: seq<string>, turn: Turn)
    decreases |lines|
  {
    || post == lines
    || match turn(lines)
       case None => false
       case Some(s) => s.line != "" && |s.rest| < |lines| && StartsAt(s.rest, post, turn)
  }

  /**
   * The lines the turn that writes output line `i` starts on: the turn
   * whose output covers index `i`, or the last turn.
   */
  function TurnAt(lines: seq<string>, i: int, turn: Turn): (post: seq<string>)
    ensures |post| <= |lines|
    decreases |lines|
  {
    match turn(lines)
    case None => lines
    case Some(s) =>
      if i < |s.out| || s.line == "" || |s.rest| >= |lines| then lines else TurnAt(s.rest, i - |s.out|, turn)
  }

  /** The loop on `lines` writes the first turn's lines, then the loop on what that turn left. */
  lemma RunAfterTurn(lines: seq<string>, turn: Turn)
    requires Shaped(turn) && Run(lines, turn).Some?
    ensures var s := turn(lines).value;
            var out := Run(lines, turn).value;
            && |s.out| <= |out| && out[..|s.out|] == s.out
            && |s.out| + |s.rest| == |lines| && s.rest == lines[|s.out|..]
            && (s.line != "" ==> Run(s.rest, turn).Some? && out[|s.out|..] == Run(s.rest, turn).value)
            && (s.line == "" ==> out == s.out)
  {
    assert ShapedAt(turn, lines);
  }

  /** The lines `TurnAt` picks are ones a turn starts on. */
  lemma {:induction false} TurnAtStarts(lines: seq<string>, i: int, turn: Turn)
    ensures StartsAt(lines, TurnAt(lines, i, turn), turn)
    decreases |lines|
  {
    match turn(lines)
    case None =>
    case Some(s) =>
      if !(i < |s.out| || s.line == "" || |s.rest| >= |lines|) {
        TurnAtStarts(s.rest, i - |s.out|, turn);
      }
  }

  /** The turn `TurnAt` picks for an output line `i` is the one whose own output holds line `i`. */
  lemma {:induction false} TurnAtCovers(lines: seq<string>, turn: Turn, i: int) returns (post: seq<string>)
    requires Shaped(turn) && Run(lines, turn).Some?
    requires 0 <= i < |Run(lines, turn).value|
    ensures post == TurnAt(lines, i, turn)
    ensures post == lines[|lines| - |post|..]
    ensures turn(post).Some?
    ensures |lines| - |post| <= i < |lines| - |post| + |turn(post).value.out|
    decreases |lines|
  {
    var s := turn(lines).value;
    RunAfterTurn(lines, turn);
    if i < |s.out| {
      post := lines;
      assert lines[0..] == lines;
    } else {
      post := TurnAtCovers(s.rest, turn, i - |s.out|);
      SuffixOfRest(lines, s.out, s.rest, post);
    }
  }

  /** A suffix of what the first turn left is a suffix of `lines`. */
  lemma SuffixOfRest(lines: seq<string>, first: seq<string>, rest: seq<string>, post: seq<string>)
    requires |first| + |rest| == |lines| && rest == lines[|first|..]
    requires |post| <= |rest| && post == rest[|rest| - |post|..]
    ensures post == lines[|lines| - |post|..]
  {
  }

  /** Where a turn of the loop starts, the loop writes what the loop on the lines from there writes. */
  lemma {:induction false} RunFromTurn(lines: seq<string>, post: seq<string>, turn: Turn)
    requires Shaped(turn) && Run(lines, turn).Some? && StartsAt(lines, post, turn)
    ensures Run(post, turn).Some? && |post| <= |lines|
    ensures var out := Run(lines, turn).value;
            |lines| - |post| <= |out| && out[|lines| - |post|..] == Run(post, turn).value
    decreases |lines|
  {
    var out := Run(lines, turn).value;
    if post == lines {
      assert out[0..] == out;
    } else {
      var s := turn(lines).value;
      RunAfterTurn(lines, turn);
      RunFromTurn(s.rest, post, turn);
      SuffixOfSuffix(out, |s.out|, Run(s.rest, turn).value, |s.rest| - |post|);
    }
  }

  /** The pass's turns have the shape the loop lemmas need. */
  lemma TurnByShaped(isis: Isis, parse: FloatParser)
    ensures Shaped(TurnBy(isis, parse))
  {
    forall l
      ensures ShapedAt(TurnBy(isis, parse), l)
    {
      if TranslateBlock(l, isis, parse).Some? {
        TranslateBlockRewrites(l, isis, parse);
      }
    }
  }

  /** `TranslateLines` is the loop run with the pass's turn. */
  lemma {:induction false} TranslateLinesRun(lines: seq<string>, isis: Isis, parse: FloatParser)
    ensures TranslateLines(lines, isis, parse) == Run(lines, TurnBy(isis, parse))
    decreases |lines|
  {
    match TranslateBlock(lines, isis, parse)
    case None =>
    case Some(s) =>
      if s.line != "" {
        TranslateLinesRun(s.rest, isis, parse);
      }
  }

  /**
   * The measure group the turn starting on `post` relocates: the index of
   * its first line, its lines, and the new values ISIS gave; `None` where
   * its dictionary has no `SerialNumber` or the turn raises.
   */
  function MovedGroup(post: seq<string>, isis: Isis, parse: FloatParser): Option<(int, seq<string>, map<string, string>)> {
    var t1 := TakeTill(post, MeasureMarkers);
    var t2 := TakeTill(t1.rest, EndGroupMarkers);
    match Cleaned(GroupToDict(DropLast(t2.head)), parse)
    case None => None
    case Some(d) =>
      if !Typed(d) || SerialKey !in d then None
      else match Relocation(d, isis)
        case None => None
        case Some(v) => Some((|t1.head|, t2.head, v))
  }

  /**
   * Line `k` of the lines `post` a turn starts on is `line`; it lies in the
   * measure group the turn relocates, and `out` is the assignment of a key
   * matching `line` to the value ISIS gave for that key.
   */
  predicate MovedLine(post: seq<string>, k: int, line: string, out: string, isis: Isis, parse: FloatParser) {
    MovedIn(MovedGroup(post, isis, parse), post, k, line, out)
  }

  /** `MovedLine` for the relocated group `g`, as `MovedGroup` gives it. */
  predicate MovedIn(g: Option<(int, seq<string>, map<string, string>)>, post: seq<string>, k: int, line: string, out: string) {
    match g
    case None => false
    case Some(g) =>
      && 0 <= g.0 <= k < g.0 + |g.1| && k < |post| && post[k] == line
      && exists j :: 0 <= j < |UpdateKeys| && KeyMatches(UpdateKeys[j], line) && UpdateKeys[j] in g.2
                     && out == Assignment(UpdateKeys[j], g.2[UpdateKeys[j]])
  }

  /** The group a turn relocates, from its two reads and its dictionary. */
  lemma MovedGroupOf(lines: seq<string>, isis: Isis, parse: FloatParser, t1: Take, t2: Take, d: map<string, Value>)
    requires t1 == TakeTill(lines, MeasureMarkers) && t2 == TakeTill(t1.rest, EndGroupMarkers)
    requires Cleaned(GroupToDict(DropLast(t2.head)), parse) == Some(d) && Typed(d) && SerialKey in d
    requires Relocation(d, isis).Some?
    ensures MovedGroup(lines, isis, parse) == Some((|t1.head|, t2.head, Relocation(d, isis).value))
  {
  }

  /** A line the first turn writes is the line it read, or a key line of a moved group set to the value ISIS gave. */
  lemma FirstTurnLine(lines: seq<string>, isis: Isis, parse: FloatParser, i: nat)
    requires TranslateBlock(lines, isis, parse).Some?
    requires i < |TranslateBlock(lines, isis, parse).value.out| && i < |lines|
    ensures var out := TranslateBlock(lines, isis, parse).value.out;
            out[i] == lines[i] || MovedLine(lines, i, lines[i], out[i], isis, parse)
  {
    var t1 := TakeTill(lines, MeasureMarkers);
    var t2 := TakeTill(t1.rest, EndGroupMarkers);
    var d := Cleaned(GroupToDict(DropLast(t2.head)), parse).value;
    var out := TranslateBlock(lines, isis, parse).value.out;
    TranslateBlockOfReads(lines, isis, parse, t1, t2, d);
    Regrouped(lines, t1.head, t1.rest, t2.head, t2.rest);
    if SerialKey in d {
      var v := Relocation(d, isis).value;
      MovedGroupOf(lines, isis, parse, t1, t2, d);
      GroupLine(lines, out, t1.head, t2.head, t2.rest, v, i);
    } else {
      assert out == t1.head + t2.head;
    }
  }

  /** Line `i` of a turn that rewrote the group `grp` of `lines` with the values `v`. */
  lemma GroupLine(lines: seq<string>, out: seq<string>, a: seq<string>, grp: seq<string>, rest: seq<string>,
                  v: map<string, string>, i: nat)
    requires ValuesCover(grp, UpdateKeys, v)
    requires lines == a + grp + rest && out == a + UpdatedGroup(grp, UpdateKeys, v)
    requires i < |out| && i < |lines|
    ensures out[i] == lines[i] || MovedIn(Some((|a|, grp, v)), lines, i, lines[i], out[i])
  {
    if i >= |a| {
      var k := i - |a|;
      assert lines[i] == grp[k] && out[i] == UpdatedGroup(grp, UpdateKeys, v)[k];
      UpdatedGroupChanges(grp, UpdateKeys, v, k);
    }
  }

  /**
   * Every line the pass writes is the joined line it read at that place,
   * unless it is a `Sample`, `Line` or `SerialNumber` line of a measure
   * group whose dictionary has a `SerialNumber`, read by the turn that
   * writes that place; such a line becomes `key = value` with the value
   * ISIS gave.
   */
  lemma TranslateLineWritten(lines: seq<string>, isis: Isis, parse: FloatParser, i: nat)
    requires TranslateLines(lines, isis, parse).Some?
    requires i < |TranslateLines(lines, isis, parse).value|
    ensures var out := TranslateLines(lines, isis, parse).value;
            var post := TurnAt(lines, i, TurnBy(isis, parse));
            && i < |lines|
            && (out[i] == lines[i] || MovedLine(post, i - (|lines| - |post|), lines[i], out[i], isis, parse))
  {
    var post, k, t := PassLineInTurn(lines, isis, parse, i);
    FirstTurnLineOf(post, isis, parse, t, k);
  }

  /** `RunLineInTurn` for the pass. */
  lemma PassLineInTurn(lines: seq<string>, isis: Isis, parse: FloatParser, i: nat) returns (post: seq<string>, k: int, t: Step)
    requires TranslateLines(lines, isis, parse).Some?
    requires i < |TranslateLines(lines, isis, parse).value|
    ensures post == TurnAt(lines, i, TurnBy(isis, parse)) && TranslateBlock(post, isis, parse) == Some(t)
    ensures k == i - (|lines| - |post|) && 0 <= k && i < |lines| && k < |t.out| && k < |post|
    ensures TranslateLines(lines, isis, parse).value[i] == t.out[k] && lines[i] == post[k]
  {
    var turn := TurnBy(isis, parse);
    TurnByShaped(isis, parse);
    TranslateLinesRun(lines, isis, parse);
    post := TurnAt(lines, i, turn);
    k := RunLineInTurn(lines, turn, i);
    t := turn(post).value;
  }

  /** `FirstTurnLine` for a turn already taken. */
  lemma FirstTurnLineOf(lines: seq<string>, isis: Isis, parse: FloatParser, s: Step, i: int)
    requires TranslateBlock(lines, isis, parse) == Some(s) && 0 <= i < |s.out| && i < |lines|
    ensures s.out[i] == lines[i] || MovedLine(lines, i, lines[i], s.out[i], isis, parse)
  {
    FirstTurnLine(lines, isis, parse, i);
  }

  /** Output line `i` of the loop is line `k` of what the turn `TurnAt` picks writes, read from line `k` of where it starts. */
  lemma RunLineInTurn(lines: seq<string>, turn: Turn, i: int) returns (k: int)
    requires Shaped(turn) && Run(lines, turn).Some?
    requires 0 <= i < |Run(lines, turn).value|
    ensures var post := TurnAt(lines, i, turn);
            && k == i - (|lines| - |post|) && 0 <= k && i < |lines|
            && turn(post).Some? && k < |turn(post).value.out| && k < |post|
            && Run(lines, turn).value[i] == turn(post).value.out[k]
            && lines[i] == post[k]
  {
    var post := TurnAtCovers(lines, turn, i);
    TurnAtStarts(lines, i, turn);
    RunFromTurn(lines, post, turn);
    RunAfterTurn(post, turn);
    k := i - (|lines| - |post|);
    IndexInTurn(Run(lines, turn).value, lines, post, Run(post, turn).value, turn(post).value.out, i);
  }

  /**
   * Where `post` is a suffix of `lines` whose output `more` is the same
   * suffix of `out` and starts with `first`, an index of `out` that falls
   * in `first` reads the same place of `post`.
   */
  lemma IndexInTurn(out: seq<string>, lines: seq<string>, post: seq<string>, more: seq<string>, first: seq<string>, i: int)
    requires |post| <= |lines| && post == lines[|lines| - |post|..]
    requires |lines| - |post| <= |out| && out[|lines| - |post|..] == more
    requires |first| <= |more| && more[..|first|] == first && |first| <= |post|
    requires |lines| - |post| <= i < |lines| - |post| + |first|
    ensures var k := i - (|lines| - |post|);
            && i < |lines| && i < |out| && out[i] == first[k] && lines[i] == post[k]
  {
    var k := i - (|lines| - |post|);
    SuffixIndex(out, |lines| - |post|, more, k);
    PrefixIndex(more, first, k);
    SuffixIndex(lines, |lines| - |post|, post, k);
  }

  /** Splitting the remainder of a split splits the whole into three. */
  lemma Regrouped(lines: seq<string>, a: seq<string>, r: seq<string>, b: seq<string>, c: seq<string>)
    requires a + r == lines && b + c == r
    ensures lines == a + b + c
  {
  }

  lemma PrefixIndex(out: seq<string>, first: seq<string>, i: nat)
    requires |first| <= |out| && out[..|first|] == first && i < |first|
    ensures out[i] == first[i]
  {
    assert out[..|first|][i] == out[i];
  }

  lemma SuffixIndex(out: seq<string>, a: nat, more: seq<string>, i: nat)
    requires a <= |out| && out[a..] == more && i < |more|
    ensures out[a + i] == more[i]
  {
    assert out[a..][i] == out[a + i];
  }

  lemma SuffixOfSuffix(out: seq<string>, a: nat, more: seq<string>, b: nat)
    requires a <= |out| && out[a..] == more && b <= |more|
    ensures a + b <= |out| && out[a + b..] == more[b..]
  {
  }

  /**
   * `w` is what a turn starting on `post` writes: the lines before its
   * measure group as read, then the group as read when its dictionary has
   * no `SerialNumber`, or else the group with its `Sample`, `Line` and
   * `SerialNumber` lines set to the values ISIS gave.
   */
  predicate GroupWritten(post: seq<string>, w: seq<string>, isis: Isis, parse: FloatParser) {
    var t1 := TakeTill(post, MeasureMarkers);
    var t2 := TakeTill(t1.rest, EndGroupMarkers);
    match Cleaned(GroupToDict(DropLast(t2.head)), parse)
    case None => false
    case Some(d) =>
      if SerialKey !in d then w == t1.head + t2.head
      else
        && Typed(d)
        && match Relocation(d, isis)
           case None => false
           case Some(v) => w == t1.head + UpdatedGroup(t2.head, UpdateKeys, v)
  }

  /** The output `out` starts with what the turn starting on `post` writes. */
  predicate TurnWrites(post: seq<string>, out: seq<string>, isis: Isis, parse: FloatParser) {
    var t1 := TakeTill(post, MeasureMarkers);
    var t2 := TakeTill(t1.rest, EndGroupMarkers);
    var n := |t1.head| + |t2.head|;
    n <= |out| && GroupWritten(post, out[..n], isis, parse)
  }

  /** One turn writes what `GroupWritten` says, as many lines as it read. */
  lemma BlockWrites(lines: seq<string>, isis: Isis, parse: FloatParser)
    requires TranslateBlock(lines, isis, parse).Some?
    ensures var t1 := TakeTill(lines, MeasureMarkers);
            var t2 := TakeTill(t1.rest, EndGroupMarkers);
            var w := TranslateBlock(lines, isis, parse).value.out;
            |w| == |t1.head| + |t2.head| && GroupWritten(lines, w, isis, parse)
  {
    var t1 := TakeTill(lines, MeasureMarkers);
    var t2 := TakeTill(t1.rest, EndGroupMarkers);
    var d := Cleaned(GroupToDict(DropLast(t2.head)), parse).value;
    TranslateBlockOfReads(lines, isis, parse, t1, t2, d);
  }

  /**
   * Every turn of the pass writes the lines before its measure group as
   * read, then the group: as read when its dictionary has no
   * `SerialNumber`, otherwise with its `Sample`, `Line` and `SerialNumber`
   * lines set to the values ISIS gave for it.
   */
  lemma TranslateTurnWrites(lines: seq<string>, post: seq<string>, isis: Isis, parse: FloatParser)
    requires TranslateLines(lines, isis, parse).Some? && StartsAt(lines, post, TurnBy(isis, parse))
    ensures |post| <= |lines| <= |TranslateLines(lines, isis, parse).value| + |post|
    ensures TurnWrites(post, TranslateLines(lines, isis, parse).value[|lines| - |post|..], isis, parse)
  {
    var turn := TurnBy(isis, parse);
    TurnByShaped(isis, parse);
    TranslateLinesRun(lines, isis, parse);
    RunFromTurn(lines, post, turn);
    RunAfterTurn(post, turn);
    BlockWrites(post, isis, parse);
  }
}
