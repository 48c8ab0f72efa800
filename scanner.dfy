/**
 * The forward-only line scanner over an ISIS control-network text file
 * (pvl.py: `all_substrings_in`, `read_till`).
 *
 * A source is a sequence of raw lines, each with its line break. A raw line
 * that contains "-\n" continues on the next one: its text without the last two
 * characters is held back and put in front of the next ordinary line, from
 * which the spaces at both ends are stripped. `Joined` defines the lines the
 * scanner hands out; `TakeTill` defines what one `read_till` call returns in
 * terms of those joined lines; `LineCursor.ReadTill` is the scanner itself,
 * reading raw lines one at a time and proved to return what `TakeTill` says.
 */
module Scanner {
  import opened Text

  /** The two characters that mark a raw line as continued on the next one. */
  const ContinuationMarker: string := "-\n"

  /** Raw lines that the scanner holds back and joins with the next one. */
  predicate Continues(raw: string) {
    Contains(raw, ContinuationMarker)
  }

  /** The part of a continued raw line that is kept: all but its last two characters. */
  function ContinuedText(raw: string): string
    requires Continues(raw)
  {
    raw[..|raw| - 2]
  }

  /** The line handed out for an ordinary raw line, given the text held back before it. */
  function Emit(pending: string, raw: string): string {
    if pending != "" then pending + Strip(raw, {' '}) else raw
  }

  /**
   * The joined lines of `raw`, given the text `pending` held back before it.
   * Text still held back when the source ends is dropped.
   */
  function Joined(raw: seq<string>, pending: string): seq<string>
    decreases |raw|
  {
    if raw == [] then []
    else if Continues(raw[0]) then Joined(raw[1..], pending + ContinuedText(raw[0]))
    else [Emit(pending, raw[0])] + Joined(raw[1..], "")
  }

  /** Number of raw lines that do not continue on the next one. */
  function CountOrdinary(raw: seq<string>): nat
    decreases |raw|
  {
    if raw == [] then 0 else (if Continues(raw[0]) then 0 else 1) + CountOrdinary(raw[1..])
  }

  /** Each ordinary raw line gives exactly one joined line; continued lines give none of their own. */
  lemma {:induction false} JoinedLength(raw: seq<string>, pending: string)
    ensures |Joined(raw, pending)| == CountOrdinary(raw)
    decreases |raw|
  {
    if raw != [] {
      if Continues(raw[0]) {
        JoinedLength(raw[1..], pending + ContinuedText(raw[0]));
      } else {
        JoinedLength(raw[1..], "");
      }
    }
  }

  /** A source without continuation lines is handed out unchanged. */
  lemma {:induction false} JoinedWithoutContinuations(raw: seq<string>)
    requires forall i :: 0 <= i < |raw| ==> !Continues(raw[i])
    ensures Joined(raw, "") == raw
    decreases |raw|
  {
    if raw != [] {
      JoinedWithoutContinuations(raw[1..]);
      assert [raw[0]] + raw[1..] == raw;
    }
  }

  /** A continuation still pending when the source ends is dropped. */
  lemma {:induction false} JoinedDropsTrailingContinuation(raw: seq<string>, c: string, pending: string)
    requires Continues(c)
    ensures Joined(raw + [c], pending) == Joined(raw, pending)
    decreases |raw|
  {
    if raw == [] {
      assert ([c])[1..] == [];
    } else {
      assert (raw + [c])[1..] == raw[1..] + [c];
      if Continues(raw[0]) {
        JoinedDropsTrailingContinuation(raw[1..], c, pending + ContinuedText(raw[0]));
      } else {
        JoinedDropsTrailingContinuation(raw[1..], c, "");
      }
    }
  }

  /** One step of the joining: what the first raw line contributes. */
  lemma JoinedStep(raw: string, rest: seq<string>, pending: string)
    ensures Joined([raw] + rest, pending)
         == if Continues(raw) then Joined(rest, pending + ContinuedText(raw))
            else [Emit(pending, raw)] + Joined(rest, "")
  {
    assert ([raw] + rest)[1..] == rest;
  }

  /** Python's `all_substrings_in` as a condition: every marker is a substring of `line`. */
  predicate AllIn(markers: seq<string>, line: string) {
    forall i :: 0 <= i < |markers| ==> Contains(line, markers[i])
  }

  /** The stop condition of `read_till`: a non-empty marker list, all of it in `line`. */
  predicate Matches(markers: seq<string>, line: string) {
    |markers| > 0 && AllIn(markers, line)
  }

  /** What one `read_till` call returns, and the joined lines it leaves unread. */
  datatype Take = Take(head: seq<string>, found: string, rest: seq<string>)

  /**
   * `read_till` on joined lines: the lines up to and including the first one
   * that matches, that line, and what follows it; or, when none matches, all
   * the lines, the empty string and nothing.
   */
  function TakeTill(lines: seq<string>, markers: seq<string>): (t: Take)
    ensures t.head + t.rest == lines
    ensures forall i :: 0 <= i < |t.head| - 1 ==> !Matches(markers, t.head[i])
    ensures if exists i :: 0 <= i < |lines| && Matches(markers, lines[i])
            then t.head != [] && Matches(markers, t.head[|t.head| - 1]) && t.found == t.head[|t.head| - 1]
            else t.head == lines && t.found == "" && t.rest == []
    decreases |lines|
  {
    if lines == [] then Take([], "", [])
    else if Matches(markers, lines[0]) then Take([lines[0]], lines[0], lines[1..])
    else
      var t := TakeTill(lines[1..], markers);
      assert forall i :: 0 < i < |lines| ==> lines[i] == lines[1..][i - 1];
      Take([lines[0]] + t.head, t.found, t.rest)
  }

  /** When line `k` is the first that matches, `TakeTill` stops exactly there. */
  lemma TakeTillAt(lines: seq<string>, markers: seq<string>, k: nat)
    requires k < |lines| && Matches(markers, lines[k])
    requires forall i :: 0 <= i < k ==> !Matches(markers, lines[i])
    ensures TakeTill(lines, markers) == Take(lines[..k + 1], lines[k], lines[k + 1..])
  {
    var t := TakeTill(lines, markers);
    var n := |t.head|;
    assert t.head == lines[..n] && t.rest == lines[n..];
  }

  /** With a non-empty first marker, finding nothing means reading to the end. */
  lemma TakeTillNothingFound(lines: seq<string>, markers: seq<string>)
    requires |markers| > 0 && markers[0] != ""
    ensures TakeTill(lines, markers).found == "" ==> TakeTill(lines, markers).rest == []
  {
  }

  /** When no line matches, `TakeTill` takes every line and finds nothing. */
  lemma TakeTillNone(lines: seq<string>, markers: seq<string>)
    requires forall i :: 0 <= i < |lines| ==> !Matches(markers, lines[i])
    ensures TakeTill(lines, markers) == Take(lines, "", [])
  {
  }

  /**
   * `TakeTill` yields `head`, `found` and `rest` when `head + rest` are the
   * lines, no line of `head` before its last matches, and either the last
   * one matches and is `found`, or nothing is found, nothing remains and no
   * line of `head` matches.
   */
  lemma TakeTillSplit(lines: seq<string>, markers: seq<string>, head: seq<string>, found: string, rest: seq<string>)
    requires head + rest == lines
    requires forall i :: 0 <= i < |head| - 1 ==> !Matches(markers, head[i])
    requires || (head != [] && Matches(markers, found) && found == head[|head| - 1])
             || (found == "" && rest == [] && forall i :: 0 <= i < |head| ==> !Matches(markers, head[i]))
    ensures TakeTill(lines, markers) == Take(head, found, rest)
  {
    if found == "" && rest == [] && forall i :: 0 <= i < |head| ==> !Matches(markers, head[i]) {
      TakeTillNone(lines, markers);
    } else {
      TakeTillAt(lines, markers, |head| - 1);
      assert lines[..|head|] == head && lines[|head|..] == rest;
    }
  }

  /**
   * One raw line of `read_till`'s loop: a continued line is held back
   * (`emitted` is false), any other is joined to the held-back text and
   * handed out. The joined lines from `pos` on are what this step hands
   * out followed by the joined lines from `pos + 1` on.
   */
  method NextLine(lines: seq<string>, pos: nat, pending: string)
    returns (line: string, emitted: bool, pending': string)
    requires pos < |lines|
    ensures emitted ==> pending' == "" && Joined(lines[pos..], pending) == [line] + Joined(lines[pos + 1..], "")
    ensures !emitted ==> Joined(lines[pos..], pending) == Joined(lines[pos + 1..], pending')
  {
    var raw := lines[pos];
    assert lines[pos..] == [raw] + lines[pos + 1..];
    JoinedStep(raw, lines[pos + 1..], pending);
    if Contains(raw, ContinuationMarker) {
      return "", false, pending + raw[..|raw| - 2];
    }
    line := if pending != "" then pending + Strip(raw, {' '}) else raw;
    return line, true, "";
  }

  lemma AppendLine(head: seq<string>, line: string, rest: seq<string>)
    ensures head + ([line] + rest) == (head + [line]) + rest
  {
  }

  /** Python's `all_substrings_in`: a flag cleared by the first missing substring. */
  method AllSubstringsIn(substrings: seq<string>, line: string) returns (ret: bool)
    ensures ret == AllIn(substrings, line)
  {
    ret := true;
    for i := 0 to |substrings|
      invariant forall j :: 0 <= j < i ==> Contains(line, substrings[j])
    {
      if !Contains(line, substrings[i]) {
        ret := false;
        break;
      }
    }
  }

  /** An open text file read line by line, shared by successive `read_till` calls. */
  class LineCursor {
    /** The raw lines of the file, each with its line break. */
    const lines: seq<string>
    /** Index of the next raw line the file iterator yields. */
    var pos: nat

    ghost predicate Valid()
      reads this
    {
      pos <= |lines|
    }

    /** The joined lines still to be handed out. */
    ghost function Pending(): seq<string>
      reads this
      requires Valid()
    {
      Joined(lines[pos..], "")
    }

    constructor (lines: seq<string>)
      ensures Valid() && this.lines == lines && pos == 0
      ensures Pending() == Joined(lines, "")
    {
      this.lines := lines;
      pos := 0;
    }

    /**
     * Python's `read_till(markers, f)`: reads raw lines, joining continued
     * ones, until a joined line matches `markers`; returns the joined lines
     * read and the matching line, or "" when the file ran out first.
     */
    method ReadTill(markers: seq<string>) returns (head: seq<string>, found: string)
      requires Valid()
      modifies this
      ensures Valid() && old(pos) <= pos
      ensures TakeTill(old(Pending()), markers) == Take(head, found, Pending())
    {
      head := [];
      found := "";
      var pred := "";
      var i := pos;
      ghost var all := Joined(lines[i..], "");
      ghost var stopped := false;
      while i < |lines|
        invariant pos <= i <= |lines|
        invariant head + Joined(lines[i..], pred) == all
        invariant forall k :: 0 <= k < |head| ==> !Matches(markers, head[k])
        invariant found == ""
      {
        var line, emitted;
        line, emitted, pred := NextLine(lines, i, pred);
        i := i + 1;
        if !emitted {
          continue;
        }
        AppendLine(head, line, Joined(lines[i..], ""));
        head := head + [line];
        if |markers| > 0 {
          var matched := AllSubstringsIn(markers, line);
          if matched {
            found := line;
            stopped := true;
            break;
          }
        }
      }
      if stopped {
        TakeTillSplit(all, markers, head, found, Joined(lines[i..], ""));
      } else {
        assert lines[i..] == [];
        TakeTillNone(all, markers);
      }
      pos := i;
    }
  }
}
