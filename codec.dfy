/**
 * The block codec of the control-network text (pvl.py: `pvlgroup_to_dict`,
 * `clean_pvldict`, `update_pvlgroup`): reading `key = value` lines into a
 * dictionary, typing a few of its entries, and rewriting the lines of chosen
 * keys.
 */
module Codec {
  import opened Options
  import opened Text
  import opened Scanner

  // ---------------------------------------------------------------------
  // pvlgroup_to_dict
  // ---------------------------------------------------------------------

  /**
   * `parse.parse('{}={}', line)` with both fields stripped of whitespace:
   * the line is cut at the first `=` after its first character, and the part
   * after that `=` may not be empty.
   */
  function ParseAssignment(line: string): (r: Option<(string, string)>)
    ensures r.Some? <==> exists i :: 1 <= i < |line| - 1 && line[i] == '='
    ensures r.Some? ==>
              exists i ::
                && 1 <= i < |line| - 1 && line[i] == '='
                && (forall j :: 1 <= j < i ==> line[j] != '=')
                && r.value == (Strip(line[..i], Whitespace), Strip(line[i + 1..], Whitespace))
  {
    match IndexOf(line, '=', 1)
    case None => None
    case Some(i) =>
      if i < |line| - 1 then Some((Strip(line[..i], Whitespace), Strip(line[i + 1..], Whitespace)))
      else None
  }

  /** `line` contributes the entry for key `k`. */
  predicate Assigns(line: string, k: string) {
    ParseAssignment(line).Some? && ParseAssignment(line).value.0 == k
  }

  /** The entry each line of a group contributes, if any. */
  function Entries(grp: seq<string>): (e: seq<Option<(string, string)>>)
    ensures |e| == |grp|
    ensures forall i :: 0 <= i < |grp| ==> e[i] == ParseAssignment(grp[i])
  {
    if grp == [] then [] else [ParseAssignment(grp[0])] + Entries(grp[1..])
  }

  /** The dictionary of a sequence of entries: in order, a later key overwriting an earlier one. */
  function DictOf(entries: seq<Option<(string, string)>>): map<string, string>
    decreases |entries|
  {
    if entries == [] then map[]
    else
      var d := DictOf(entries[..|entries| - 1]);
      match entries[|entries| - 1]
      case None => d
      case Some(kv) => d[kv.0 := kv.1]
  }

  /** The dictionary `pvlgroup_to_dict` builds. */
  function GroupToDict(grp: seq<string>): map<string, string> {
    DictOf(Entries(grp))
  }

  /** A key is in the dictionary of some entries exactly when an entry has it, with the value of the last such entry. */
  lemma DictOfEntry(entries: seq<Option<(string, string)>>, k: string)
    ensures k in DictOf(entries) <==> exists i :: 0 <= i < |entries| && entries[i].Some? && entries[i].value.0 == k
    ensures k in DictOf(entries) ==>
              exists i ::
                && 0 <= i < |entries| && entries[i].Some? && entries[i].value.0 == k
                && DictOf(entries)[k] == entries[i].value.1
                && forall j :: i < j < |entries| ==> !(entries[j].Some? && entries[j].value.0 == k)
  {
    AssignedKeyPresent(entries, k);
    PresentKeyLastAssigned(entries, k);
  }

  /** Every key some entry assigns is in the dictionary. */
  lemma {:induction false} AssignedKeyPresent(entries: seq<Option<(string, string)>>, k: string)
    ensures (exists i :: 0 <= i < |entries| && entries[i].Some? && entries[i].value.0 == k) ==> k in DictOf(entries)
    decreases |entries|
  {
    if entries != [] {
      var n := |entries| - 1;
      if entries[n].Some? && entries[n].value.0 == k {
        LastEntryWins(entries, k);
      } else {
        var init := entries[..n];
        AssignedKeyPresent(init, k);
        EarlierEntryKept(entries, k);
        if exists i :: 0 <= i < |entries| && entries[i].Some? && entries[i].value.0 == k {
          var i :| 0 <= i < |entries| && entries[i].Some? && entries[i].value.0 == k;
          assert init[i] == entries[i];
        }
      }
    }
  }

  /** A key in the dictionary holds the value of the last entry assigning it. */
  lemma {:induction false} PresentKeyLastAssigned(entries: seq<Option<(string, string)>>, k: string)
    ensures k in DictOf(entries) ==>
              exists i ::
                && 0 <= i < |entries| && entries[i].Some? && entries[i].value.0 == k
                && DictOf(entries)[k] == entries[i].value.1
                && forall j :: i < j < |entries| ==> !(entries[j].Some? && entries[j].value.0 == k)
    decreases |entries|
  {
    if entries != [] {
      var n := |entries| - 1;
      if entries[n].Some? && entries[n].value.0 == k {
        LastEntryWins(entries, k);
      } else {
        var init := entries[..n];
        PresentKeyLastAssigned(init, k);
        EarlierEntryKept(entries, k);
        if k in DictOf(init) {
          var i :| && 0 <= i < n && init[i].Some? && init[i].value.0 == k
                   && DictOf(init)[k] == init[i].value.1
                   && forall j :: i < j < n ==> !(init[j].Some? && init[j].value.0 == k);
          assert entries[i] == init[i];
          assert forall j :: i < j < n ==> init[j] == entries[j];
        }
      }
    }
  }

  /** The last entry, when it has key `k`, gives `k` its value. */
  lemma LastEntryWins(entries: seq<Option<(string, string)>>, k: string)
    requires entries != [] && entries[|entries| - 1].Some? && entries[|entries| - 1].value.0 == k
    ensures k in DictOf(entries) && DictOf(entries)[k] == entries[|entries| - 1].value.1
  {
  }

  /** A last entry without key `k` leaves `k` as the earlier entries had it. */
  lemma EarlierEntryKept(entries: seq<Option<(string, string)>>, k: string)
    requires entries != [] && !(entries[|entries| - 1].Some? && entries[|entries| - 1].value.0 == k)
    ensures var init := DictOf(entries[..|entries| - 1]);
            && (k in DictOf(entries) <==> k in init)
            && (k in init ==> DictOf(entries)[k] == init[k])
  {
  }

  /**
   * A key is in the dictionary exactly when some line assigns it, and its
   * value is the one the last such line gives.
   */
  lemma GroupToDictEntry(grp: seq<string>, k: string)
    ensures k in GroupToDict(grp) <==> exists i :: 0 <= i < |grp| && Assigns(grp[i], k)
    ensures k in GroupToDict(grp) ==>
              exists i ::
                && 0 <= i < |grp| && Assigns(grp[i], k)
                && GroupToDict(grp)[k] == ParseAssignment(grp[i]).value.1
                && forall j :: i < j < |grp| ==> !Assigns(grp[j], k)
  {
    var e := Entries(grp);
    DictOfEntry(e, k);
    assert forall i :: 0 <= i < |grp| ==> e[i] == ParseAssignment(grp[i]);
  }

  /** A line without `=` assigns nothing. */
  lemma NoEqualsNoAssignment(line: string)
    requires '=' !in line
    ensures ParseAssignment(line).None?
  {
  }

  /** Python's `pvlgroup_to_dict`: one pass over the lines, updating the dictionary. */
  method PvlGroupToDict(grp: seq<string>) returns (d: map<string, string>)
    ensures d == GroupToDict(grp)
  {
    ghost var e := Entries(grp);
    d := map[];
    for i := 0 to |grp|
      invariant d == DictOf(e[..i])
    {
      assert e[..i + 1][..i] == e[..i];
      var res := ParseAssignment(grp[i]);
      assert e[..i + 1][i] == res;
      if res.Some? {
        d := d[res.value.0 := res.value.1];
      }
    }
    assert e[..|grp|] == e;
  }

  // ---------------------------------------------------------------------
  // clean_pvldict
  // ---------------------------------------------------------------------

  /** A dictionary value after cleaning: a string, a `float` or a `bool`. */
  datatype Value = Str(s: string) | Float(x: real) | Bool(b: bool)

  /** The keys `clean_pvldict` converts with `float`, in the order it converts them. */
  const NumericKeys: seq<string> := ["Sample", "Line", "SampleResidual", "LineResidual"]

  /** The key `clean_pvldict` converts with `bool`. */
  const ReferenceKey: string := "Reference"

  /** Python's `float(s)`: `None` where it raises `ValueError`. */
  type FloatParser = string -> Option<real>

  /** The numeric entries that are present and whose first token `float` accepts. */
  predicate NumbersParse(d: map<string, string>, parse: FloatParser) {
    forall k :: k in d && k in NumericKeys ==> parse(FirstToken(d[k])).Some?
  }

  /** The cleaned value of one entry, assuming its conversion succeeds. */
  function CleanEntry(k: string, v: string, parse: FloatParser): Value {
    if k in NumericKeys then
      match parse(FirstToken(v))
      case Some(x) => Float(x)
      case None => Str(v)
    else if k == ReferenceKey then Bool(FirstToken(v) != "")
    else Str(v)
  }

  /**
   * The dictionary `clean_pvldict` returns, or `None` where it raises: the
   * same keys; the numeric ones hold `float` of their first space-separated
   * token, `Reference` holds whether its first token is non-empty, and every
   * other entry is kept as it was.
   */
  function Cleaned(d: map<string, string>, parse: FloatParser): (r: Option<map<string, Value>>)
    ensures r.Some? <==> NumbersParse(d, parse)
    ensures r.Some? ==> r.value.Keys == d.Keys
    ensures r.Some? ==> forall k :: k in d && k in NumericKeys ==> r.value[k] == Float(parse(FirstToken(d[k])).value)
    ensures r.Some? && ReferenceKey in d ==> r.value[ReferenceKey] == Bool(FirstToken(d[ReferenceKey]) != "")
    ensures r.Some? ==> forall k :: k in d && k !in NumericKeys && k != ReferenceKey ==> r.value[k] == Str(d[k])
  {
    if NumbersParse(d, parse) then Some(map k | k in d :: CleanEntry(k, d[k], parse)) else None
  }

  /** `bool` of any non-empty first token is true, `"False"` included. */
  lemma ReferenceFalseIsTrue(d: map<string, string>, parse: FloatParser)
    requires NumbersParse(d, parse) && ReferenceKey in d && d[ReferenceKey] == "False"
    ensures Cleaned(d, parse).Some? && Cleaned(d, parse).value[ReferenceKey] == Bool(true)
  {
    assert d[ReferenceKey][0] == 'F';
  }

  /** Every one of `keys` present in `d` has a first token that converts. */
  predicate ParsedAmong(d: map<string, string>, parse: FloatParser, keys: seq<string>) {
    forall k :: k in keys && k in d ==> parse(FirstToken(d[k])).Some?
  }

  /** `cleaned` has the keys of `d`, with `keys` converted and every other entry a string. */
  predicate ConvertedAmong(d: map<string, string>, parse: FloatParser, keys: seq<string>, cleaned: map<string, Value>) {
    && cleaned.Keys == d.Keys
    && forall k :: k in d ==> cleaned[k] == (if k in keys then CleanEntry(k, d[k], parse) else Str(d[k]))
  }

  /** Converting one more numeric key keeps the partial cleaning exact. */
  lemma ConvertStep(d: map<string, string>, parse: FloatParser, keys: seq<string>, key: string, cleaned: map<string, Value>)
    requires key in NumericKeys
    requires ParsedAmong(d, parse, keys) && ConvertedAmong(d, parse, keys, cleaned)
    requires key in d ==> parse(FirstToken(d[key])).Some?
    ensures ParsedAmong(d, parse, keys + [key])
    ensures ConvertedAmong(d, parse, keys + [key],
                           if key in d then cleaned[key := Float(parse(FirstToken(d[key])).value)] else cleaned)
  {
  }

  /** Once every numeric entry is converted, converting `Reference` completes the cleaning. */
  lemma CleanedAfterNumbers(d: map<string, string>, parse: FloatParser, cleaned: map<string, Value>)
    requires ParsedAmong(d, parse, NumericKeys) && ConvertedAmong(d, parse, NumericKeys, cleaned)
    ensures Cleaned(d, parse)
         == Some(if ReferenceKey in cleaned then cleaned[ReferenceKey := Bool(FirstToken(d[ReferenceKey]) != "")] else cleaned)
  {
    assert NumbersParse(d, parse);
    assert ReferenceKey !in NumericKeys;
    var m := if ReferenceKey in cleaned then cleaned[ReferenceKey := Bool(FirstToken(d[ReferenceKey]) != "")] else cleaned;
    forall k | k in d
      ensures m[k] == CleanEntry(k, d[k], parse)
    {
    }
    assert m == map k | k in d :: CleanEntry(k, d[k], parse);
  }

  /**
   * Python's `clean_pvldict`: a copy of the dictionary whose numeric entries
   * are converted one after another (the first failure raises), and then
   * `Reference`.
   */
  method CleanPvlDict(d: map<string, string>, parse: FloatParser) returns (r: Option<map<string, Value>>)
    ensures r == Cleaned(d, parse)
  {
    var cleaned: map<string, Value> := map k | k in d :: Str(d[k]);
    for n := 0 to |NumericKeys|
      invariant ParsedAmong(d, parse, NumericKeys[..n]) && ConvertedAmong(d, parse, NumericKeys[..n], cleaned)
    {
      var key := NumericKeys[n];
      assert NumericKeys[..n + 1] == NumericKeys[..n] + [key];
      if key in cleaned {
        var x := parse(FirstToken(d[key]));
        if x.None? {
          assert !NumbersParse(d, parse);
          return None;
        }
        ConvertStep(d, parse, NumericKeys[..n], key, cleaned);
        cleaned := cleaned[key := Float(x.value)];
      } else {
        ConvertStep(d, parse, NumericKeys[..n], key, cleaned);
      }
    }
    assert NumericKeys[..|NumericKeys|] == NumericKeys;
    CleanedAfterNumbers(d, parse, cleaned);
    if ReferenceKey in cleaned {
      cleaned := cleaned[ReferenceKey := Bool(FirstToken(d[ReferenceKey]) != "")];
    }
    r := Some(cleaned);
  }

  // ---------------------------------------------------------------------
  // update_pvlgroup
  // ---------------------------------------------------------------------

  /** The condition under which `update_pvlgroup` rewrites `line` for `key`. */
  predicate KeyMatches(key: string, line: string) {
    AllIn([" " + key + " ", " = "], line)
  }

  /** An indented assignment line of `key` is matched by `key`. */
  lemma AssignmentLineMatches(indent: string, key: string, v: string)
    requires indent != [] && forall i :: 0 <= i < |indent| ==> indent[i] == ' '
    ensures KeyMatches(key, indent + key + " = " + v)
  {
    var line := indent + key + " = " + v;
    var n, w := |indent|, |key|;
    assert OccursAt(line, " " + key + " ", n - 1);
    assert OccursAt(line, " = ", n + w);
    ContainsIff(line, " " + key + " ");
    ContainsIff(line, " = ");
  }

  /**
   * An indented `<key>Residual = <value>` line is not matched by `key`:
   * ` Sample ` does not occur in a `SampleResidual` line.
   */
  lemma ResidualLineNotMatched(indent: string, key: string, v: string)
    requires forall i :: 0 <= i < |indent| ==> indent[i] == ' '
    requires key != [] && ' ' !in key && '=' !in key && ' ' !in v
    ensures !KeyMatches(key, indent + key + "Residual = " + v + "\n")
  {
    var line := indent + key + "Residual = " + v + "\n";
    var m := " " + key + " ";
    var n, w := |indent|, |key|;
    // The only spaces are the indentation and the two around `=`.
    forall p | 0 <= p < |line| && !(p < n || p == n + w + 8 || p == n + w + 10)
      ensures line[p] != ' '
    {
      if p < n + w {
        assert line[p] == key[p - n];
      } else if p < n + w + 11 {
        assert line[p] == "Residual = "[p - n - w];
      } else if p < n + w + 11 + |v| {
        assert line[p] == v[p - n - w - 11];
      }
    }
    forall j: nat
      ensures !OccursAt(line, m, j)
    {
      if j + |m| <= |line| {
        if line[j] != ' ' {
          assert m[0] == ' ';
        } else if j + 1 < n {
          assert line[j + 1] == ' ' && m[1] == key[0];
        } else if j < n {
          assert line[j + w + 1] == 'R' && m[w + 1] == ' ';
        } else if j == n + w + 8 {
          assert line[j + 1] == '=' && m[1] == key[0];
        } else {
          assert line[j + w + 1] != ' ' && m[w + 1] == ' ';
        }
      }
    }
    ContainsIff(line, m);
    assert [m, " = "][0] == m;
  }

  /** The line `update_pvlgroup` writes for `key`. */
  function Assignment(key: string, value: string): string {
    key + " = " + value + "\n"
  }

  /** Every key that matches some line has a value (otherwise `update_pvlgroup` raises `KeyError`). */
  predicate ValuesCover(grp: seq<string>, keys: seq<string>, values: map<string, string>) {
    forall i, j :: 0 <= i < |grp| && 0 <= j < |keys| && KeyMatches(keys[j], grp[i]) ==> keys[j] in values
  }

  /** `keys[j]` is the last of the keys that matches `line`. */
  predicate LastMatch(keys: seq<string>, line: string, j: int) {
    && 0 <= j < |keys| && KeyMatches(keys[j], line)
    && forall j' :: j < j' < |keys| ==> !KeyMatches(keys[j'], line)
  }

  /** What `update_pvlgroup` makes of one line: the assignment of the last key that matches it. */
  function UpdatedLine(line: string, keys: seq<string>, values: map<string, string>): string
    requires forall j :: 0 <= j < |keys| && KeyMatches(keys[j], line) ==> keys[j] in values
    decreases |keys|
  {
    if keys == [] then line
    else
      var n := |keys| - 1;
      if KeyMatches(keys[n], line) then Assignment(keys[n], values[keys[n]])
      else UpdatedLine(line, keys[..n], values)
  }

  /**
   * A line matched by no key is kept; otherwise it becomes the assignment of
   * the last key that matches it.
   */
  lemma UpdatedLineMeaning(line: string, keys: seq<string>, values: map<string, string>)
    requires forall j :: 0 <= j < |keys| && KeyMatches(keys[j], line) ==> keys[j] in values
    ensures (forall j :: 0 <= j < |keys| ==> !KeyMatches(keys[j], line)) ==> UpdatedLine(line, keys, values) == line
    ensures (exists j :: 0 <= j < |keys| && KeyMatches(keys[j], line)) ==>
              exists j :: LastMatch(keys, line, j) && UpdatedLine(line, keys, values) == Assignment(keys[j], values[keys[j]])
  {
    if exists j :: 0 <= j < |keys| && KeyMatches(keys[j], line) {
      MatchedLineAssigned(line, keys, values);
    } else {
      UnmatchedLineKept(line, keys, values);
    }
  }

  /** A line no key matches is kept. */
  lemma {:induction false} UnmatchedLineKept(line: string, keys: seq<string>, values: map<string, string>)
    requires forall j :: 0 <= j < |keys| ==> !KeyMatches(keys[j], line)
    ensures UpdatedLine(line, keys, values) == line
    decreases |keys|
  {
    if keys != [] {
      var n := |keys| - 1;
      assert !KeyMatches(keys[n], line);
      LastMatchOfInit(line, keys);
      UnmatchedLineKept(line, keys[..n], values);
    }
  }

  /** A line some key matches becomes the assignment of the last key that matches it. */
  lemma {:induction false} MatchedLineAssigned(line: string, keys: seq<string>, values: map<string, string>)
    requires forall j :: 0 <= j < |keys| && KeyMatches(keys[j], line) ==> keys[j] in values
    requires exists j :: 0 <= j < |keys| && KeyMatches(keys[j], line)
    ensures exists j :: LastMatch(keys, line, j) && UpdatedLine(line, keys, values) == Assignment(keys[j], values[keys[j]])
    decreases |keys|
  {
    var n := |keys| - 1;
    if KeyMatches(keys[n], line) {
      assert LastMatch(keys, line, n);
    } else {
      var init := keys[..n];
      LastMatchOfInit(line, keys);
      MatchedLineAssigned(line, init, values);
      var j :| LastMatch(init, line, j) && UpdatedLine(line, init, values) == Assignment(init[j], values[init[j]]);
      assert LastMatch(keys, line, j) && init[j] == keys[j];
    }
  }

  /** When the last key does not match, the keys before it match exactly as all of them do. */
  lemma LastMatchOfInit(line: string, keys: seq<string>)
    requires keys != [] && !KeyMatches(keys[|keys| - 1], line)
    ensures var init := keys[..|keys| - 1];
            && (forall j :: 0 <= j < |init| ==> init[j] == keys[j])
            && ((exists j :: 0 <= j < |keys| && KeyMatches(keys[j], line)) ==> exists j :: 0 <= j < |init| && KeyMatches(init[j], line))
            && (forall j :: LastMatch(init, line, j) ==> LastMatch(keys, line, j))
  {
  }

  /** The lines `update_pvlgroup` returns: each line of the group, updated. */
  function UpdatedGroup(grp: seq<string>, keys: seq<string>, values: map<string, string>): (r: seq<string>)
    requires ValuesCover(grp, keys, values)
    ensures |r| == |grp|
    ensures forall i :: 0 <= i < |grp| ==> r[i] == UpdatedLine(grp[i], keys, values)
  {
    seq(|grp|, i requires 0 <= i < |grp| => UpdatedLine(grp[i], keys, values))
  }

  /**
   * Only lines matched by a key change, and each becomes exactly the
   * assignment of a key that matches it.
   */
  lemma UpdatedGroupChanges(grp: seq<string>, keys: seq<string>, values: map<string, string>, i: nat)
    requires ValuesCover(grp, keys, values) && i < |grp|
    ensures UpdatedGroup(grp, keys, values)[i] == grp[i]
            || exists j :: 0 <= j < |keys| && KeyMatches(keys[j], grp[i])
                           && UpdatedGroup(grp, keys, values)[i] == Assignment(keys[j], values[keys[j]])
    ensures (forall j :: 0 <= j < |keys| ==> !KeyMatches(keys[j], grp[i])) ==> UpdatedGroup(grp, keys, values)[i] == grp[i]
  {
    UpdatedLineMeaning(grp[i], keys, values);
  }

  /** With no keys the group is returned unchanged. */
  lemma UpdatedGroupNoKeys(grp: seq<string>, values: map<string, string>)
    ensures UpdatedGroup(grp, [], values) == grp
  {
  }

  /**
   * Python's `update_pvlgroup`: a copy of the group in which, line by line
   * and key by key, each line matched by a key is replaced by its assignment.
   */
  method UpdatePvlGroup(source: seq<string>, keys: seq<string>, values: map<string, string>) returns (res: seq<string>)
    requires ValuesCover(source, keys, values)
    ensures res == UpdatedGroup(source, keys, values)
  {
    res := source;
    for i := 0 to |res|
      invariant |res| == |source|
      invariant forall i' :: 0 <= i' < i ==> res[i'] == UpdatedLine(source[i'], keys, values)
      invariant forall i' :: i <= i' < |res| ==> res[i'] == source[i']
    {
      var line := res[i];
      for j := 0 to |keys|
        invariant |res| == |source|
        invariant forall i' :: 0 <= i' < i ==> res[i'] == UpdatedLine(source[i'], keys, values)
        invariant forall i' :: i < i' < |res| ==> res[i'] == source[i']
        invariant res[i] == UpdatedLine(line, keys[..j], values)
      {
        var matched := AllSubstringsIn([" " + keys[j] + " ", " = "], line);
        assert keys[..j + 1][..j] == keys[..j];
        if matched {
          res := res[i := Assignment(keys[j], values[keys[j]])];
        }
      }
      assert keys[..|keys|] == keys;
    }
  }
}
