/**
 * The small string and path helpers of helper.py: `str_to_tuple`,
 * `filename_frompath_noext`, `get_stats_filename`, `get_artifacts_prefix`
 * and `get_apollo_pan_params` from the selected table row onward.
 *
 * Paths are strings split at `/`; `Name` and `Stem` follow pathlib's
 * `PurePath.name` and `PurePath.stem` for paths without `.` or `..`
 * components.
 */
module Helpers {
  import opened Options
  import opened Text

  // ---------------------------------------------------------------------
  // str_to_tuple
  // ---------------------------------------------------------------------

  /** The characters `str_to_tuple` strips from both ends. */
  const TupleBrackets: set<char> := {'(', ')', ' '}

  /**
   * Python's `str_to_tuple`: the text between the brackets, split at every
   * comma; one element more than there are commas, none holding a comma, and
   * joined with commas they give the stripped text back (spaces after a
   * comma stay in the element that follows it).
   */
  function StrToTuple(s: string): (r: seq<string>)
    ensures |r| == CountChar(Strip(s, TupleBrackets), ',') + 1
    ensures forall i :: 0 <= i < |r| ==> ',' !in r[i]
    ensures JoinWith(r, ',') == Strip(s, TupleBrackets)
  {
    JoinSplit(Strip(s, TupleBrackets), ',');
    Split(Strip(s, TupleBrackets), ',')
  }

  /** Elements without commas and brackets at their ends come back from their written form. */
  lemma StrToTupleRoundTrip(parts: seq<string>)
    requires |parts| >= 1 && forall i :: 0 <= i < |parts| ==> ',' !in parts[i]
    requires var j := JoinWith(parts, ','); j != [] ==> j[0] !in TupleBrackets && j[|j| - 1] !in TupleBrackets
    ensures StrToTuple("(" + JoinWith(parts, ',') + ")") == parts
  {
    var j := JoinWith(parts, ',');
    var s := "(" + j + ")";
    StripInner(j, TupleBrackets, '(', ')');
    SplitJoin(parts, ',');
  }

  /** Stripping a bracketed text whose ends are not stripped characters gives the text. */
  lemma StripInner(j: string, cs: set<char>, open: char, close: char)
    requires open in cs && close in cs
    requires j != [] ==> j[0] !in cs && j[|j| - 1] !in cs
    ensures Strip([open] + j + [close], cs) == j
  {
    var s := [open] + j + [close];
    var r := Strip(s, cs);
    var i, k :| && 0 <= i <= k <= |s| && r == s[i..k]
                && (forall m :: 0 <= m < i ==> s[m] in cs)
                && (forall m :: k <= m < |s| ==> s[m] in cs);
    if j != [] {
      assert s[1] == j[0] && s[|s| - 2] == j[|j| - 1];
      assert s[1..|s| - 1] == j;
    }
  }

  // ---------------------------------------------------------------------
  // Paths: pathlib's name, stem and suffix
  // ---------------------------------------------------------------------

  /** The index of the last `c` in `s`, if any. */
  function LastIndexOf(s: string, c: char): (r: Option<nat>)
    ensures r.Some? ==> r.value < |s| && s[r.value] == c && forall k :: r.value < k < |s| ==> s[k] != c
    ensures r.None? ==> c !in s
    decreases |s|
  {
    if s == [] then None
    else if s[|s| - 1] == c then Some(|s| - 1)
    else LastIndexOf(s[..|s| - 1], c)
  }

  /** `PurePath(path).name`: the last component, trailing separators ignored. */
  function Name(path: string): (r: string)
    ensures '/' !in r
    ensures |r| <= |TrimRight(path, {'/'})| && r == TrimRight(path, {'/'})[|TrimRight(path, {'/'})| - |r|..]
    ensures |r| == |TrimRight(path, {'/'})| || TrimRight(path, {'/'})[|TrimRight(path, {'/'})| - |r| - 1] == '/'
  {
    var p := TrimRight(path, {'/'});
    match LastIndexOf(p, '/')
    case None => p
    case Some(i) => p[i + 1..]
  }

  /** The index at which pathlib's suffix of `name` starts: its last dot, unless first or last. */
  function SuffixStart(name: string): Option<nat> {
    match LastIndexOf(name, '.')
    case None => None
    case Some(i) => if 0 < i < |name| - 1 then Some(i) else None
  }

  /** `PurePath.stem` of a file name: the name without its suffix. */
  function Stem(name: string): string {
    match SuffixStart(name)
    case None => name
    case Some(i) => name[..i]
  }

  /** `PurePath.suffix` of a file name: from its last dot on, or empty. */
  function Suffix(name: string): string {
    match SuffixStart(name)
    case None => ""
    case Some(i) => name[i..]
  }

  /**
   * A name is its stem followed by its suffix; the suffix is empty or a dot
   * followed by at least one character and no further dot, and the stem is
   * never empty when the name is not.
   */
  lemma StemSuffix(name: string)
    ensures Stem(name) + Suffix(name) == name
    ensures Suffix(name) == "" || (|Suffix(name)| >= 2 && Suffix(name)[0] == '.' && '.' !in Suffix(name)[1..])
    ensures name != "" ==> Stem(name) != ""
    ensures Suffix(name) != "" <==>
              exists i :: 0 < i < |name| - 1 && name[i] == '.' && forall k :: i < k < |name| ==> name[k] != '.'
  {
    match SuffixStart(name)
    case None =>
    case Some(i) =>
      assert name[..i] + name[i..] == name;
      var sfx := name[i..];
      forall k | 0 <= k < |sfx[1..]|
        ensures sfx[1..][k] != '.'
      {
        assert sfx[1..][k] == name[i + 1 + k];
      }
  }

  /** Python's `filename_frompath_noext`: the last component of the path, without its suffix. */
  function FilenameFromPathNoExt(path: string): (r: string)
    ensures '/' !in r
    ensures r + Suffix(Name(path)) == Name(path)
  {
    StemSuffix(Name(path));
    Stem(Name(path))
  }

  // ---------------------------------------------------------------------
  // get_stats_filename and get_artifacts_prefix
  // ---------------------------------------------------------------------

  /** The default co-registration template, `pointreg_template`. */
  const PointregTemplate: string := "./config/pointreg_00.def"

  /** Python's truth value of an optional integer: `None` and `0` are false. */
  predicate Truthy(index: Option<int>) {
    index.Some? && index.value != 0
  }

  /** Python's `get_stats_filename`. */
  function GetStatsFilename(prefix: string, template: string, index: Option<int>): (r: string)
    ensures Truthy(index) ==> r == prefix + "_" + FilenameFromPathNoExt(template) + ".stats_" + IntToString(index.value) + ".csv"
    ensures !Truthy(index) ==> r == prefix + "_" + FilenameFromPathNoExt(template) + ".stats.csv"
  {
    var filename := prefix + "_" + FilenameFromPathNoExt(template);
    if Truthy(index) then filename + ".stats_" + IntToString(index.value) + ".csv"
    else filename + ".stats.csv"
  }

  /** `index=0` and `index=None` name the same file. */
  lemma StatsFilenameZero(prefix: string, template: string)
    ensures GetStatsFilename(prefix, template, Some(0)) == GetStatsFilename(prefix, template, None)
  {
  }

  /**
   * For a given prefix and template, distinct truthy indices name distinct
   * files, and no indexed name is the name without an index.
   */
  lemma StatsFilenameInjective(prefix: string, template: string, i: Option<int>, j: Option<int>)
    requires GetStatsFilename(prefix, template, i) == GetStatsFilename(prefix, template, j)
    ensures Truthy(i) <==> Truthy(j)
    ensures Truthy(i) ==> i == j
  {
    var base := prefix + "_" + FilenameFromPathNoExt(template);
    if Truthy(i) && Truthy(j) {
      IndexedNamesAgree(base, IntToString(i.value), IntToString(j.value));
      IntToStringInjective(i.value, j.value);
    } else if Truthy(i) {
      IndexedNotPlain(base, IntToString(i.value));
    } else if Truthy(j) {
      IndexedNotPlain(base, IntToString(j.value));
    }
  }

  /** Two indexed names on the same base agree only when their index texts do. */
  lemma IndexedNamesAgree(base: string, si: string, sj: string)
    requires base + ".stats_" + si + ".csv" == base + ".stats_" + sj + ".csv"
    ensures si == sj
  {
    var n := base + ".stats_" + si + ".csv";
    var b := |base|;
    assert |si| == |sj|;
    assert si == n[b + 7..b + 7 + |si|];
    assert sj == (base + ".stats_" + sj + ".csv")[b + 7..b + 7 + |sj|];
  }

  /** An indexed name is never the unindexed one: they differ right after `.stats`. */
  lemma IndexedNotPlain(base: string, si: string)
    ensures base + ".stats_" + si + ".csv" != base + ".stats.csv"
  {
    var b := |base|;
    assert (base + ".stats_" + si + ".csv")[b + 6] == '_';
    assert (base + ".stats.csv")[b + 6] == '.';
  }

  /** The last component of the default template is `pointreg_00.def`. */
  lemma TemplateName()
    ensures Name(PointregTemplate) == "pointreg_00.def"
  {
    var t := PointregTemplate;
    assert t[|t| - 1] == 'f';
    assert TrimRight(t, {'/'}) == t;
    assert t[8] == '/' && forall k :: 8 < k < |t| ==> t[k] != '/';
    assert LastIndexOf(t, '/') == Some(8);
  }

  /** With the default template and no index: `<prefix>_pointreg_00.stats.csv`. */
  lemma DefaultStatsFilename(prefix: string)
    ensures GetStatsFilename(prefix, PointregTemplate, None) == prefix + "_" + "pointreg_00" + ".stats.csv"
  {
    TemplateFilename();
    StatsFilenameOfStem(prefix, PointregTemplate, "pointreg_00");
  }

  /** The default template's file name without its extension is `pointreg_00`. */
  lemma TemplateFilename()
    ensures FilenameFromPathNoExt(PointregTemplate) == "pointreg_00"
  {
    TemplateName();
    TemplateStem();
  }

  /** The unindexed statistics file name is spelled from the template's stem. */
  lemma StatsFilenameOfStem(prefix: string, template: string, stem: string)
    requires FilenameFromPathNoExt(template) == stem
    ensures GetStatsFilename(prefix, template, None) == prefix + "_" + stem + ".stats.csv"
  {
  }

  lemma TemplateStem()
    ensures Stem("pointreg_00.def") == "pointreg_00"
  {
    var n := "pointreg_00.def";
    assert n[11] == '.' && forall k :: 11 < k < |n| ==> n[k] != '.';
    assert LastIndexOf(n, '.') == Some(11);
  }

  /** Python's `get_artifacts_prefix`: empty for a missing or empty path, else the path's last component. */
  function GetArtifactsPrefix(path: Option<string>): (r: string)
    ensures '/' !in r
    ensures path.None? || path.value == "" ==> r == ""
    ensures path.Some? && path.value != "" ==> r == Name(path.value)
  {
    if path.None? || path.value == "" then "" else Name(path.value)
  }

  // ---------------------------------------------------------------------
  // get_apollo_pan_params
  // ---------------------------------------------------------------------

  /** The columns of the Apollo panoramic camera table that `get_apollo_pan_params` selects. */
  datatype PanRow = PanRow(
    imageName: string,
    utcTime: string,
    nadirPoint: string,            // "(lat, lon)"
    spacecraftAltitude: string,
    cameraAxisIntersect: string)   // "(lon, lat)"

  /** The parameter dictionary `get_apollo_pan_params` returns: the row's columns and the added keys. */
  datatype PanParams = PanParams(
    row: PanRow,
    gmt: string,
    latNadir: string,
    lonNadir: string,
    lonInt: string,
    latInt: string,
    microns: int,
    velAzm: int,
    velHoriz: real,
    velRadial: real)

  const PanMicrons: int := 5
  const PanVelAzm: int := 270
  const PanVelHoriz: real := 1.61
  const PanVelRadial: real := 0.1

  /**
   * Python's `get_apollo_pan_params` given the selected row: `None` where
   * unpacking a point into two names raises, that is, where a point does not
   * hold exactly one comma.
   */
  function GetApolloPanParams(row: PanRow): (r: Option<PanParams>)
    ensures r.Some? <==> CountChar(Strip(row.nadirPoint, TupleBrackets), ',') == 1
                         && CountChar(Strip(row.cameraAxisIntersect, TupleBrackets), ',') == 1
    ensures r.Some? ==>
              && r.value.row == row && r.value.gmt == row.utcTime
              && r.value.latNadir + "," + r.value.lonNadir == Strip(row.nadirPoint, TupleBrackets)
              && r.value.lonInt + "," + r.value.latInt == Strip(row.cameraAxisIntersect, TupleBrackets)
              && ',' !in r.value.latNadir && ',' !in r.value.lonInt
              && r.value.microns == 5 && r.value.velAzm == 270
              && r.value.velHoriz == 1.61 && r.value.velRadial == 0.1
  {
    var nadir := StrToTuple(row.nadirPoint);
    var axis := StrToTuple(row.cameraAxisIntersect);
    if |nadir| != 2 || |axis| != 2 then None
    else
      assert JoinWith(nadir, ',') == nadir[0] + "," + nadir[1];
      assert JoinWith(axis, ',') == axis[0] + "," + axis[1];
      Some(PanParams(row, row.utcTime, nadir[0], nadir[1], axis[0], axis[1],
                     PanMicrons, PanVelAzm, PanVelHoriz, PanVelRadial))
  }
}
