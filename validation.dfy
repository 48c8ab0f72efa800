/**
 * The input validators of validation.py. Each returns a status code: 0 when
 * the input is usable, -1 or -2 when it is not. Whether the image folder
 * exists and the names `os.listdir` gives for it are passed in.
 */
module Validation {
  import opened Options
  import opened Helpers

  // ---------------------------------------------------------------------
  // validate_isis_env and validate_mission
  // ---------------------------------------------------------------------

  /** Python's `validate_isis_env`: -1 when any of the three variables is unset, else 0. */
  function ValidateIsisEnv(isisRoot: Option<string>, isisData: Option<string>, isisTestData: Option<string>): (r: int)
    ensures r == -1 <==> isisRoot.None? || isisData.None? || isisTestData.None?
    ensures r == 0 <==> isisRoot.Some? && isisData.Some? && isisTestData.Some?
  {
    if isisRoot.None? || isisData.None? || isisTestData.None? then -1 else 0
  }

  /** helper.py's `lunar_missions_acronyms`. */
  const LunarMissions: seq<string> :=
    ["apollo15", "apollo16", "apollo17", "chandrayaan1", "clementine1", "kaguya", "lo", "lro", "smart1"]

  /** Python's `validate_mission`: 0 for a known mission acronym, compared exactly, else -1. */
  function ValidateMission(mission: string): (r: int)
    ensures r == 0 || r == -1
    ensures r == 0 <==> exists i :: 0 <= i < |LunarMissions| && LunarMissions[i] == mission
  {
    if mission in LunarMissions then 0 else -1
  }

  /** The comparison is exact: `lro` is a mission, `LRO` and `lro ` are not. */
  lemma MissionIsCaseSensitive()
    ensures ValidateMission("lro") == 0
    ensures ValidateMission("LRO") == -1 && ValidateMission("lro ") == -1
  {
    assert LunarMissions[7] == "lro";
    assert "LRO" != "lro";
    assert forall i :: 0 <= i < |LunarMissions| ==> LunarMissions[i][0] != 'L';
    assert forall i :: 0 <= i < |LunarMissions| ==> LunarMissions[i] != "lro ";
  }

  // ---------------------------------------------------------------------
  // os.path.splitext
  // ---------------------------------------------------------------------

  /**
   * `os.path.splitext(p)[1]`: from the last dot of the last component on,
   * provided that component has a character other than a dot before it;
   * otherwise empty.
   */
  function Extension(p: string): (r: string)
    ensures r == "" || (r[0] == '.' && '.' !in r[1..] && '/' !in r)
    ensures |r| <= |p| && r == p[|p| - |r|..]
    ensures r != [] ==> exists k :: 0 <= k < |p| - |r| && p[k] != '.' && '/' !in p[k..]
  {
    var start := match LastIndexOf(p, '/') case None => 0 case Some(i) => i + 1;
    match LastIndexOf(p, '.')
    case None => ""
    case Some(d) =>
      if start <= d && exists k :: start <= k < d && p[k] != '.' then
        assert forall k :: 0 <= k < |p[d..][1..]| ==> p[d..][1..][k] == p[d + 1 + k];
        p[d..]
      else ""
  }

  /** A file name made of a base with a character other than a dot, and a dotted extension. */
  lemma ExtensionOfName(base: string, ext: string)
    requires '/' !in base && exists k :: 0 <= k < |base| && base[k] != '.'
    requires ext != [] && ext[0] == '.' && '.' !in ext[1..] && '/' !in ext
    ensures Extension(base + ext) == ext
  {
    var p := base + ext;
    assert forall k :: 0 <= k < |p| ==> p[k] != '/' by {
      forall k | 0 <= k < |p|
        ensures p[k] != '/'
      {
        if k >= |base| {
          assert p[k] == ext[k - |base|];
        }
      }
    }
    assert p[|base|] == '.';
    forall k | |base| < k < |p|
      ensures p[k] != '.'
    {
      assert p[k] == ext[1..][k - |base| - 1];
    }
    var k :| 0 <= k < |base| && base[k] != '.';
    assert p[k] == base[k];
    assert LastIndexOf(p, '.') == Some(|base|);
    assert p[|base|..] == ext;
  }

  // ---------------------------------------------------------------------
  // The folder validators
  // ---------------------------------------------------------------------

  /** helper.py's lists of accepted image extensions. */
  const ApolloMetricFileTypes: seq<string> := [".lbl", ".LBL", ".cub", ".CUB"]
  const ApolloPanFileTypes: seq<string> := [".jp2", ".JP2", ".cub", ".CUB"]
  const LoFileTypes: seq<string> := [".img", ".IMG", ".cub", ", .CUB"]
  const LrocFileTypes: seq<string> := [".img", ".IMG", ".cub", ".CUB"]

  /** The list comprehension of the validators: the names whose extension is accepted, in order. */
  function Images(listing: seq<string>, types: seq<string>): seq<string>
    decreases |listing|
  {
    if listing == [] then []
    else
      var rest := Images(listing[1..], types);
      if Extension(listing[0]) in types then [listing[0]] + rest else rest
  }

  /** The comprehension keeps exactly the listed names whose extension is accepted. */
  lemma {:induction false} ImagesSelects(listing: seq<string>, types: seq<string>)
    ensures |Images(listing, types)| <= |listing|
    ensures forall i :: 0 <= i < |Images(listing, types)| ==>
              Images(listing, types)[i] in listing && Extension(Images(listing, types)[i]) in types
    ensures forall i :: 0 <= i < |listing| && Extension(listing[i]) in types ==> listing[i] in Images(listing, types)
    decreases |listing|
  {
    if listing != [] {
      ImagesSelects(listing[1..], types);
      assert forall i :: 1 <= i < |listing| ==> listing[i] == listing[1..][i - 1];
    }
  }

  /** Some listed name has one of the accepted extensions. */
  predicate HasImage(listing: seq<string>, types: seq<string>) {
    exists i :: 0 <= i < |listing| && Extension(listing[i]) in types
  }

  /** The shared shape of the folder validators: -1 without a folder, -2 without an accepted image, else 0. */
  function ValidateFolder(folderExists: bool, listing: seq<string>, types: seq<string>): (r: int)
    ensures r == -1 <==> !folderExists
    ensures r == -2 <==> folderExists && forall i :: 0 <= i < |listing| ==> Extension(listing[i]) !in types
    ensures r == 0 <==> folderExists && HasImage(listing, types)
  {
    if !folderExists then -1
    else
      var images := Images(listing, types);
      ImagesSelects(listing, types);
      if |images| == 0 then -2
      else
        assert exists i :: 0 <= i < |listing| && listing[i] == images[0];
        0
  }

  /** A missing folder is rejected with -1 whatever its listing would be. */
  lemma MissingFolderIgnoresListing(listing: seq<string>, other: seq<string>, types: seq<string>)
    ensures ValidateFolder(false, listing, types) == -1 == ValidateFolder(false, other, types)
  {
  }

  /** Python's `validate_apollo`: the accepted extensions follow the camera; any other camera accepts none. */
  function ValidateApollo(folderExists: bool, listing: seq<string>, camera: string): (r: int)
    ensures !folderExists ==> r == -1
    ensures folderExists && camera == "metric" ==> r == (if HasImage(listing, ApolloMetricFileTypes) then 0 else -2)
    ensures folderExists && camera == "panoramic" ==> r == (if HasImage(listing, ApolloPanFileTypes) then 0 else -2)
    ensures folderExists && camera != "metric" && camera != "panoramic" ==> r == -2
  {
    var types := if camera == "metric" then ApolloMetricFileTypes
                 else if camera == "panoramic" then ApolloPanFileTypes
                 else [];
    ValidateFolder(folderExists, listing, types)
  }

  /** Python's `validate_lro`. */
  function ValidateLro(folderExists: bool, listing: seq<string>): (r: int)
    ensures r == (if !folderExists then -1 else if HasImage(listing, LrocFileTypes) then 0 else -2)
  {
    ValidateFolder(folderExists, listing, LrocFileTypes)
  }

  /** Python's `validate_lo`, with the extension list as helper.py writes it. */
  function ValidateLo(folderExists: bool, listing: seq<string>): (r: int)
    ensures r == (if !folderExists then -1 else if HasImage(listing, LoFileTypes) then 0 else -2)
  {
    ValidateFolder(folderExists, listing, LoFileTypes)
  }

  /** No extension is `", .CUB"`: it holds a comma after its dot's position and a second dot. */
  lemma NoExtensionIsCommaCub(f: string)
    ensures Extension(f) != ", .CUB"
  {
    var e := Extension(f);
    if e != "" {
      assert e[0] == '.';
    }
  }

  lemma CubExtension()
    ensures Extension("M1.CUB") == ".CUB"
  {
    assert "M1"[0] != '.' && ".CUB"[1..] == "CUB";
    ExtensionOfName("M1", ".CUB");
    assert "M1" + ".CUB" == "M1.CUB";
  }

  /** `.CUB` images are accepted for Apollo and LROC folders, but a folder of them fails `validate_lo`. */
  lemma LoRejectsCubFolder()
    ensures ValidateLo(true, ["M1.CUB"]) == -2
    ensures ValidateLro(true, ["M1.CUB"]) == 0
    ensures ValidateApollo(true, ["M1.CUB"], "metric") == 0
  {
    CubExtension();
    assert LrocFileTypes[3] == ".CUB" && ApolloMetricFileTypes[3] == ".CUB";
    assert forall i :: 0 <= i < |LoFileTypes| ==> LoFileTypes[i] != ".CUB";
  }

  /** The extension list `validate_lo` evidently means: the LROC list. */
  const LoFileTypesIntended: seq<string> := [".img", ".IMG", ".cub", ".CUB"]

  /** `validate_lo` with the intended extension list. */
  function ValidateLoIntended(folderExists: bool, listing: seq<string>): (r: int)
    ensures r == (if !folderExists then -1 else if HasImage(listing, LoFileTypesIntended) then 0 else -2)
  {
    ValidateFolder(folderExists, listing, LoFileTypesIntended)
  }

  /** With the intended list, an existing folder holding any `.cub` or `.CUB` image is accepted. */
  lemma LoIntendedAcceptsCubes(listing: seq<string>, i: nat)
    requires i < |listing| && (Extension(listing[i]) == ".cub" || Extension(listing[i]) == ".CUB")
    ensures ValidateLoIntended(true, listing) == 0
  {
    assert LoFileTypesIntended[2] == ".cub" && LoFileTypesIntended[3] == ".CUB";
  }
}
