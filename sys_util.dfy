/** Operating-system classification and the native-library search path
    (SysUtil.java). The value of the `os.name` property and the platform's
    path separator are parameters; the reflective access to the class
    loader's `usr_paths` field is modelled as a field holding an array. */
module SysUtil {

  const OsLinux: string := "Linux"
  const OsMac: string := "Mac OS X"
  const OsWindows: string := "Windows"
  const OsOther: string := "Other"

  /** The operating systems recognised, in the order they are tried. */
  const SupportedOperatingSystems: seq<string> := [OsLinux, OsMac, OsWindows]

  /** `sub` occurs in `s` starting at position `i`. */
  predicate OccursAt(s: string, sub: string, i: int) {
    0 <= i <= |s| - |sub| && s[i..i + |sub|] == sub
  }

  /** Java's `String.contains`: `sub` occurs somewhere in `s`. */
  predicate Contains(s: string, sub: string) {
    exists i | 0 <= i <= |s| - |sub| :: OccursAt(s, sub, i)
  }

  /** Index of the first of `candidates` contained in `osName`, or -1. */
  function FirstContained(osName: string, candidates: seq<string>): (r: int)
    ensures -1 <= r < |candidates|
    ensures r == -1 <==> forall j | 0 <= j < |candidates| :: !Contains(osName, candidates[j])
    ensures r >= 0 ==> Contains(osName, candidates[r])
    ensures r >= 0 ==> forall j | 0 <= j < r :: !Contains(osName, candidates[j])
    decreases |candidates|
  {
    if |candidates| == 0 then -1
    else if Contains(osName, candidates[0]) then 0
    else
      var k := FirstContained(osName, candidates[1..]);
      if k == -1 then -1 else k + 1
  }

  /** The base name `getOS` reports for the operating system called `osName`. */
  function OsName(osName: string): (r: string)
    ensures r in {OsLinux, OsMac, OsWindows, OsOther}
    ensures r == OsOther <==> forall s | s in SupportedOperatingSystems :: !Contains(osName, s)
    ensures r != OsOther ==> Contains(osName, r)
  {
    var k := FirstContained(osName, SupportedOperatingSystems);
    if k == -1 then OsOther else SupportedOperatingSystems[k]
  }

  /** getOS: tries the supported names in order and stops at the first one
      that occurs in the system's OS name. */
  method GetOS(osName: string) returns (result: string)
    ensures result == OsName(osName)
  {
    result := OsOther;
    var i := 0;
    while i < |SupportedOperatingSystems|
      invariant 0 <= i <= |SupportedOperatingSystems|
      invariant result == OsOther
      invariant forall j | 0 <= j < i :: !Contains(osName, SupportedOperatingSystems[j])
    {
      var s := SupportedOperatingSystems[i];
      if Contains(osName, s) {
        result := s;
        break;
      }
      i := i + 1;
    }
  }

  /** isWindows: Windows is named and neither earlier candidate is. */
  predicate IsWindows(osName: string)
    ensures IsWindows(osName) <==>
      Contains(osName, OsWindows) && !Contains(osName, OsLinux) && !Contains(osName, OsMac)
  {
    FirstMatchWins(osName);
    OsName(osName) == OsWindows
  }

  /** isMacOSX: Mac OS X is named and Linux is not. */
  predicate IsMacOSX(osName: string)
    ensures IsMacOSX(osName) <==> Contains(osName, OsMac) && !Contains(osName, OsLinux)
  {
    FirstMatchWins(osName);
    OsName(osName) == OsMac
  }

  /** isLinux: Linux is named, whatever else is. */
  predicate IsLinux(osName: string)
    ensures IsLinux(osName) <==> Contains(osName, OsLinux)
  {
    FirstMatchWins(osName);
    OsName(osName) == OsLinux
  }

  /** At most one of the three tests holds, and none holds for "Other". */
  lemma ExclusiveOs(osName: string)
    ensures !(IsWindows(osName) && IsMacOSX(osName))
    ensures !(IsWindows(osName) && IsLinux(osName))
    ensures !(IsMacOSX(osName) && IsLinux(osName))
    ensures OsName(osName) == OsOther <==> !IsWindows(osName) && !IsMacOSX(osName) && !IsLinux(osName)
  {
    assert OsLinux[0] != OsMac[0] && OsLinux[0] != OsWindows[0] && OsMac[0] != OsWindows[0];
    assert OsOther[0] != OsLinux[0] && OsOther[0] != OsMac[0] && OsOther[0] != OsWindows[0];
  }

  /** The list is searched in order: an earlier name wins over a later one
      that also occurs in the OS name. */
  lemma FirstMatchWins(osName: string)
    ensures Contains(osName, OsLinux) ==> OsName(osName) == OsLinux
    ensures !Contains(osName, OsLinux) && Contains(osName, OsMac) ==> OsName(osName) == OsMac
    ensures (!Contains(osName, OsLinux) && !Contains(osName, OsMac) && Contains(osName, OsWindows))
            ==> OsName(osName) == OsWindows
    ensures !Contains(osName, OsLinux) && !Contains(osName, OsMac) && !Contains(osName, OsWindows)
            ==> OsName(osName) == OsOther
  {
    var k := FirstContained(osName, SupportedOperatingSystems);
    assert SupportedOperatingSystems[0] == OsLinux;
    assert SupportedOperatingSystems[1] == OsMac;
    assert SupportedOperatingSystems[2] == OsWindows;
    if Contains(osName, OsLinux) {
      assert k == 0;
    } else if Contains(osName, OsMac) {
      assert k == 1;
    } else if Contains(osName, OsWindows) {
      assert k == 2;
    }
  }

  /** A name that mentions both Linux and Windows is classified as Linux,
      not as Windows. */
  lemma LinuxBeforeWindows(osName: string)
    requires Contains(osName, OsLinux) && Contains(osName, OsWindows)
    ensures IsLinux(osName) && !IsWindows(osName)
  {
  }

  /** The state `addNativeLibraryPath` touches: the class loader's
      `usr_paths` array and the `java.library.path` system property. */
  datatype LibraryPathState = LibraryPathState(usrPaths: seq<string>, javaLibraryPath: string)

  /** The state after adding `path` with the platform's `pathSeparator`. */
  function AddPath(st: LibraryPathState, path: string, pathSeparator: string): (r: LibraryPathState)
    ensures path in r.usrPaths
    ensures |r.usrPaths| == |st.usrPaths| + (if path in st.usrPaths then 0 else 1)
    ensures r.usrPaths[..|st.usrPaths|] == st.usrPaths
    ensures path !in st.usrPaths ==> r.usrPaths[|st.usrPaths|] == path
    ensures path in st.usrPaths ==> r.javaLibraryPath == st.javaLibraryPath
    ensures path !in st.usrPaths ==> r.javaLibraryPath == st.javaLibraryPath + pathSeparator + path
  {
    if path in st.usrPaths then st
    else LibraryPathState(st.usrPaths + [path], st.javaLibraryPath + pathSeparator + path)
  }

  /** Adding the same path twice gives the state of adding it once. */
  lemma AddPathIdempotent(st: LibraryPathState, path: string, pathSeparator: string)
    ensures AddPath(AddPath(st, path, pathSeparator), path, pathSeparator) == AddPath(st, path, pathSeparator)
  {
  }

  /** Static library-path state of the running JVM. */
  class LibraryPaths {
    var usrPaths: array<string>
    var javaLibraryPath: string

    constructor (paths: seq<string>, property: string)
      ensures State() == LibraryPathState(paths, property)
    {
      usrPaths := new string[|paths|](i requires 0 <= i < |paths| => paths[i]);
      javaLibraryPath := property;
    }

    function State(): LibraryPathState
      reads this, usrPaths
    {
      LibraryPathState(usrPaths[..], javaLibraryPath)
    }

    /** addNativeLibraryPath: scan for the path and return early if present;
        otherwise copy into an array one longer, put the path last, install
        the new array and extend the property. */
    method AddNativeLibraryPath(path: string, pathSeparator: string)
      modifies this
      ensures State() == AddPath(old(State()), path, pathSeparator)
      ensures path in old(usrPaths[..]) ==> usrPaths == old(usrPaths)
      ensures path !in old(usrPaths[..]) ==> fresh(usrPaths)
    {
      var paths := usrPaths;
      var i := 0;
      while i < paths.Length
        invariant 0 <= i <= paths.Length
        invariant path !in paths[..i]
      {
        if path == paths[i] {
          return;
        }
        i := i + 1;
      }
      assert paths[..i] == paths[..];
      var tmp := new string[paths.Length + 1];
      forall k | 0 <= k < paths.Length {
        tmp[k] := paths[k];
      }
      tmp[paths.Length] := path;
      assert tmp[..] == paths[..] + [path];
      usrPaths := tmp;
      javaLibraryPath := javaLibraryPath + pathSeparator + path;
    }
  }
}
