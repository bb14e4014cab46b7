/** The patching pipeline the processing screen runs: read the settings the
    home screen left, unpack the APK, pick the class to patch, patch the
    first dex unit that holds it, place the gadget libraries and repack.
    Disassembling, reassembling, downloading and reading files outside the
    APK are parameters. */
module ProcessingScreen {
  import opened Base
  import opened KotlinText
  import opened Ordering
  import opened ScratchFiles
  import opened GadgetInjector
  import opened ApkUtils
  import HomeScreen

  // ---------------------------------------------------------------- settings

  /** What the pipeline reads from the scratch files. */
  datatype Settings = Settings(
    sourceType: int,          // 0 remote, 1 local file, 2 built-in
    soName: string,
    configContent: string,
    fridaVersion: string,
    archMode: int,            // 0 detect, 1 manual
    manualArchs: seq<string>,
    localGadgetPath: Option<string>)

  const DefaultVersion: string := "16.2.1"

  /** The settings as the pipeline reads them, with its defaults for
      missing or unreadable values. */
  function ReadSettings(store: Store): Settings {
    Settings(
      ToIntOrNull(ReadOr(store, SourceTypeFile, "0")).GetOr(0),
      IfBlank(ReadOr(store, SoNameFile, DefaultSoName), DefaultSoName),
      ReadOr(store, ConfigFile, ""),
      ReadOr(store, VersionFile, DefaultVersion),
      if ArchModeFile in store then ToIntOrNull(store[ArchModeFile]).GetOr(0) else 0,
      if ArchListFile in store then FilterNotBlank(Split(store[ArchListFile], ',')) else [],
      if LocalPathFile in store then Some(store[LocalPathFile]) else None)
  }

  /** With no scratch files every setting takes its default: remote
      download, the default library name, no configuration, version
      16.2.1, architecture detection, no manual list and no local file. */
  lemma ReadSettingsDefaults()
    ensures ReadSettings(map[]) == Settings(0, DefaultSoName, "", DefaultVersion, 0, [], None)
  {
    assert ToIntOrNull("0") == Some(0) by {
      assert "0"[0] == '0' && AllDigits("0");
      assert "0"[..0] == "";
    }
    assert !IsBlank(DefaultSoName) by {
      assert !IsWhitespace(DefaultSoName[0]);
    }
  }

  /** The library name read back is never blank, a source type that is not
      a number reads as 0, and a text that is not a number as mode 0. */
  lemma ReadSettingsFallbacks(store: Store)
    ensures !IsBlank(ReadSettings(store).soName)
    ensures SourceTypeFile in store && ToIntOrNull(store[SourceTypeFile]).None? ==> ReadSettings(store).sourceType == 0
    ensures ArchModeFile in store && ToIntOrNull(store[ArchModeFile]).None? ==> ReadSettings(store).archMode == 0
    ensures forall a :: a in ReadSettings(store).manualArchs ==> !IsBlank(a) && ',' !in a
  {
    assert !IsWhitespace(DefaultSoName[0]);
    if ArchListFile in store {
      var parts := Split(store[ArchListFile], ',');
      forall a | a in FilterNotBlank(parts) ensures ',' !in a {
        var i :| 0 <= i < |parts| && parts[i] == a;
      }
    }
  }

  // ---------------------------------------------------------- derived names

  /** The name passed to `System.loadLibrary`: `lib<x>.so` loads as `<x>`;
      any other name only loses a trailing `.so`. */
  function LoadLibName(soName: string): string {
    if HomeScreen.IsSoNameValid(soName) then
      HomeScreen.ValidNameLength(soName);
      soName[3..|soName| - 3]
    else RemoveSuffix(soName, ".so")
  }

  /** `System.loadLibrary(x)` looks for `lib<x>.so`, and that is the name
      the patch loads for the file `lib<x>.so`. */
  lemma LoadLibNameOfStandard(x: string)
    ensures LoadLibName("lib" + x + ".so") == x
  {
    var s := "lib" + x + ".so";
    assert s[..3] == "lib" && s[|s| - 3..] == ".so";
    assert s[3..|s| - 3] == x;
  }

  /** A name that is not of the form `lib<x>.so` is loaded with only a
      trailing `.so` removed. */
  lemma LoadLibNameOfOther(soName: string)
    requires !HomeScreen.IsSoNameValid(soName)
    ensures LoadLibName(soName) + (if EndsWith(soName, ".so") then ".so" else "") == soName
  {
  }

  /** The gadget configuration file placed beside a library `<n>.so`: `<n>.config.so`. */
  function ConfigName(soName: string): string {
    RemoveSuffix(soName, ".so") + ".config.so"
  }

  /** For `lib<x>.so` the configuration is `lib<x>.config.so`, the name the
      gadget looks for; it never clashes with the library itself. */
  lemma ConfigNameOfStandard(x: string)
    ensures ConfigName("lib" + x + ".so") == "lib" + x + ".config.so"
    ensures ConfigName("lib" + x + ".so") != "lib" + x + ".so"
  {
    var s := "lib" + x + ".so";
    assert s[|s| - 3..] == ".so";
    assert s[..|s| - 3] == "lib" + x;
    var c := "lib" + x + ".config.so";
    assert |c| != |s|;
  }

  /** `config.applicationName ?: config.mainActivityName`. */
  function TargetClass(config: AppConfig): Option<string> {
    if config.applicationName.Some? then config.applicationName else config.mainActivityName
  }

  /** The class to patch is the application class when the manifest names
      one, else the first activity; there is none only when both are missing. */
  lemma TargetClassFallback(config: AppConfig)
    ensures TargetClass(config).None? <==> config.applicationName.None? && config.mainActivityName.None?
    ensures config.applicationName.Some? ==> TargetClass(config) == config.applicationName
    ensures config.applicationName.None? ==> TargetClass(config) == config.mainActivityName
  {
  }

  /** The smali file of a class: dots become slashes, then `.smali`. */
  function SmaliPath(className: string): string {
    ReplaceChar(className, '.', '/') + ".smali"
  }

  // --------------------------------------------------------------- dex units

  predicate IsDexName(name: string) {
    StartsWith(name, "classes") && EndsWith(name, ".dex")
  }

  /** The dex units at the top of the unpacked APK, `listFiles` filtered to
      `classes*.dex` and `sorted()`. */
  function DexFiles(tree: Tree): (r: seq<string>)
    ensures forall n :: n in r <==> n in tree.files && '/' !in n && IsDexName(n)
    ensures forall i, j :: 0 <= i < j < |r| ==> Less(r[i], r[j])
  {
    SortedList(set n | n in tree.files && '/' !in n && IsDexName(n))
  }

  /** The smali tree produced by disassembling one dex unit: class file path to lines. */
  type Smali = map<string, seq<string>>

  /** The lines of the smali file of an optional class, `None` when there
      is no class or no such file. */
  function SmaliFile(staging: Smali, className: Option<string>): Option<seq<string>> {
    if className.Some? && SmaliPath(className.value) in staging then Some(staging[SmaliPath(className.value)])
    else None
  }

  /** The staging tree after one unit's injection attempts, `None` when
      neither class could be patched: the application class first, then
      the main activity. */
  function UnitResult(staging: Smali, config: AppConfig, libName: string): Option<Smali> {
    var app := SmaliFile(staging, config.applicationName);
    var patchedApp := if app.Some? then Inject(app.value, libName) else None;
    if patchedApp.Some? then Some(staging[SmaliPath(config.applicationName.value) := patchedApp.value])
    else
      var act := SmaliFile(staging, config.mainActivityName);
      var patchedAct := if act.Some? then Inject(act.value, libName) else None;
      if patchedAct.Some? then Some(staging[SmaliPath(config.mainActivityName.value) := patchedAct.value])
      else None
  }

  /** A patched unit differs from its disassembly in exactly one class
      file, which is the patch of either the application class or, when
      that fails or is missing, the main activity. */
  lemma UnitResultPatchesOneClass(staging: Smali, config: AppConfig, libName: string)
    ensures var r := UnitResult(staging, config, libName);
      r.Some? ==> exists name :: name in staging && Inject(staging[name], libName).Some?
                                 && r.value == staging[name := Inject(staging[name], libName).value]
    ensures UnitResult(staging, config, libName).None? <==>
      (SmaliFile(staging, config.applicationName).None? || Inject(SmaliFile(staging, config.applicationName).value, libName).None?)
      && (SmaliFile(staging, config.mainActivityName).None? || Inject(SmaliFile(staging, config.mainActivityName).value, libName).None?)
  {
  }

  /** The injection attempts on one disassembled unit, as the loop body
      does them: the application class if its file exists; then, if that
      did not succeed, the main activity with fallback level 2 and, if that
      returned false, level 3. */
  method InjectUnit(staging: Smali, config: AppConfig, libName: string) returns (injected: bool, out: Smali)
    ensures injected <==> UnitResult(staging, config, libName).Some?
    ensures injected ==> out == UnitResult(staging, config, libName).value
    ensures !injected ==> out == staging
  {
    out := staging;
    injected := false;
    var app := SmaliFile(staging, config.applicationName);
    if app.Some? {
      var written;
      injected, written := InjectLoadLibrary(app, 1, libName);
      if injected {
        out := out[SmaliPath(config.applicationName.value) := written.value];
      }
    }
    var act := SmaliFile(staging, config.mainActivityName);
    if !injected && act.Some? {
      var written;
      injected, written := InjectLoadLibrary(act, 2, libName);
      if !injected {
        injected, written := InjectLoadLibrary(act, 3, libName);
      }
      if injected {
        out := out[SmaliPath(config.mainActivityName.value) := written.value];
      }
    }
  }

  /** Whether the unit `dex` of `tree` can be patched. */
  predicate UnitPatches(tree: Tree, config: AppConfig, libName: string, Disassemble: seq<byte> -> Smali, dex: string) {
    dex in tree.files && UnitResult(Disassemble(tree.files[dex]), config, libName).Some?
  }

  /** `UnitPatches` as a predicate on unit names. */
  function Patches(tree: Tree, config: AppConfig, libName: string, Disassemble: seq<byte> -> Smali): string -> bool {
    (dex: string) => UnitPatches(tree, config, libName, Disassemble, dex)
  }

  /** The index among `dexes` of the unit the loop patches, or -1. */
  function PatchedUnit(tree: Tree, dexes: seq<string>, config: AppConfig, libName: string,
                       Disassemble: seq<byte> -> Smali): int
  {
    IndexOfFirst(dexes, 0, Patches(tree, config, libName, Disassemble))
  }

  /** The unpacked APK after the unit at index `k` was patched and reassembled over itself. */
  function ReplacedUnit(tree: Tree, dex: string, config: AppConfig, libName: string,
                        Disassemble: seq<byte> -> Smali, Reassemble: Smali -> seq<byte>): Tree
    requires UnitPatches(tree, config, libName, Disassemble, dex)
  {
    var patched := UnitResult(Disassemble(tree.files[dex]), config, libName).value;
    tree.(files := tree.files[dex := Reassemble(patched)])
  }

  /** The dex loop: every unit in order is disassembled into an empty
      staging directory and tried; the first success is reassembled over
      its unit and ends the loop; after every failure the staging directory
      is cleared. `disassembled` lists the units disassembled and `clears`
      counts the clearings. */
  method InjectFirstUnit(tree: Tree, dexes: seq<string>, config: AppConfig, libName: string,
                         Disassemble: seq<byte> -> Smali, Reassemble: Smali -> seq<byte>)
    returns (success: bool, out: Tree, disassembled: seq<string>, clears: nat)
    requires forall d :: d in dexes ==> d in tree.files
    ensures var k := PatchedUnit(tree, dexes, config, libName, Disassemble);
      && (success <==> k != -1)
      && (success ==> out == ReplacedUnit(tree, dexes[k], config, libName, Disassemble, Reassemble)
                      && disassembled == dexes[..k + 1] && clears == k)
      && (!success ==> out == tree && disassembled == dexes && clears == |dexes|)
  {
    ghost var P := Patches(tree, config, libName, Disassemble);
    var staging: Smali := map[];
    out := tree;
    disassembled := [];
    clears := 0;
    success := false;
    var patched: Smali := map[];
    var i := 0;
    while i < |dexes|
      invariant 0 <= i <= |dexes|
      invariant staging == map[] && clears == i
      invariant disassembled == dexes[..i]
      invariant forall j :: 0 <= j < i ==> !P(dexes[j])
    {
      var dex := dexes[i];
      assert dexes[..i + 1] == dexes[..i] + [dex];
      disassembled := disassembled + [dex];
      success, patched := DisassembleAndTry(staging, tree, dex, config, libName, Disassemble);
      if success {
        break;
      }
      FailsThrough(dexes, i, P);
      staging := map[];
      clears := clears + 1;
      i := i + 1;
    }
    if success {
      IndexOfFirstIs(dexes, 0, i, P);
      out := tree.(files := tree.files[dexes[i] := Reassemble(patched)]);
    } else {
      IndexOfFirstIs(dexes, 0, -1, P);
    }
  }

  /** One pass of the loop body up to the success test: `disassembleDex`
      writes the unit's classes into the (empty) staging directory, then the
      injection attempts run on it. */
  method DisassembleAndTry(staging: Smali, tree: Tree, dex: string, config: AppConfig, libName: string,
                           Disassemble: seq<byte> -> Smali)
    returns (injected: bool, patched: Smali)
    requires staging == map[] && dex in tree.files
    ensures injected <==> UnitPatches(tree, config, libName, Disassemble, dex)
    ensures injected ==> patched == UnitResult(Disassemble(tree.files[dex]), config, libName).value
  {
    var produced := Disassemble(tree.files[dex]);
    assert staging + produced == produced;
    injected, patched := InjectUnit(staging + produced, config, libName);
  }

  /** At most one unit is replaced: every other file of the APK is kept. */
  lemma OnlyPatchedUnitChanges(tree: Tree, dex: string, config: AppConfig, libName: string,
                               Disassemble: seq<byte> -> Smali, Reassemble: Smali -> seq<byte>, name: string)
    requires UnitPatches(tree, config, libName, Disassemble, dex)
    requires name != dex
    ensures var out := ReplacedUnit(tree, dex, config, libName, Disassemble, Reassemble);
      out.dirs == tree.dirs && (name in out.files <==> name in tree.files)
      && (name in tree.files ==> out.files[name] == tree.files[name])
  {
  }

  // ----------------------------------------------------------- architectures

  /** A path directly below `lib/`. */
  predicate IsLibChild(path: string) {
    |path| > 4 && path[..4] == "lib/" && '/' !in path[4..]
  }

  /** The names `libDir.listFiles()` gives for the unpacked APK: every
      directory and file directly below `lib/`, in name order. */
  function LibChildren(tree: Tree): (r: seq<string>)
    ensures forall n :: n in r <==> n != "" && '/' !in n && (ArchDir(n) in tree.dirs || ArchDir(n) in tree.files)
    ensures forall i, j :: 0 <= i < j < |r| ==> Less(r[i], r[j])
  {
    var names := (set d | d in tree.dirs && IsLibChild(d) :: d[4..]) + (set f | f in tree.files && IsLibChild(f) :: f[4..]);
    forall n ensures n in names <==> n != "" && '/' !in n && (ArchDir(n) in tree.dirs || ArchDir(n) in tree.files) {
      ArchDirOf(n);
      forall d | IsLibChild(d) && d[4..] == n ensures d == ArchDir(n) {
        assert d == d[..4] + d[4..];
      }
    }
    SortedList(names)
  }

  /** The architectures to place a gadget for: only `armeabi-v7a` for the
      built-in asset (it is an ARM build), else the manual list when the
      manual mode has one, else those the APK already ships, else all four. */
  function ArchsToFetch(settings: Settings, present: seq<string>): seq<string> {
    if settings.sourceType == 2 then ["armeabi-v7a"]
    else if settings.archMode == 1 && |settings.manualArchs| > 0 then settings.manualArchs
    else if |present| == 0 then AllArchitectures
    else present
  }

  /** There is always at least one architecture to fetch; each is the
      built-in asset's, a manually chosen one, one the APK ships or one of
      the four known ABIs; the manual list only counts in manual mode. */
  lemma ArchsToFetchRange(settings: Settings, present: seq<string>)
    ensures var r := ArchsToFetch(settings, present);
      && |r| > 0
      && (forall a :: a in r ==> a in settings.manualArchs || a in present || a in AllArchitectures)
      && (settings.sourceType == 2 ==> r == ["armeabi-v7a"])
      && (settings.sourceType != 2 && settings.archMode != 1 ==> r == (if |present| == 0 then AllArchitectures else present))
  {
  }

  // -------------------------------------------------------- gadget libraries

  /** Where the gadget library comes from: the app's built-in asset
      (`None` when it cannot be opened), a local file by path (`None` when
      no such file exists) and the downloader, by architecture and version
      (`None` when nothing was downloaded). */
  datatype Sources = Sources(
    builtIn: Option<seq<byte>>,
    localFile: string -> Option<seq<byte>>,
    download: (string, string) -> Option<seq<byte>>)

  /** The gadget placed for one architecture, `None` when it is skipped. */
  function GadgetFor(settings: Settings, sources: Sources, arch: string): Option<seq<byte>> {
    if settings.sourceType == 2 then sources.builtIn
    else if settings.sourceType == 1 && settings.localGadgetPath.Some? && !IsBlank(settings.localGadgetPath.value)
            && sources.localFile(settings.localGadgetPath.value).Some?
    then sources.localFile(settings.localGadgetPath.value)
    else if settings.sourceType == 0 then sources.download(arch, settings.fridaVersion)
    else None
  }

  /** Only the remote source differs between architectures; a local
      source without a usable file, and a source type other than 0, 1
      and 2, give no gadget at all. */
  lemma GadgetSources(settings: Settings, sources: Sources, a: string, b: string)
    ensures settings.sourceType != 0 ==> GadgetFor(settings, sources, a) == GadgetFor(settings, sources, b)
    ensures settings.sourceType == 1 && (settings.localGadgetPath.None? || IsBlank(settings.localGadgetPath.value))
            ==> GadgetFor(settings, sources, a).None?
    ensures !(0 <= settings.sourceType <= 2) ==> GadgetFor(settings, sources, a).None?
    ensures settings.sourceType == 0 ==> GadgetFor(settings, sources, a) == sources.download(a, settings.fridaVersion)
  {
  }

  /** `File(libDir, arch)`, relative to the unpacked APK. */
  function ArchDir(arch: string): string {
    "lib/" + arch
  }

  /** `File(archDir, file)`, relative to the unpacked APK. */
  function LibPath(arch: string, file: string): string {
    ArchDir(arch) + "/" + file
  }

  lemma ArchDirOf(n: string)
    ensures IsLibChild(ArchDir(n)) <==> n != "" && '/' !in n
    ensures ArchDir(n)[4..] == n
  {
    assert ArchDir(n)[..4] == "lib/";
  }

  /** Every placed file lies below `lib/`. */
  lemma LibPathBelowLib(arch: string, file: string)
    ensures StartsWith(LibPath(arch, file), "lib/")
  {
    assert LibPath(arch, file)[..4] == "lib/";
  }

  /** For architectures without a slash the path names the architecture
      and the file it was built from. */
  lemma LibPathInjective(a1: string, f1: string, a2: string, f2: string)
    requires '/' !in a1 && '/' !in a2
    ensures LibPath(a1, f1) == LibPath(a2, f2) <==> a1 == a2 && f1 == f2
  {
    var p1, p2 := LibPath(a1, f1), LibPath(a2, f2);
    assert p1[4 + |a1|] == '/' && p2[4 + |a2|] == '/';
    assert forall k :: 4 <= k < 4 + |a1| ==> p1[k] == a1[k - 4];
    assert forall k :: 4 <= k < 4 + |a2| ==> p2[k] == a2[k - 4];
    if p1 == p2 {
      assert |a1| == |a2|;
      assert a1 == p1[4..4 + |a1|] && a2 == p2[4..4 + |a2|];
      assert f1 == p1[5 + |a1|..] && f2 == p2[5 + |a2|..];
    }
  }

  /** The configuration file is never the library itself. */
  lemma ConfigNameLonger(soName: string)
    ensures |ConfigName(soName)| > |soName|
  {
  }

  /** The directories `archDir.mkdirs()` makes sure of. */
  function ArchDirs(arch: string): set<string> {
    Parents(ArchDir(arch)) + {ArchDir(arch)}
  }

  /** Whether one architecture's turn writes the file `name`: its
      library, or the configuration beside it when that is not empty. */
  predicate PlacesAt(settings: Settings, sources: Sources, arch: string, name: string) {
    GadgetFor(settings, sources, arch).Some?
    && (name == LibPath(arch, settings.soName)
        || (|settings.configContent| > 0 && name == LibPath(arch, ConfigName(settings.soName))))
  }

  /** The unpacked APK after one architecture's turn: its directory is
      made; when a gadget is available it is written under the library
      name and, when the configuration is not empty, the configuration
      is written beside it. */
  function PlaceArch(t: Tree, settings: Settings, sources: Sources, Encode: string -> seq<byte>, arch: string): (r: Tree)
    ensures r.dirs == t.dirs + ArchDirs(arch)
    ensures forall n :: n in r.files <==> n in t.files || PlacesAt(settings, sources, arch, n)
    ensures forall n :: n in t.files && !PlacesAt(settings, sources, arch, n) ==> r.files[n] == t.files[n]
    ensures GadgetFor(settings, sources, arch).Some? ==>
      LibPath(arch, settings.soName) in r.files
      && r.files[LibPath(arch, settings.soName)] == GadgetFor(settings, sources, arch).value
    ensures GadgetFor(settings, sources, arch).Some? && |settings.configContent| > 0 ==>
      LibPath(arch, ConfigName(settings.soName)) in r.files
      && r.files[LibPath(arch, ConfigName(settings.soName))] == Encode(settings.configContent)
  {
    ConfigNameLonger(settings.soName);
    var made := t.(dirs := t.dirs + ArchDirs(arch));
    var gadget := GadgetFor(settings, sources, arch);
    if gadget.None? then made
    else
      var withLib := made.(files := made.files[LibPath(arch, settings.soName) := gadget.value]);
      if |settings.configContent| > 0 then
        withLib.(files := withLib.files[LibPath(arch, ConfigName(settings.soName)) := Encode(settings.configContent)])
      else withLib
  }

  /** The unpacked APK after every architecture's turn, in order. */
  function Placed(t: Tree, settings: Settings, sources: Sources, Encode: string -> seq<byte>, archs: seq<string>): Tree
    decreases |archs|
  {
    if |archs| == 0 then t
    else PlaceArch(Placed(t, settings, sources, Encode, archs[..|archs| - 1]), settings, sources, Encode, archs[|archs| - 1])
  }

  /** Whether some architecture got a gadget. */
  predicate AnyAdded(settings: Settings, sources: Sources, archs: seq<string>)
    decreases |archs|
  {
    |archs| > 0 && (AnyAdded(settings, sources, archs[..|archs| - 1]) || GadgetFor(settings, sources, archs[|archs| - 1]).Some?)
  }

  /** A gadget was added exactly when one of the architectures has one. */
  lemma {:induction false} AnyAddedExists(settings: Settings, sources: Sources, archs: seq<string>)
    ensures AnyAdded(settings, sources, archs) <==> exists i :: 0 <= i < |archs| && GadgetFor(settings, sources, archs[i]).Some?
    decreases |archs|
  {
    if |archs| > 0 {
      var init := archs[..|archs| - 1];
      AnyAddedExists(settings, sources, init);
      assert forall i :: 0 <= i < |init| ==> init[i] == archs[i];
    }
  }

  /** The placement loop. `addedLib` tells whether any gadget was written. */
  method PlaceLibraries(tree: Tree, archs: seq<string>, settings: Settings, sources: Sources, Encode: string -> seq<byte>)
    returns (out: Tree, addedLib: bool)
    ensures out == Placed(tree, settings, sources, Encode, archs)
    ensures addedLib <==> AnyAdded(settings, sources, archs)
  {
    out := tree;
    addedLib := false;
    var i := 0;
    while i < |archs|
      invariant 0 <= i <= |archs|
      invariant out == Placed(tree, settings, sources, Encode, archs[..i])
      invariant addedLib <==> AnyAdded(settings, sources, archs[..i])
    {
      var arch := archs[i];
      assert archs[..i + 1][..i] == archs[..i];
      out := out.(dirs := out.dirs + ArchDirs(arch));
      var targetLib := LibPath(arch, settings.soName);
      var archAdded := false;
      if settings.sourceType == 2 {
        if sources.builtIn.Some? {
          out := out.(files := out.files[targetLib := sources.builtIn.value]);
          archAdded := true;
        }
      } else if settings.sourceType == 1 && settings.localGadgetPath.Some? && !IsBlank(settings.localGadgetPath.value)
                && sources.localFile(settings.localGadgetPath.value).Some? {
        out := out.(files := out.files[targetLib := sources.localFile(settings.localGadgetPath.value).value]);
        archAdded := true;
      } else if settings.sourceType == 0 {
        var downloadedSo := sources.download(arch, settings.fridaVersion);
        if downloadedSo.Some? {
          out := out.(files := out.files[targetLib := downloadedSo.value]);
          archAdded := true;
        }
      }
      if archAdded {
        addedLib := true;
        if |settings.configContent| > 0 {
          out := out.(files := out.files[LibPath(arch, ConfigName(settings.soName)) := Encode(settings.configContent)]);
        }
      }
      i := i + 1;
    }
    assert archs[..|archs|] == archs;
  }

  /** Placing makes every architecture's directory and no other. */
  lemma {:induction false} PlacedDirs(t: Tree, settings: Settings, sources: Sources, Encode: string -> seq<byte>, archs: seq<string>)
    ensures Placed(t, settings, sources, Encode, archs).dirs == t.dirs + Union(archs, ArchDirs)
    decreases |archs|
  {
    if |archs| > 0 {
      PlacedDirs(t, settings, sources, Encode, archs[..|archs| - 1]);
    }
  }

  /** The files placing creates are exactly the libraries and
      configurations of the architectures that got a gadget. */
  lemma {:induction false} PlacedNames(t: Tree, settings: Settings, sources: Sources, Encode: string -> seq<byte>,
                                       archs: seq<string>, name: string)
    ensures name in Placed(t, settings, sources, Encode, archs).files <==>
      name in t.files || exists i :: 0 <= i < |archs| && PlacesAt(settings, sources, archs[i], name)
    decreases |archs|
  {
    if |archs| > 0 {
      var init := archs[..|archs| - 1];
      PlacedNames(t, settings, sources, Encode, init, name);
      assert forall i :: 0 <= i < |init| ==> init[i] == archs[i];
    }
  }

  /** Placing leaves every file outside `lib/` as it was. */
  lemma {:induction false} PlacedOutsideLib(t: Tree, settings: Settings, sources: Sources, Encode: string -> seq<byte>,
                                            archs: seq<string>, name: string)
    requires !StartsWith(name, "lib/")
    ensures var out := Placed(t, settings, sources, Encode, archs).files;
      (name in out <==> name in t.files) && (name in t.files ==> out[name] == t.files[name])
    decreases |archs|
  {
    if |archs| > 0 {
      var last := archs[|archs| - 1];
      PlacedOutsideLib(t, settings, sources, Encode, archs[..|archs| - 1], name);
      LibPathBelowLib(last, settings.soName);
      LibPathBelowLib(last, ConfigName(settings.soName));
    }
  }

  /** When no architecture name holds a slash, every architecture that got
      a gadget ends up with that gadget under the library name and, when
      the configuration is not empty, with the configuration beside it. */
  lemma {:induction false} PlacedContent(t: Tree, settings: Settings, sources: Sources, Encode: string -> seq<byte>,
                                         archs: seq<string>, i: nat)
    requires forall a :: a in archs ==> '/' !in a
    requires i < |archs| && GadgetFor(settings, sources, archs[i]).Some?
    ensures var out := Placed(t, settings, sources, Encode, archs).files;
      && LibPath(archs[i], settings.soName) in out
      && out[LibPath(archs[i], settings.soName)] == GadgetFor(settings, sources, archs[i]).value
      && (|settings.configContent| > 0 ==>
            LibPath(archs[i], ConfigName(settings.soName)) in out
            && out[LibPath(archs[i], ConfigName(settings.soName))] == Encode(settings.configContent))
    decreases |archs|
  {
    var last := archs[|archs| - 1];
    if i < |archs| - 1 {
      var init := archs[..|archs| - 1];
      assert init[i] == archs[i];
      PlacedContent(t, settings, sources, Encode, init, i);
      var so, cfg := settings.soName, ConfigName(settings.soName);
      ConfigNameLonger(so);
      LibPathInjective(archs[i], so, last, so);
      LibPathInjective(archs[i], so, last, cfg);
      LibPathInjective(archs[i], cfg, last, so);
      LibPathInjective(archs[i], cfg, last, cfg);
    }
  }

  // ---------------------------------------------------------------- pipeline

  /** Why the pipeline stops, one reason per exception it throws. */
  datatype Failure =
    | NoTargetClass    // neither an application class nor an activity
    | NoDexFiles       // no `classes*.dex` at the top of the APK
    | InjectionFailed  // no dex unit could be patched
    | NoGadgetAdded    // no architecture got a gadget
    | DuplicateEntry   // the archive stream refused an entry name

  datatype Outcome = Failed(reason: Failure) | Completed(entries: seq<Entry>)

  /** The pipeline up to repacking: the unpacked APK with the patched unit
      and the gadget libraries in place, or why it stopped. */
  datatype Prepared = Stopped(reason: Failure) | Ready(tree: Tree)

  const EmptyDir: Tree := Tree({}, map[])

  /** The unpacked APK with the unit at `dexes[k]` patched and `lib` made. */
  function PatchedApk(unpacked: Tree, dexes: seq<string>, k: nat, config: AppConfig, libName: string,
                      Disassemble: seq<byte> -> Smali, Reassemble: Smali -> seq<byte>): Tree
    requires k < |dexes| && UnitPatches(unpacked, config, libName, Disassemble, dexes[k])
  {
    var patched := ReplacedUnit(unpacked, dexes[k], config, libName, Disassemble, Reassemble);
    patched.(dirs := patched.dirs + {"lib"})
  }

  /** The steps up to and including the dex patch: the unpacked APK with
      the patched unit and `lib` made, or why the pipeline stopped. */
  function PatchStep(settings: Settings, archive: seq<ArchiveItem>, manifest: Option<string>,
                     Disassemble: seq<byte> -> Smali, Reassemble: Smali -> seq<byte>): Prepared
  {
    var libName := LoadLibName(settings.soName);
    var unpacked := Extracted(EmptyDir, archive);
    var config := FindAppConfig(manifest);
    var dexes := DexFiles(unpacked);
    var k := PatchedUnit(unpacked, dexes, config, libName, Disassemble);
    if TargetClass(config).None? then Stopped(NoTargetClass)
    else if |dexes| == 0 then Stopped(NoDexFiles)
    else if k == -1 then Stopped(InjectionFailed)
    else Ready(PatchedApk(unpacked, dexes, k, config, libName, Disassemble, Reassemble))
  }

  /** The gadget step on the patched APK. */
  function PlaceStep(settings: Settings, withLib: Tree, sources: Sources, Encode: string -> seq<byte>): Prepared {
    var archs := ArchsToFetch(settings, LibChildren(withLib));
    if !AnyAdded(settings, sources, archs) then Stopped(NoGadgetAdded)
    else Ready(Placed(withLib, settings, sources, Encode, archs))
  }

  /** The steps up to repacking, as the pipeline takes them. */
  function Prepare(store: Store, archive: seq<ArchiveItem>, manifest: Option<string>,
                   Disassemble: seq<byte> -> Smali, Reassemble: Smali -> seq<byte>,
                   sources: Sources, Encode: string -> seq<byte>): Prepared
  {
    var settings := ReadSettings(store);
    match PatchStep(settings, archive, manifest, Disassemble, Reassemble)
    case Stopped(reason) => Stopped(reason)
    case Ready(withLib) => PlaceStep(settings, withLib, sources, Encode)
  }

  /** The last step: a prepared tree is repacked in name order. */
  function Finish(prepared: Prepared): Outcome {
    match prepared
    case Stopped(reason) => Failed(reason)
    case Ready(tree) =>
      var walk := SortedList(tree.files.Keys);
      if NoDuplicates(EntryNames(walk)) then Completed(Repacked(tree, walk)) else Failed(DuplicateEntry)
  }

  /** The whole pipeline. */
  function Pipeline(store: Store, archive: seq<ArchiveItem>, manifest: Option<string>,
                    Disassemble: seq<byte> -> Smali, Reassemble: Smali -> seq<byte>,
                    sources: Sources, Encode: string -> seq<byte>): Outcome
  {
    Finish(Prepare(store, archive, manifest, Disassemble, Reassemble, sources, Encode))
  }

  /** Steps 1 to 3 of the processing screen: unpack, find the class,
      patch the first dex unit that holds it, make `lib`. */
  method PatchApk(settings: Settings, archive: seq<ArchiveItem>, manifest: Option<string>,
                  Disassemble: seq<byte> -> Smali, Reassemble: Smali -> seq<byte>)
    returns (stage: Prepared)
    ensures stage == PatchStep(settings, archive, manifest, Disassemble, Reassemble)
  {
    var unpacked, unzipReports := Unzip(archive, EmptyDir);
    var config := FindAppConfig(manifest);
    if TargetClass(config).None? {
      return Stopped(NoTargetClass);
    }
    var dexFiles := DexFiles(unpacked);
    if |dexFiles| == 0 {
      return Stopped(NoDexFiles);
    }
    var libName := LoadLibName(settings.soName);
    var injSuccess, tree, disassembled, clears := InjectFirstUnit(unpacked, dexFiles, config, libName, Disassemble, Reassemble);
    if !injSuccess {
      return Stopped(InjectionFailed);
    }
    if "lib" !in tree.dirs {
      tree := tree.(dirs := tree.dirs + {"lib"});
    } else {
      assert tree == tree.(dirs := tree.dirs + {"lib"});
    }
    return Ready(tree);
  }

  /** The processing screen's job, from reading the settings to the
      repacked entries. `archive` is the APK's entries in order, `manifest`
      the text of its `AndroidManifest.xml` (`None` when it has none). */
  method Run(store: Store, archive: seq<ArchiveItem>, manifest: Option<string>,
             Disassemble: seq<byte> -> Smali, Reassemble: Smali -> seq<byte>,
             sources: Sources, Encode: string -> seq<byte>)
    returns (outcome: Outcome)
    ensures outcome == Pipeline(store, archive, manifest, Disassemble, Reassemble, sources, Encode)
  {
    var settings := ReadSettings(store);
    var stage := PatchApk(settings, archive, manifest, Disassemble, Reassemble);
    if stage.Stopped? {
      return Failed(stage.reason);
    }
    var tree := stage.tree;
    var archsToFetch := ArchsToFetch(settings, LibChildren(tree));
    var addedLib;
    tree, addedLib := PlaceLibraries(tree, archsToFetch, settings, sources, Encode);
    if !addedLib {
      return Failed(NoGadgetAdded);
    }
    var walk := SortedList(tree.files.Keys);
    forall i, j | 0 <= i < j < |walk| ensures walk[i] != walk[j] {
      SortedDistinct(walk, i, j);
    }
    var repacked, zipReports := Zip(tree, walk);
    if repacked.None? {
      return Failed(DuplicateEntry);
    }
    return Completed(repacked.value);
  }

  // -------------------------------------------------------------- properties

  /** The pipeline stops before patching exactly when the manifest names
      no class, or the APK has no dex unit at its top, or no unit can be
      patched; otherwise it goes on with the first unit that can. */
  lemma PatchStepStops(settings: Settings, archive: seq<ArchiveItem>, manifest: Option<string>,
                       Disassemble: seq<byte> -> Smali, Reassemble: Smali -> seq<byte>)
    ensures var unpacked := Extracted(EmptyDir, archive);
      var config := FindAppConfig(manifest);
      var libName := LoadLibName(settings.soName);
      var stage := PatchStep(settings, archive, manifest, Disassemble, Reassemble);
      && (stage == Stopped(NoTargetClass) <==> config.applicationName.None? && config.mainActivityName.None?)
      && (stage == Stopped(NoDexFiles) <==>
            (TargetClass(config).Some? && forall n :: n in unpacked.files && '/' !in n ==> !IsDexName(n)))
      && (stage == Stopped(InjectionFailed) <==>
            (TargetClass(config).Some? && |DexFiles(unpacked)| > 0
             && forall d :: d in DexFiles(unpacked) ==> !UnitPatches(unpacked, config, libName, Disassemble, d)))
      && (stage.Ready? <==>
            (TargetClass(config).Some?
             && exists d :: d in DexFiles(unpacked) && UnitPatches(unpacked, config, libName, Disassemble, d)))
  {
    var unpacked := Extracted(EmptyDir, archive);
    var config := FindAppConfig(manifest);
    var libName := LoadLibName(settings.soName);
    var dexes := DexFiles(unpacked);
    var P := Patches(unpacked, config, libName, Disassemble);
    TargetClassFallback(config);
    var k := PatchedUnit(unpacked, dexes, config, libName, Disassemble);
    assert k == -1 <==> forall d :: d in dexes ==> !P(d);
    if |dexes| > 0 {
      assert dexes[0] in unpacked.files && '/' !in dexes[0] && IsDexName(dexes[0]);
    }
  }

  /** After the patch step exactly one file has changed: the unit
      `PatchedUnit` picks, the first in name order that can be patched,
      which now holds the reassembly of its patched classes; `lib` exists
      and no other directory is new. */
  lemma PatchStepTree(settings: Settings, archive: seq<ArchiveItem>, manifest: Option<string>,
                      Disassemble: seq<byte> -> Smali, Reassemble: Smali -> seq<byte>)
    requires PatchStep(settings, archive, manifest, Disassemble, Reassemble).Ready?
    ensures var unpacked := Extracted(EmptyDir, archive);
      var config := FindAppConfig(manifest);
      var libName := LoadLibName(settings.soName);
      var dexes := DexFiles(unpacked);
      var t := PatchStep(settings, archive, manifest, Disassemble, Reassemble).tree;
      var k := PatchedUnit(unpacked, dexes, config, libName, Disassemble);
      && 0 <= k < |dexes|
      && UnitPatches(unpacked, config, libName, Disassemble, dexes[k])
      && t.files == unpacked.files[dexes[k] := Reassemble(UnitResult(Disassemble(unpacked.files[dexes[k]]), config, libName).value)]
      && t.dirs == unpacked.dirs + {"lib"}
  {
  }

  /** The gadget step stops exactly when no architecture to fetch got a gadget. */
  lemma PlaceStepStops(settings: Settings, withLib: Tree, sources: Sources, Encode: string -> seq<byte>)
    ensures var archs := ArchsToFetch(settings, LibChildren(withLib));
      PlaceStep(settings, withLib, sources, Encode) == Stopped(NoGadgetAdded) <==>
        forall a :: a in archs ==> GadgetFor(settings, sources, a).None?
  {
    var archs := ArchsToFetch(settings, LibChildren(withLib));
    AnyAddedExists(settings, sources, archs);
    assert forall a :: a in archs ==> exists i :: 0 <= i < |archs| && archs[i] == a;
  }

  /** After the gadget step every file outside `lib/` is as it was, every
      architecture directory exists, and (for architecture names without a
      slash) each architecture that got a gadget holds it under the library
      name, with the configuration beside it when there is one. */
  lemma PlaceStepTree(settings: Settings, withLib: Tree, sources: Sources, Encode: string -> seq<byte>)
    requires PlaceStep(settings, withLib, sources, Encode).Ready?
    ensures var archs := ArchsToFetch(settings, LibChildren(withLib));
      var out := PlaceStep(settings, withLib, sources, Encode).tree;
      && (forall n :: !StartsWith(n, "lib/") ==> (n in out.files <==> n in withLib.files))
      && (forall n :: !StartsWith(n, "lib/") && n in withLib.files ==> out.files[n] == withLib.files[n])
      && out.dirs == withLib.dirs + Union(archs, ArchDirs)
      && ((forall a :: a in archs ==> '/' !in a) ==>
            forall a :: a in archs && GadgetFor(settings, sources, a).Some? ==>
              LibPath(a, settings.soName) in out.files
              && out.files[LibPath(a, settings.soName)] == GadgetFor(settings, sources, a).value)
  {
    var archs := ArchsToFetch(settings, LibChildren(withLib));
    forall n | !StartsWith(n, "lib/") {
      PlacedOutsideLib(withLib, settings, sources, Encode, archs, n);
    }
    PlacedDirs(withLib, settings, sources, Encode, archs);
    if forall a :: a in archs ==> '/' !in a {
      forall a | a in archs && GadgetFor(settings, sources, a).Some?
        ensures LibPath(a, settings.soName) in Placed(withLib, settings, sources, Encode, archs).files
        ensures Placed(withLib, settings, sources, Encode, archs).files[LibPath(a, settings.soName)]
                == GadgetFor(settings, sources, a).value
      {
        var i :| 0 <= i < |archs| && archs[i] == a;
        PlacedContent(withLib, settings, sources, Encode, archs, i);
      }
    }
  }

  /** A prepared tree with no path holding a backslash or ending with a
      slash is repacked, and unpacking its entries into an empty directory
      gives back exactly its files. */
  lemma FinishRepacks(final: Tree)
    requires forall p :: p in final.files ==> '\\' !in p && !IsDirectoryName(p)
    ensures var outcome := Finish(Ready(final));
      outcome.Completed? && Extracted(EmptyDir, ItemsOf(outcome.entries)).files == final.files
  {
    var walk := SortedList(final.files.Keys);
    forall i, j | 0 <= i < j < |walk| ensures walk[i] != walk[j] {
      SortedDistinct(walk, i, j);
    }
    ZipNamesDistinct(walk);
    RepackUnpack(final, walk);
  }

  /** Outside `lib/`, the repacked APK unpacks to exactly the patched
      tree, provided no path holds a backslash or ends with a slash: the
      gadget step and the repacking touch nothing else. */
  lemma RepackedKeepsPatched(settings: Settings, patched: Tree, sources: Sources, Encode: string -> seq<byte>, final: Tree)
    requires PlaceStep(settings, patched, sources, Encode) == Ready(final)
    requires forall p :: p in final.files ==> '\\' !in p && !IsDirectoryName(p)
    ensures var result := Extracted(EmptyDir, ItemsOf(Repacked(final, SortedList(final.files.Keys)))).files;
      forall n :: !StartsWith(n, "lib/") ==>
        (n in result <==> n in patched.files) && (n in patched.files ==> result[n] == patched.files[n])
  {
    var walk := SortedList(final.files.Keys);
    forall i, j | 0 <= i < j < |walk| ensures walk[i] != walk[j] {
      SortedDistinct(walk, i, j);
    }
    RepackUnpack(final, walk);
    PlaceStepTree(settings, patched, sources, Encode);
  }
}
