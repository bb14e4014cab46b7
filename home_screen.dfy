/** The decision logic of the home screen: checking and correcting the
    library file name, the architecture selection, and the scratch files it
    writes before handing an APK to the processing screen. */
module HomeScreen {
  import opened Base
  import opened KotlinText
  import opened ScratchFiles

  // ------------------------------------------------------- library names

  /** `isSoNameValid`: a name Android's `System.loadLibrary` can find. */
  predicate IsSoNameValid(name: string) {
    StartsWith(name, "lib") && EndsWith(name, ".so")
  }

  /** `validateAndCorrectSoName`: prefix `lib` when missing, then suffix
      `.so` when missing. */
  function ValidateAndCorrectSoName(name: string): string {
    var corrected := if StartsWith(name, "lib") then name else "lib" + name;
    if EndsWith(corrected, ".so") then corrected else corrected + ".so"
  }

  /** Prefixing `lib` does not change whether a name ends with `.so`. */
  lemma EndsWithAfterPrefix(name: string)
    ensures EndsWith("lib" + name, ".so") <==> EndsWith(name, ".so")
  {
    var s := "lib" + name;
    if |name| >= 3 {
      assert s[|s| - 3..] == name[|name| - 3..];
    } else {
      assert s[|s| - 3] == "lib"[|name|];
      assert s[|s| - 3..][0] == s[|s| - 3];
    }
  }

  /** The corrected name is always valid. */
  lemma CorrectedIsValid(name: string)
    ensures IsSoNameValid(ValidateAndCorrectSoName(name))
  {
    var corrected := if StartsWith(name, "lib") then name else "lib" + name;
    assert StartsWith(corrected, "lib") by {
      if !StartsWith(name, "lib") {
        assert corrected[..3] == "lib";
      }
    }
    if !EndsWith(corrected, ".so") {
      var r := corrected + ".so";
      assert r[..3] == corrected[..3];
      assert r[|r| - 3..] == ".so";
    }
  }

  /** A valid name is returned unchanged, so correcting is idempotent. */
  lemma ValidIsUnchanged(name: string)
    ensures IsSoNameValid(name) ==> ValidateAndCorrectSoName(name) == name
    ensures ValidateAndCorrectSoName(ValidateAndCorrectSoName(name)) == ValidateAndCorrectSoName(name)
  {
    CorrectedIsValid(name);
  }

  /** Correction adds exactly the missing prefix and the missing suffix of
      the original name, so the result is one of `n`, `lib` + `n`,
      `n` + `.so` and `lib` + `n` + `.so`. */
  lemma CorrectionAddsOnlyWhatIsMissing(name: string)
    ensures ValidateAndCorrectSoName(name) ==
      (if StartsWith(name, "lib") then "" else "lib") + name + (if EndsWith(name, ".so") then "" else ".so")
  {
    EndsWithAfterPrefix(name);
    assert "" + name + "" == name;
    assert "" + name + ".so" == name + ".so";
  }

  /** A valid name is at least six characters long: `lib` and `.so` cannot overlap. */
  lemma ValidNameLength(name: string)
    requires IsSoNameValid(name)
    ensures |name| >= 6
  {
    forall i | 0 <= i < 3 ensures name[i] == "lib"[i] {
      assert name[..3][i] == name[i];
    }
    assert name[|name| - 3] == name[|name| - 3..][0] == '.';
  }

  /** `MutableList.remove(element)`: drops the first occurrence, if any. */
  function RemoveFirst(s: seq<string>, x: string): seq<string>
    decreases |s|
  {
    if |s| == 0 then [] else if s[0] == x then s[1..] else [s[0]] + RemoveFirst(s[1..], x)
  }

  /** Removing drops exactly one occurrence when there is one. */
  lemma {:induction false} RemoveFirstCount(s: seq<string>, x: string)
    ensures multiset(RemoveFirst(s, x)) == multiset(s) - multiset{x}
    decreases |s|
  {
    if |s| > 0 {
      RemoveFirstCount(s[1..], x);
      assert s == [s[0]] + s[1..];
    }
  }

  /** From a list without duplicates, removing leaves every other element
      and no copy of the removed one, still without duplicates. */
  lemma {:induction false} RemoveFirstDistinct(s: seq<string>, x: string)
    requires NoDuplicates(s)
    ensures forall y :: y in RemoveFirst(s, x) <==> y in s && y != x
    ensures NoDuplicates(RemoveFirst(s, x))
    decreases |s|
  {
    if |s| > 0 {
      assert NoDuplicates(s[1..]) by {
        forall i, j | 0 <= i < j < |s| - 1 ensures s[1..][i] != s[1..][j] {
          assert s[1..][i] == s[i + 1] && s[1..][j] == s[j + 1];
        }
      }
      RemoveFirstDistinct(s[1..], x);
      assert s[0] !in s[1..] by {
        forall j | 0 <= j < |s| - 1 ensures s[1..][j] != s[0] {
          assert s[1..][j] == s[j + 1];
        }
      }
      assert s == [s[0]] + s[1..];
      if s[0] != x {
        var r := [s[0]] + RemoveFirst(s[1..], x);
        forall i, j | 0 <= i < j < |r| ensures r[i] != r[j] {
          if i == 0 {
            assert r[j] in RemoveFirst(s[1..], x);
          }
        }
      }
    }
  }

  /** The selection holds no architecture twice, and only known ones. */
  predicate ValidSelection(selected: seq<string>) {
    NoDuplicates(selected) && forall a :: a in selected ==> a in AllArchitectures
  }

  /** The selection after a click on the row of `arch`. */
  function Toggled(selected: seq<string>, arch: string): seq<string> {
    if arch in selected then RemoveFirst(selected, arch) else selected + [arch]
  }

  /** The selection after the checkbox of `arch` is set to `checked`. */
  function Checked(selected: seq<string>, arch: string, checked: bool): seq<string> {
    if checked then (if arch in selected then selected else selected + [arch])
    else RemoveFirst(selected, arch)
  }

  lemma AppendFresh(selected: seq<string>, arch: string)
    requires NoDuplicates(selected) && arch !in selected
    ensures NoDuplicates(selected + [arch])
  {
  }

  /** A click flips exactly the membership of `arch` and keeps the selection valid. */
  lemma ToggleFlips(selected: seq<string>, arch: string)
    requires ValidSelection(selected) && arch in AllArchitectures
    ensures ValidSelection(Toggled(selected, arch))
    ensures forall a :: a in Toggled(selected, arch) <==> (a in selected <==> a != arch)
  {
    if arch in selected {
      RemoveFirstDistinct(selected, arch);
    } else {
      AppendFresh(selected, arch);
    }
  }

  /** The checkbox makes the membership of `arch` equal to `checked`, leaves
      every other architecture as it was, and keeps the selection valid. */
  lemma CheckboxSets(selected: seq<string>, arch: string, checked: bool)
    requires ValidSelection(selected) && arch in AllArchitectures
    ensures ValidSelection(Checked(selected, arch, checked))
    ensures arch in Checked(selected, arch, checked) <==> checked
    ensures forall a :: a != arch ==> (a in Checked(selected, arch, checked) <==> a in selected)
  {
    if checked {
      if arch !in selected {
        AppendFresh(selected, arch);
      }
    } else {
      RemoveFirstDistinct(selected, arch);
    }
  }

  // ------------------------------------------------------- scratch files

  /** The five scratch files every start writes, over `store`. */
  function Written(store: Store, config: string, version: string, soName: string, tab: int, archMode: int): Store {
    store[ConfigFile := config][VersionFile := version][SoNameFile := soName]
      [SourceTypeFile := IntToString(tab)][ArchModeFile := IntToString(archMode)]
  }

  /** A scratch file that is written when `keep` holds and deleted otherwise. */
  function Kept(store: Store, name: string, keep: bool, value: string): Store {
    if keep then store[name := value] else store - {name}
  }

  /** The scratch files after `processWithConfig` or
      `doProcessWithCurrentSoName` wrote them over `store`. */
  function Persisted(store: Store, config: string, version: string, soName: string, tab: int,
                     archMode: int, selected: seq<string>, localPath: string): Store
  {
    var s := Written(store, config, version, soName, tab, archMode);
    var s' := Kept(s, ArchListFile, archMode == 1 && |selected| > 0, JoinToString(selected, ","));
    Kept(s', LocalPathFile, tab == 1 && !IsBlank(localPath), localPath)
  }

  /** The file `Kept` decides about is there exactly when `keep` holds. */
  lemma KeptSelf(store: Store, name: string, keep: bool, value: string)
    ensures name in Kept(store, name, keep, value) <==> keep
    ensures keep ==> Kept(store, name, keep, value)[name] == value
  {
  }

  /** `Kept` leaves every other file alone. */
  lemma KeptOthers(store: Store, name: string, keep: bool, value: string)
    ensures forall k :: k != name ==> (k in Kept(store, name, keep, value) <==> k in store)
    ensures forall k :: k != name && k in store ==> Kept(store, name, keep, value)[k] == store[k]
  {
  }

  /** The architecture list is kept only in manual mode with a non-empty
      selection, joined with commas; the local path only for the local-file
      tab with a non-blank path; otherwise a stale file is deleted. */
  lemma PersistedOptionalFiles(store: Store, config: string, version: string, soName: string, tab: int,
                               archMode: int, selected: seq<string>, localPath: string)
    ensures var r := Persisted(store, config, version, soName, tab, archMode, selected, localPath);
      && (ArchListFile in r <==> archMode == 1 && |selected| > 0)
      && (ArchListFile in r ==> r[ArchListFile] == JoinToString(selected, ","))
      && (LocalPathFile in r <==> tab == 1 && !IsBlank(localPath))
      && (LocalPathFile in r ==> r[LocalPathFile] == localPath)
  {
    var s := Written(store, config, version, soName, tab, archMode);
    var keepList := archMode == 1 && |selected| > 0;
    var s' := Kept(s, ArchListFile, keepList, JoinToString(selected, ","));
    NamesDistinct();
    KeptSelf(s, ArchListFile, keepList, JoinToString(selected, ","));
    KeptSelf(s', LocalPathFile, tab == 1 && !IsBlank(localPath), localPath);
    KeptOthers(s', LocalPathFile, tab == 1 && !IsBlank(localPath), localPath);
  }

  /** The five files written over `store` hold what was written. */
  lemma WrittenFiles(store: Store, config: string, version: string, soName: string, tab: int, archMode: int)
    ensures var r := Written(store, config, version, soName, tab, archMode);
      && ConfigFile in r && r[ConfigFile] == config
      && VersionFile in r && r[VersionFile] == version
      && SoNameFile in r && r[SoNameFile] == soName
      && SourceTypeFile in r && r[SourceTypeFile] == IntToString(tab)
      && ArchModeFile in r && r[ArchModeFile] == IntToString(archMode)
  {
    NamesDistinct();
  }

  /** The five files written every time hold what was written. */
  lemma PersistedFiles(store: Store, config: string, version: string, soName: string, tab: int,
                       archMode: int, selected: seq<string>, localPath: string)
    ensures var r := Persisted(store, config, version, soName, tab, archMode, selected, localPath);
      && ConfigFile in r && r[ConfigFile] == config
      && VersionFile in r && r[VersionFile] == version
      && SoNameFile in r && r[SoNameFile] == soName
      && SourceTypeFile in r && r[SourceTypeFile] == IntToString(tab)
      && ArchModeFile in r && r[ArchModeFile] == IntToString(archMode)
  {
    var s := Written(store, config, version, soName, tab, archMode);
    var keepList := archMode == 1 && |selected| > 0;
    var s' := Kept(s, ArchListFile, keepList, JoinToString(selected, ","));
    NamesDistinct();
    WrittenFiles(store, config, version, soName, tab, archMode);
    KeptOthers(s, ArchListFile, keepList, JoinToString(selected, ","));
    KeptOthers(s', LocalPathFile, tab == 1 && !IsBlank(localPath), localPath);
  }

  /** No other file of the cache directory is touched. */
  lemma PersistedOthers(store: Store, config: string, version: string, soName: string, tab: int,
                        archMode: int, selected: seq<string>, localPath: string, name: string)
    requires name != ConfigFile && name != VersionFile && name != SoNameFile && name != SourceTypeFile
    requires name != ArchModeFile && name != ArchListFile && name != LocalPathFile
    ensures var r := Persisted(store, config, version, soName, tab, archMode, selected, localPath);
      (name in r <==> name in store) && (name in r ==> r[name] == store[name])
  {
    var s := Written(store, config, version, soName, tab, archMode);
    var keepList := archMode == 1 && |selected| > 0;
    var s' := Kept(s, ArchListFile, keepList, JoinToString(selected, ","));
    KeptOthers(s, ArchListFile, keepList, JoinToString(selected, ","));
    KeptOthers(s', LocalPathFile, tab == 1 && !IsBlank(localPath), localPath);
  }

  /** The text of the default Frida gadget configuration: listen on port
      27042, fail on a port conflict and wait at load. */
  const DefaultConfig: string :=
    "{\n  \"interaction\": {\n    \"type\": \"listen\",\n    \"port\": 27042,\n" +
    "    \"on_port_conflict\": \"fail\",\n    \"on_load\": \"wait\"\n  }\n}"

  /** The state of the home screen that the processing decisions read and
      write, and the scratch files in the cache directory. */
  class Home {
    var customSoName: string
    var gadgetConfig: string
    var fridaVersion: string
    var selectedTab: int
    var archMode: int
    var selectedArchitectures: seq<string>
    var fridaLocalPath: string
    var showSoNameWarningDialog: bool
    var pendingApkPath: Option<string>
    var soNameCorrected: string
    /** The scratch files in the cache directory. */
    var store: Store
    /** The APK paths handed to `onStartProcessing`, oldest first. */
    var started: seq<string>

    /** The selection is valid, and a pending APK always comes with a valid corrected name. */
    ghost predicate Valid()
      reads this
    {
      ValidSelection(selectedArchitectures)
      && (pendingApkPath.Some? ==> IsSoNameValid(soNameCorrected))
    }

    /** The screen as first composed, over whatever the cache directory holds. */
    constructor (cache: Store)
      ensures Valid()
      ensures customSoName == DefaultSoName && gadgetConfig == DefaultConfig && fridaVersion == "17.7.3"
      ensures selectedTab == 0 && archMode == 0 && selectedArchitectures == [] && fridaLocalPath == ""
      ensures !showSoNameWarningDialog && pendingApkPath == None && soNameCorrected == ""
      ensures store == cache && started == []
    {
      customSoName := DefaultSoName;
      gadgetConfig := DefaultConfig;
      fridaVersion := "17.7.3";
      selectedTab := 0;
      archMode := 0;
      selectedArchitectures := [];
      fridaLocalPath := "";
      showSoNameWarningDialog := false;
      pendingApkPath := None;
      soNameCorrected := "";
      store := cache;
      started := [];
    }

    /** A click on the row of `arch` in the manual architecture list. */
    method ToggleArchitecture(arch: string)
      requires Valid() && arch in AllArchitectures
      modifies this
      ensures Valid()
      ensures selectedArchitectures == Toggled(old(selectedArchitectures), arch)
      ensures forall a :: a in selectedArchitectures <==> (a in old(selectedArchitectures) <==> a != arch)
      ensures unchanged(this`customSoName, this`gadgetConfig, this`fridaVersion, this`selectedTab, this`archMode)
      ensures unchanged(this`fridaLocalPath, this`showSoNameWarningDialog, this`pendingApkPath)
      ensures unchanged(this`soNameCorrected, this`store, this`started)
    {
      ToggleFlips(selectedArchitectures, arch);
      if arch in selectedArchitectures {
        selectedArchitectures := RemoveFirst(selectedArchitectures, arch);
      } else {
        selectedArchitectures := selectedArchitectures + [arch];
      }
    }

    /** The checkbox of `arch` set to `checked`. */
    method SetArchitectureChecked(arch: string, checked: bool)
      requires Valid() && arch in AllArchitectures
      modifies this
      ensures Valid()
      ensures selectedArchitectures == Checked(old(selectedArchitectures), arch, checked)
      ensures arch in selectedArchitectures <==> checked
      ensures unchanged(this`customSoName, this`gadgetConfig, this`fridaVersion, this`selectedTab, this`archMode)
      ensures unchanged(this`fridaLocalPath, this`showSoNameWarningDialog, this`pendingApkPath)
      ensures unchanged(this`soNameCorrected, this`store, this`started)
    {
      CheckboxSets(selectedArchitectures, arch, checked);
      if checked {
        if arch !in selectedArchitectures {
          selectedArchitectures := selectedArchitectures + [arch];
        }
      } else {
        selectedArchitectures := RemoveFirst(selectedArchitectures, arch);
      }
    }

    /** The scratch-file writes shared by both ways of starting, in the
        source's order: five files written, then the architecture list and
        the local path written or deleted. */
    method WriteScratch(soName: string)
      modifies this`store
      ensures store == Persisted(old(store), gadgetConfig, fridaVersion, soName, selectedTab, archMode,
                                 selectedArchitectures, fridaLocalPath)
    {
      store := store[ConfigFile := gadgetConfig];
      store := store[VersionFile := fridaVersion];
      store := store[SoNameFile := soName];
      store := store[SourceTypeFile := IntToString(selectedTab)];
      store := store[ArchModeFile := IntToString(archMode)];
      WriteOrDelete(ArchListFile, archMode == 1 && |selectedArchitectures| > 0,
                    JoinToString(selectedArchitectures, ","));
      WriteOrDelete(LocalPathFile, selectedTab == 1 && !IsBlank(fridaLocalPath), fridaLocalPath);
    }

    /** `if (keep) file.writeText(value) else { if (file.exists()) file.delete() }`. */
    method WriteOrDelete(name: string, keep: bool, value: string)
      modifies this`store
      ensures store == Kept(old(store), name, keep, value)
    {
      if keep {
        store := store[name := value];
      } else if name in store {
        store := store - {name};
      } else {
        assert store - {name} == store;
      }
    }

    /** `processWithConfig(apkPath)`: a blank name stands for the default; an
        invalid name writes nothing and raises the warning with the
        corrected name and the APK pending; a valid one writes the scratch
        files and starts processing. */
    method ProcessWithConfig(apkPath: string)
      requires Valid()
      modifies this
      ensures Valid()
      ensures var soName := IfBlank(old(customSoName), DefaultSoName);
        if IsSoNameValid(soName) then
          && store == Persisted(old(store), gadgetConfig, fridaVersion, soName, selectedTab, archMode,
                                selectedArchitectures, fridaLocalPath)
          && started == old(started) + [apkPath]
          && unchanged(this`showSoNameWarningDialog, this`pendingApkPath, this`soNameCorrected)
        else
          && store == old(store) && started == old(started)
          && soNameCorrected == ValidateAndCorrectSoName(soName)
          && pendingApkPath == Some(apkPath) && showSoNameWarningDialog
      ensures unchanged(this`customSoName, this`gadgetConfig, this`fridaVersion, this`selectedTab)
      ensures unchanged(this`archMode, this`selectedArchitectures, this`fridaLocalPath)
    {
      var soName := IfBlank(customSoName, DefaultSoName);
      if !IsSoNameValid(soName) {
        CorrectedIsValid(soName);
        soNameCorrected := ValidateAndCorrectSoName(soName);
        pendingApkPath := Some(apkPath);
        showSoNameWarningDialog := true;
        return;
      }
      WriteScratch(soName);
      started := started + [apkPath];
    }

    /** `doProcessWithCurrentSoName(apkPath)`: the scratch files are written
        with the current name, valid or not, and processing starts. */
    method DoProcessWithCurrentSoName(apkPath: string)
      modifies this`store, this`started
      ensures store == Persisted(old(store), gadgetConfig, fridaVersion, IfBlank(customSoName, DefaultSoName),
                                 selectedTab, archMode, selectedArchitectures, fridaLocalPath)
      ensures started == old(started) + [apkPath]
    {
      var soName := IfBlank(customSoName, DefaultSoName);
      WriteScratch(soName);
      started := started + [apkPath];
    }

    /** The warning's "auto-correct" button: the corrected name replaces the
        custom one and the pending APK, if any, is processed with it. */
    method ConfirmAutoCorrect()
      requires Valid()
      modifies this
      ensures Valid()
      ensures customSoName == old(soNameCorrected) && !showSoNameWarningDialog && pendingApkPath == None
      ensures old(pendingApkPath).Some? ==>
        && store == Persisted(old(store), gadgetConfig, fridaVersion, old(soNameCorrected), selectedTab,
                              archMode, selectedArchitectures, fridaLocalPath)
        && started == old(started) + [old(pendingApkPath).value]
        && IsSoNameValid(old(soNameCorrected))
      ensures old(pendingApkPath).None? ==> store == old(store) && started == old(started)
      ensures unchanged(this`gadgetConfig, this`fridaVersion, this`selectedTab, this`archMode)
      ensures unchanged(this`selectedArchitectures, this`fridaLocalPath, this`soNameCorrected)
    {
      customSoName := soNameCorrected;
      showSoNameWarningDialog := false;
      if pendingApkPath.Some? {
        ValidIsNotBlank(customSoName);
        DoProcessWithCurrentSoName(pendingApkPath.value);
      }
      pendingApkPath := None;
    }

    /** The warning's "keep as is" button: the pending APK, if any, is
        processed with the custom name unchanged. */
    method KeepAsIs()
      requires Valid()
      modifies this
      ensures Valid()
      ensures !showSoNameWarningDialog && pendingApkPath == None
      ensures old(pendingApkPath).Some? ==>
        && store == Persisted(old(store), gadgetConfig, fridaVersion, IfBlank(customSoName, DefaultSoName),
                              selectedTab, archMode, selectedArchitectures, fridaLocalPath)
        && started == old(started) + [old(pendingApkPath).value]
      ensures old(pendingApkPath).None? ==> store == old(store) && started == old(started)
      ensures unchanged(this`customSoName, this`gadgetConfig, this`fridaVersion, this`selectedTab)
      ensures unchanged(this`archMode, this`selectedArchitectures, this`fridaLocalPath, this`soNameCorrected)
    {
      showSoNameWarningDialog := false;
      if pendingApkPath.Some? {
        DoProcessWithCurrentSoName(pendingApkPath.value);
      }
      pendingApkPath := None;
    }

    /** Dismissing the warning only hides it; the APK stays pending. */
    method DismissWarning()
      requires Valid()
      modifies this`showSoNameWarningDialog
      ensures Valid() && !showSoNameWarningDialog
    {
      showSoNameWarningDialog := false;
    }
  }

  /** A valid name is not blank, so `ifBlank` keeps it. */
  lemma ValidIsNotBlank(name: string)
    requires IsSoNameValid(name)
    ensures IfBlank(name, DefaultSoName) == name
  {
    assert name[0] == name[..3][0] == 'l';
  }
}
