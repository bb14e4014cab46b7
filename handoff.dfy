/** The home screen writes its choices into the scratch files and the
    processing screen reads them back: what arrives on the other side. */
module Handoff {
  import opened Base
  import opened KotlinText
  import opened ScratchFiles
  import HomeScreen
  import ProcessingScreen

  /** The settings the processing screen reads are the ones the home
      screen wrote: the source type is the selected tab, the mode and the
      configuration, version and library name (the default if blank) come
      through as they were, the local path only for the local-file tab
      with a non-blank path, and the manual list, in manual mode, is the
      selection itself when no selected name is blank or holds a comma.
      Every answer is independent of what the cache held before. */
  lemma SettingsRoundTrip(store: Store, config: string, version: string, soName: string, tab: int,
                          archMode: int, selected: seq<string>, localPath: string)
    requires IntMin <= tab <= IntMax && IntMin <= archMode <= IntMax
    ensures var r := ProcessingScreen.ReadSettings(HomeScreen.Persisted(store, config, version, soName, tab, archMode, selected, localPath));
      && r.sourceType == tab
      && r.archMode == archMode
      && r.configContent == config
      && r.fridaVersion == version
      && r.soName == IfBlank(soName, DefaultSoName)
      && r.localGadgetPath == (if tab == 1 && !IsBlank(localPath) then Some(localPath) else None)
      && (archMode != 1 ==> r.manualArchs == [])
      && (archMode == 1 && (forall a :: a in selected ==> ',' !in a && !IsBlank(a)) ==> r.manualArchs == selected)
  {
    var s := HomeScreen.Persisted(store, config, version, soName, tab, archMode, selected, localPath);
    HomeScreen.PersistedFiles(store, config, version, soName, tab, archMode, selected, localPath);
    HomeScreen.PersistedOptionalFiles(store, config, version, soName, tab, archMode, selected, localPath);
    IntRoundTrip(tab);
    IntRoundTrip(archMode);
    if archMode == 1 && |selected| > 0 && (forall a :: a in selected ==> ',' !in a && !IsBlank(a)) {
      assert [','] == ",";
      SplitJoin(selected, ',');
      FilterNotBlankKeeps(selected);
    }
  }
}
