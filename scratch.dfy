/** The scratch files in the app's cache directory through which the home
    screen hands its settings to the processing screen, as a map from file
    name to text: a name missing from the map is a file that does not exist. */
module ScratchFiles {
  import opened Base

  type Store = map<string, string>

  const ConfigFile: string := "gadget_config.json"
  const VersionFile: string := "gadget_version.txt"
  const SoNameFile: string := "gadget_so_name.txt"
  const SourceTypeFile: string := "gadget_source_type.txt"
  const ArchModeFile: string := "gadget_arch_mode.txt"
  const ArchListFile: string := "gadget_arch_list.txt"
  const LocalPathFile: string := "gadget_local_path.txt"

  /** The seven scratch files have seven different names. */
  lemma NamesDistinct()
    ensures ConfigFile != VersionFile && ConfigFile != SoNameFile && ConfigFile != SourceTypeFile
    ensures ConfigFile != ArchModeFile && ConfigFile != ArchListFile && ConfigFile != LocalPathFile
    ensures VersionFile != SoNameFile && VersionFile != SourceTypeFile && VersionFile != ArchModeFile
    ensures VersionFile != ArchListFile && VersionFile != LocalPathFile
    ensures SoNameFile != SourceTypeFile && SoNameFile != ArchModeFile && SoNameFile != ArchListFile
    ensures SoNameFile != LocalPathFile
    ensures SourceTypeFile != ArchModeFile && SourceTypeFile != ArchListFile && SourceTypeFile != LocalPathFile
    ensures ArchModeFile != ArchListFile && ArchModeFile != LocalPathFile
    ensures ArchListFile != LocalPathFile
  {
    assert ConfigFile[7] == 'c' && VersionFile[7] == 'v' && SoNameFile[7] == 's' && SourceTypeFile[7] == 's';
    assert ArchModeFile[7] == 'a' && ArchListFile[7] == 'a' && LocalPathFile[7] == 'l';
    assert SoNameFile[9] != SourceTypeFile[9] && ArchModeFile[12] != ArchListFile[12];
  }

  /** The library file name used when none is given. */
  const DefaultSoName: string := "libfrida-gadget.so"

  /** The four Android ABIs the app knows, in the order it lists them. */
  const AllArchitectures: seq<string> := ["arm64-v8a", "armeabi-v7a", "x86", "x86_64"]

  /** `File(cacheDir, name).let { if (it.exists()) it.readText() else default }`. */
  function ReadOr(store: Store, name: string, default: string): string {
    if name in store then store[name] else default
  }
}
