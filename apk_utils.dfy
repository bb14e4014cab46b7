/** `ApkUtils`: unpacking an APK into a directory tree, repacking a tree
    into an archive with per-entry compression rules, and reading the
    application and first activity class names out of the manifest. */
module ApkUtils {
  import opened Base
  import opened KotlinText
  import opened Crc32

  // ------------------------------------------------------ directory trees

  /** A directory tree under some root: the directories and the regular
      files it holds, both named by their path relative to the root. */
  datatype Tree = Tree(dirs: set<string>, files: map<string, seq<byte>>)

  /** One entry of an archive, as `ZipFile` reads it back. */
  datatype ArchiveItem = ArchiveItem(name: string, data: seq<byte>)

  /** `ZipEntry.isDirectory`: the name ends with a slash. */
  predicate IsDirectoryName(name: string) {
    EndsWith(name, "/")
  }

  /** The directories strictly above the last path segment of `name`:
      every prefix that ends just before a `/`. */
  function Parents(name: string): set<string> {
    set i | 0 < i < |name| && name[i] == '/' :: name[..i]
  }

  /** The directories `mkdirs` creates for an item: its parents, and the
      item itself when it is a directory entry. */
  function ItemDirs(item: ArchiveItem): set<string> {
    if IsDirectoryName(item.name) then Parents(item.name) + {RemoveSuffix(item.name, "/")}
    else Parents(item.name)
  }

  /** The tree after one entry is extracted: a directory entry creates its
      directory, a file entry creates its parent and writes its content. */
  function ExtractItem(t: Tree, item: ArchiveItem): (r: Tree)
    ensures r.dirs == t.dirs + ItemDirs(item)
    ensures IsDirectoryName(item.name) ==> r.files == t.files
    ensures !IsDirectoryName(item.name) ==> r.files == t.files[item.name := item.data]
  {
    if IsDirectoryName(item.name) then t.(dirs := t.dirs + ItemDirs(item))
    else t.(dirs := t.dirs + ItemDirs(item), files := t.files[item.name := item.data])
  }

  /** The tree after the entries are extracted one after the other. */
  function Extracted(t: Tree, items: seq<ArchiveItem>): Tree
    decreases |items|
  {
    if |items| == 0 then t else ExtractItem(Extracted(t, items[..|items| - 1]), items[|items| - 1])
  }

  /** The index of the last file entry named `name`, or -1. */
  function LastWrite(items: seq<ArchiveItem>, name: string): (k: int)
    ensures -1 <= k < |items|
    ensures k >= 0 ==> items[k].name == name && !IsDirectoryName(name)
    ensures forall j :: k < j < |items| ==> items[j].name != name || IsDirectoryName(name)
    decreases |items|
  {
    if |items| == 0 then -1
    else if items[|items| - 1].name == name && !IsDirectoryName(name) then |items| - 1
    else LastWrite(items[..|items| - 1], name)
  }

  /** After extraction a file holds the content of the last entry that
      wrote it; a file no entry wrote is as it was. */
  lemma {:induction false} ExtractedFile(t: Tree, items: seq<ArchiveItem>, name: string)
    ensures var out := Extracted(t, items).files;
      var k := LastWrite(items, name);
      && (k >= 0 ==> name in out && out[name] == items[k].data)
      && (k == -1 ==> (name in out <==> name in t.files) && (name in out ==> out[name] == t.files[name]))
    decreases |items|
  {
    if |items| > 0 {
      ExtractedFile(t, items[..|items| - 1], name);
    }
  }

  /** The union of `f` over the elements of `xs`. */
  function Union<T>(xs: seq<T>, f: T -> set<string>): set<string>
    decreases |xs|
  {
    if |xs| == 0 then {} else Union(xs[..|xs| - 1], f) + f(xs[|xs| - 1])
  }

  lemma {:induction false} UnionMembers<T>(xs: seq<T>, f: T -> set<string>, d: string)
    ensures d in Union(xs, f) <==> exists i :: 0 <= i < |xs| && d in f(xs[i])
    decreases |xs|
  {
    if |xs| > 0 {
      var init := xs[..|xs| - 1];
      UnionMembers(init, f, d);
      if d in Union(xs, f) && d !in f(xs[|xs| - 1]) {
        var i :| 0 <= i < |init| && d in f(init[i]);
        assert xs[i] == init[i];
      }
      if exists i :: 0 <= i < |xs| && d in f(xs[i]) {
        var i :| 0 <= i < |xs| && d in f(xs[i]);
        if i < |init| {
          assert init[i] == xs[i];
        }
      }
    }
  }

  /** Extraction keeps every directory of the destination, creates every
      directory an entry asks for, and no other. */
  lemma {:induction false} ExtractedDirs(t: Tree, items: seq<ArchiveItem>)
    ensures Extracted(t, items).dirs == t.dirs + Union(items, ItemDirs)
    ensures forall d :: d in Extracted(t, items).dirs <==>
      d in t.dirs || exists i :: 0 <= i < |items| && d in ItemDirs(items[i])
    decreases |items|
  {
    if |items| > 0 {
      ExtractedDirs(t, items[..|items| - 1]);
    }
    forall d {
      UnionMembers(items, ItemDirs, d);
    }
  }

  // --------------------------------------------------------------- progress

  /** A call of the progress listener: a running count, or the final call. */
  datatype Progress = Reported(count: nat, total: nat) | Complete

  /** The counts reported after `count` entries: one report whenever the
      counter reaches a multiple of 100. */
  function ReportsUpTo(count: nat, total: nat): seq<Progress>
    decreases count
  {
    if count == 0 then []
    else ReportsUpTo(count - 1, total) + (if count % 100 == 0 then [Reported(count, total)] else [])
  }

  /** After `count` entries the listener has seen `count / 100` reports,
      the k-th (from 0) for the count `100 * (k + 1)`. */
  lemma {:induction false} ReportsUpToShape(count: nat, total: nat)
    ensures |ReportsUpTo(count, total)| == count / 100
    ensures forall k :: 0 <= k < count / 100 ==> ReportsUpTo(count, total)[k] == Reported(100 * (k + 1), total)
    decreases count
  {
    if count > 0 {
      ReportsUpToShape(count - 1, total);
    }
  }

  /** Every call of the listener during unpacking or repacking of `total`
      entries: `total / 100` counts, each a positive multiple of 100 up to
      `total`, in increasing order, then the final call. */
  lemma AllReports(total: nat)
    ensures var r := ReportsUpTo(total, total) + [Complete];
      && |r| == total / 100 + 1
      && r[|r| - 1] == Complete
      && (forall k :: 0 <= k < |r| - 1 ==>
            r[k].Reported? && r[k].count % 100 == 0 && 0 < r[k].count <= total && r[k].total == total)
      && (forall k, l :: 0 <= k < l < |r| - 1 ==> r[k].count < r[l].count)
  {
    ReportsUpToShape(total, total);
  }

  /** The text of a progress call of `unzip` (`unpacking`) or `zip`: the
      operation's verb, then the count report or the completion. */
  function ProgressMessage(unpacking: bool, p: Progress): string {
    (if unpacking then "Unpacking" else "Repacking") + ProgressDetail(p)
  }

  /** What follows the verb. */
  function ProgressDetail(p: Progress): string {
    match p
    case Reported(count, total) => "... " + ProgressCounts(count, total)
    case Complete => " complete"
  }

  /** `$count / $total`. */
  function ProgressCounts(count: int, total: int): string {
    IntToString(count) + " / " + IntToString(total)
  }

  /** Messages with different verbs differ at their first character. */
  lemma VerbsDiffer(a: string, b: string)
    ensures "Unpacking" + a != "Repacking" + b
  {
    assert ("Unpacking" + a)[0] == 'U';
  }

  /** After a nine-letter verb, a count report has `.` where completion has a space. */
  lemma DetailsDiffer(verb: string, counts: string)
    requires |verb| == 9
    ensures verb + ("... " + counts) != verb + " complete"
  {
    assert (verb + ("... " + counts))[9] == '.';
    assert (verb + " complete")[9] == ' ';
  }

  /** The log tells the two operations apart, and a count report from the
      completion message. */
  lemma ProgressMessagesDiffer(unpacking: bool, p: Progress, q: Progress)
    ensures ProgressMessage(true, p) != ProgressMessage(false, q)
    ensures p.Reported? ==> ProgressMessage(unpacking, p) != ProgressMessage(unpacking, Complete)
  {
    var verb := if unpacking then "Unpacking" else "Repacking";
    assert ProgressMessage(true, p) == "Unpacking" + ProgressDetail(p);
    assert ProgressMessage(false, q) == "Repacking" + ProgressDetail(q);
    VerbsDiffer(ProgressDetail(p), ProgressDetail(q));
    if p.Reported? {
      var counts := ProgressCounts(p.count, p.total);
      assert ProgressMessage(unpacking, p) == verb + ("... " + counts);
      assert ProgressMessage(unpacking, Complete) == verb + " complete";
      DetailsDiffer(verb, counts);
    }
  }

  // ------------------------------------------------------------------ unzip

  /** `unzip`: every entry of the archive, in the archive's order, is
      extracted into `dest`, and progress is reported every 100 entries
      and once at the end. */
  method Unzip(items: seq<ArchiveItem>, dest: Tree) returns (out: Tree, reports: seq<Progress>)
    ensures out == Extracted(dest, items)
    ensures reports == ReportsUpTo(|items|, |items|) + [Complete]
  {
    out := dest;
    reports := [];
    var count := 0;
    var total := |items|;
    while count < |items|
      invariant count <= |items|
      invariant out == Extracted(dest, items[..count])
      invariant reports == ReportsUpTo(count, total)
    {
      var entry := items[count];
      assert items[..count + 1][..count] == items[..count];
      if IsDirectoryName(entry.name) {
        out := out.(dirs := out.dirs + ItemDirs(entry));
      } else {
        out := out.(dirs := out.dirs + Parents(entry.name));
        out := out.(files := out.files[entry.name := entry.data]);
      }
      count := count + 1;
      if count % 100 == 0 {
        reports := reports + [Reported(count, total)];
      }
    }
    assert items[..count] == items;
    reports := reports + [Complete];
  }

  // -------------------------------------------------------------------- zip

  /** Compression methods of section 4.4.5 of PKWARE's APPNOTE.TXT, and the
      value of a `ZipEntry` field that has not been set. */
  const Stored: int := 0
  const Deflated: int := 8
  const Unset: int := -1

  /** An entry as `zip` hands it to `putNextEntry`, followed by its content. */
  datatype Entry = Entry(name: string, compression: int, size: int, compressedSize: int, crc: int, data: seq<byte>)

  /** The method the stream writes the entry with: an entry whose method is
      unset gets the stream's default, DEFLATED. */
  function EffectiveMethod(e: Entry): int {
    if e.compression == Unset then Deflated else e.compression
  }

  /** Names whose content is stored without compression. */
  predicate IsStoredName(name: string) {
    name == "resources.arsc" || EndsWith(name, ".png") || EndsWith(name, ".jpg")
  }

  /** The entry name of a file: its relative path with every backslash
      turned into a slash. */
  function EntryName(path: string): (r: string)
    ensures |r| == |path| && '\\' !in r
  {
    ReplaceChar(path, '\\', '/')
  }

  function EntryNames(walk: seq<string>): (r: seq<string>)
    ensures |r| == |walk| && forall i :: 0 <= i < |walk| ==> r[i] == EntryName(walk[i])
  {
    seq(|walk|, i requires 0 <= i < |walk| => EntryName(walk[i]))
  }

  /** The entry `zip` writes for a file with entry name `name` and content `data`. */
  function EntryFor(name: string, data: seq<byte>): Entry {
    if IsStoredName(name) then Entry(name, Stored, |data|, |data|, Checksum(data) as int, data)
    else Entry(name, Unset, Unset, Unset, Unset, data)
  }

  /** The metadata rules of a repacked entry: STORED exactly for the
      uncompressed names, with both sizes equal to the file length and the
      CRC-32 of the content; every other entry leaves method, sizes and
      CRC unset and is written DEFLATED. */
  lemma EntryRules(name: string, data: seq<byte>)
    ensures var e := EntryFor(name, data);
      && e.name == name && e.data == data
      && (EffectiveMethod(e) == Stored <==> IsStoredName(name))
      && (EffectiveMethod(e) == Deflated <==> !IsStoredName(name))
      && (IsStoredName(name) ==> e.size == |data| && e.compressedSize == |data| && e.crc == Checksum(data) as int)
      && (!IsStoredName(name) ==> e.size == Unset && e.compressedSize == Unset && e.crc == Unset)
  {
  }

  /** `zip`: one entry per regular file of `source`, in the order `walk`
      visits them (`walkTopDown().filter { it.isFile }`). The stream refuses
      a second entry with a name it has already written, which is possible
      only when two paths differ by slash against backslash; the result is
      then `None`. */
  method Zip(source: Tree, walk: seq<string>) returns (result: Option<seq<Entry>>, reports: seq<Progress>)
    requires forall p :: p in walk <==> p in source.files
    requires NoDuplicates(walk)
    ensures result.Some? <==> NoDuplicates(EntryNames(walk))
    ensures result.Some? ==> result.value == Repacked(source, walk)
    ensures result.Some? ==> reports == ReportsUpTo(|walk|, |walk|) + [Complete]
    ensures result.None? ==> Complete !in reports
  {
    ghost var names := EntryNames(walk);
    var total := |walk|;
    var count := 0;
    var written: seq<Entry> := [];
    var seen: set<string> := {};
    reports := [];
    while count < |walk|
      invariant 0 <= count <= |walk|
      invariant |written| == count
      invariant written == Repacked(source, walk)[..count]
      invariant SeenExactly(seen, names, count)
      invariant reports == ReportsUpTo(count, total)
    {
      var file := walk[count];
      var name := EntryName(file);
      var entry := NewEntry(name, source.files[file]);
      assert names[count] == name;
      if name in seen {
        DuplicateName(names, count, seen);
        ReportsHaveNoComplete(count, total);
        return None, reports;
      }
      assert Repacked(source, walk)[..count + 1] == written + [entry];
      FreshName(names, count, seen);
      written := written + [entry];
      seen := seen + {name};
      count := count + 1;
      if count % 100 == 0 {
        reports := reports + [Reported(count, total)];
      }
    }
    assert names[..count] == names;
    assert Repacked(source, walk)[..count] == Repacked(source, walk);
    reports := reports + [Complete];
    return Some(written), reports;
  }

  /** The entries `zip` writes, one per file in the order of `walk`. */
  function Repacked(source: Tree, walk: seq<string>): (r: seq<Entry>)
    requires forall p :: p in walk ==> p in source.files
    ensures |r| == |walk|
    ensures forall i :: 0 <= i < |walk| ==> r[i] == EntryFor(EntryName(walk[i]), source.files[walk[i]])
  {
    seq(|walk|, i requires 0 <= i < |walk| => EntryFor(EntryName(walk[i]), source.files[walk[i]]))
  }

  /** The entry for one file: for the uncompressed names the sizes and the
      CRC-32 read from the file in buffer-sized chunks are filled in. */
  method NewEntry(name: string, content: seq<byte>) returns (entry: Entry)
    ensures entry == EntryFor(name, content)
  {
    entry := Entry(name, Unset, Unset, Unset, Unset, content);
    if name == "resources.arsc" || EndsWith(name, ".png") || EndsWith(name, ".jpg") {
      entry := entry.(compression := Stored);
      entry := entry.(size := |content|);
      entry := entry.(compressedSize := |content|);
      var crc := ChunkedChecksum(content, FullReads(|content|));
      entry := entry.(crc := crc as int);
    }
  }

  /** `seen` holds exactly the first `count` names, and those are distinct. */
  ghost predicate SeenExactly(seen: set<string>, names: seq<string>, count: nat) {
    count <= |names| && (forall x :: x in seen <==> x in names[..count]) && NoDuplicates(names[..count])
  }

  lemma DuplicateName(names: seq<string>, count: nat, seen: set<string>)
    requires SeenExactly(seen, names, count) && count < |names| && names[count] in seen
    ensures !NoDuplicates(names)
  {
    var j :| 0 <= j < count && names[..count][j] == names[count];
    assert names[j] == names[count];
  }

  lemma FreshName(names: seq<string>, count: nat, seen: set<string>)
    requires SeenExactly(seen, names, count) && count < |names| && names[count] !in seen
    ensures SeenExactly(seen + {names[count]}, names, count + 1)
  {
    var next := names[..count + 1];
    assert next == names[..count] + [names[count]];
    forall i, j | 0 <= i < j < |next| ensures next[i] != next[j] {
      if j == count {
        assert next[i] == names[..count][i];
      } else {
        assert next[i] == names[..count][i] && next[j] == names[..count][j];
      }
    }
  }

  lemma {:induction false} ReportsHaveNoComplete(count: nat, total: nat)
    ensures Complete !in ReportsUpTo(count, total)
    decreases count
  {
    if count > 0 {
      ReportsHaveNoComplete(count - 1, total);
    }
  }

  /** What `ZipFile` reads back from the entries: names and contents. */
  function ItemsOf(entries: seq<Entry>): (r: seq<ArchiveItem>)
    ensures |r| == |entries|
    ensures forall i :: 0 <= i < |entries| ==> r[i] == ArchiveItem(entries[i].name, entries[i].data)
  {
    seq(|entries|, i requires 0 <= i < |entries| => ArchiveItem(entries[i].name, entries[i].data))
  }

  /** A path without backslashes is its own entry name. */
  lemma EntryNameOfPlainPath(path: string)
    requires '\\' !in path
    ensures EntryName(path) == path
  {
  }

  /** Repacking a tree and unpacking the archive into an empty directory
      gives back exactly the files of the tree, provided no path holds a
      backslash or ends with a slash. */
  lemma RepackUnpack(source: Tree, walk: seq<string>)
    requires forall p :: p in walk <==> p in source.files
    requires NoDuplicates(walk)
    requires forall p :: p in source.files ==> '\\' !in p && !IsDirectoryName(p)
    ensures Extracted(Tree({}, map[]), ItemsOf(Repacked(source, walk))).files == source.files
  {
    var items := ItemsOf(Repacked(source, walk));
    forall i | 0 <= i < |walk|
      ensures items[i] == ArchiveItem(walk[i], source.files[walk[i]])
    {
      EntryNameOfPlainPath(walk[i]);
      EntryKeeps(walk[i], source.files[walk[i]]);
    }
    UnpackedFiles(items, walk, source.files);
  }

  lemma EntryKeeps(name: string, data: seq<byte>)
    ensures EntryFor(name, data).name == name && EntryFor(name, data).data == data
  {
  }

  /** Unpacking one item per path, with distinct file paths, writes exactly those files. */
  lemma UnpackedFiles(items: seq<ArchiveItem>, walk: seq<string>, files: map<string, seq<byte>>)
    requires forall p :: p in walk <==> p in files
    requires NoDuplicates(walk)
    requires forall p :: p in files ==> !IsDirectoryName(p)
    requires |items| == |walk|
    requires forall i :: 0 <= i < |walk| ==> items[i] == ArchiveItem(walk[i], files[walk[i]])
    ensures Extracted(Tree({}, map[]), items).files == files
  {
    var out := Extracted(Tree({}, map[]), items).files;
    forall name | name in files
      ensures name in out && out[name] == files[name]
    {
      var k :| 0 <= k < |walk| && walk[k] == name;
      ExtractedFile(Tree({}, map[]), items, name);
      var w := LastWrite(items, name);
      assert items[k].name == name;
      assert walk[w] == walk[k];
    }
    forall name | name in out
      ensures name in files
    {
      ExtractedFile(Tree({}, map[]), items, name);
      var w := LastWrite(items, name);
      assert walk[w] == name;
    }
  }

  // ---------------------------------------------------------- findAppConfig

  /** The class names `findAppConfig` reports; `None` stands for `null`. */
  datatype AppConfig = AppConfig(applicationName: Option<string>, mainActivityName: Option<string>)

  const NameAttribute: string := "android:name=\""

  /** The run of characters that are not `"` starting at index `q`. */
  function NonQuoteRun(s: string, q: nat): (r: string)
    requires q <= |s|
    ensures q + |r| <= |s| && r == s[q..q + |r|] && '"' !in r
    ensures q + |r| < |s| ==> s[q + |r|] == '"'
    decreases |s| - q
  {
    if q == |s| || s[q] == '"' then ""
    else
      var rest := NonQuoteRun(s, q + 1);
      assert s[q..q + 1 + |rest|] == [s[q]] + s[q + 1..q + 1 + |rest|];
      [s[q]] + rest
  }

  /** `android:name="([^"]+)"` matches at index `p` with group `v`. */
  predicate ValueAt(s: string, p: nat, v: string) {
    var q := p + |NameAttribute|;
    q + |v| < |s| && s[p..q] == NameAttribute && |v| > 0 && s[q..q + |v|] == v
    && '"' !in v && s[q + |v|] == '"'
  }

  /** The whole pattern `<tag[^>]*android:name="([^"]+)"` matches with the
      tag at `start`, the attribute at `p` and group `v`. */
  predicate MatchAt(s: string, tag: string, start: nat, p: nat, v: string) {
    start + |tag| <= p <= |s| && s[start..start + |tag|] == tag
    && '>' !in s[start + |tag|..p] && ValueAt(s, p, v)
  }

  /** The group of the attribute pattern at `p`, if it matches there. */
  function AttributeAt(s: string, p: nat): (r: Option<string>)
    requires p <= |s|
    ensures r.Some? ==> ValueAt(s, p, r.value)
    ensures forall v :: ValueAt(s, p, v) ==> r == Some(v)
  {
    var q: nat := p + |NameAttribute|;
    if q < |s| && s[p..q] == NameAttribute then
      var v := NonQuoteRun(s, q);
      if |v| > 0 && q + |v| < |s| then
        forall w | ValueAt(s, p, w) ensures w == v {
          RunIsUnique(s, q, w, v);
        }
        Some(v)
      else
        forall w | ValueAt(s, p, w) ensures false {
          RunIsUnique(s, q, w, v);
        }
        None
    else None
  }

  /** Two runs without `"` from `q`, each ended by `"`, are the same. */
  lemma RunIsUnique(s: string, q: nat, w: string, v: string)
    requires q <= |s|
    requires q + |w| < |s| && s[q..q + |w|] == w && '"' !in w && s[q + |w|] == '"'
    requires v == NonQuoteRun(s, q)
    ensures w == v
  {
    forall j | q <= j < q + |w| ensures s[j] != '"' {
      assert w[j - q] == s[j];
    }
    forall j | q <= j < q + |v| ensures s[j] != '"' {
      assert v[j - q] == s[j];
    }
  }

  /** The largest `p` in `lo..hi` where the attribute pattern matches, with its group. */
  function LastAttribute(s: string, lo: nat, hi: nat): (r: Option<(nat, string)>)
    requires lo <= hi <= |s|
    ensures r.Some? ==> lo <= r.value.0 <= hi && ValueAt(s, r.value.0, r.value.1)
    ensures r.Some? ==> forall p, v :: r.value.0 < p <= hi && ValueAt(s, p, v) ==> false
    ensures r.None? ==> forall p, v :: lo <= p <= hi && ValueAt(s, p, v) ==> false
    decreases hi - lo
  {
    match AttributeAt(s, hi)
    case Some(v) => Some((hi, v))
    case None => if lo == hi then None else LastAttribute(s, lo, hi - 1)
  }

  /** The first index at or after `i` holding `>`, or the length of `s`. */
  function TagEnd(s: string, i: nat): (e: nat)
    requires i <= |s|
    ensures i <= e <= |s| && '>' !in s[i..e]
    ensures e < |s| ==> s[e] == '>'
    decreases |s| - i
  {
    if i == |s| || s[i] == '>' then i
    else
      var e := TagEnd(s, i + 1);
      assert s[i..e] == [s[i]] + s[i + 1..e];
      e
  }

  /** A match of the pattern: where the tag starts, where the attribute
      starts and the captured group. */
  datatype Found = Found(start: nat, pos: nat, value: string)

  /** The match at `start` that Java's backtracking matcher reports: `[^>]*`
      is greedy, so the attribute is the last one before the tag's first `>`. */
  function MatchFrom(s: string, tag: string, start: nat): (r: Option<Found>)
    requires start <= |s|
    ensures r.Some? ==> r.value.start == start && MatchAt(s, tag, start, r.value.pos, r.value.value)
    ensures r.Some? ==> forall p, v :: r.value.pos < p && MatchAt(s, tag, start, p, v) ==> false
    ensures r.None? ==> forall p, v :: MatchAt(s, tag, start, p, v) ==> false
  {
    var lo := start + |tag|;
    if lo <= |s| && s[start..lo] == tag then
      var e := TagEnd(s, lo);
      NoCloseBefore(s, lo, e);
      match LastAttribute(s, lo, e)
      case Some((p, v)) => Some(Found(start, p, v))
      case None => None
    else None
  }

  /** Within a tag the pattern can only match before the first `>`. */
  lemma NoCloseBefore(s: string, lo: nat, e: nat)
    requires lo <= e <= |s| && (e < |s| ==> s[e] == '>')
    ensures forall p :: lo <= p <= |s| && '>' !in s[lo..p] ==> p <= e
  {
    forall p | lo <= p <= |s| && '>' !in s[lo..p]
      ensures p <= e
    {
      forall k | lo <= k < p ensures s[k] != '>' {
        assert s[lo..p][k - lo] == s[k];
      }
    }
  }

  /** `Regex(pattern).find(s)` from index `from`: the leftmost start with a match. */
  function Find(s: string, tag: string, from: nat): (r: Option<Found>)
    requires from <= |s|
    ensures r.Some? ==> from <= r.value.start && MatchAt(s, tag, r.value.start, r.value.pos, r.value.value)
    ensures r.Some? ==> forall st, p, v :: from <= st < r.value.start && MatchAt(s, tag, st, p, v) ==> false
    ensures r.Some? ==> forall p, v :: r.value.pos < p && MatchAt(s, tag, r.value.start, p, v) ==> false
    ensures r.None? ==> forall st, p, v :: from <= st && MatchAt(s, tag, st, p, v) ==> false
    decreases |s| - from
  {
    match MatchFrom(s, tag, from)
    case Some(f) => Some(f)
    case None =>
      if from == |s| then
        NoMatchPastEnd(s, tag, from);
        None
      else Find(s, tag, from + 1)
  }

  lemma NoMatchPastEnd(s: string, tag: string, from: nat)
    requires from == |s|
    ensures forall st, p, v :: from < st && MatchAt(s, tag, st, p, v) ==> false
  {
  }

  /** The first captured group of `<tag[^>]*android:name="([^"]+)"` in `s`. */
  function FirstName(s: string, tag: string): Option<string> {
    match Find(s, tag, 0)
    case Some(f) => Some(f.value)
    case None => None
  }

  /** `findAppConfig`: `manifest` is the decoded manifest text, `None` when
      opening the APK or decoding its manifest throws. */
  function FindAppConfig(manifest: Option<string>): (r: AppConfig)
    ensures manifest.None? ==> r == AppConfig(None, None)
  {
    match manifest
    case None => AppConfig(None, None)
    case Some(text) => AppConfig(FirstName(text, "<application"), FirstName(text, "<activity"))
  }

  /** A name is reported exactly when the pattern matches somewhere; it is
      then the group of the match with the leftmost tag, and within that
      tag of the last attribute before the tag's first `>`. */
  lemma FirstNameIsLeftmost(text: string, tag: string)
    ensures FirstName(text, tag).Some? <==> exists st: nat, p: nat, v :: MatchAt(text, tag, st, p, v)
    ensures FirstName(text, tag).Some? ==>
      var f := Find(text, tag, 0).value;
      && FirstName(text, tag).value == f.value
      && MatchAt(text, tag, f.start, f.pos, f.value)
      && (forall st: nat, p: nat, v :: st < f.start && MatchAt(text, tag, st, p, v) ==> false)
      && (forall p: nat, v :: f.pos < p && MatchAt(text, tag, f.start, p, v) ==> false)
  {
    var r := Find(text, tag, 0);
    if r.Some? {
      assert MatchAt(text, tag, r.value.start, r.value.pos, r.value.value);
    }
  }

  /** Both lookups of `findAppConfig` follow that rule; a manifest that
      cannot be read gives two nulls. */
  lemma AppConfigNames(manifest: Option<string>)
    ensures manifest.None? ==> FindAppConfig(manifest) == AppConfig(None, None)
    ensures manifest.Some? ==> FindAppConfig(manifest).applicationName == FirstName(manifest.value, "<application")
    ensures manifest.Some? ==> FindAppConfig(manifest).mainActivityName == FirstName(manifest.value, "<activity")
  {
  }

  /** Paths without backslashes keep their names, so distinct paths give
      distinct entry names and `zip` succeeds. */
  lemma ZipNamesDistinct(walk: seq<string>)
    requires NoDuplicates(walk)
    requires forall i :: 0 <= i < |walk| ==> '\\' !in walk[i]
    ensures EntryNames(walk) == walk
    ensures NoDuplicates(EntryNames(walk))
  {
    forall i | 0 <= i < |walk| ensures EntryNames(walk)[i] == walk[i] {
      EntryNameOfPlainPath(walk[i]);
    }
  }
}
