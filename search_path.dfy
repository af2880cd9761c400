/**
 * Plugin discovery: `getAllFilesWithExt` lists the regular files with a given
 * extension in a list of directories, and `findPlugin` finds the file that
 * holds a named plugin.
 *
 * The filesystem is given as data: each existing directory maps to its
 * entries, in the order the directory iterator yields them; a directory that
 * is not in the map does not exist. Paths use `/` as their only separator, and
 * their parts follow the rules of `boost::filesystem` version 3.
 */
module SearchPath {
  import opened Wrappers

  /** A directory entry: its full path and whether it is a regular file. */
  datatype DirEntry = DirEntry(path: string, isRegularFile: bool)

  type FileSystem = map<string, seq<DirEntry>>

  // ----- Path parts -----

  /** The position of the last `c` in `s`, or -1 when there is none. */
  function LastIndexOf(s: string, c: char): (i: int)
    ensures -1 <= i < |s|
  {
    if s == [] then -1
    else if s[|s| - 1] == c then |s| - 1
    else LastIndexOf(s[..|s| - 1], c)
  }

  /** `LastIndexOf` finds a `c`, and no `c` comes after it. */
  lemma {:induction false} LastIndexOfIsLast(s: string, c: char)
    ensures var i := LastIndexOf(s, c);
      && (i >= 0 ==> s[i] == c)
      && forall k :: i < k < |s| ==> s[k] != c
  {
    if s != [] && s[|s| - 1] != c {
      LastIndexOfIsLast(s[..|s| - 1], c);
    }
  }

  /** `filename()`: what follows the last separator. */
  function Filename(p: string): (f: string)
    ensures |f| <= |p|
    ensures '/' !in f
  {
    LastIndexOfIsLast(p, '/');
    var f := p[LastIndexOf(p, '/') + 1..];
    assert forall k :: 0 <= k < |f| ==> f[k] == p[LastIndexOf(p, '/') + 1 + k];
    f
  }

  /** The file name is `.` or `..`. */
  predicate IsDots(f: string) {
    1 <= |f| <= 2 && f[0] == '.' && f[|f| - 1] == '.'
  }

  lemma IsDotsExactly(f: string)
    ensures IsDots(f) <==> f == "." || f == ".."
  {
    if |f| == 2 && IsDots(f) {
      assert f == [f[0], f[1]];
    }
  }

  /** `extension()`: from the last dot of the file name on; empty for `.`, `..` and names without a dot. */
  function Extension(p: string): (e: string)
    ensures e != "" ==> e[0] == '.'
  {
    var f := Filename(p);
    var i := LastIndexOf(f, '.');
    LastIndexOfIsLast(f, '.');
    if IsDots(f) || i < 0 then "" else f[i..]
  }

  /** `stem()`: the file name without its extension. */
  function Stem(p: string): (s: string)
    ensures |s| <= |Filename(p)|
  {
    var f := Filename(p);
    var i := LastIndexOf(f, '.');
    if IsDots(f) || i < 0 then f else f[..i]
  }

  /** The stem and the extension split the file name, and an extension is a dot and what follows the last dot. */
  lemma StemAndExtension(p: string)
    ensures Stem(p) + Extension(p) == Filename(p)
    ensures Extension(p) != "" ==> Extension(p)[0] == '.' && '.' !in Extension(p)[1..]
  {
    var f := Filename(p);
    var i := LastIndexOf(f, '.');
    LastIndexOfIsLast(f, '.');
    if IsDots(f) || i < 0 {
      assert Stem(p) == f && Extension(p) == "";
    } else {
      var e := f[i..];
      assert Stem(p) == f[..i] && Extension(p) == e;
      assert f[..i] + e == f;
      forall k | 0 <= k < |e[1..]|
        ensures e[1..][k] != '.'
      {
        assert e[1..][k] == f[i + 1 + k];
      }
    }
  }

  // ----- The directory listing -----

  /** The entries of `dir`, none when it does not exist. */
  function Entries(fs: FileSystem, dir: string): seq<DirEntry> {
    if dir in fs then fs[dir] else []
  }

  /** Every entry of every existing directory, in search-path order, then directory order. */
  function Listing(fs: FileSystem, dirs: seq<string>): (l: seq<DirEntry>)
    ensures dirs != [] ==> Entries(fs, dirs[0]) <= l
  {
    if dirs == [] then [] else Entries(fs, dirs[0]) + Listing(fs, dirs[1..])
  }

  lemma {:induction false} ListingAppend(fs: FileSystem, a: seq<string>, b: seq<string>)
    ensures Listing(fs, a + b) == Listing(fs, a) + Listing(fs, b)
  {
    if a == [] {
      assert a + b == b;
    } else {
      assert (a + b)[1..] == a[1..] + b;
      ListingAppend(fs, a[1..], b);
    }
  }

  /** Searching one more directory lists its entries after the earlier ones. */
  lemma ListingNext(fs: FileSystem, dirs: seq<string>, i: nat)
    requires i < |dirs|
    ensures Listing(fs, dirs[..i + 1]) == Listing(fs, dirs[..i]) + Entries(fs, dirs[i])
  {
    assert dirs[..i + 1] == dirs[..i] + [dirs[i]];
    ListingAppend(fs, dirs[..i], [dirs[i]]);
    assert [dirs[i]][1..] == [];
    assert Listing(fs, [dirs[i]]) == Entries(fs, dirs[i]) + [];
    assert Entries(fs, dirs[i]) + [] == Entries(fs, dirs[i]);
  }

  /** An entry is listed exactly when it is in one of the directories searched that exists. */
  lemma {:induction false} ListingMembers(fs: FileSystem, dirs: seq<string>, e: DirEntry)
    ensures e in Listing(fs, dirs) <==> exists d :: d in dirs && d in fs && e in fs[d]
  {
    if dirs != [] {
      ListingMembers(fs, dirs[1..], e);
      if e in Listing(fs, dirs[1..]) {
        var d :| d in dirs[1..] && d in fs && e in fs[d];
        assert d in dirs;
      }
      if exists d :: d in dirs && d in fs && e in fs[d] {
        var d :| d in dirs && d in fs && e in fs[d];
        if d != dirs[0] {
          assert d in dirs[1..];
        }
      }
    }
  }

  // ----- getAllFilesWithExt -----

  /** What `getAllFilesWithExt` keeps: regular files with the extension. */
  predicate HasExtension(e: DirEntry, ext: string)
    ensures HasExtension(e, ext) ==> e.isRegularFile && (ext != "" ==> ext[0] == '.' && '.' !in ext[1..])
  {
    StemAndExtension(e.path);
    e.isRegularFile && Extension(e.path) == ext
  }

  function ExtensionFilter(ext: string): DirEntry -> bool {
    e => HasExtension(e, ext)
  }

  /** The paths of the entries that `keep` holds for, in order. */
  function Paths(entries: seq<DirEntry>, keep: DirEntry -> bool): (r: seq<string>)
    ensures |r| <= |entries|
  {
    if entries == [] then []
    else (if keep(entries[0]) then [entries[0].path] else []) + Paths(entries[1..], keep)
  }

  lemma {:induction false} PathsAppend(a: seq<DirEntry>, b: seq<DirEntry>, keep: DirEntry -> bool)
    ensures Paths(a + b, keep) == Paths(a, keep) + Paths(b, keep)
  {
    if a == [] {
      assert a + b == b;
    } else {
      var head := if keep(a[0]) then [a[0].path] else [];
      assert (a + b)[0] == a[0] && (a + b)[1..] == a[1..] + b;
      assert Paths(a + b, keep) == head + Paths(a[1..] + b, keep);
      PathsAppend(a[1..], b, keep);
      assert Paths(a, keep) == head + Paths(a[1..], keep);
    }
  }

  /** A path is in the result exactly when a kept entry has it. */
  lemma {:induction false} PathsMembers(entries: seq<DirEntry>, keep: DirEntry -> bool, p: string)
    ensures p in Paths(entries, keep) <==> exists e :: e in entries && keep(e) && e.path == p
  {
    if entries != [] {
      PathsMembers(entries[1..], keep, p);
      if exists e :: e in entries && keep(e) && e.path == p {
        var e :| e in entries && keep(e) && e.path == p;
        if e != entries[0] {
          assert e in entries[1..];
        }
      }
    }
  }

  /** The result of `getAllFilesWithExt`. */
  function AllFilesWithExt(fs: FileSystem, dirs: seq<string>, ext: string): (r: seq<string>)
    ensures |r| <= |Listing(fs, dirs)|
  {
    Paths(Listing(fs, dirs), ExtensionFilter(ext))
  }

  /**
   * A path is returned exactly when a regular file with the extension has it
   * in one of the directories searched that exists.
   */
  lemma AllFilesWithExtMembers(fs: FileSystem, dirs: seq<string>, ext: string, p: string)
    ensures p in AllFilesWithExt(fs, dirs, ext)
      <==> exists d, e :: d in dirs && d in fs && e in fs[d] && HasExtension(e, ext) && e.path == p
  {
    PathsMembers(Listing(fs, dirs), ExtensionFilter(ext), p);
    if p in AllFilesWithExt(fs, dirs, ext) {
      var e :| e in Listing(fs, dirs) && HasExtension(e, ext) && e.path == p;
      ListingMembers(fs, dirs, e);
    }
    if exists d, e :: d in dirs && d in fs && e in fs[d] && HasExtension(e, ext) && e.path == p {
      var d, e :| d in dirs && d in fs && e in fs[d] && HasExtension(e, ext) && e.path == p;
      ListingMembers(fs, dirs, e);
    }
  }

  /** Searching more directories only adds results after the earlier ones. */
  lemma AllFilesWithExtPrefix(fs: FileSystem, dirs: seq<string>, k: nat, ext: string)
    requires k <= |dirs|
    ensures AllFilesWithExt(fs, dirs[..k], ext) <= AllFilesWithExt(fs, dirs, ext)
  {
    assert dirs == dirs[..k] + dirs[k..];
    ListingAppend(fs, dirs[..k], dirs[k..]);
    PathsAppend(Listing(fs, dirs[..k]), Listing(fs, dirs[k..]), ExtensionFilter(ext));
  }

  /** One more directory adds its kept entries after the earlier results. */
  lemma AllFilesNext(fs: FileSystem, dirs: seq<string>, i: nat, ext: string)
    requires i < |dirs|
    ensures AllFilesWithExt(fs, dirs[..i + 1], ext) == AllFilesWithExt(fs, dirs[..i], ext) + Paths(Entries(fs, dirs[i]), ExtensionFilter(ext))
  {
    ListingNext(fs, dirs, i);
    PathsAppend(Listing(fs, dirs[..i]), Entries(fs, dirs[i]), ExtensionFilter(ext));
  }

  /** One more entry adds its path exactly when it is a regular file with the extension. */
  lemma PathsNext(entries: seq<DirEntry>, j: nat, ext: string)
    requires j < |entries|
    ensures Paths(entries[..j + 1], ExtensionFilter(ext)) == Paths(entries[..j], ExtensionFilter(ext))
      + if entries[j].isRegularFile && Extension(entries[j].path) == ext then [entries[j].path] else []
  {
    assert entries[..j + 1] == entries[..j] + [entries[j]];
    PathsAppend(entries[..j], [entries[j]], ExtensionFilter(ext));
  }

  /** `getAllFilesWithExt`: skips directories that do not exist, keeps regular files with the extension. */
  method GetAllFilesWithExt(fs: FileSystem, dirs: seq<string>, ext: string) returns (files: seq<string>)
    ensures files == AllFilesWithExt(fs, dirs, ext)
  {
    files := [];
    for i := 0 to |dirs|
      invariant files == AllFilesWithExt(fs, dirs[..i], ext)
    {
      AllFilesNext(fs, dirs, i, ext);
      if dirs[i] !in fs {
        continue;
      }
      var entries := fs[dirs[i]];
      ghost var before := files;
      for j := 0 to |entries|
        invariant files == before + Paths(entries[..j], ExtensionFilter(ext))
      {
        PathsNext(entries, j, ext);
        if !entries[j].isRegularFile || Extension(entries[j].path) != ext {
          continue;
        }
        files := files + [entries[j].path];
      }
      assert entries[..|entries|] == entries;
    }
    assert dirs[..|dirs|] == dirs;
  }

  // ----- findPlugin -----

  /**
   * An entry `findPlugin` accepts for `name`: a regular file with the plugin
   * extension whose stem is the name, or the name with the manual-load suffix.
   */
  predicate IsPlugin(e: DirEntry, name: string, pluginExt: string, ignoreSuffix: string)
    ensures IsPlugin(e, name, pluginExt, ignoreSuffix) ==>
      && HasExtension(e, pluginExt)
      && (Filename(e.path) == name + pluginExt || Filename(e.path) == name + ignoreSuffix + pluginExt)
  {
    StemAndExtension(e.path);
    && e.isRegularFile
    && Extension(e.path) == pluginExt
    && (Stem(e.path) == name || Stem(e.path) == name + ignoreSuffix)
  }

  function PluginFilter(name: string, pluginExt: string, ignoreSuffix: string): DirEntry -> bool {
    e => IsPlugin(e, name, pluginExt, ignoreSuffix)
  }

  /** The path of the first entry that `accepts` holds for. */
  function FirstMatch(entries: seq<DirEntry>, accepts: DirEntry -> bool): Option<string> {
    if entries == [] then None
    else if accepts(entries[0]) then Some(entries[0].path)
    else FirstMatch(entries[1..], accepts)
  }

  lemma {:induction false} FirstMatchAppend(a: seq<DirEntry>, b: seq<DirEntry>, accepts: DirEntry -> bool)
    ensures FirstMatch(a + b, accepts) == if FirstMatch(a, accepts).Some? then FirstMatch(a, accepts) else FirstMatch(b, accepts)
  {
    if a == [] {
      assert a + b == b;
    } else {
      assert (a + b)[1..] == a[1..] + b;
      FirstMatchAppend(a[1..], b, accepts);
    }
  }

  /**
   * `FirstMatch` finds the first accepted entry, if there is one, and finds
   * nothing only when no entry is accepted.
   */
  lemma {:induction false} FirstMatchIsFirst(entries: seq<DirEntry>, accepts: DirEntry -> bool)
    ensures FirstMatch(entries, accepts).None? <==> forall i :: 0 <= i < |entries| ==> !accepts(entries[i])
    ensures FirstMatch(entries, accepts).Some? ==>
      exists i :: 0 <= i < |entries| && accepts(entries[i]) && entries[i].path == FirstMatch(entries, accepts).value
        && forall j :: 0 <= j < i ==> !accepts(entries[j])
  {
    if entries != [] && !accepts(entries[0]) {
      var rest := entries[1..];
      FirstMatchIsFirst(rest, accepts);
      assert forall i :: 0 < i < |entries| ==> entries[i] == rest[i - 1];
      if FirstMatch(rest, accepts).Some? {
        var i :| 0 <= i < |rest| && accepts(rest[i]) && rest[i].path == FirstMatch(rest, accepts).value
          && forall j :: 0 <= j < i ==> !accepts(rest[j]);
        assert entries[i + 1] == rest[i];
      }
    }
  }

  /** The result of `findPlugin`: the first accepted entry's path, or the empty string. */
  function FindPluginResult(fs: FileSystem, searchPaths: seq<string>, name: string, pluginExt: string, ignoreSuffix: string): (found: string)
    ensures found != "" ==>
      exists d, e :: d in searchPaths && d in fs && e in fs[d] && IsPlugin(e, name, pluginExt, ignoreSuffix) && e.path == found
  {
    FirstMatchListed(fs, searchPaths, PluginFilter(name, pluginExt, ignoreSuffix));
    match FirstMatch(Listing(fs, searchPaths), PluginFilter(name, pluginExt, ignoreSuffix))
    case None => ""
    case Some(p) => p
  }

  /**
   * `findPlugin`: the first entry, in search-path order and then directory
   * order, that is a regular file with the plugin extension and the right
   * stem; the empty string when there is none. Search paths that do not
   * exist are skipped.
   */
  method FindPlugin(fs: FileSystem, searchPaths: seq<string>, name: string, pluginExt: string, ignoreSuffix: string) returns (found: string)
    ensures found == FindPluginResult(fs, searchPaths, name, pluginExt, ignoreSuffix)
  {
    ghost var accepts := PluginFilter(name, pluginExt, ignoreSuffix);
    for i := 0 to |searchPaths|
      invariant FirstMatch(Listing(fs, searchPaths[..i]), accepts).None?
    {
      FirstMatchNextDir(fs, searchPaths, i, accepts);
      if searchPaths[i] !in fs {
        continue;
      }
      var entries := fs[searchPaths[i]];
      for j := 0 to |entries|
        invariant FirstMatch(entries[..j], accepts).None?
      {
        FirstMatchNext(entries, j, accepts);
        if !entries[j].isRegularFile {
          continue;
        }
        if Extension(entries[j].path) != pluginExt {
          continue;
        }
        var baseName := Stem(entries[j].path);
        if baseName == name || baseName == name + ignoreSuffix {
          FoundAt(fs, searchPaths, i, j, accepts);
          return entries[j].path;
        }
      }
      assert entries[..|entries|] == entries;
    }
    assert searchPaths[..|searchPaths|] == searchPaths;
    found := "";
  }

  /** Searching one more directory finds its first accepted entry when the earlier ones had none. */
  lemma FirstMatchNextDir(fs: FileSystem, dirs: seq<string>, i: nat, accepts: DirEntry -> bool)
    requires i < |dirs|
    ensures FirstMatch(Listing(fs, dirs[..i + 1]), accepts)
      == if FirstMatch(Listing(fs, dirs[..i]), accepts).Some? then FirstMatch(Listing(fs, dirs[..i]), accepts) else FirstMatch(Entries(fs, dirs[i]), accepts)
  {
    ListingNext(fs, dirs, i);
    FirstMatchAppend(Listing(fs, dirs[..i]), Entries(fs, dirs[i]), accepts);
  }

  /** Past a prefix with no accepted entry, one more entry is found exactly when it is accepted. */
  lemma FirstMatchNext(entries: seq<DirEntry>, j: nat, accepts: DirEntry -> bool)
    requires j < |entries| && FirstMatch(entries[..j], accepts).None?
    ensures FirstMatch(entries[..j + 1], accepts) == if accepts(entries[j]) then Some(entries[j].path) else None
  {
    assert entries[..j + 1] == entries[..j] + [entries[j]];
    FirstMatchAppend(entries[..j], [entries[j]], accepts);
  }

  /**
   * When nothing is accepted in the directories before `i`, nor before entry
   * `j` of directory `i`, and entry `j` is accepted, it is what the search
   * finds.
   */
  lemma FoundAt(fs: FileSystem, searchPaths: seq<string>, i: nat, j: nat, accepts: DirEntry -> bool)
    requires i < |searchPaths| && searchPaths[i] in fs && j < |fs[searchPaths[i]]|
    requires FirstMatch(Listing(fs, searchPaths[..i]), accepts).None?
    requires FirstMatch(fs[searchPaths[i]][..j], accepts).None?
    requires accepts(fs[searchPaths[i]][j])
    ensures FirstMatch(Listing(fs, searchPaths), accepts) == Some(fs[searchPaths[i]][j].path)
  {
    var entries := fs[searchPaths[i]];
    var pre, tail := searchPaths[..i], searchPaths[i..];
    assert searchPaths == pre + tail;
    ListingAppend(fs, pre, tail);
    assert tail[0] == searchPaths[i] && tail[1..] == searchPaths[i + 1..];
    var rest := Listing(fs, searchPaths[i + 1..]);
    assert Listing(fs, tail) == entries + rest;
    FirstMatchAppend(Listing(fs, pre), entries + rest, accepts);
    FirstMatchAppend(entries, rest, accepts);
    FirstMatchAtIndex(entries, j, accepts);
  }

  /** An accepted entry with nothing accepted before it is what the search finds. */
  lemma FirstMatchAtIndex(entries: seq<DirEntry>, j: nat, accepts: DirEntry -> bool)
    requires j < |entries| && accepts(entries[j])
    requires FirstMatch(entries[..j], accepts).None?
    ensures FirstMatch(entries, accepts) == Some(entries[j].path)
  {
    var after := entries[j..];
    assert entries == entries[..j] + after;
    FirstMatchAppend(entries[..j], after, accepts);
    assert after[0] == entries[j];
    assert FirstMatch(after, accepts) == Some(entries[j].path);
  }

  /**
   * What the search finds belongs to an accepted entry of an existing
   * directory, and no entry listed before it is accepted.
   */
  lemma FirstMatchListed(fs: FileSystem, dirs: seq<string>, accepts: DirEntry -> bool)
    ensures var listing := Listing(fs, dirs);
      FirstMatch(listing, accepts).Some? ==>
        exists k :: 0 <= k < |listing| && accepts(listing[k]) && listing[k].path == FirstMatch(listing, accepts).value
          && (exists d :: d in dirs && d in fs && listing[k] in fs[d])
          && forall j :: 0 <= j < k ==> !accepts(listing[j])
  {
    var listing := Listing(fs, dirs);
    FirstMatchIsFirst(listing, accepts);
    if FirstMatch(listing, accepts).Some? {
      var k :| 0 <= k < |listing| && accepts(listing[k]) && listing[k].path == FirstMatch(listing, accepts).value
        && forall j :: 0 <= j < k ==> !accepts(listing[j]);
      ListingMembers(fs, dirs, listing[k]);
    }
  }

  /**
   * A path `findPlugin` returns is that of a regular file with the plugin
   * extension and the right stem in an existing search path, and no entry
   * listed before it is one.
   */
  lemma FindPluginReturnsFirstPlugin(fs: FileSystem, searchPaths: seq<string>, name: string, pluginExt: string, ignoreSuffix: string)
    ensures var found := FindPluginResult(fs, searchPaths, name, pluginExt, ignoreSuffix);
      var listing := Listing(fs, searchPaths);
      found != "" ==>
        exists k :: 0 <= k < |listing| && IsPlugin(listing[k], name, pluginExt, ignoreSuffix) && listing[k].path == found
          && (exists d :: d in searchPaths && d in fs && listing[k] in fs[d])
          && forall j :: 0 <= j < k ==> !IsPlugin(listing[j], name, pluginExt, ignoreSuffix)
  {
    FirstMatchListed(fs, searchPaths, PluginFilter(name, pluginExt, ignoreSuffix));
  }

  /** `findPlugin` returns the empty string exactly when no listed entry is accepted, given that no entry's path is empty. */
  lemma FindPluginEmptyIffNone(fs: FileSystem, searchPaths: seq<string>, name: string, pluginExt: string, ignoreSuffix: string)
    requires forall e :: e in Listing(fs, searchPaths) ==> e.path != ""
    ensures FindPluginResult(fs, searchPaths, name, pluginExt, ignoreSuffix) == ""
      <==> forall e :: e in Listing(fs, searchPaths) ==> !IsPlugin(e, name, pluginExt, ignoreSuffix)
  {
    var listing := Listing(fs, searchPaths);
    FirstMatchIsFirst(listing, PluginFilter(name, pluginExt, ignoreSuffix));
    if FirstMatch(listing, PluginFilter(name, pluginExt, ignoreSuffix)).Some? {
      var i :| 0 <= i < |listing| && IsPlugin(listing[i], name, pluginExt, ignoreSuffix)
        && listing[i].path == FirstMatch(listing, PluginFilter(name, pluginExt, ignoreSuffix)).value;
      assert listing[i] in listing;
    } else {
      forall e | e in listing
        ensures !IsPlugin(e, name, pluginExt, ignoreSuffix)
      {
        var k :| 0 <= k < |listing| && listing[k] == e;
      }
    }
  }
}
