/** The inventory of a directory tree: every file with its path, size and checksum, ordered by path
    (crates/ketebe-server/src/backup.rs). */
module Inventory {
  import opened Wrappers
  import opened Collections
  import opened Text
  import opened FileTree

  datatype FileEntry = FileEntry(path: string, size: nat, sha: string)

  // ---------------------------------------------------------------- names and paths

  predicate ValidName(name: string) {
    name != "" && name != "." && name != ".." && '/' !in name && '\\' !in name
  }

  predicate ValidTree(n: Node) {
    n.Dir? ==> forall name :: name in n.entries ==> ValidName(name) && ValidTree(n.entries[name])
  }

  predicate ValidPath(path: seq<string>) {
    forall i :: 0 <= i < |path| ==> ValidName(path[i])
  }

  function Join(path: seq<string>): string {
    if path == [] then ""
    else if |path| == 1 then path[0]
    else path[0] + ['/'] + Join(path[1..])
  }

  // The components between the slashes of a path.
  function Components(s: string): seq<string>
    decreases |s|
  {
    var i := IndexOf(s, '/');
    if i == |s| then [s] else [s[..i]] + Components(s[i + 1..])
  }

  lemma {:induction false} ComponentsOfJoin(path: seq<string>)
    requires path != [] && forall i :: 0 <= i < |path| ==> '/' !in path[i]
    ensures Components(Join(path)) == path
  {
    if |path| == 1 {
      NotFoundAtEnd(path[0], '/');
    } else {
      ComponentsOfJoin(path[1..]);
      FirstComponent(path[0], Join(path[1..]), Join(path));
      assert path == [path[0]] + path[1..];
    }
  }

  // Any text is the join of its components, and these hold no slash.
  lemma {:induction false} JoinOfComponents(s: string)
    ensures Components(s) != [] && Join(Components(s)) == s
    ensures forall i :: 0 <= i < |Components(s)| ==> '/' !in Components(s)[i]
    decreases |s|
  {
    var i := IndexOf(s, '/');
    if i < |s| {
      JoinOfComponents(s[i + 1..]);
      assert s == s[..i] + ['/'] + s[i + 1..];
      assert Components(s)[1..] == Components(s[i + 1..]);
    } else {
      assert s[..i] == s;
    }
  }

  lemma FirstComponent(first: string, rest: string, s: string)
    requires '/' !in first && s == first + ['/'] + rest
    ensures Components(s) == [first] + Components(rest)
  {
    IndexOfDelimiter(first, '/', rest);
    PartsOf(first, '/', rest, s);
  }

  lemma NotFoundAtEnd(s: string, c: char)
    requires c !in s
    ensures IndexOf(s, c) == |s|
  {
  }

  lemma {:induction false} PathsAreValid(n: Node, path: seq<string>)
    requires ValidTree(n) && At(n, path).Some?
    ensures ValidPath(path)
  {
    if path != [] {
      PathsAreValid(n.entries[path[0]], path[1..]);
    }
  }

  // ---------------------------------------------------------------- the order of paths

  // The lexicographic order of strings.
  predicate Less(a: string, b: string) {
    if b == "" then false
    else if a == "" then true
    else if a[0] == b[0] then Less(a[1..], b[1..])
    else a[0] < b[0]
  }

  lemma {:induction false} LessMeans(a: string, b: string)
    ensures Less(a, b) <==> SmallerText(a, b)
  {
    if a != "" && b != "" {
      SmallerTextStep(a, b);
      LessMeans(a[1..], b[1..]);
    }
  }

  lemma {:induction false} LessIsTotal(a: string, b: string)
    ensures Less(a, b) || Less(b, a) || a == b
    ensures !(Less(a, b) && Less(b, a)) && !Less(a, a)
  {
    if a != "" { LessIsTotal(a[1..], a[1..]); }
    if a != "" && b != "" {
      LessIsTotal(a[1..], b[1..]);
      assert a == [a[0]] + a[1..] && b == [b[0]] + b[1..];
    }
  }

  lemma {:induction false} LessIsTransitive(a: string, b: string, c: string)
    requires Less(a, b) && Less(b, c)
    ensures Less(a, c)
  {
    if a != "" && a[0] == b[0] && b[0] == c[0] { LessIsTransitive(a[1..], b[1..], c[1..]); }
  }

  // Strictly ordered, and hence without two entries of the same path.
  predicate Ordered(list: seq<FileEntry>) {
    forall i, j :: 0 <= i < j < |list| ==> Less(list[i].path, list[j].path)
  }

  // The entry behind those with smaller paths.
  function Insert(list: seq<FileEntry>, e: FileEntry): (r: seq<FileEntry>)
    ensures forall x :: x in r <==> x in list || x == e
  {
    if list == [] then [e]
    else
      var init, last := list[..|list| - 1], list[|list| - 1];
      assert list == init + [last];
      if Less(e.path, last.path) then Insert(init, e) + [last] else list + [e]
  }

  lemma {:induction false} InsertKeepsOrder(list: seq<FileEntry>, e: FileEntry)
    requires Ordered(list) && forall x :: x in list ==> x.path != e.path
    ensures Ordered(Insert(list, e))
  {
    if list != [] {
      var init, last := list[..|list| - 1], list[|list| - 1];
      assert list == init + [last];
      assert last in list;
      LessIsTotal(e.path, last.path);
      if Less(e.path, last.path) {
        InsertKeepsOrder(init, e);
        var r := Insert(init, e);
        forall i | 0 <= i < |r|
          ensures Less(r[i].path, last.path)
        {
          assert r[i] in init || r[i] == e;
        }
      } else {
        forall i | 0 <= i < |list|
          ensures Less(list[i].path, e.path)
        {
          if i < |list| - 1 {
            LessIsTransitive(list[i].path, last.path, e.path);
          }
        }
      }
    }
  }

  // `files.sort_by(path)`: insertion, for want of the library's sort.
  function SortByPath(list: seq<FileEntry>): (r: seq<FileEntry>)
    ensures forall x :: x in r <==> x in list
  {
    if list == [] then []
    else
      var init, last := list[..|list| - 1], list[|list| - 1];
      assert list == init + [last];
      Insert(SortByPath(init), last)
  }

  lemma {:induction false} SortOrders(list: seq<FileEntry>)
    requires forall i, j :: 0 <= i < j < |list| ==> list[i].path != list[j].path
    ensures Ordered(SortByPath(list))
  {
    if list != [] {
      var init, last := list[..|list| - 1], list[|list| - 1];
      SortOrders(init);
      forall x | x in SortByPath(init)
        ensures x.path != last.path
      {
        var i :| 0 <= i < |init| && init[i] == x;
        assert list[i] == x;
      }
      InsertKeepsOrder(SortByPath(init), last);
    }
  }

  // An ordered list is known by its elements.
  lemma {:induction false} OrderedIsUnique(a: seq<FileEntry>, b: seq<FileEntry>)
    requires Ordered(a) && Ordered(b) && forall x :: x in a <==> x in b
    ensures a == b
  {
    assert b != [] ==> b[0] in b;
    if a != [] {
      assert a[0] in b;
      var first := b[0];
      assert first in a;
      var i :| 0 <= i < |b| && b[i] == a[0];
      var j :| 0 <= j < |a| && a[j] == first;
      LessIsTotal(a[0].path, first.path);
      assert a[0] == first;
      assert a == [first] + a[1..] && b == [first] + b[1..];
      RestHasSame(a, b, first);
      RestHasSame(b, a, first);
      OrderedIsUnique(a[1..], b[1..]);
      assert a == b;
    }
  }

  lemma RestHasSame(a: seq<FileEntry>, b: seq<FileEntry>, first: FileEntry)
    requires a != [] && b != [] && a[0] == b[0] == first && Ordered(a)
    requires forall x :: x in a ==> x in b
    ensures forall x :: x in a[1..] ==> x in b[1..]
  {
    forall x | x in a[1..]
      ensures x in b[1..]
    {
      var i :| 0 <= i < |a[1..]| && a[1..][i] == x;
      LessIsTotal(first.path, first.path);
      assert a[i + 1] == x && Less(a[0].path, a[i + 1].path);
      assert x in a;
      var k :| 0 <= k < |b| && b[k] == x;
      assert b[1..][k - 1] == x;
    }
  }

  // ---------------------------------------------------------------- listing the files

  function EntryFor(path: seq<string>, content: string, digest: string -> string): FileEntry {
    FileEntry(Join(path), |content|, digest(content))
  }

  ghost predicate IsEntryOf(e: FileEntry, root: Node, digest: string -> string) {
    exists path, content :: IsEntryAt(e, root, path, content, digest)
  }

  ghost predicate IsEntryAt(e: FileEntry, root: Node, path: seq<string>, content: string, digest: string -> string) {
    path != [] && At(root, path) == Some(IsFile(content)) && e == EntryFor(path, content, digest)
  }

  // `list` is the inventory of `root`.
  ghost predicate IsInventory(list: seq<FileEntry>, root: Node, digest: string -> string) {
    Ordered(list) && forall e :: e in list <==> IsEntryOf(e, root, digest)
  }

  // A file below the directory that is walked, `prefix` being the path of that directory.
  ghost predicate Walked(e: FileEntry, path: seq<string>, prefix: seq<string>, current: Node,
                         digest: string -> string)
  {
    && |path| > |prefix| && prefix <= path
    && match At(current, path[|prefix|..])
       case Some(IsFile(content)) => e == EntryFor(path, content, digest)
       case _ => false
  }

  // The paths found so far below some of the names of a directory, each once.
  ghost predicate Found(list: seq<FileEntry>, paths: seq<seq<string>>, prefix: seq<string>, current: Node,
                        names: set<string>, digest: string -> string)
  {
    && |list| == |paths| && NoRepeats(paths)
    && (forall i :: 0 <= i < |paths| ==> WalkedIn(list[i], paths[i], prefix, current, names, digest))
    && Covered(paths, prefix, current, names)
  }

  ghost predicate WalkedIn(e: FileEntry, path: seq<string>, prefix: seq<string>, current: Node,
                           names: set<string>, digest: string -> string)
  {
    Walked(e, path, prefix, current, digest) && path[|prefix|] in names
  }

  ghost predicate Covered(paths: seq<seq<string>>, prefix: seq<string>, current: Node, names: set<string>) {
    forall path :: path != [] && path[0] in names && IsFileAt(current, path) ==> prefix + path in paths
  }

  ghost predicate IsFileAt(n: Node, path: seq<string>) {
    At(n, path).Some? && At(n, path).value.IsFile?
  }

  lemma AtStep(n: Node, path: seq<string>)
    requires n.Dir? && path != []
    ensures At(n, path) == if path[0] in n.entries then At(n.entries[path[0]], path[1..]) else None
  {
  }

  lemma AddNothing(list: seq<FileEntry>, paths: seq<seq<string>>, prefix: seq<string>, current: Node, name: string,
                   done: set<string>, digest: string -> string)
    requires current.Dir? && name in current.entries && name !in done
    requires current.entries[name].Symlink? || current.entries[name].Other?
    requires Found(list, paths, prefix, current, done, digest)
    ensures Found(list, paths, prefix, current, done + {name}, digest)
  {
    forall path | path != [] && path[0] in done + {name} && IsFileAt(current, path)
      ensures prefix + path in paths
    {
      AtStep(current, path);
    }
  }

  lemma AddFile(list: seq<FileEntry>, paths: seq<seq<string>>, prefix: seq<string>, current: Node, name: string,
                done: set<string>, digest: string -> string)
    requires current.Dir? && name in current.entries && name !in done && current.entries[name].File?
    requires Found(list, paths, prefix, current, done, digest)
    ensures Found(list + [EntryFor(prefix + [name], current.entries[name].content, digest)], paths + [prefix + [name]],
                  prefix, current, done + {name}, digest)
  {
    var e, p := EntryFor(prefix + [name], current.entries[name].content, digest), prefix + [name];
    var more := paths + [p];
    assert p[|prefix|..] == [name];
    AtBelow(current, name, []);
    assert [name] + [] == [name];
    assert WalkedIn(e, p, prefix, current, done + {name}, digest);
    forall i | 0 <= i < |paths|
      ensures paths[i] != p && WalkedIn(list[i], paths[i], prefix, current, done + {name}, digest)
    {
      assert WalkedIn(list[i], paths[i], prefix, current, done, digest);
    }
    NoRepeatsMore(paths, [p]);
    forall path | path != [] && path[0] in done + {name} && IsFileAt(current, path)
      ensures prefix + path in more
    {
      AtStep(current, path);
      if path[0] == name {
        assert path == [name];
        assert more[|paths|] == prefix + path;
      } else {
        assert prefix + path in paths;
      }
    }
  }

  lemma NoRepeatsMore<T>(a: seq<T>, b: seq<T>)
    requires NoRepeats(a) && NoRepeats(b) && forall x :: x in a ==> x !in b
    ensures NoRepeats(a + b)
  {
    forall i, j | 0 <= i < j < |a + b|
      ensures (a + b)[i] != (a + b)[j]
    {
      if i < |a| <= j {
        assert a[i] in a && b[j - |a|] in b;
      }
    }
  }

  lemma AddDirectory(list: seq<FileEntry>, paths: seq<seq<string>>, below: seq<FileEntry>,
                     pathsBelow: seq<seq<string>>, prefix: seq<string>, current: Node, name: string,
                     done: set<string>, digest: string -> string)
    requires current.Dir? && name in current.entries && name !in done && current.entries[name].Dir?
    requires Found(list, paths, prefix, current, done, digest)
    requires var child := current.entries[name];
             Found(below, pathsBelow, prefix + [name], child, child.entries.Keys, digest)
    ensures Found(list + below, paths + pathsBelow, prefix, current, done + {name}, digest)
  {
    var child := current.entries[name];
    forall i | 0 <= i < |pathsBelow|
      ensures WalkedIn(below[i], pathsBelow[i], prefix, current, {name}, digest)
    {
      assert WalkedIn(below[i], pathsBelow[i], prefix + [name], child, child.entries.Keys, digest);
      WalkedBelow(below[i], pathsBelow[i], prefix, current, name, digest);
    }
    PathsDiffer(list, paths, below, pathsBelow, prefix, current, name, done, digest);
    NoRepeatsMore(paths, pathsBelow);
    CoveredBelow(paths, below, pathsBelow, prefix, current, name, done, digest);
    forall i | 0 <= i < |paths + pathsBelow|
      ensures WalkedIn((list + below)[i], (paths + pathsBelow)[i], prefix, current, done + {name}, digest)
    {
      if i < |paths| {
        assert WalkedIn(list[i], paths[i], prefix, current, done, digest);
      } else {
        assert WalkedIn(below[i - |paths|], pathsBelow[i - |paths|], prefix, current, {name}, digest);
      }
    }
  }

  lemma PathsDiffer(list: seq<FileEntry>, paths: seq<seq<string>>, below: seq<FileEntry>,
                    pathsBelow: seq<seq<string>>, prefix: seq<string>, current: Node, name: string,
                    done: set<string>, digest: string -> string)
    requires |list| == |paths| && |below| == |pathsBelow| && name !in done
    requires forall i :: 0 <= i < |paths| ==> WalkedIn(list[i], paths[i], prefix, current, done, digest)
    requires forall i :: 0 <= i < |pathsBelow| ==> WalkedIn(below[i], pathsBelow[i], prefix, current, {name}, digest)
    ensures forall path :: path in paths ==> path !in pathsBelow
  {
    forall i, j | 0 <= i < |paths| && 0 <= j < |pathsBelow|
      ensures paths[i] != pathsBelow[j]
    {
      assert WalkedIn(list[i], paths[i], prefix, current, done, digest);
      assert WalkedIn(below[j], pathsBelow[j], prefix, current, {name}, digest);
    }
  }

  lemma CoveredBelow(paths: seq<seq<string>>, below: seq<FileEntry>, pathsBelow: seq<seq<string>>,
                     prefix: seq<string>, current: Node, name: string, done: set<string>, digest: string -> string)
    requires current.Dir? && name in current.entries && current.entries[name].Dir?
    requires Covered(paths, prefix, current, done)
    requires var child := current.entries[name];
             Found(below, pathsBelow, prefix + [name], child, child.entries.Keys, digest)
    ensures Covered(paths + pathsBelow, prefix, current, done + {name})
  {
    forall path | path != [] && path[0] in done + {name} && IsFileAt(current, path)
      ensures prefix + path in paths + pathsBelow
    {
      AtStep(current, path);
      if path[0] == name {
        BelowIsFound(below, pathsBelow, prefix, current.entries[name], name, path, digest);
      } else {
        assert prefix + path in paths;
      }
    }
  }

  lemma BelowIsFound(below: seq<FileEntry>, pathsBelow: seq<seq<string>>, prefix: seq<string>, child: Node,
                     name: string, path: seq<string>, digest: string -> string)
    requires child.Dir? && path != [] && path[0] == name && IsFileAt(child, path[1..])
    requires Found(below, pathsBelow, prefix + [name], child, child.entries.Keys, digest)
    ensures prefix + path in pathsBelow
  {
    var rest := path[1..];
    assert rest != [] && rest[0] in child.entries;
    assert prefix + [name] + rest in pathsBelow;
    assert prefix + path == prefix + [name] + rest;
  }

  lemma WalkedBelow(e: FileEntry, path: seq<string>, prefix: seq<string>, current: Node, name: string,
                    digest: string -> string)
    requires current.Dir? && name in current.entries
    requires Walked(e, path, prefix + [name], current.entries[name], digest)
    ensures Walked(e, path, prefix, current, digest) && path[|prefix|] == name
  {
    var rest := path[|prefix| + 1..];
    assert path == prefix + [name] + rest;
    assert path[|prefix|..] == [name] + rest;
    AtBelow(current, name, rest);
  }

  method Walk(prefix: seq<string>, current: Node, digest: string -> string)
    returns (list: seq<FileEntry>, ghost paths: seq<seq<string>>)
    requires current.Dir?
    ensures Found(list, paths, prefix, current, current.entries.Keys, digest)
    decreases current
  {
    list, paths := [], [];
    var todo := current.entries.Keys;
    ghost var done: set<string> := {};
    while todo != {}
      invariant done + todo == current.entries.Keys && done !! todo
      invariant Found(list, paths, prefix, current, done, digest)
      decreases todo
    {
      var name :| name in todo;
      todo := todo - {name};
      match current.entries[name] {
        case Dir(_) =>
          var below, pathsBelow := Walk(prefix + [name], current.entries[name], digest);
          AddDirectory(list, paths, below, pathsBelow, prefix, current, name, done, digest);
          list, paths := list + below, paths + pathsBelow;
        case File(content) =>
          AddFile(list, paths, prefix, current, name, done, digest);
          list := list + [EntryFor(prefix + [name], content, digest)];
          paths := paths + [prefix + [name]];
        case _ =>
          AddNothing(list, paths, prefix, current, name, done, digest);
      }
      done := done + {name};
    }
  }

  lemma JoinInjective(p: seq<string>, q: seq<string>)
    requires ValidPath(p) && ValidPath(q) && p != [] && q != [] && Join(p) == Join(q)
    ensures p == q
  {
    ComponentsOfJoin(p);
    ComponentsOfJoin(q);
  }

  lemma WalkedIsEntry(e: FileEntry, path: seq<string>, root: Node, digest: string -> string)
    requires Walked(e, path, [], root, digest) && ValidTree(root)
    ensures IsEntryOf(e, root, digest) && e.path == Join(path) && ValidPath(path) && path != []
  {
    assert path[0..] == path;
    PathsAreValid(root, path);
    assert IsEntryAt(e, root, path, At(root, path).value.content, digest);
  }

  lemma EntryIsWalked(list: seq<FileEntry>, paths: seq<seq<string>>, root: Node, e: FileEntry,
                      digest: string -> string)
    requires root.Dir? && Found(list, paths, [], root, root.entries.Keys, digest) && IsEntryOf(e, root, digest)
    ensures e in list
  {
    var path, content :| IsEntryAt(e, root, path, content, digest);
    AtStep(root, path);
    assert IsFileAt(root, path) && [] + path == path;
    assert [] + path in paths;
    var i :| 0 <= i < |paths| && paths[i] == path;
    assert WalkedIn(list[i], paths[i], [], root, root.entries.Keys, digest);
    assert path[0..] == path;
    assert list[i] == e;
  }

  lemma WalkIsInventory(list: seq<FileEntry>, paths: seq<seq<string>>, root: Node, digest: string -> string)
    requires root.Dir? && ValidTree(root)
    requires Found(list, paths, [], root, root.entries.Keys, digest)
    ensures IsInventory(SortByPath(list), root, digest)
  {
    forall i | 0 <= i < |list|
      ensures IsEntryOf(list[i], root, digest) && list[i].path == Join(paths[i])
      ensures ValidPath(paths[i]) && paths[i] != []
    {
      assert WalkedIn(list[i], paths[i], [], root, root.entries.Keys, digest);
      WalkedIsEntry(list[i], paths[i], root, digest);
    }
    forall i, j | 0 <= i < j < |list|
      ensures list[i].path != list[j].path
    {
      if list[i].path == list[j].path {
        JoinInjective(paths[i], paths[j]);
      }
    }
    SortOrders(list);
    forall e
      ensures e in list <==> IsEntryOf(e, root, digest)
    {
      if IsEntryOf(e, root, digest) {
        EntryIsWalked(list, paths, root, e, digest);
      }
    }
  }

  // The order in which directories are read makes no difference: a tree has one inventory.
  method InventoryFiles(root: Node, digest: string -> string) returns (r: Result<seq<FileEntry>, BackupError>)
    requires ValidTree(root)
    ensures r.Ok? <==> root.Dir?
    ensures r.Ok? ==> IsInventory(r.value, root, digest)
    ensures r.Ok? ==> forall other :: IsInventory(other, root, digest) ==> other == r.value
  {
    if !root.Dir? { return Err(Io); }
    var list, paths := Walk([], root, digest);
    WalkIsInventory(list, paths, root, digest);
    var sorted := SortByPath(list);
    forall other | IsInventory(other, root, digest)
      ensures other == sorted
    {
      OrderedIsUnique(other, sorted);
    }
    r := Ok(sorted);
  }

  // ---------------------------------------------------------------- comparing with a manifest

  // `files` is the inventory of the tree without its manifest.
  ghost predicate Describes(files: seq<FileEntry>, root: Node, digest: string -> string) {
    Ordered(files) && forall e :: e in files <==> IsEntryOf(e, root, digest) && e.path != "manifest.json"
  }

  // A file of this path and size has another checksum.
  ghost predicate Differs(e: FileEntry, root: Node, digest: string -> string) {
    exists sha :: sha != e.sha && IsEntryOf(e.(sha := sha), root, digest)
  }

  method VerifyInventory(root: Node, files: seq<FileEntry>, digest: string -> string)
    returns (r: Result<(), BackupError>)
    requires ValidTree(root) && root.Dir?
    ensures r.Ok? <==> Describes(files, root, digest)
    ensures r.Err? ==> r.error in {InvalidManifest, ChecksumMismatch}
    ensures r == Err(ChecksumMismatch) ==> exists e :: e in files && Differs(e, root, digest)
  {
    var all := InventoryFiles(root, digest);
    var actual := [];
    for i := 0 to |all.value|
      invariant Ordered(actual)
      invariant forall e :: e in actual ==> e in all.value[..i] && e.path != "manifest.json"
      invariant forall k :: 0 <= k < i && all.value[k].path != "manifest.json" ==> all.value[k] in actual
    {
      if all.value[i].path != "manifest.json" {
        KeepsOrder(all.value, actual, i);
        actual := actual + [all.value[i]];
      }
    }
    assert Describes(actual, root, digest);
    if Describes(files, root, digest) {
      OrderedIsUnique(files, actual);
    }
    if |actual| != |files| { return Err(InvalidManifest); }
    for i := 0 to |files|
      invariant files[..i] == actual[..i]
    {
      var expected, observed := files[i], actual[i];
      if expected.path != observed.path || expected.size != observed.size { return Err(InvalidManifest); }
      if expected.sha != observed.sha {
        assert observed in actual && expected in files && observed == expected.(sha := observed.sha);
        assert Differs(expected, root, digest);
        return Err(ChecksumMismatch);
      }
      assert files[..i + 1] == files[..i] + [files[i]] && actual[..i + 1] == actual[..i] + [actual[i]];
    }
    assert files[..|files|] == files && actual[..|files|] == actual;
    r := Ok(());
  }

  lemma KeepsOrder(all: seq<FileEntry>, some: seq<FileEntry>, i: nat)
    requires i < |all| && Ordered(all) && Ordered(some) && forall e :: e in some ==> e in all[..i]
    ensures Ordered(some + [all[i]])
  {
    forall j | 0 <= j < |some|
      ensures Less(some[j].path, all[i].path)
    {
      assert some[j] in all[..i];
    }
  }

  function FileAt(n: Node, path: seq<string>): Option<string> {
    match At(n, path)
    case Some(IsFile(content)) => Some(content)
    case _ => None
  }

  lemma ManifestPath(path: seq<string>)
    requires ValidPath(path) && path != []
    ensures Join(path) == "manifest.json" <==> path == ["manifest.json"]
  {
    if Join(path) == "manifest.json" {
      JoinInjective(path, ["manifest.json"]);
    }
  }

  lemma EntryTellsFile(e: FileEntry, n: Node, path: seq<string>, content: string, digest: string -> string)
    requires forall x, y :: digest(x) == digest(y) ==> x == y
    requires ValidTree(n) && ValidPath(path) && path != [] && e == EntryFor(path, content, digest)
    ensures IsEntryOf(e, n, digest) <==> FileAt(n, path) == Some(content)
  {
    if IsEntryOf(e, n, digest) {
      var other, c :| IsEntryAt(e, n, other, c, digest);
      PathsAreValid(n, other);
      JoinInjective(path, other);
    }
    if FileAt(n, path) == Some(content) {
      assert IsEntryAt(e, n, path, content, digest);
    }
  }

  lemma SameFile(files: seq<FileEntry>, made: Node, root: Node, path: seq<string>, digest: string -> string)
    requires forall x, y :: digest(x) == digest(y) ==> x == y
    requires ValidTree(made) && ValidTree(root) && IsInventory(files, made, digest) && Describes(files, root, digest)
    requires path != [] && path != ["manifest.json"]
    ensures FileAt(root, path) == FileAt(made, path)
  {
    if FileAt(root, path).Some? {
      var content := FileAt(root, path).value;
      PathsAreValid(root, path);
      ManifestPath(path);
      EntryTellsFile(EntryFor(path, content, digest), root, path, content, digest);
      EntryTellsFile(EntryFor(path, content, digest), made, path, content, digest);
    }
    if FileAt(made, path).Some? {
      var content := FileAt(made, path).value;
      PathsAreValid(made, path);
      EntryTellsFile(EntryFor(path, content, digest), made, path, content, digest);
      EntryTellsFile(EntryFor(path, content, digest), root, path, content, digest);
    }
  }

  lemma SameEntry(made: Node, root: Node, e: FileEntry, digest: string -> string)
    requires ValidTree(made) && ValidTree(root) && At(made, ["manifest.json"]) == None
    requires forall path :: path != [] && path != ["manifest.json"] ==> FileAt(root, path) == FileAt(made, path)
    ensures IsEntryOf(e, made, digest) <==> IsEntryOf(e, root, digest) && e.path != "manifest.json"
  {
    if IsEntryOf(e, made, digest) {
      var path, content :| IsEntryAt(e, made, path, content, digest);
      PathsAreValid(made, path);
      ManifestPath(path);
      assert FileAt(root, path) == FileAt(made, path);
      assert IsEntryAt(e, root, path, content, digest);
    }
    if IsEntryOf(e, root, digest) && e.path != "manifest.json" {
      var path, content :| IsEntryAt(e, root, path, content, digest);
      PathsAreValid(root, path);
      ManifestPath(path);
      assert FileAt(root, path) == FileAt(made, path);
      assert IsEntryAt(e, made, path, content, digest);
    }
  }

  // A manifest describes a tree exactly if the tree has the same files as the one that the manifest
  // was made of, its own manifest apart; this supposes a digest without collisions.
  lemma DescribesIffSameFiles(files: seq<FileEntry>, made: Node, root: Node, digest: string -> string)
    requires forall x, y :: digest(x) == digest(y) ==> x == y
    requires ValidTree(made) && ValidTree(root) && IsInventory(files, made, digest)
    requires At(made, ["manifest.json"]) == None
    ensures Describes(files, root, digest) <==>
            forall path :: path != [] && path != ["manifest.json"] ==> FileAt(root, path) == FileAt(made, path)
  {
    if Describes(files, root, digest) {
      forall path | path != [] && path != ["manifest.json"]
        ensures FileAt(root, path) == FileAt(made, path)
      {
        SameFile(files, made, root, path, digest);
      }
    }
    if forall path :: path != [] && path != ["manifest.json"] ==> FileAt(root, path) == FileAt(made, path) {
      forall e
        ensures e in files <==> IsEntryOf(e, root, digest) && e.path != "manifest.json"
      {
        SameEntry(made, root, e, digest);
      }
    }
  }
}
