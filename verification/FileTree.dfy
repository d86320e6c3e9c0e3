/** Directory trees: copying them without what must not be backed up, and listing their files
    (crates/ketebe-server/src/backup.rs). */
module FileTree {
  import opened Wrappers
  import opened Collections
  import opened Text

  // A directory has no order: reading it yields its entries in any order.
  datatype Node = File(content: string) | Dir(entries: map<string, Node>) | Symlink | Other

  datatype Kind = IsFile(content: string) | IsDir | IsLink | IsOther

  datatype BackupError =
    | NotFound
    | AlreadyExists
    | CollectionNotFound
    | CorruptSource
    | UnsupportedManifestVersion
    | InvalidManifest
    | ChecksumMismatch
    | TargetNotEmpty
    | Runtime
    | Io

  function KindOf(n: Node): Kind {
    match n
    case File(content) => IsFile(content)
    case Dir(_) => IsDir
    case Symlink => IsLink
    case Other => IsOther
  }

  // What lies at a path of names.
  function At(n: Node, path: seq<string>): Option<Kind>
    decreases path
  {
    if path == [] then Some(KindOf(n))
    else if n.Dir? && path[0] in n.entries then At(n.entries[path[0]], path[1..])
    else None
  }

  lemma AtBelow(n: Node, name: string, path: seq<string>)
    ensures At(n, [name] + path) == if n.Dir? && name in n.entries then At(n.entries[name], path) else None
  {
    assert ([name] + path)[1..] == path;
  }

  // A tree is known by what lies at its paths.
  lemma {:induction false} AtDetermines(a: Node, b: Node)
    requires forall path :: At(a, path) == At(b, path)
    ensures a == b
  {
    assert At(a, []) == At(b, []);
    if a.Dir? {
      forall name
        ensures name in a.entries <==> name in b.entries
        ensures name in a.entries && name in b.entries ==> a.entries[name] == b.entries[name]
      {
        AtBelow(a, name, []);
        AtBelow(b, name, []);
        assert At(a, [name] + []) == At(b, [name] + []);
        if name in a.entries && name in b.entries {
          forall path
            ensures At(a.entries[name], path) == At(b.entries[name], path)
          {
            AtBelow(a, name, path);
            AtBelow(b, name, path);
          }
          AtDetermines(a.entries[name], b.entries[name]);
        }
      }
      assert a.entries == b.entries;
    }
  }

  // ---------------------------------------------------------------- copying

  predicate IsTemporary(name: string) {
    |name| >= 4 && name[..4] == ".tmp"
  }

  // Temporary files and directories are skipped everywhere, derived indexes at the top if so wished.
  predicate Skipped(path: seq<string>, excludeDerived: bool) {
    path != [] && ((excludeDerived && path[0] == "indexes") || IsTemporary(path[0]) || Skipped(path[1..], false))
  }

  ghost predicate SomeIsTemporary(path: seq<string>) {
    exists i :: 0 <= i < |path| && ".tmp" <= path[i]
  }

  // A path is skipped if one of its names begins with `.tmp`, or its first one is that of the derived
  // indexes.
  lemma {:induction false} SkippedMeans(path: seq<string>, excludeDerived: bool)
    ensures Skipped(path, excludeDerived) <==>
              SomeIsTemporary(path) || (excludeDerived && path != [] && path[0] == "indexes")
  {
    if path != [] {
      var rest := path[1..];
      SkippedMeans(rest, false);
      assert IsTemporary(path[0]) <==> ".tmp" <= path[0];
      if SomeIsTemporary(rest) {
        var i :| 0 <= i < |rest| && ".tmp" <= rest[i];
        assert ".tmp" <= path[i + 1];
      }
      if SomeIsTemporary(path) && !(".tmp" <= path[0]) {
        var i :| 0 <= i < |path| && ".tmp" <= path[i];
        assert ".tmp" <= rest[i - 1];
      }
    }
  }

  function Kept(kind: Option<Kind>): Option<Kind> {
    if kind.Some? && (kind.value.IsFile? || kind.value.IsDir?) then kind else None
  }

  // `copy` holds the files and directories of `source`, except those that are skipped.
  ghost predicate IsCopy(copy: Node, source: Node, excludeDerived: bool) {
    forall path :: At(copy, path) == if Skipped(path, excludeDerived) then None else Kept(At(source, path))
  }

  ghost predicate HasLink(source: Node, excludeDerived: bool) {
    exists path :: At(source, path) == Some(IsLink) && !Skipped(path, excludeDerived)
  }

  predicate SkippedEntry(name: string, excludeDerived: bool) {
    (excludeDerived && name == "indexes") || IsTemporary(name)
  }

  // What has become of one entry of a directory.
  ghost predicate EntryCopied(source: map<string, Node>, copy: map<string, Node>, name: string, excludeDerived: bool)
    requires name in source
  {
    if SkippedEntry(name, excludeDerived) || source[name].Other? then name !in copy
    else name in copy && IsCopy(copy[name], source[name], false) && !HasLink(source[name], false)
  }

  lemma EntriesMakeCopy(source: Node, copy: map<string, Node>, excludeDerived: bool)
    requires source.Dir? && copy.Keys <= source.entries.Keys
    requires forall name :: name in source.entries ==> EntryCopied(source.entries, copy, name, excludeDerived)
    ensures IsCopy(Dir(copy), source, excludeDerived) && !HasLink(source, excludeDerived)
  {
    forall path
      ensures At(Dir(copy), path) == if Skipped(path, excludeDerived) then None else Kept(At(source, path))
      ensures !(At(source, path) == Some(IsLink) && !Skipped(path, excludeDerived))
    {
      if path != [] {
        var name, rest := path[0], path[1..];
        if name in source.entries {
          assert EntryCopied(source.entries, copy, name, excludeDerived);
          if name in copy {
            assert At(copy[name], rest) == if Skipped(rest, false) then None else Kept(At(source.entries[name], rest));
          }
        }
      }
    }
  }

  lemma LinkBelow(source: Node, name: string, excludeDerived: bool)
    requires source.Dir? && name in source.entries && !SkippedEntry(name, excludeDerived)
    requires HasLink(source.entries[name], false)
    ensures HasLink(source, excludeDerived)
  {
    var path :| At(source.entries[name], path) == Some(IsLink) && !Skipped(path, false);
    AtBelow(source, name, path);
    assert ([name] + path)[1..] == path;
    assert !Skipped([name] + path, excludeDerived);
  }

  method CopyTree(source: Node, excludeDerived: bool) returns (r: Result<Node, BackupError>)
    ensures !source.Dir? ==> r == Err(Io)
    ensures source.Dir? ==> (r.Err? <==> HasLink(source, excludeDerived)) && (r.Err? ==> r.error == CorruptSource)
    ensures r.Ok? ==> IsCopy(r.value, source, excludeDerived)
    decreases source
  {
    if !source.Dir? { return Err(Io); }
    var copy: map<string, Node> := map[];
    var todo := source.entries.Keys;
    while todo != {}
      invariant copy.Keys <= source.entries.Keys - todo && todo <= source.entries.Keys
      invariant forall name :: name in source.entries && name !in todo ==>
                  EntryCopied(source.entries, copy, name, excludeDerived)
      decreases todo
    {
      var name :| name in todo;
      todo := todo - {name};
      if excludeDerived && name == "indexes" { continue; }
      if IsTemporary(name) { continue; }
      match source.entries[name] {
        case Symlink =>
          assert At(source.entries[name], []) == Some(IsLink);
          LinkBelow(source, name, excludeDerived);
          return Err(CorruptSource);
        case Dir(_) =>
          var child := CopyTree(source.entries[name], false);
          if child.Err? {
            LinkBelow(source, name, excludeDerived);
            return Err(child.error);
          }
          copy := copy[name := child.value];
        case File(content) =>
          copy := copy[name := File(content)];
          FileIsCopied(content);
        case Other =>
      }
    }
    EntriesMakeCopy(source, copy, excludeDerived);
    r := Ok(Dir(copy));
  }

  lemma FileIsCopied(content: string)
    ensures IsCopy(File(content), File(content), false) && !HasLink(File(content), false)
  {
  }

  // Copying a copy changes nothing.
  lemma CopyOfCopy(first: Node, source: Node, excludeDerived: bool, second: Node)
    requires IsCopy(first, source, excludeDerived) && IsCopy(second, first, false)
    ensures second == first
  {
    forall path
      ensures At(second, path) == At(first, path)
    {
      SkippedEither(path, excludeDerived);
    }
    AtDetermines(second, first);
  }

  lemma {:induction false} SkippedEither(path: seq<string>, excludeDerived: bool)
    ensures Skipped(path, false) ==> Skipped(path, excludeDerived)
  {
  }
}
