/** Backing up a collection directory and restoring it (crates/ketebe-server/src/backup.rs). */
module Backup {
  import opened Wrappers
  import opened Collections
  import opened Text
  import opened FileTree
  import opened Inventory

  const BACKUP_MANIFEST_VERSION := 1

  datatype Manifest = Manifest(version: nat, backupId: string, collectionId: string, files: seq<FileEntry>)

  function Prefix(id: string): string {
    "collections/" + id + "/"
  }

  predicate SafePath(path: string, id: string) {
    && (path == "" || path[0] != '/')
    && ".." !in Components(path)
    && Prefix(id) <= path
  }

  method ValidateManifest(m: Manifest, requested: string) returns (r: Result<(), BackupError>)
    ensures r.Ok? <==> && m.version == 1 && m.backupId == requested && ValidIdentifier(m.collectionId)
                       && forall f :: f in m.files ==>
                            "collections/" + m.collectionId + "/" <= f.path && ".." !in Components(f.path)
    ensures r == Err(UnsupportedManifestVersion) <==> m.version != 1
    ensures r.Err? ==> r.error in {UnsupportedManifestVersion, InvalidManifest}
  {
    if m.version != BACKUP_MANIFEST_VERSION { return Err(UnsupportedManifestVersion); }
    if m.backupId != requested { return Err(InvalidManifest); }
    if !ValidIdentifier(m.collectionId) { return Err(InvalidManifest); }
    for i := 0 to |m.files|
      invariant forall f :: f in m.files[..i] ==> SafePath(f.path, m.collectionId)
    {
      if !SafePath(m.files[i].path, m.collectionId) { return Err(InvalidManifest); }
    }
    assert m.files[..|m.files|] == m.files;
    r := Ok(());
  }

  // ---------------------------------------------------------------- what a backup looks like

  function Staged(id: string, copy: Node): Node {
    Dir(map["collections" := Dir(map[id := copy])])
  }

  function WithManifest(id: string, copy: Node, manifest: string): Node {
    Dir(map["collections" := Dir(map[id := copy]), "manifest.json" := File(manifest)])
  }

  // A directory that was copied for a backup.
  ghost predicate IsClean(copy: Node) {
    exists source: Node :: source.Dir? && ValidTree(source) && IsCopy(copy, source, true)
  }

  lemma AtStaged(id: string, copy: Node, path: seq<string>)
    ensures At(Staged(id, copy), path) ==
            if path == [] || path == ["collections"] then Some(IsDir)
            else if |path| >= 2 && path[0] == "collections" && path[1] == id then At(copy, path[2..])
            else None
  {
    if |path| >= 2 {
      assert path[1..][1..] == path[2..];
    }
  }

  lemma AtWithManifest(id: string, copy: Node, manifest: string, path: seq<string>)
    ensures At(WithManifest(id, copy, manifest), path) ==
            if path == ["manifest.json"] then Some(IsFile(manifest)) else At(Staged(id, copy), path)
  {
    if path != [] && path[0] == "manifest.json" {
      assert path == ["manifest.json"] || path[1..] != [];
    }
  }

  lemma CleanIsDir(copy: Node)
    requires IsClean(copy)
    ensures copy.Dir? && ValidTree(copy) && At(copy, ["indexes"]) == None
    ensures forall path :: At(copy, path) == if Skipped(path, false) then None else Kept(At(copy, path))
  {
    var source: Node :| source.Dir? && ValidTree(source) && IsCopy(copy, source, true);
    assert At(copy, []) == Kept(At(source, []));
    CopyIsValid(copy, source, true);
    assert Skipped(["indexes"], true);
    forall path
      ensures At(copy, path) == if Skipped(path, false) then None else Kept(At(copy, path))
    {
      SkippedEither(path, true);
    }
  }

  lemma CopyIsValid(copy: Node, source: Node, excludeDerived: bool)
    requires ValidTree(source) && IsCopy(copy, source, excludeDerived)
    ensures ValidTree(copy) && (source.Dir? ==> copy.Dir?)
  {
    assert At(copy, []) == Kept(At(source, []));
    forall path | At(copy, path).Some?
      ensures ValidPath(path)
    {
      PathsAreValid(source, path);
    }
    ValidPathsMakeValidTree(copy);
  }

  lemma {:induction false} ValidPathsMakeValidTree(n: Node)
    requires forall path :: At(n, path).Some? ==> ValidPath(path)
    ensures ValidTree(n)
  {
    if n.Dir? {
      forall name | name in n.entries
        ensures ValidName(name) && ValidTree(n.entries[name])
      {
        AtBelow(n, name, []);
        assert At(n, [name] + []).Some?;
        assert ([name] + [])[0] == name;
        forall path | At(n.entries[name], path).Some?
          ensures ValidPath(path)
        {
          AtBelow(n, name, path);
          assert ValidPath([name] + path);
          assert forall i :: 0 <= i < |path| ==> path[i] == ([name] + path)[i + 1];
        }
        ValidPathsMakeValidTree(n.entries[name]);
      }
    }
  }

  lemma IdIsGoodName(id: string)
    requires ValidIdentifier(id)
    ensures ValidName(id) && !IsTemporary(id)
  {
    assert id[0] in id;
  }

  // A directory of things that a copy leaves as they are is left as it is.
  lemma DirIsItsCopy(entries: map<string, Node>)
    requires forall name :: name in entries ==> !IsTemporary(name) && IsCopy(entries[name], entries[name], false)
    ensures IsCopy(Dir(entries), Dir(entries), false)
  {
    forall name | name in entries
      ensures EntryCopied(entries, entries, name, false)
    {
      assert At(entries[name], []) == Kept(At(entries[name], []));
    }
    EntriesMakeCopy(Dir(entries), entries, false);
  }

  lemma FixedNamesAreGood()
    ensures ValidName("collections") && !IsTemporary("collections")
    ensures ValidName("manifest.json") && !IsTemporary("manifest.json")
  {
    assert ".tmp"[0] == '.' && "collections"[..4][0] == 'c' && "manifest.json"[..4][0] == 'm';
  }

  // Fetching a backup from the repository yields it unchanged.
  lemma BackupIsItsCopy(id: string, copy: Node, manifest: string)
    requires ValidIdentifier(id) && IsClean(copy)
    ensures IsCopy(WithManifest(id, copy, manifest), WithManifest(id, copy, manifest), false)
    ensures ValidTree(WithManifest(id, copy, manifest)) && ValidTree(Staged(id, copy))
  {
    IdIsGoodName(id);
    FixedNamesAreGood();
    CleanIsDir(copy);
    FileIsCopied(manifest);
    var inner := map[id := copy];
    DirIsItsCopy(inner);
    assert ValidTree(Dir(inner));
    TwoAreTheirCopies("collections", Dir(inner), "manifest.json", File(manifest));
  }

  lemma TwoAreTheirCopies(a: string, x: Node, b: string, y: Node)
    requires ValidName(a) && ValidName(b) && !IsTemporary(a) && !IsTemporary(b)
    requires IsCopy(x, x, false) && IsCopy(y, y, false) && ValidTree(x) && ValidTree(y)
    ensures IsCopy(Dir(map[a := x, b := y]), Dir(map[a := x, b := y]), false)
    ensures ValidTree(Dir(map[a := x, b := y])) && ValidTree(Dir(map[a := x]))
  {
    DirIsItsCopy(map[a := x, b := y]);
  }

  lemma JoinBelow(id: string, rest: seq<string>)
    requires rest != []
    ensures Join(["collections", id] + rest) == Prefix(id) + Join(rest)
  {
    var path := ["collections", id] + rest;
    assert path[1..] == [id] + rest && path[1..][1..] == rest;
    assert "collections" + ['/'] + (id + ['/'] + Join(rest)) == Prefix(id) + Join(rest);
  }

  // The files of a backup lie below its collection.
  lemma BackupPathsAreSafe(id: string, copy: Node, e: FileEntry, digest: string -> string)
    requires ValidIdentifier(id) && IsClean(copy) && IsEntryOf(e, Staged(id, copy), digest)
    ensures SafePath(e.path, id)
  {
    var path, content :| IsEntryAt(e, Staged(id, copy), path, content, digest);
    CleanIsDir(copy);
    BackupIsItsCopy(id, copy, "");
    PathsAreValid(Staged(id, copy), path);
    ComponentsOfJoin(path);
    FileIsDeep(id, copy, path);
    JoinBelow(id, path[2..]);
    assert Prefix(id)[0] == 'c';
    assert ".." !in path;
  }

  lemma FileIsDeep(id: string, copy: Node, path: seq<string>)
    requires copy.Dir? && IsFileAt(Staged(id, copy), path)
    ensures |path| > 2 && path == ["collections", id] + path[2..]
  {
    AtStaged(id, copy, path);
  }

  // A manifest made of a staged collection describes the backup that holds both.
  lemma BackupIsDescribed(id: string, copy: Node, manifest: string, files: seq<FileEntry>, digest: string -> string)
    requires ValidIdentifier(id) && IsClean(copy) && IsInventory(files, Staged(id, copy), digest)
    ensures Describes(files, WithManifest(id, copy, manifest), digest)
  {
    var made, root := Staged(id, copy), WithManifest(id, copy, manifest);
    BackupIsItsCopy(id, copy, manifest);
    AtStaged(id, copy, ["manifest.json"]);
    forall path | path != [] && path != ["manifest.json"]
      ensures FileAt(root, path) == FileAt(made, path)
    {
      AtWithManifest(id, copy, manifest, path);
    }
    forall e
      ensures e in files <==> IsEntryOf(e, root, digest) && e.path != "manifest.json"
    {
      SameEntry(made, root, e, digest);
    }
  }

  // What lies at a path, as a tree.
  function SubTree(n: Node, path: seq<string>): Option<Node>
    decreases path
  {
    if path == [] then Some(n)
    else if n.Dir? && path[0] in n.entries then SubTree(n.entries[path[0]], path[1..])
    else None
  }

  lemma {:induction false} SubTreeBelow(n: Node, path: seq<string>, rest: seq<string>)
    ensures At(n, path + rest) == if SubTree(n, path).Some? then At(SubTree(n, path).value, rest) else None
    decreases path
  {
    if path == [] {
      assert path + rest == rest;
    } else {
      assert (path + rest)[1..] == path[1..] + rest;
      if n.Dir? && path[0] in n.entries {
        SubTreeBelow(n.entries[path[0]], path[1..], rest);
      }
    }
  }

  lemma SubTreeOfBackup(id: string, copy: Node, manifest: string)
    ensures SubTree(WithManifest(id, copy, manifest), ["collections", id]) == Some(copy)
  {
    var below := Dir(map[id := copy]);
    assert WithManifest(id, copy, manifest).entries["collections"] == below;
    assert ["collections", id][1..] == [id] && [id][1..] == [];
    assert SubTree(below, [id]) == Some(copy);
  }

  lemma SubTreeIsAt(n: Node, path: seq<string>)
    ensures At(n, path) == if SubTree(n, path).Some? then Some(KindOf(SubTree(n, path).value)) else None
  {
    SubTreeBelow(n, path, []);
    assert path + [] == path;
  }

  // ---------------------------------------------------------------- the service

  class BackupService {
    const digest: string -> string
    const encode: Manifest -> string
    const decode: string -> Option<Manifest>
    // What the integrity check says of a directory that is to be published.
    const sound: Node -> bool
    // Whether what is not modelled succeeds: opening a collection, renaming back; and whether every
    // directory is sound.
    const healthy: bool

    var repository: map<string, Node>
    var collections: map<string, Node>
    var catalog: set<string>

    ghost predicate Valid()
      reads this
    {
      && (forall id :: id in catalog ==> ValidIdentifier(id))
      && (forall id :: id in collections ==> ValidTree(collections[id]))
      && (forall b :: b in repository ==> ValidTree(repository[b]))
      && (forall m :: decode(encode(m)) == Some(m))
      && (healthy ==> forall n :: sound(n))
    }

    // What `Create` publishes for a collection whose directory was copied to `copy`.
    ghost predicate IsBackup(root: Node, backupId: string, id: string, copy: Node) {
      && ValidIdentifier(id) && IsClean(copy)
      && exists files :: IsInventory(files, Staged(id, copy), digest)
                         && root == WithManifest(id, copy,
                                                  encode(Manifest(BACKUP_MANIFEST_VERSION, backupId, id, files)))
    }

    method Succeeds() returns (ok: bool)
      ensures healthy ==> ok
    {
      ok := *;
      if healthy { ok := true; }
    }

    method Create(id: string, backupId: string) returns (r: Result<Manifest, BackupError>, ghost copy: Node)
      requires Valid()
      modifies this`repository
      ensures Valid()
      ensures r.Err? ==> repository == old(repository)
      ensures r == Err(CollectionNotFound) <==> id !in catalog
      ensures r.Ok? ==>
                && id in catalog && id in collections && IsCopy(copy, collections[id], true)
                && backupId !in old(repository) && backupId in repository
                && repository == old(repository)[backupId := repository[backupId]]
                && IsBackup(repository[backupId], backupId, id, copy)
                && repository[backupId] == WithManifest(id, copy, encode(r.value)) && sound(Staged(id, copy))
      ensures r == Err(AlreadyExists) ==> backupId in old(repository)
      ensures healthy ==>
                (r.Ok? <==> && id in catalog && id in collections && collections[id].Dir?
                            && !HasLink(collections[id], true) && backupId !in old(repository))
    {
      copy := Other;
      if id !in catalog { return Err(CollectionNotFound), copy; }
      if id !in collections { return Err(Io), copy; }
      var copied := CopyTree(collections[id], true);
      if copied.Err? { return Err(copied.error), copy; }
      copy := copied.value;
      assert IsClean(copied.value);
      BackupIsItsCopy(id, copied.value, "");
      var staging := Staged(id, copied.value);
      if !sound(staging) { return Err(CorruptSource), copy; }
      var files := InventoryFiles(staging, digest);
      var manifest := Manifest(BACKUP_MANIFEST_VERSION, backupId, id, files.value);
      var root := Dir(staging.entries["manifest.json" := File(encode(manifest))]);
      assert root == WithManifest(id, copied.value, encode(manifest));
      BackupIsItsCopy(id, copied.value, encode(manifest));
      if backupId in repository { return Err(AlreadyExists), copy; }
      repository := repository[backupId := root];
      r := Ok(manifest);
    }

    // The manifest in a directory is this one.
    ghost predicate Holds(staging: Node, m: Manifest) {
      exists content :: At(staging, ["manifest.json"]) == Some(IsFile(content)) && decode(content) == Some(m)
    }

    // What a restore checks before it publishes anything.
    ghost predicate Checked(staging: Node, backupId: string, m: Manifest) {
      && Holds(staging, m) && m.version == 1 && m.backupId == backupId && ValidIdentifier(m.collectionId)
      && (forall f :: f in m.files ==>
            "collections/" + m.collectionId + "/" <= f.path && ".." !in Components(f.path))
      && Describes(m.files, staging, digest)
      && At(staging, ["collections", m.collectionId]) == Some(IsDir)
      && At(staging, ["collections", m.collectionId, "indexes"]) == None
    }

    method Check(backupId: string, staging: Node) returns (r: Result<(Manifest, Node), BackupError>)
      requires Valid() && ValidTree(staging) && staging.Dir?
      ensures r.Err? ==> r.error in {Io, UnsupportedManifestVersion, InvalidManifest, ChecksumMismatch}
      ensures (forall m :: !Holds(staging, m)) ==> r == Err(Io)
      ensures forall m :: Holds(staging, m) ==> (r.Ok? <==> Checked(staging, backupId, m))
      ensures forall m :: Holds(staging, m) ==> (r == Err(UnsupportedManifestVersion) <==> m.version != 1)
      ensures r.Ok? ==> Checked(staging, backupId, r.value.0)
      ensures r.Ok? ==> SubTree(staging, ["collections", r.value.0.collectionId]) == Some(r.value.1)
      ensures forall id, copy :: IsBackup(staging, backupId, id, copy) ==>
                r.Ok? && r.value.0.collectionId == id && r.value.1 == copy
    {
      forall id, copy | IsBackup(staging, backupId, id, copy)
        ensures PassesChecks(staging, backupId, id, copy)
      {
        BackupPassesChecks(staging, backupId, id, copy);
      }
      ManifestIsAt(staging);
      if "manifest.json" !in staging.entries || !staging.entries["manifest.json"].File? { return Err(Io); }
      var parsed := decode(staging.entries["manifest.json"].content);
      if parsed.None? { return Err(Io); }
      var manifest := parsed.value;
      var valid := ValidateManifest(manifest, backupId);
      if valid.Err? { return Err(valid.error); }
      var complete := VerifyInventory(staging, manifest.files, digest);
      if complete.Err? { return Err(complete.error); }
      var staged := SubTree(staging, ["collections", manifest.collectionId]);
      SubTreeIsAt(staging, ["collections", manifest.collectionId]);
      if staged.None? || !staged.value.Dir? { return Err(InvalidManifest); }
      assert ["collections", manifest.collectionId] + ["indexes"] == ["collections", manifest.collectionId, "indexes"];
      SubTreeBelow(staging, ["collections", manifest.collectionId], ["indexes"]);
      if "indexes" in staged.value.entries { return Err(InvalidManifest); }
      r := Ok((manifest, staged.value));
    }

    lemma ManifestIsAt(staging: Node)
      requires staging.Dir?
      ensures forall m :: Holds(staging, m) <==>
                && "manifest.json" in staging.entries && staging.entries["manifest.json"].File?
                && decode(staging.entries["manifest.json"].content) == Some(m)
    {
      AtBelow(staging, "manifest.json", []);
      assert ["manifest.json"] + [] == ["manifest.json"];
      var at := At(staging, ["manifest.json"]);
      forall m
        ensures Holds(staging, m) <==> at.Some? && at.value.IsFile? && decode(at.value.content) == Some(m)
      {
      }
    }

    // Everything that `Check` looks at.
    ghost predicate PassesChecks(staging: Node, backupId: string, id: string, copy: Node) {
      && staging.Dir? && "manifest.json" in staging.entries && staging.entries["manifest.json"].File?
      && var parsed := decode(staging.entries["manifest.json"].content);
      && parsed.Some?
      && parsed.value.version == BACKUP_MANIFEST_VERSION && parsed.value.backupId == backupId
      && parsed.value.collectionId == id && ValidIdentifier(id)
      && (forall f :: f in parsed.value.files ==> SafePath(f.path, id))
      && Describes(parsed.value.files, staging, digest)
      && SubTree(staging, ["collections", id]) == Some(copy)
      && copy.Dir? && "indexes" !in copy.entries
    }

    lemma BackupPassesChecks(staging: Node, backupId: string, id: string, copy: Node)
      requires Valid() && IsBackup(staging, backupId, id, copy)
      ensures PassesChecks(staging, backupId, id, copy)
    {
      var files :| IsInventory(files, Staged(id, copy), digest)
                   && staging == WithManifest(id, copy, encode(Manifest(BACKUP_MANIFEST_VERSION, backupId, id, files)));
      var manifest := Manifest(BACKUP_MANIFEST_VERSION, backupId, id, files);
      assert decode(encode(manifest)) == Some(manifest);
      forall f: FileEntry | f in files
        ensures SafePath(f.path, id)
      {
        BackupPathsAreSafe(id, copy, f, digest);
      }
      BackupIsDescribed(id, copy, encode(manifest), files, digest);
      CleanIsDir(copy);
      AtStep(copy, ["indexes"]);
      SubTreeOfBackup(id, copy, encode(manifest));
    }

    // Publishes a checked collection. It may have to be taken back when it cannot be opened.
    method Publish(id: string, staged: Node) returns (r: Result<(), BackupError>)
      requires Valid() && ValidIdentifier(id) && ValidTree(staged)
      modifies this`collections, this`catalog
      ensures Valid()
      ensures r == Err(TargetNotEmpty) <==> id in old(catalog) || id in old(collections)
      ensures r.Ok? ==> collections == old(collections)[id := staged] && catalog == old(catalog) + {id}
      ensures r.Err? ==> r.error in {TargetNotEmpty, Runtime} && catalog == old(catalog)
      ensures r == Err(TargetNotEmpty) ==> collections == old(collections)
      ensures r == Err(Runtime) ==> !healthy && collections in {old(collections), old(collections)[id := staged]}
    {
      if id in catalog || id in collections { return Err(TargetNotEmpty); }
      collections := collections[id := staged];
      var recovered := Succeeds();
      if !recovered {
        var renamedBack: bool := *;
        if renamedBack {
          collections := collections - {id};
          assert collections == old(collections);
        }
        return Err(Runtime);
      }
      catalog := catalog + {id};
      r := Ok(());
    }

    method Restore(backupId: string) returns (r: Result<string, BackupError>)
      requires Valid()
      modifies this`collections, this`catalog
      ensures Valid()
      // Nothing that fails its checks is published, and nothing is overwritten.
      ensures r.Ok? ==>
                && backupId in repository && r.value !in old(catalog) && r.value !in old(collections)
                && r.value in collections && catalog == old(catalog) + {r.value}
                && collections == old(collections)[r.value := collections[r.value]]
                && (exists staging, m :: IsCopy(staging, repository[backupId], false) && Checked(staging, backupId, m)
                      && sound(staging) && m.collectionId == r.value
                      && SubTree(staging, ["collections", r.value]) == Some(collections[r.value]))
      ensures r.Err? ==> catalog == old(catalog)
      // Only if a collection cannot be opened and cannot be renamed back either does it stay behind.
      ensures r.Err? && r.error != Runtime ==> collections == old(collections)
      ensures r == Err(Runtime) ==> !healthy
      // Every backup that was created passes the checks and comes back as it was copied.
      ensures forall id, copy :: backupId in repository && IsBackup(repository[backupId], backupId, id, copy) ==>
                && (r.Ok? ==> r.value == id && collections[id] == copy)
                && (r.Err? ==> r.error in {CorruptSource, TargetNotEmpty, Runtime})
                && (r == Err(TargetNotEmpty) ==> id in old(catalog) || id in old(collections))
                && (healthy ==> (r.Ok? <==> id !in old(catalog) && id !in old(collections)))
    {
      if backupId !in repository || !repository[backupId].Dir? { return Err(NotFound); }
      var root := repository[backupId];
      forall id, copy | IsBackup(root, backupId, id, copy)
        ensures IsCopy(root, root, false) && !HasLink(root, false)
      {
        ItsCopyIsItself(root, backupId, id, copy);
      }
      var copied := CopyTree(root, false);
      if copied.Err? { return Err(copied.error); }
      var staging := copied.value;
      CopyIsValid(staging, root, false);
      forall id, copy | IsBackup(root, backupId, id, copy)
        ensures staging == root
      {
        CopyOfCopy(root, root, false, staging);
      }
      var checked := Check(backupId, staging);
      if checked.Err? { return Err(checked.error); }
      if !sound(staging) { return Err(CorruptSource); }
      var id, staged := checked.value.0.collectionId, checked.value.1;
      SubTreeIsValid(staging, ["collections", id]);
      var published := Publish(id, staged);
      if published.Err? { return Err(published.error); }
      r := Ok(id);
    }

    lemma ItsCopyIsItself(root: Node, backupId: string, id: string, copy: Node)
      requires IsBackup(root, backupId, id, copy)
      ensures root.Dir? && IsCopy(root, root, false) && !HasLink(root, false)
    {
      var files :| IsInventory(files, Staged(id, copy), digest)
                   && root == WithManifest(id, copy,
                                                  encode(Manifest(BACKUP_MANIFEST_VERSION, backupId, id, files)));
      BackupIsItsCopy(id, copy, encode(Manifest(BACKUP_MANIFEST_VERSION, backupId, id, files)));
    }
  }

  lemma {:induction false} SubTreeIsValid(n: Node, path: seq<string>)
    requires ValidTree(n) && SubTree(n, path).Some?
    ensures ValidTree(SubTree(n, path).value)
    decreases path
  {
    if path != [] { SubTreeIsValid(n.entries[path[0]], path[1..]); }
  }
}
