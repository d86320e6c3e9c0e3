/** Collection names per project and the identities they stand for
    (crates/ketebe-server/src/data_plane_catalog.rs). */
module Namespaces {
  import opened Wrappers

  // Names and identities of the collections of each project.
  type Projects = map<string, map<string, string>>

  datatype NamespaceError = NameAlreadyExists | LegacyBindingConflict | EntropyUnavailable | CorruptId | Io

  const DEFAULT_PROJECT := "default"

  function Resolve(s: Projects, project: string, name: string): Option<string> {
    if project in s && name in s[project] then Some(s[project][name]) else None
  }

  // `entry(project).or_default()`: looking a project up leaves an entry behind.
  function WithEntry(s: Projects, project: string): Projects {
    if project in s then s else s[project := map[]]
  }

  function Bound(s: Projects, project: string, name: string, id: string): Projects {
    var t := WithEntry(s, project);
    t[project := t[project][name := id]]
  }

  function Unbound(s: Projects, project: string, name: string): Projects {
    if project !in s then s
    else
      var rest := s[project] - {name};
      if rest == map[] then s - {project} else s[project := rest]
  }

  // Creating a name and removing it restores the table exactly if the project had no empty entry.
  lemma RemoveUndoesCreateIff(s: Projects, project: string, name: string, id: string)
    requires Resolve(s, project, name).None?
    ensures Unbound(Bound(s, project, name, id), project, name) == s <==> !(project in s && s[project] == map[])
    ensures forall p, n :: Resolve(Unbound(Bound(s, project, name, id), project, name), p, n) == Resolve(s, p, n)
  {
    var t := Bound(s, project, name, id);
    assert t[project] - {name} == if project in s then s[project] else map[];
  }

  // Binding and unbinding change what one name of one project stands for. No project keeps its entry
  // once it has lost its last name.
  lemma BindingMeans(s: Projects, project: string, name: string, id: string)
    ensures forall p, n ::
              Resolve(Bound(s, project, name, id), p, n) == if p == project && n == name then Some(id)
                                                            else Resolve(s, p, n)
    ensures Bound(s, project, name, id).Keys == s.Keys + {project}
    ensures forall p, n :: Resolve(Unbound(s, project, name), p, n) == if p == project && n == name then None
                                                                       else Resolve(s, p, n)
    ensures Unbound(s, project, name).Keys ==
            if project in s && s[project].Keys <= {name} then s.Keys - {project} else s.Keys
    ensures forall p, n, i :: Resolve(s, p, n) == Some(i) <==> p in s && (n, i) in s[p].Items
    ensures WithEntry(s, project) == map p | p in s.Keys + {project} :: if p in s then s[p] else map[]
  {
    if project in s {
      assert s[project] - {name} == map[] <==> (s[project] - {name}).Keys == {};
    }
  }

  // The projects in which an identity is bound.
  function Binders(s: Projects, id: string): set<string> {
    set project | project in s && id in s[project].Values
  }

  // Every identity belongs to at most one name of one project.
  ghost predicate Unique(s: Projects) {
    forall p, m, q, n ::
      p in s && q in s && m in s[p] && n in s[q] && s[p][m] == s[q][n] ==> p == q && m == n
  }

  lemma ValueBinds(s: Projects, p: string, m: string)
    requires p in s && m in s[p]
    ensures p in Binders(s, s[p][m])
  {
    assert s[p][m] in s[p].Values;
  }

  lemma BoundElsewhere(s: Projects, project: string, name: string, id: string, p: string)
    requires Resolve(s, project, name).None? && p in Binders(s, id)
    ensures !Unique(Bound(s, project, name, id))
  {
    var t := Bound(s, project, name, id);
    var n :| n in s[p] && s[p][n] == id;
    assert p in t && n in t[p] && t[p][n] == id;
    assert t[project][name] == id && (p != project || n != name);
  }

  lemma BoundNowhere(s: Projects, project: string, name: string, id: string)
    requires Unique(s) && Resolve(s, project, name).None? && Binders(s, id) == {}
    ensures Unique(Bound(s, project, name, id))
  {
    var t := Bound(s, project, name, id);
    forall p, m | p in t && m in t[p]
      ensures (p == project && m == name && t[p][m] == id) || (p in s && m in s[p] && t[p][m] == s[p][m] != id)
    {
      if p in s && m in s[p] {
        ValueBinds(s, p, m);
      }
    }
  }

  // A new binding keeps identities apart exactly if its identity is not in use.
  lemma BindingKeepsUniqueIff(s: Projects, project: string, name: string, id: string)
    requires Unique(s) && Resolve(s, project, name).None?
    ensures Unique(Bound(s, project, name, id)) <==> Binders(s, id) == {}
  {
    if p :| p in Binders(s, id) {
      BoundElsewhere(s, project, name, id, p);
    } else {
      BoundNowhere(s, project, name, id);
    }
  }

  // ---------------------------------------------------------------- the catalog

  class CollectionNamespaceCatalog {
    // Whether the n-th write of the catalog file succeeds, and how many there have been.
    const writes: nat -> bool
    var attempts: nat

    var projects: Projects
    // The contents of the catalog file.
    var saved: Projects

    constructor (writes: nat -> bool, saved: Projects)
      ensures projects == saved && this.saved == saved && this.writes == writes
    {
      this.writes, this.attempts, this.projects, this.saved := writes, 0, saved, saved;
    }

    method Persist() returns (ok: bool)
      modifies this`saved, this`attempts
      ensures ok == writes(old(attempts)) && attempts == old(attempts) + 1
      ensures saved == if ok then projects else old(saved)
    {
      ok := writes(attempts);
      attempts := attempts + 1;
      if ok { saved := projects; }
    }

    // `entropy` is the identity drawn for the collection, if one can be drawn.
    method Create(project: string, name: string, entropy: Option<string>) returns (r: Result<string, NamespaceError>)
      modifies this`projects, this`saved, this`attempts
      ensures r == Err(NameAlreadyExists) <==> Resolve(old(projects), project, name).Some?
      ensures r == Err(EntropyUnavailable) <==> Resolve(old(projects), project, name).None? && entropy.None?
      ensures match r
              case Ok(id) => && Some(id) == entropy && writes(old(attempts))
                             && projects == saved == Bound(old(projects), project, name, id)
              case Err(NameAlreadyExists) => projects == old(projects) && saved == old(saved)
              case Err(EntropyUnavailable) => projects == WithEntry(old(projects), project) && saved == old(saved)
              case Err(e) => e == Io && !writes(old(attempts)) && entropy.Some? && saved == old(saved)
                             && projects == Bound(old(projects), project, name, entropy.value)
      ensures attempts == old(attempts) + if r.Ok? || r == Err(Io) then 1 else 0
    {
      projects := WithEntry(projects, project);
      if name in projects[project] { return Err(NameAlreadyExists); }
      if entropy.None? { return Err(EntropyUnavailable); }
      projects := projects[project := projects[project][name := entropy.value]];
      var ok := Persist();
      r := if ok then Ok(entropy.value) else Err(Io);
    }

    method Remove(project: string, name: string, expected: string) returns (r: Result<bool, NamespaceError>)
      modifies this`projects, this`saved, this`attempts
      ensures Resolve(old(projects), project, name) == Some(expected) ==>
                && projects == Unbound(old(projects), project, name)
                && r == (if writes(old(attempts)) then Ok(true) else Err(Io))
                && saved == if r.Ok? then projects else old(saved)
      ensures Resolve(old(projects), project, name) != Some(expected) ==>
                r == Ok(false) && projects == old(projects) && saved == old(saved)
    {
      if project !in projects { return Ok(false); }
      if name !in projects[project] || projects[project][name] != expected { return Ok(false); }
      projects := projects[project := projects[project] - {name}];
      if projects[project] == map[] {
        projects := projects - {project};
      }
      var ok := Persist();
      r := if ok then Ok(true) else Err(Io);
    }

    // The project that an identity is bound in; an error if there are several.
    method FindScopeByCollectionId(id: string) returns (r: Result<Option<string>, NamespaceError>)
      ensures match r
              case Ok(None) => Binders(projects, id) == {}
              case Ok(Some(project)) => Binders(projects, id) == {project}
              case Err(e) => e == CorruptId && |Binders(projects, id)| > 1 && !Unique(projects)
    {
      var found: Option<string> := None;
      var todo := projects.Keys;
      ghost var done: set<string> := {};
      while todo != {}
        invariant todo + done == projects.Keys && todo !! done
        invariant match found
                  case None => Binders(projects, id) !! done
                  case Some(p) => Binders(projects, id) * done == {p}
        decreases todo
      {
        var project :| project in todo;
        todo, done := todo - {project}, done + {project};
        if id in projects[project].Values {
          if found.Some? {
            TwoBinders(projects, id, project, found.value);
            return Err(CorruptId);
          }
          found := Some(project);
        }
      }
      assert Binders(projects, id) <= done;
      assert Binders(projects, id) * done == Binders(projects, id);
      r := Ok(found);
    }

    method BindLegacyDefault(id: string) returns (r: Result<string, NamespaceError>)
      modifies this`projects, this`saved, this`attempts
      ensures r == Err(LegacyBindingConflict) <==> Resolve(old(projects), "default", id) !in {None, Some(id)}
      ensures projects == if Resolve(old(projects), "default", id).None?
                          then Bound(old(projects), "default", id, id) else old(projects)
      ensures r.Ok? ==> r.value == "default" && Resolve(projects, "default", id) == Some(id)
      ensures r == Err(Io) <==> Resolve(old(projects), "default", id).None? && !writes(old(attempts))
      ensures saved == if Resolve(old(projects), "default", id).None? && r.Ok? then projects else old(saved)
    {
      projects := WithEntry(projects, DEFAULT_PROJECT);
      if id in projects[DEFAULT_PROJECT] {
        return if projects[DEFAULT_PROJECT][id] != id then Err(LegacyBindingConflict) else Ok(DEFAULT_PROJECT);
      }
      projects := projects[DEFAULT_PROJECT := projects[DEFAULT_PROJECT][id := id]];
      var ok := Persist();
      r := if ok then Ok(DEFAULT_PROJECT) else Err(Io);
    }
  }

  lemma TwoBinders(s: Projects, id: string, p: string, q: string)
    requires p != q && p in Binders(s, id) && q in Binders(s, id)
    ensures |Binders(s, id)| > 1 && !Unique(s)
  {
    assert Binders(s, id) == {p} + (Binders(s, id) - {p});
    assert |Binders(s, id) - {p}| > 0;
    var m :| m in s[p] && s[p][m] == id;
    var n :| n in s[q] && s[q][n] == id;
  }
}
