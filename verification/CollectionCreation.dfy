/** Creating a collection for a principal: a name, a claim and the collection itself, of which the
    first two are taken back when something fails (crates/ketebe-server/src/http.rs,
    crates/ketebe-server/src/data_plane_request.rs). */
module CollectionCreation {
  import opened Wrappers
  import opened Text
  import opened Authorization
  import opened Namespaces

  datatype CreateError =
    | NoProject
    | InvalidName
    | Namespace(namespace: NamespaceError)
    | Unauthorized(authorization: AuthorizationError)
    | WriteFailed

  lemma IdentifierIsProject(s: string)
    requires ValidIdentifier(s)
    ensures ValidProject(s)
  {
    assert !IsIdentifierChar(SEPARATOR);
  }

  // `remove_scope`; its failure is ignored by the caller.
  method RemoveScope(catalog: CollectionNamespaceCatalog, project: string, name: string, id: string)
    requires Resolve(catalog.projects, project, name) == Some(id)
    modifies catalog`projects, catalog`saved, catalog`attempts
    ensures catalog.projects == Unbound(old(catalog.projects), project, name)
    ensures catalog.saved == if catalog.writes(old(catalog.attempts)) then catalog.projects else old(catalog.saved)
  {
    var _ := catalog.Remove(project, name, id);
  }

  ghost predicate EveryWriteSucceeds(writes: nat -> bool) {
    forall n :: writes(n)
  }

  predicate HasEmptyEntry(projects: Projects, project: string) {
    project in projects && projects[project] == map[]
  }

  // What a caller may know before it asks for a collection: who asks, the name, the names and policies
  // there are, whether an identity can be drawn, and whether the next write of either file succeeds.
  datatype Request = Request(project: Option<string>, name: string, projects: Projects, policies: Policies,
                             entropy: Option<string>, required: bool, mayCreate: bool, catalogWrites: bool,
                             policyWrites: bool, written: bool)
  {
    predicate Refused() {
      !ValidIdentifier(name) || project.None? || !ValidIdentifier(project.value)
    }

    predicate Taken() {
      project.Some? && Resolve(projects, project.value, name).Some?
    }

    // The claim is a new one, which has to be saved.
    predicate Claims() {
      required && mayCreate && project.Some? && Key(project.value, name) !in policies
    }

    // The name is bound, in memory and on file.
    predicate Binds() {
      !Refused() && !Taken() && entropy.Some? && catalogWrites
    }

    predicate Succeeds() {
      && Binds() && written
      && (required ==> mayCreate) && (Claims() ==> policyWrites)
    }

    // An attempt that does not succeed leaves names and policies as they were.
    predicate LeavesNoTrace() {
      || Refused() || Taken()
      || (if entropy.None? then project.value in projects
          else catalogWrites && (Claims() ==> policyWrites) && !HasEmptyEntry(projects, project.value))
    }
  }

  ghost function AsRequest(auth: AuthorizationService, catalog: CollectionNamespaceCatalog, principal: Principal,
                           name: string, entropy: Option<string>, written: bool): Request
    reads auth, catalog
  {
    Request(principal.project, name, catalog.projects, auth.collections, entropy, auth.required,
            auth.MayCreate(principal), catalog.writes(catalog.attempts), auth.writes(auth.attempts), written)
  }

  // `entropy` is the identity drawn for the collection, `written` whether its files can be created.
  method CreateCollection(auth: AuthorizationService, catalog: CollectionNamespaceCatalog, principal: Principal,
                          name: string, entropy: Option<string>, written: bool)
    returns (r: Result<string, CreateError>)
    requires auth.Valid()
    modifies auth`collections, auth`saved, auth`attempts, catalog`projects, catalog`saved, catalog`attempts
    ensures auth.Valid()
    ensures r.Ok? <==> old(AsRequest(auth, catalog, principal, name, entropy, written)).Succeeds()
    ensures r == Err(InvalidName) <==> !ValidIdentifier(name)
    ensures r == Err(NoProject) <==>
              ValidIdentifier(name) && (principal.project.None? || !ValidIdentifier(principal.project.value))
    ensures r.Err? && r.error !in {InvalidName, NoProject} ==>
              && (r.error == Namespace(NameAlreadyExists) <==>
                    Resolve(old(catalog.projects), principal.project.value, name).Some?)
              && (r.error == Namespace(EntropyUnavailable) <==>
                    Resolve(old(catalog.projects), principal.project.value, name).None? && entropy.None?)
    ensures r.Ok? ==> r.value == name && entropy.Some? && written && (auth.required ==> auth.MayCreate(principal))
    ensures r.Ok? ==>
              && catalog.projects == Bound(old(catalog.projects), principal.project.value, name, entropy.value)
              && auth.collections == (if auth.required then
                   Apply(old(auth.collections), Claim(principal.project.value, name)) else old(auth.collections))
              && catalog.saved == catalog.projects
    ensures r.Err? ==>
              ((catalog.projects == old(catalog.projects) && auth.collections == old(auth.collections)) <==>
               old(AsRequest(auth, catalog, principal, name, entropy, written)).LeavesNoTrace())
    // The name is on file if its removal cannot be written.
    ensures r.Err? ==>
              catalog.saved == if !old(AsRequest(auth, catalog, principal, name, entropy, written)).Binds()
                               then old(catalog.saved)
                               else if catalog.writes(old(catalog.attempts) + 1) then catalog.projects
                               else Bound(old(catalog.projects), principal.project.value, name, entropy.value)
    // If files can be written, no name and no policy is different afterwards.
    ensures r.Err? && EveryWriteSucceeds(auth.writes) && EveryWriteSucceeds(catalog.writes) ==>
              && auth.collections == old(auth.collections)
              && forall p, n :: Resolve(catalog.projects, p, n) == Resolve(old(catalog.projects), p, n)
    ensures r.Err? && EveryWriteSucceeds(auth.writes) && old(auth.saved == auth.collections)
            ==> auth.saved == auth.collections
  {
    if !ValidIdentifier(name) { return Err(InvalidName); }
    if principal.project.None? || !ValidIdentifier(principal.project.value) { return Err(NoProject); }
    var project := principal.project.value;
    IdentifierIsProject(project);
    ghost var before := catalog.projects;
    var created := catalog.Create(project, name, entropy);
    if created.Err? {
      return Err(Namespace(created.error));
    }
    RemoveUndoesCreateIff(before, project, name, created.value);
    r := ClaimAndWrite(auth, catalog, principal, project, name, created.value, written);
  }

  // What follows once the name is bound: the claim and the collection itself, or the way back.
  method ClaimAndWrite(auth: AuthorizationService, catalog: CollectionNamespaceCatalog, principal: Principal,
                       project: string, name: string, id: string, written: bool)
    returns (r: Result<string, CreateError>)
    requires auth.Valid() && principal.project == Some(project) && ValidProject(project)
    requires Resolve(catalog.projects, project, name) == Some(id)
    modifies auth`collections, auth`saved, auth`attempts, catalog`projects, catalog`saved, catalog`attempts
    ensures auth.Valid()
    ensures var claims := auth.required && auth.MayCreate(principal) && Key(project, name) !in old(auth.collections);
            var claimed := claims ==> auth.writes(old(auth.attempts));
            && (r.Ok? <==> written && (auth.required ==> auth.MayCreate(principal)) && claimed)
            && (r.Err? ==> (auth.collections == old(auth.collections) <==> claimed))
    ensures r.Ok? ==>
              && r.value == name && catalog.projects == old(catalog.projects) && catalog.saved == old(catalog.saved)
              && auth.collections == (if auth.required then
                   Apply(old(auth.collections), Claim(project, name)) else old(auth.collections))
    ensures r.Err? ==>
              && r.error in {Unauthorized(MissingProject), Unauthorized(Undiscoverable),
                             Unauthorized(AuthorizationError.Io), WriteFailed}
              && catalog.projects == Unbound(old(catalog.projects), project, name)
              && catalog.saved == if catalog.writes(old(catalog.attempts)) then catalog.projects else old(catalog.saved)
    ensures r.Err? && EveryWriteSucceeds(auth.writes) && old(auth.saved == auth.collections)
            ==> auth.saved == auth.collections
  {
    var claim := auth.ClaimCollection(principal, name);
    if claim.Err? {
      RemoveScope(catalog, project, name, id);
      return Err(Unauthorized(claim.error));
    }
    if !written {
      if claim.value == Inserted {
        ReleaseUndoesClaim(old(auth.collections), project, name);
      }
      var _ := auth.ReleaseCollectionClaimForPrincipal(principal, name, claim.value);
      RemoveScope(catalog, project, name, id);
      return Err(WriteFailed);
    }
    r := Ok(name);
  }
}
